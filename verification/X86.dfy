/** The part of the 32-bit x86 instruction set that generated programs use: instruction encoding with ModR/M
    bytes (Intel 64 and IA-32 Architectures SDM, volume 2A, section 2.1.5), a decoder over raw bytes, and a
    step function.

    The program bytes are fetched from `World.code`, placed at the absolute address `World.base`. Data memory
    is a map of aligned words; an unaligned access, an undecodable instruction, a call to anything but the
    print routine and a use of undefined flags are all `Stuck`. */
module X86 {
  import opened Words

  type Reg = r: nat | r < 8
  type Regs = r: seq<Int32> | |r| == 8 witness [0, 0, 0, 0, 0, 0, 0, 0]

  const EAX: Reg := 0
  const ECX: Reg := 1
  const EDX: Reg := 2
  const EBX: Reg := 3
  const ESP: Reg := 4
  const EBP: Reg := 5
  const ESI: Reg := 6
  const EDI: Reg := 7

  /** An r/m operand: a register (mod = 3) or [base + disp8] (mod = 1, no SIB byte). */
  datatype Operand = Direct(reg: Reg) | Based(base: Reg, disp: int)

  datatype Instr =
    | Push(reg: Reg)
    | Pop(reg: Reg)
    | MovImm(reg: Reg, imm: Int32)
    | Mov(rm: Operand, reg: Reg)
    | Load(reg: Reg, rm: Operand)
    | MovRmImm(rm: Operand, imm: Int32)
    | Add(rm: Operand, reg: Reg)
    | Sub(rm: Operand, reg: Reg)
    | Cmp(rm: Operand, reg: Reg)
    | Test(rm: Operand, reg: Reg)
    | Imul(reg: Reg, rm: Operand)
    | Cdq
    | Idiv(rm: Operand)
    | Neg(rm: Operand)
    | Setcc(cc: nat, rm: Operand)
    | Movzx(reg: Reg, rm: Operand)
    | Call(rm: Operand)
    | AddImm8(rm: Operand, imm8: int)
    | SubImm32(rm: Operand, imm: Int32)
    | Jz(rel: Int32)
    | Jmp(rel: Int32)
    | Ret

  // ---- encoding ----

  ghost predicate ValidOperand(o: Operand) {
    o.Based? ==> o.base != ESP && -128 <= o.disp < 128
  }

  ghost predicate ValidInstr(i: Instr) {
    match i
    case Mov(rm, _) => ValidOperand(rm)
    case Load(_, rm) => ValidOperand(rm)
    case MovRmImm(rm, _) => ValidOperand(rm)
    case Add(rm, _) => ValidOperand(rm)
    case Sub(rm, _) => ValidOperand(rm)
    case Cmp(rm, _) => ValidOperand(rm)
    case Test(rm, _) => ValidOperand(rm)
    case Imul(_, rm) => ValidOperand(rm)
    case Idiv(rm) => ValidOperand(rm)
    case Neg(rm) => ValidOperand(rm)
    case Setcc(cc, rm) => cc < 16 && rm.Direct?
    case Movzx(_, rm) => rm.Direct?
    case Call(rm) => ValidOperand(rm)
    case AddImm8(rm, imm) => ValidOperand(rm) && -128 <= imm < 128
    case SubImm32(rm, _) => ValidOperand(rm)
    case _ => true
  }

  /** The ModR/M byte with its displacement. */
  ghost function ModRM(reg: Reg, o: Operand): seq<Byte>
    requires ValidOperand(o)
  {
    match o
    case Direct(r) => [0xC0 + 8 * reg + r]
    case Based(b, d) => [0x40 + 8 * reg + b, Byte8(d)]
  }

  ghost function Encode(i: Instr): (s: seq<Byte>)
    requires ValidInstr(i)
    ensures 0 < |s|
  {
    match i
    case Push(r) => [0x50 + r]
    case Pop(r) => [0x58 + r]
    case MovImm(r, imm) => [0xB8 + r] + LittleEndian(imm)
    case Mov(rm, r) => [0x89] + ModRM(r, rm)
    case Load(r, rm) => [0x8B] + ModRM(r, rm)
    case MovRmImm(rm, imm) => [0xC7] + ModRM(0, rm) + LittleEndian(imm)
    case Add(rm, r) => [0x01] + ModRM(r, rm)
    case Sub(rm, r) => [0x29] + ModRM(r, rm)
    case Cmp(rm, r) => [0x39] + ModRM(r, rm)
    case Test(rm, r) => [0x85] + ModRM(r, rm)
    case Imul(r, rm) => [0x0F, 0xAF] + ModRM(r, rm)
    case Cdq => [0x99]
    case Idiv(rm) => [0xF7] + ModRM(7, rm)
    case Neg(rm) => [0xF7] + ModRM(3, rm)
    case Setcc(cc, rm) => [0x0F, 0x90 + cc] + ModRM(0, rm)
    case Movzx(r, rm) => [0x0F, 0xB6] + ModRM(r, rm)
    case Call(rm) => [0xFF] + ModRM(2, rm)
    case AddImm8(rm, imm) => [0x83] + ModRM(0, rm) + [Byte8(imm)]
    case SubImm32(rm, imm) => [0x81] + ModRM(5, rm) + LittleEndian(imm)
    case Jz(rel) => [0x0F, 0x84] + LittleEndian(rel)
    case Jmp(rel) => [0xE9] + LittleEndian(rel)
    case Ret => [0xC3]
  }

  // ---- decoding ----

  datatype Decoded = Invalid | Decoded(instr: Instr, next: nat)
  datatype DecodedRM = InvalidRM | DecodedRM(reg: Reg, rm: Operand, next: nat)

  ghost function DecodeModRM(c: seq<Byte>, p: nat): DecodedRM {
    if p >= |c| then InvalidRM else
    var mode, reg, rm := c[p] / 64, c[p] / 8 % 8, c[p] % 8;
    if mode == 3 then DecodedRM(reg, Direct(rm), p + 1)
    else if mode == 1 && rm != ESP && p + 1 < |c| then DecodedRM(reg, Based(rm, SignExtend8(c[p + 1])), p + 2)
    else InvalidRM
  }

  ghost function Imm32(c: seq<Byte>, p: nat): Int32
    requires p + 4 <= |c|
  {
    FromLittleEndian(c[p], c[p + 1], c[p + 2], c[p + 3])
  }

  /** The instruction that starts at byte `p`. */
  ghost function Decode(c: seq<Byte>, p: nat): Decoded {
    if p >= |c| then Invalid else
    var op := c[p];
    if 0x50 <= op < 0x58 then Decoded(Push(op - 0x50), p + 1)
    else if 0x58 <= op < 0x60 then Decoded(Pop(op - 0x58), p + 1)
    else if 0xB8 <= op < 0xC0 && p + 5 <= |c| then Decoded(MovImm(op - 0xB8, Imm32(c, p + 1)), p + 5)
    else if op == 0x99 then Decoded(Cdq, p + 1)
    else if op == 0xC3 then Decoded(Ret, p + 1)
    else if op == 0xE9 && p + 5 <= |c| then Decoded(Jmp(Imm32(c, p + 1)), p + 5)
    else if op == 0x0F && p + 1 < |c| then DecodeTwoByte(c, p)
    else
      var m := DecodeModRM(c, p + 1);
      if m.InvalidRM? then Invalid else DecodeOneByte(c, op, m)
  }

  ghost function DecodeTwoByte(c: seq<Byte>, p: nat): Decoded
    requires p + 1 < |c|
  {
    var op := c[p + 1];
    if op == 0x84 then (if p + 6 <= |c| then Decoded(Jz(Imm32(c, p + 2)), p + 6) else Invalid) else
    var m := DecodeModRM(c, p + 2);
    if m.InvalidRM? then Invalid
    else if op == 0xAF then Decoded(Imul(m.reg, m.rm), m.next)
    else if op == 0xB6 && m.rm.Direct? then Decoded(Movzx(m.reg, m.rm), m.next)
    else if 0x90 <= op < 0xA0 && m.rm.Direct? then Decoded(Setcc(op - 0x90, m.rm), m.next)
    else Invalid
  }

  ghost function DecodeOneByte(c: seq<Byte>, op: Byte, m: DecodedRM): Decoded
    requires m.DecodedRM?
  {
    if op == 0x01 then Decoded(Add(m.rm, m.reg), m.next)
    else if op == 0x29 then Decoded(Sub(m.rm, m.reg), m.next)
    else if op == 0x39 then Decoded(Cmp(m.rm, m.reg), m.next)
    else if op == 0x85 then Decoded(Test(m.rm, m.reg), m.next)
    else if op == 0x89 then Decoded(Mov(m.rm, m.reg), m.next)
    else if op == 0x8B then Decoded(Load(m.reg, m.rm), m.next)
    else if op == 0xC7 && m.reg == 0 && m.next + 4 <= |c| then Decoded(MovRmImm(m.rm, Imm32(c, m.next)), m.next + 4)
    else if op == 0xF7 && m.reg == 3 then Decoded(Neg(m.rm), m.next)
    else if op == 0xF7 && m.reg == 7 then Decoded(Idiv(m.rm), m.next)
    else if op == 0xFF && m.reg == 2 then Decoded(Call(m.rm), m.next)
    else if op == 0x83 && m.reg == 0 && m.next < |c| then Decoded(AddImm8(m.rm, SignExtend8(c[m.next])), m.next + 1)
    else if op == 0x81 && m.reg == 5 && m.next + 4 <= |c| then Decoded(SubImm32(m.rm, Imm32(c, m.next)), m.next + 4)
    else Invalid
  }

  /** The bytes `bs` stand at position `p` of `c`. */
  ghost predicate BytesAt(c: seq<Byte>, p: nat, bs: seq<Byte>) {
    p + |bs| <= |c| && c[p..p + |bs|] == bs
  }

  /** Decoding undoes encoding, wherever the instruction stands. */
  lemma DecodeEncode(c: seq<Byte>, p: nat, i: Instr)
    requires ValidInstr(i) && BytesAt(c, p, Encode(i))
    ensures Decode(c, p) == Decoded(i, p + |Encode(i)|)
  {
    if i.MovRmImm? || i.SubImm32? || i.AddImm8? {
      DecodeEncodeImmediate(c, p, i);
    } else if i.Imul? || i.Setcc? || i.Movzx? || i.Jz? {
      DecodeEncodeTwoByte(c, p, i);
    } else if i.Push? || i.Pop? || i.MovImm? || i.Cdq? || i.Jmp? || i.Ret? {
      DecodeEncodePlain(c, p, i);
    } else {
      DecodeEncodeModRM(c, p, i);
    }
  }

  lemma DecodeEncodePlain(c: seq<Byte>, p: nat, i: Instr)
    requires ValidInstr(i) && BytesAt(c, p, Encode(i))
    requires i.Push? || i.Pop? || i.MovImm? || i.Cdq? || i.Jmp? || i.Ret?
    ensures Decode(c, p) == Decoded(i, p + |Encode(i)|)
  {
    var e := Encode(i);
    assert c[p] == c[p..p + |e|][0];
    match i
    case MovImm(_, imm) => ImmediateAt(c, p, e, 1, imm);
    case Jmp(rel) => ImmediateAt(c, p, e, 1, rel);
    case _ =>
  }

  lemma DecodeEncodeModRM(c: seq<Byte>, p: nat, i: Instr)
    requires ValidInstr(i) && BytesAt(c, p, Encode(i))
    requires i.Mov? || i.Load? || i.Add? || i.Sub? || i.Cmp? || i.Test? || i.Idiv? || i.Neg? || i.Call?
    ensures Decode(c, p) == Decoded(i, p + |Encode(i)|)
  {
    hide Decode, DecodeModRM, ModRM, BytesAt;
    match i
    case Mov(rm, r) => DecodeOpcodeModRM(c, p, 0x89, r, rm);
    case Load(r, rm) => DecodeOpcodeModRM(c, p, 0x8B, r, rm);
    case Add(rm, r) => DecodeOpcodeModRM(c, p, 0x01, r, rm);
    case Sub(rm, r) => DecodeOpcodeModRM(c, p, 0x29, r, rm);
    case Cmp(rm, r) => DecodeOpcodeModRM(c, p, 0x39, r, rm);
    case Test(rm, r) => DecodeOpcodeModRM(c, p, 0x85, r, rm);
    case Idiv(rm) => DecodeOpcodeModRM(c, p, 0xF7, 7, rm);
    case Neg(rm) => DecodeOpcodeModRM(c, p, 0xF7, 3, rm);
    case Call(rm) => DecodeOpcodeModRM(c, p, 0xFF, 2, rm);
  }

  lemma DecodeOpcodeModRM(c: seq<Byte>, p: nat, op: Byte, reg: Reg, rm: Operand)
    requires ValidOperand(rm) && BytesAt(c, p, [op] + ModRM(reg, rm))
    requires !(0x50 <= op < 0x60 || 0xB8 <= op < 0xC0 || op == 0x99 || op == 0xC3 || op == 0xE9 || op == 0x0F)
    ensures Decode(c, p) == DecodeOneByte(c, op, DecodedRM(reg, rm, p + 1 + |ModRM(reg, rm)|))
  {
    var e := [op] + ModRM(reg, rm);
    assert c[p] == c[p..p + |e|][0];
    assert e[1..1 + |ModRM(reg, rm)|] == ModRM(reg, rm);
    DecodeRM(c, p, e, 1, reg, rm);
  }

  lemma DecodeEncodeTwoByte(c: seq<Byte>, p: nat, i: Instr)
    requires ValidInstr(i) && BytesAt(c, p, Encode(i))
    requires i.Imul? || i.Setcc? || i.Movzx? || i.Jz?
    ensures Decode(c, p) == Decoded(i, p + |Encode(i)|)
  {
    match i
    case Imul(r, rm) => EscapedModRM(c, p, 0xAF, r, rm);
    case Setcc(cc, rm) => EscapedModRM(c, p, 0x90 + cc, 0, rm);
    case Movzx(r, rm) => EscapedModRM(c, p, 0xB6, r, rm);
    case Jz(rel) =>
      var e := Encode(i);
      BytesStart(c, p, e);
      ImmediateAt(c, p, e, 2, rel);
  }

  lemma BytesStart(c: seq<Byte>, p: nat, e: seq<Byte>)
    requires BytesAt(c, p, e) && |e| >= 2
    ensures c[p] == e[0] && c[p + 1] == e[1]
  {
    var t := c[p..p + |e|];
    assert c[p] == t[0] && c[p + 1] == t[1];
  }

  lemma EscapedModRM(c: seq<Byte>, p: nat, op: Byte, reg: Reg, rm: Operand)
    requires ValidOperand(rm) && BytesAt(c, p, [0x0F, op] + ModRM(reg, rm))
    ensures p + 2 < |c| && c[p] == 0x0F && c[p + 1] == op
    ensures DecodeModRM(c, p + 2) == DecodedRM(reg, rm, p + 2 + |ModRM(reg, rm)|)
  {
    hide DecodeModRM;
    var e := [0x0F, op] + ModRM(reg, rm);
    BytesStart(c, p, e);
    assert e[2..2 + |ModRM(reg, rm)|] == ModRM(reg, rm);
    DecodeRM(c, p, e, 2, reg, rm);
  }

  lemma DecodeEncodeImmediate(c: seq<Byte>, p: nat, i: Instr)
    requires ValidInstr(i) && BytesAt(c, p, Encode(i))
    requires i.MovRmImm? || i.SubImm32? || i.AddImm8?
    ensures Decode(c, p) == Decoded(i, p + |Encode(i)|)
  {
    hide Decode, DecodeModRM, ModRM, LittleEndian, Imm32, BytesAt;
    match i
    case MovRmImm(rm, imm) => WithWord(c, p, 0xC7, 0, rm, imm);
    case SubImm32(rm, imm) => WithWord(c, p, 0x81, 5, rm, imm);
    case AddImm8(rm, imm) =>
      var tail := [Byte8(imm)];
      ThenImmediate(c, p, 0x83, 0, rm, tail);
      assert tail[0] == Byte8(imm);
  }

  lemma WithWord(c: seq<Byte>, p: nat, op: Byte, reg: Reg, rm: Operand, imm: Int32)
    requires ValidOperand(rm) && BytesAt(c, p, [op] + ModRM(reg, rm) + LittleEndian(imm)) && op in {0xC7, 0x81}
    ensures var m := DecodedRM(reg, rm, p + 1 + |ModRM(reg, rm)|);
      m.next + 4 <= |c| && Decode(c, p) == DecodeOneByte(c, op, m) && Imm32(c, m.next) == imm
  {
    hide Decode, DecodeOneByte, DecodeModRM, ModRM, LittleEndian, Imm32, BytesAt;
    ThenImmediate(c, p, op, reg, rm, LittleEndian(imm));
    WordRead(c, p + 1 + |ModRM(reg, rm)|, imm);
  }

  lemma WordRead(c: seq<Byte>, p: nat, imm: Int32)
    requires p + 4 <= |c| && forall k :: 0 <= k < 4 ==> c[p + k] == LittleEndian(imm)[k]
    ensures Imm32(c, p) == imm
  {
    hide LittleEndian, FromLittleEndian;
    WordBytes(imm);
    assert c[p + 0] == LittleEndian(imm)[0] && c[p + 1] == LittleEndian(imm)[1];
    assert c[p + 2] == LittleEndian(imm)[2] && c[p + 3] == LittleEndian(imm)[3];
  }

  /** An opcode and its operand, with the bytes `tail` behind them. */
  lemma ThenImmediate(c: seq<Byte>, p: nat, op: Byte, reg: Reg, rm: Operand, tail: seq<Byte>)
    requires ValidOperand(rm) && BytesAt(c, p, [op] + ModRM(reg, rm) + tail) && op in {0xC7, 0x81, 0x83}
    ensures var m := DecodedRM(reg, rm, p + 1 + |ModRM(reg, rm)|);
      && Decode(c, p) == DecodeOneByte(c, op, m)
      && m.next + |tail| <= |c| && forall k :: 0 <= k < |tail| ==> c[m.next + k] == tail[k]
  {
    hide DecodeOneByte, ModRM, DecodeTwoByte;
    var head := [op] + ModRM(reg, rm);
    var t := c[p..p + |head + tail|];
    assert c[p..p + |head|] == t[..|head|] == head;
    DecodeOpcodeModRM(c, p, op, reg, rm);
    forall k | 0 <= k < |tail|
      ensures c[p + |head| + k] == tail[k]
    {
      assert t[|head| + k] == tail[k];
    }
  }

  /** An immediate at offset `k` of the instruction bytes `e` standing at `p`. */
  lemma ImmediateAt(c: seq<Byte>, p: nat, e: seq<Byte>, k: nat, imm: Int32)
    requires BytesAt(c, p, e) && k + 4 <= |e| && e[k..k + 4] == LittleEndian(imm)
    ensures Imm32(c, p + k) == imm
  {
    var t := c[p..p + |e|];
    assert c[p + k] == t[k] == e[k..k + 4][0];
    assert c[p + k + 1] == t[k + 1] == e[k..k + 4][1];
    assert c[p + k + 2] == t[k + 2] == e[k..k + 4][2];
    assert c[p + k + 3] == t[k + 3] == e[k..k + 4][3];
    WordBytes(imm);
  }

  lemma DecodeRM(c: seq<Byte>, p: nat, e: seq<Byte>, k: nat, reg: Reg, o: Operand)
    requires ValidOperand(o) && BytesAt(c, p, e)
    requires k + |ModRM(reg, o)| <= |e| && e[k..k + |ModRM(reg, o)|] == ModRM(reg, o)
    ensures DecodeModRM(c, p + k) == DecodedRM(reg, o, p + k + |ModRM(reg, o)|)
  {
    var t, u := c[p..p + |e|], e[k..k + |ModRM(reg, o)|];
    assert c[p + k] == t[k] == u[0];
    match o
    case Direct(r) => Fields(3, reg, r);
    case Based(b, _) =>
      Fields(1, reg, b);
      assert c[p + k + 1] == t[k + 1] == u[1];
  }

  /** The three fields of a ModR/M byte. */
  lemma Fields(mode: nat, reg: Reg, rm: Reg)
    ensures var b: nat := 0x40 * mode + 8 * reg + rm; b / 64 == mode && b / 8 % 8 == reg && b % 8 == rm
  {
    var b: nat := 0x40 * mode + 8 * reg + rm;
    assert b == 8 * (8 * mode + reg) + rm;
    assert b / 8 == 8 * mode + reg;
  }

  // ---- execution ----

  /** The three status flags the programs test. Instructions whose flags nothing reads leave `Undefined`. */
  datatype Flags = Undefined | Flags(zf: bool, sf: bool, of: bool)

  type Memory = imap<int, Int32>

  /** `trace` is what the print routine has been called with so far. */
  datatype Machine =
    | Running(regs: Regs, eip: nat, flags: Flags, mem: Memory, trace: seq<Int32>)
    | DivideError(trace: seq<Int32>)
    | Stuck

  /** What one print call may leave in the caller-saved registers and in the stack below its caller. */
  datatype Clobber = Clobber(eax: Int32, ecx: Int32, edx: Int32, stack: int -> Int32)

  datatype World = World(code: seq<Byte>, base: nat, printAddr: Int32, clobber: nat -> Clobber)

  ghost function Read(m: Memory, a: int): Int32 { if a in m then m[a] else 0 }

  ghost function Address(regs: Regs, b: Reg, disp: int): nat {
    (Unsigned(regs[b]) + disp) % TWO32
  }

  ghost function Get(m: Machine, o: Operand): Option<Int32>
    requires m.Running?
  {
    match o
    case Direct(r) => Some(m.regs[r])
    case Based(b, d) =>
      var a := Address(m.regs, b, d);
      if a % 4 == 0 then Some(Read(m.mem, a)) else None
  }

  ghost function Put(m: Machine, o: Operand, v: Int32): Machine
    requires m.Running?
  {
    match o
    case Direct(r) => m.(regs := m.regs[r := v])
    case Based(b, d) =>
      var a := Address(m.regs, b, d);
      if a % 4 == 0 then m.(mem := m.mem[a := v]) else Stuck
  }

  ghost function PushWord(m: Machine, v: Int32): Machine
    requires m.Running?
  {
    var sp := Unsigned(m.regs[ESP]);
    if sp % 4 != 0 || sp < 4 then Stuck
    else m.(regs := m.regs[ESP := Pattern(sp - 4)], mem := m.mem[sp - 4 := v])
  }

  /** The word on top of the stack and the machine after taking it off. */
  ghost function PopWord(m: Machine): Option<(Int32, Machine)>
    requires m.Running?
  {
    var sp := Unsigned(m.regs[ESP]);
    if sp % 4 != 0 || sp + 4 >= TWO32 then None
    else Some((Read(m.mem, sp), m.(regs := m.regs[ESP := Pattern(sp + 4)])))
  }

  /** The flags after comparing `a` with `b`, that is, after `a - b`. */
  ghost function CompareFlags(a: Int32, b: Int32): Flags {
    var d := Wrap(a - b);
    Flags(d == 0, d < 0, d != a - b)
  }

  /** Condition codes 4, 5, C, D, E and F; the others are not used. */
  ghost function Condition(cc: nat, f: Flags): Option<bool> {
    if f.Undefined? then None
    else if cc == 0x4 then Some(f.zf)
    else if cc == 0x5 then Some(!f.zf)
    else if cc == 0xC then Some(f.sf != f.of)
    else if cc == 0xD then Some(f.sf == f.of)
    else if cc == 0xE then Some(f.zf || f.sf != f.of)
    else if cc == 0xF then Some(!f.zf && f.sf == f.of)
    else None
  }

  /** A cdecl call of the print routine, taken as one step: the argument is the word on top of the stack,
      and the routine owns that word and everything below it. */
  ghost function PrintCall(w: World, m: Machine): Machine
    requires m.Running?
  {
    var sp := Unsigned(m.regs[ESP]);
    if sp % 4 != 0 || sp < 4 then Stuck else
    var c := w.clobber(|m.trace|);
    m.(regs := m.regs[EAX := c.eax][ECX := c.ecx][EDX := c.edx],
       flags := Undefined,
       mem := imap a: int | true :: if a <= sp then c.stack(a) else Read(m.mem, a),
       trace := m.trace + [Read(m.mem, sp)])
  }

  ghost function Jump(m: Machine, rel: Int32): Machine
    requires m.Running?
  {
    m.(eip := (m.eip + rel) % TWO32)
  }

  ghost function Arith(m: Machine, rm: Operand, r: Reg, f: (int, int) -> int): Machine
    requires m.Running?
  {
    match Get(m, rm)
    case None => Stuck
    case Some(a) => Put(m.(flags := Undefined), rm, Wrap(f(a, m.regs[r])))
  }

  /** Executes `i`; `m.eip` is already the address of the next instruction. */
  ghost function Execute(w: World, m: Machine, i: Instr): Machine
    requires m.Running?
  {
    match i
    case Push(r) => PushWord(m, m.regs[r])
    case Pop(r) =>
      (match PopWord(m)
       case None => Stuck
       case Some(p) => p.1.(regs := p.1.regs[r := p.0]))
    case MovImm(r, imm) => m.(regs := m.regs[r := imm])
    case Mov(rm, r) => Put(m, rm, m.regs[r])
    case Load(r, rm) =>
      (match Get(m, rm)
       case None => Stuck
       case Some(v) => m.(regs := m.regs[r := v]))
    case MovRmImm(rm, imm) => Put(m, rm, imm)
    case Add(rm, r) => Arith(m, rm, r, (a, b) => a + b)
    case Sub(rm, r) => Arith(m, rm, r, (a, b) => a - b)
    case Cmp(rm, r) =>
      (match Get(m, rm)
       case None => Stuck
       case Some(a) => m.(flags := CompareFlags(a, m.regs[r])))
    case Test(rm, r) =>   // only for a register tested against itself, where the conjunction is the value
      if rm == Direct(r) then m.(flags := Flags(m.regs[r] == 0, m.regs[r] < 0, false)) else Stuck
    case Imul(r, rm) =>
      (match Get(m, rm)
       case None => Stuck
       case Some(b) => m.(flags := Undefined, regs := m.regs[r := Wrap(m.regs[r] * b)]))
    case Cdq => m.(regs := m.regs[EDX := if m.regs[EAX] < 0 then -1 else 0])
    case Idiv(rm) =>
      (match Get(m, rm)
       case None => Stuck
       case Some(b) =>
         var dividend := m.regs[EDX] * TWO32 + Unsigned(m.regs[EAX]);
         if b == 0 then DivideError(m.trace) else
         var q := Quotient(dividend, b);
         if q < -TWO31 || q >= TWO31 then DivideError(m.trace)
         else m.(flags := Undefined, regs := m.regs[EAX := q][EDX := Wrap(Remainder(dividend, b))]))
    case Neg(rm) =>
      (match Get(m, rm)
       case None => Stuck
       case Some(v) => Put(m.(flags := Undefined), rm, Wrap(0 - v)))
    case Setcc(cc, rm) =>
      (match Condition(cc, m.flags)
       case None => Stuck
       case Some(b) =>
         if rm.Direct? && rm.reg < 4   // al, cl, dl, bl
         then var v := m.regs[rm.reg]; m.(regs := m.regs[rm.reg := v - v % 256 + if b then 1 else 0])
         else Stuck)
    case Movzx(r, rm) =>
      if rm.Direct? && rm.reg < 4 then m.(regs := m.regs[r := m.regs[rm.reg] % 256]) else Stuck
    case Call(rm) => if Get(m, rm) == Some(w.printAddr) then PrintCall(w, m) else Stuck
    case AddImm8(rm, imm) =>
      (match Get(m, rm)
       case None => Stuck
       case Some(v) => Put(m.(flags := Undefined), rm, Wrap(v + imm)))
    case SubImm32(rm, imm) =>
      (match Get(m, rm)
       case None => Stuck
       case Some(v) => Put(m.(flags := Undefined), rm, Wrap(v - imm)))
    case Jz(rel) =>
      (match Condition(0x4, m.flags)
       case None => Stuck
       case Some(z) => if z then Jump(m, rel) else m)
    case Jmp(rel) => Jump(m, rel)
    case Ret =>
      (match PopWord(m)
       case None => Stuck
       case Some(p) => p.1.(eip := Unsigned(p.0)))
  }

  /** Control is inside the program. */
  ghost predicate Inside(w: World, m: Machine) {
    m.Running? && w.base <= m.eip < w.base + |w.code|
  }

  /** One instruction. Once control has left the program, or it has trapped, nothing more happens. */
  ghost function Step(w: World, m: Machine): Machine {
    if !Inside(w, m) then m else
    match Decode(w.code, m.eip - w.base)
    case Invalid => Stuck
    case Decoded(i, next) => Execute(w, m.(eip := w.base + next), i)
  }

  ghost function Run(w: World, m: Machine, k: nat): Machine
    decreases k
  {
    if k == 0 then m else Run(w, Step(w, m), k - 1)
  }

  lemma {:induction false} RunAdd(w: World, m: Machine, j: nat, k: nat)
    ensures Run(w, m, j + k) == Run(w, Run(w, m, j), k)
    decreases j
  {
    if j > 0 {
      RunAdd(w, Step(w, m), j - 1, k);
    }
  }

  /** A machine outside the program stays as it is. */
  lemma {:induction false} RunOutside(w: World, m: Machine, k: nat)
    requires !Inside(w, m)
    ensures Run(w, m, k) == m
  {
    if k > 0 {
      RunOutside(w, m, k - 1);
    }
  }
}
