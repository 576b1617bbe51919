/** What the code generator emits, as instruction lists, and the proof that it preserves meaning. */
module Codegen {
  import opened Words
  import opened Source
  import X = X86

  const CODE_SIZE := 32 * 1024

  // ---- instruction streams ----

  type Op = i: X.Instr | X.ValidInstr(i) witness X.Ret

  ghost function Assemble(ins: seq<Op>): seq<Byte> {
    if ins == [] then [] else X.Encode(ins[0]) + Assemble(ins[1..])
  }

  ghost function Size(ins: seq<Op>): nat {
    |Assemble(ins)|
  }

  lemma {:induction false} AssembleAppend(a: seq<Op>, b: seq<Op>)
    ensures Assemble(a + b) == Assemble(a) + Assemble(b)
  {
    hide X.Encode;
    if a == [] {
      assert a + b == b;
    } else {
      assert (a + b)[1..] == a[1..] + b;
      AssembleAppend(a[1..], b);
      BytesReassociate(X.Encode(a[0]), Assemble(a[1..]), Assemble(b));
    }
  }

  lemma BytesReassociate(x: seq<Byte>, y: seq<Byte>, z: seq<Byte>)
    ensures x + y + z == x + (y + z)
  {
  }

  /** The encoding of `ins` stands at position `p` of `c`. */
  ghost predicate Placed(c: seq<Byte>, p: nat, ins: seq<Op>)
  {
    X.BytesAt(c, p, Assemble(ins))
  }

  lemma PlacedAppend(c: seq<Byte>, p: nat, a: seq<Op>, b: seq<Op>)
    requires Placed(c, p, a + b)
    ensures Size(a + b) == Size(a) + Size(b)
    ensures Placed(c, p, a) && Placed(c, p + Size(a), b)
  {
    hide Assemble, X.BytesAt;
    AssembleAppend(a, b);
    BytesSplit(c, p, Assemble(a), Assemble(b));
  }

  lemma BytesSplit(c: seq<Byte>, p: nat, x: seq<Byte>, y: seq<Byte>)
    requires X.BytesAt(c, p, x + y)
    ensures X.BytesAt(c, p, x) && X.BytesAt(c, p + |x|, y)
  {
    var s := c[p..p + |x + y|];
    assert s == x + y;
    assert c[p..p + |x|] == s[..|x|];
    assert c[p + |x|..p + |x| + |y|] == s[|x|..];
  }

  // ---- the emitted code ----

  const EAX := X.Direct(X.EAX)
  const ECX := X.Direct(X.ECX)
  const ESP := X.Direct(X.ESP)
  const EBP := X.Direct(X.EBP)

  ghost function Local(off: nat): X.Operand {
    X.Based(X.EBP, SignExtend8((0 - off) % 256))   // the byte (unsigned char)(-off), as the processor reads it
  }

  ghost function Compare(cc: nat): seq<Op>
    requires cc < 16
  {
    [X.Cmp(EAX, X.ECX), X.Setcc(cc, EAX), X.Movzx(X.EAX, EAX)]
  }

  ghost function OpCode(op: BinOp): seq<Op> {
    match op
    case Add => [X.Add(EAX, X.ECX)]
    case Sub => [X.Sub(EAX, X.ECX)]
    case Mul => [X.Imul(X.EAX, ECX)]
    case Div => [X.Cdq, X.Idiv(ECX)]
    case Eq => Compare(0x4)
    case Ne => Compare(0x5)
    case Lt => Compare(0xC)
    case Gt => Compare(0xF)
    case Le => Compare(0xE)
    case Ge => Compare(0xD)
  }

  ghost function ExprCode(e: Expr): seq<Op> {
    match e
    case Num(v) => [X.MovImm(X.EAX, v)]
    case Var(off) => [X.Load(X.EAX, Local(off))]
    case Neg(e) => ExprCode(e) + [X.Neg(EAX)]
    case Bin(op, l, r) =>
      ExprCode(l) + ([X.Push(X.EAX)] + (ExprCode(r) + ([X.Mov(ECX, X.EAX), X.Pop(X.EAX)] + OpCode(op))))
  }

  ghost function Epilogue(): seq<Op> { [X.Mov(ESP, X.EBP), X.Pop(X.EBP), X.Ret] }

  ghost function StoreLocal(off: nat): seq<Op> { [X.Mov(Local(off), X.EAX)] }

  ghost function Test(rel: int): seq<Op> { [X.Test(EAX, X.EAX), X.Jz(Wrap(rel))] }

  ghost function Jump(rel: int): seq<Op> { [X.Jmp(Wrap(rel))] }

  ghost function CallPrint(printAddr: Int32): seq<Op> {
    [X.Push(X.EAX), X.MovImm(X.EAX, printAddr), X.Call(EAX), X.AddImm8(ESP, 4)]
  }

  const TEST_SIZE := 8
  const JUMP_SIZE := 5

  lemma FixedSizes(rel: int)
    ensures Size(Test(rel)) == TEST_SIZE
    ensures Size(Jump(rel)) == JUMP_SIZE
  {
    AssembleAppend([X.Test(EAX, X.EAX)], [X.Jz(Wrap(rel))]);
    assert Jump(rel)[1..] == [];
    assert Test(rel) == [X.Test(EAX, X.EAX)] + [X.Jz(Wrap(rel))];
  }

  ghost function StmtCode(s: Stmt, printAddr: Int32): seq<Op>
    decreases s, 1
  {
    match s
    case Block(ss) => StmtsCode(ss, printAddr)
    case Decl(off, init) =>
      if init.None? then [X.MovRmImm(Local(off), 0)] else
      ExprCode(init.value) + StoreLocal(off)
    case Assign(off, e) =>
      ExprCode(e) + StoreLocal(off)
    case If(c, t, els) =>
      var tc := StmtCode(t, printAddr);
      if els.None? then
        ExprCode(c) + (Test(Size(tc)) + tc)
      else
        var ec := StmtCode(els.value, printAddr);
        ExprCode(c) + (Test(Size(tc) + JUMP_SIZE) + (tc + (Jump(Size(ec)) + ec)))
    case While(c, b) =>
      var bc := StmtCode(b, printAddr);
      ExprCode(c) + (Test(Size(bc) + JUMP_SIZE) +
                     (bc + Jump(-(Size(ExprCode(c)) + TEST_SIZE + Size(bc) + JUMP_SIZE))))
    case Print(e) =>
      ExprCode(e) + CallPrint(printAddr)
    case Return(e) =>
      ExprCode(e) + Epilogue()
  }

  ghost function StmtsCode(ss: seq<Stmt>, printAddr: Int32): seq<Op>
    decreases ss, 0
  {
    if ss == [] then [] else StmtCode(ss[0], printAddr) + StmtsCode(ss[1..], printAddr)
  }

  ghost function Prologue(n: nat): seq<Op> {
    [X.Push(X.EBP), X.Mov(EBP, X.ESP)] + if n > 0 then [X.SubImm32(ESP, Wrap(4 * n))] else []
  }

  /** The code of `main`, with the return of 0 that ends it. */
  ghost function ProgramCode(body: Stmt, n: nat, printAddr: Int32): seq<Op> {
    Prologue(n) + (StmtCode(body, printAddr) + ([X.MovImm(X.EAX, 0)] + Epilogue()))
  }
}
