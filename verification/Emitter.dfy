/** The code generator at work: bytes appended one at a time to a fixed buffer, jump distances filled in
    afterwards, and one error latched when the buffer is full. */
module Emitter {
  import opened Words
  import opened Source
  import opened Codegen
  import X = X86

  datatype Error = Error(line: int, msg: string)

  const TOO_LONG := Error(-1, "codigo gerado excede o buffer")

  /** What the generator has produced: the latched error, and the bytes up to the write position. */
  datatype Output = Output(error: Option<Error>, bytes: seq<Byte>)

  /** `o'` is `o` after emitting `bs`: nothing happens once an error is latched, everything is appended if it
      fits, and otherwise the overflow is latched. */
  ghost predicate Grew(o: Output, o': Output, bs: seq<Byte>) {
    if o.error.Some? then o' == o
    else if |o.bytes| + |bs| <= CODE_SIZE then o' == Output(None, o.bytes + bs)
    else o'.error == Some(TOO_LONG)
  }

  lemma GrewTrans(o: Output, o1: Output, o2: Output, a: seq<Byte>, b: seq<Byte>)
    requires Grew(o, o1, a) && Grew(o1, o2, b)
    ensures Grew(o, o2, a + b)
  {
    assert o.bytes + a + b == o.bytes + (a + b);
  }

  /** `bytes` with the four bytes at `at` replaced by the distance from `at + 4` to `target`. */
  ghost function Patched(bytes: seq<Byte>, at: nat, target: int): seq<Byte>
    requires at + 4 <= |bytes|
  {
    bytes[..at] + LittleEndian(Wrap(target - (at + 4))) + bytes[at + 4..]
  }

  ghost function PatchedOutput(o: Output, at: nat, target: int): Output
    requires o.error.None? ==> at + 4 <= |o.bytes|
  {
    if o.error.Some? then o else o.(bytes := Patched(o.bytes, at, target))
  }

  const ZERO32: seq<Byte> := [0, 0, 0, 0]
  const TEST_JZ: seq<Byte> := [0x85, 0xC0, 0x0F, 0x84]

  class Emitter {
    const code: array<Byte>
    var pos: nat
    var error: Option<Error>
    var printFn: Int32

    ghost predicate Valid()
      reads this
    {
      code.Length == CODE_SIZE && pos <= CODE_SIZE
    }

    ghost function Out(): Output
      requires Valid()
      reads this, code
    {
      Output(error, code[..pos])
    }

    constructor ()
      ensures Valid() && fresh(code) && error.None? && pos == 0
    {
      code := new Byte[CODE_SIZE];
      pos, error, printFn := 0, None, 0;
    }

    /** The start of a compilation. */
    method Reset(print_fn: Int32)
      requires Valid()
      modifies this
      ensures Valid() && Out() == Output(None, []) && printFn == print_fn
    {
      pos, error, printFn := 0, None, print_fn;
    }

    method EmitByte(b: Byte)
      requires Valid()
      modifies this`pos, this`error, code
      ensures Valid() && Grew(old(Out()), Out(), [b])
    {
      if error.Some? {
        return;
      }
      if pos >= CODE_SIZE {
        error := Some(TOO_LONG);
        return;
      }
      code[pos] := b;
      pos := pos + 1;
    }

    method Emit2(b0: Byte, b1: Byte)
      requires Valid()
      modifies this`pos, this`error, code
      ensures Valid() && Grew(old(Out()), Out(), [b0, b1])
    {
      ghost var o := Out();
      EmitByte(b0);
      ghost var o1 := Out();
      EmitByte(b1);
      GrewTrans(o, o1, Out(), [b0], [b1]);
      assert [b0] + [b1] == [b0, b1];
    }

    method Emit3(b0: Byte, b1: Byte, b2: Byte)
      requires Valid()
      modifies this`pos, this`error, code
      ensures Valid() && Grew(old(Out()), Out(), [b0, b1, b2])
    {
      ghost var o := Out();
      Emit2(b0, b1);
      ghost var o1 := Out();
      EmitByte(b2);
      GrewTrans(o, o1, Out(), [b0, b1], [b2]);
      assert [b0, b1] + [b2] == [b0, b1, b2];
    }

    method EmitU32(v: Int32)
      requires Valid()
      modifies this`pos, this`error, code
      ensures Valid() && Grew(old(Out()), Out(), LittleEndian(v))
    {
      ghost var o := Out();
      var u := Unsigned(v);
      Emit2(u % 256, u / 256 % 256);
      ghost var o1 := Out();
      Emit2(u / 256 / 256 % 256, u / 256 / 256 / 256 % 256);
      GrewTrans(o, o1, Out(), LittleEndian(v)[..2], LittleEndian(v)[2..]);
      assert LittleEndian(v)[..2] == [u % 256, u / 256 % 256];
      assert LittleEndian(v)[2..] == [u / 256 / 256 % 256, u / 256 / 256 / 256 % 256];
      assert LittleEndian(v)[..2] + LittleEndian(v)[2..] == LittleEndian(v);
    }

    /** An opcode byte and its 32-bit immediate. */
    method EmitImm(b: Byte, v: Int32)
      requires Valid()
      modifies this`pos, this`error, code
      ensures Valid() && Grew(old(Out()), Out(), [b] + LittleEndian(v))
    {
      ghost var o := Out();
      EmitByte(b);
      ghost var o1 := Out();
      EmitU32(v);
      GrewTrans(o, o1, Out(), [b], LittleEndian(v));
    }

    method EmitPushEax()
      requires Valid()
      modifies this`pos, this`error, code
      ensures Valid() && Grew(old(Out()), Out(), Assemble([X.Push(X.EAX)]))
    {
      EmitByte(0x50);
      AssembleOne(X.Push(X.EAX));
    }

    method EmitMovEaxImm32(v: Int32)
      requires Valid()
      modifies this`pos, this`error, code
      ensures Valid() && Grew(old(Out()), Out(), Assemble([X.MovImm(X.EAX, v)]))
    {
      EmitImm(0xB8, v);
      AssembleOne(X.MovImm(X.EAX, v));
    }

    method EmitNegEax()
      requires Valid()
      modifies this`pos, this`error, code
      ensures Valid() && Grew(old(Out()), Out(), Assemble([X.Neg(EAX)]))
    {
      Emit2(0xF7, 0xD8);
      AssembleOne(X.Neg(EAX));
    }

    /** mov ecx,eax; pop eax */
    method EmitOperands()
      requires Valid()
      modifies this`pos, this`error, code
      ensures Valid() && Grew(old(Out()), Out(), Assemble([X.Mov(ECX, X.EAX), X.Pop(X.EAX)]))
    {
      Emit3(0x89, 0xC1, 0x58);
      AssembleTwo(X.Mov(ECX, X.EAX), X.Pop(X.EAX));
    }

    method EmitCompare(cc: Byte)
      requires Valid() && 0x90 <= cc < 0xA0
      modifies this`pos, this`error, code
      ensures Valid() && Grew(old(Out()), Out(), Assemble(Compare(cc - 0x90)))
    {
      ghost var o := Out();
      Emit2(0x39, 0xC8);
      ghost var o1 := Out();
      Emit3(0x0F, cc, 0xC0);
      ghost var o2 := Out();
      Emit3(0x0F, 0xB6, 0xC0);
      GrewTrans(o, o1, o2, [0x39, 0xC8], [0x0F, cc, 0xC0]);
      GrewTrans(o, o2, Out(), [0x39, 0xC8] + [0x0F, cc, 0xC0], [0x0F, 0xB6, 0xC0]);
      CompareBytes(cc);
    }

    method EmitOp(op: BinOp)
      requires Valid()
      modifies this`pos, this`error, code
      ensures Valid() && Grew(old(Out()), Out(), Assemble(OpCode(op)))
    {
      hide Assemble, Grew;
      match op
      case Add => OpBytes(op, [0x01, 0xC8]); Emit2(0x01, 0xC8);
      case Sub => OpBytes(op, [0x29, 0xC8]); Emit2(0x29, 0xC8);
      case Mul => OpBytes(op, [0x0F, 0xAF, 0xC1]); Emit3(0x0F, 0xAF, 0xC1);
      case Div => OpBytes(op, [0x99, 0xF7, 0xF9]); Emit3(0x99, 0xF7, 0xF9);
      case Eq => EmitCompare(0x94);
      case Ne => EmitCompare(0x95);
      case Lt => EmitCompare(0x9C);
      case Gt => EmitCompare(0x9F);
      case Le => EmitCompare(0x9E);
      case Ge => EmitCompare(0x9D);
    }

    method EmitStoreLocal(off: nat)
      requires Valid()
      modifies this`pos, this`error, code
      ensures Valid() && Grew(old(Out()), Out(), Assemble(StoreLocal(off)))
    {
      Emit3(0x89, 0x45, (0 - off) % 256);
      AssembleOne(X.Mov(Local(off), X.EAX));
    }

    method EmitLoadLocal(off: nat)
      requires Valid()
      modifies this`pos, this`error, code
      ensures Valid() && Grew(old(Out()), Out(), Assemble([X.Load(X.EAX, Local(off))]))
    {
      Emit3(0x8B, 0x45, (0 - off) % 256);
      AssembleOne(X.Load(X.EAX, Local(off)));
    }

    method EmitZeroLocal(off: nat)
      requires Valid()
      modifies this`pos, this`error, code
      ensures Valid() && Grew(old(Out()), Out(), Assemble([X.MovRmImm(Local(off), 0)]))
    {
      ghost var o := Out();
      Emit3(0xC7, 0x45, (0 - off) % 256);
      ghost var o1 := Out();
      EmitU32(0);
      GrewTrans(o, o1, Out(), [0xC7, 0x45, (0 - off) % 256], LittleEndian(0));
      AssembleOne(X.MovRmImm(Local(off), 0));
    }

    method EmitPrologue(n: nat)
      requires Valid()
      modifies this`pos, this`error, code
      ensures Valid() && Grew(old(Out()), Out(), Assemble(Prologue(n)))
    {
      hide Assemble, Prologue;
      ghost var o := Out();
      Emit3(0x55, 0x89, 0xE5);
      PrologueBytes(n);
      if n > 0 {
        ghost var o1 := Out();
        Emit2(0x81, 0xEC);
        ghost var o2 := Out();
        EmitU32(Wrap(4 * n));
        GrewTrans(o1, o2, Out(), [0x81, 0xEC], LittleEndian(Wrap(4 * n)));
        GrewTrans(o, o1, Out(), [0x55, 0x89, 0xE5], [0x81, 0xEC] + LittleEndian(Wrap(4 * n)));
      }
    }

    method EmitEpilogue()
      requires Valid()
      modifies this`pos, this`error, code
      ensures Valid() && Grew(old(Out()), Out(), Assemble(Epilogue()))
    {
      hide Assemble, Epilogue, Grew;
      ghost var o := Out();
      Emit3(0x89, 0xEC, 0x5D);
      ghost var o1 := Out();
      EmitByte(0xC3);
      GrewTrans(o, o1, Out(), [0x89, 0xEC, 0x5D], [0xC3]);
      EpilogueBytes();
    }

    /** push eax; mov eax,print; call eax; add esp,4 */
    method EmitCallPrint()
      requires Valid()
      modifies this`pos, this`error, code
      ensures Valid() && Grew(old(Out()), Out(), Assemble(CallPrint(printFn)))
    {
      ghost var o := Out();
      EmitPushEax();
      ghost var o1 := Out();
      EmitMovEaxImm32(printFn);
      ghost var o2 := Out();
      Emit2(0xFF, 0xD0);
      ghost var o3 := Out();
      Emit3(0x83, 0xC4, 0x04);
      hide Assemble, CallPrint;
      GrewTrans(o2, o3, Out(), [0xFF, 0xD0], [0x83, 0xC4, 0x04]);
      GrewTrans(o, o1, o2, Assemble([X.Push(X.EAX)]), Assemble([X.MovImm(X.EAX, printFn)]));
      GrewTrans(o, o2, Out(), Assemble([X.Push(X.EAX)]) + Assemble([X.MovImm(X.EAX, printFn)]),
                [0xFF, 0xD0] + [0x83, 0xC4, 0x04]);
      CallPrintBytes(printFn);
    }

    /** test eax,eax; jz with its distance left open. Returns where the distance goes. */
    method EmitJzPlaceholder() returns (at: nat)
      requires Valid()
      modifies this`pos, this`error, code
      ensures Valid() && Grew(old(Out()), Out(), TEST_JZ + ZERO32)
      ensures error.None? ==> at + 4 == pos
    {
      ghost var o := Out();
      Emit2(0x85, 0xC0);
      ghost var o1 := Out();
      Emit2(0x0F, 0x84);
      GrewTrans(o, o1, Out(), [0x85, 0xC0], [0x0F, 0x84]);
      at := pos;
      ghost var o2 := Out();
      EmitU32(0);
      GrewTrans(o, o2, Out(), TEST_JZ, ZERO32);
    }

    method EmitJmpPlaceholder() returns (at: nat)
      requires Valid()
      modifies this`pos, this`error, code
      ensures Valid() && Grew(old(Out()), Out(), [0xE9] + ZERO32)
      ensures error.None? ==> at + 4 == pos
    {
      ghost var o := Out();
      EmitByte(0xE9);
      at := pos;
      ghost var o1 := Out();
      EmitU32(0);
      GrewTrans(o, o1, Out(), [0xE9], ZERO32);
    }

    method EmitJmpBack(target: int)
      requires Valid()
      modifies this`pos, this`error, code
      ensures Valid() && Grew(old(Out()), Out(), [0xE9] + LittleEndian(Wrap(target - (old(pos) + 5))))
    {
      ghost var o := Out();
      EmitByte(0xE9);
      ghost var o1 := Out();
      EmitU32(Wrap(target - (pos + 4)));
      if o1.error.None? {
        GrewTrans(o, o1, Out(), [0xE9], LittleEndian(Wrap(target - (old(pos) + 5))));
      }
    }

    /** Fills in a distance left open. */
    method Patch(at: nat, target: int)
      requires Valid() && (error.None? ==> at + 4 <= pos)
      modifies code
      ensures Valid() && Out() == PatchedOutput(old(Out()), at, target)
    {
      if error.Some? {
        return;
      }
      var u := Unsigned(Wrap(target - (at + 4)));
      code[at] := u % 256;
      code[at + 1] := u / 256 % 256;
      code[at + 2] := u / 256 / 256 % 256;
      code[at + 3] := u / 256 / 256 / 256 % 256;
      assert code[..pos] == Patched(old(code[..pos]), at, target);
    }

    /** Emits the code of an expression, or latches the overflow. */
    method CodegenExpr(e: Expr)
      requires Valid()
      modifies this`pos, this`error, code
      ensures Valid() && Grew(old(Out()), Out(), Assemble(ExprCode(e)))
      decreases e
    {
      hide Assemble;
      if error.Some? {
        return;
      }
      ghost var o := Out();
      match e
      case Num(v) => EmitMovEaxImm32(v);
      case Var(off) => EmitLoadLocal(off);
      case Neg(e1) =>
        CodegenExpr(e1);
        ghost var o1 := Out();
        EmitNegEax();
        GrewTrans(o, o1, Out(), Assemble(ExprCode(e1)), Assemble([X.Neg(EAX)]));
        AssembleAppend(ExprCode(e1), [X.Neg(EAX)]);
      case Bin(op, l, r) =>
        CodegenExpr(l);
        ghost var o1 := Out();
        EmitPushEax();
        ghost var o2 := Out();
        CodegenExpr(r);
        ghost var o3 := Out();
        EmitOperands();
        ghost var o4 := Out();
        EmitOp(op);
        BinBytes(o, o1, o2, o3, o4, Out(), op, l, r);
    }

    /** Emits the code of a statement, or latches the overflow. */
    method CodegenStmt(s: Stmt)
      requires Valid()
      modifies this`pos, this`error, code
      ensures Valid() && Grew(old(Out()), Out(), Assemble(StmtCode(s, printFn)))
      decreases s, 1
    {
      hide Assemble, Grew, PatchedOutput;
      if error.Some? {
        GrewRefl(Out(), Assemble(StmtCode(s, printFn)));
        return;
      }
      ghost var o := Out();
      match s
      case Block(ss) => CodegenStmts(ss);
      case Decl(off, init) =>
        if init.Some? {
          CodegenExpr(init.value);
          ghost var o1 := Out();
          EmitStoreLocal(off);
          GrewAssemble(o, o1, Out(), ExprCode(init.value), StoreLocal(off));
        } else {
          EmitZeroLocal(off);
        }
      case Assign(off, e) =>
        CodegenExpr(e);
        ghost var o1 := Out();
        EmitStoreLocal(off);
        GrewAssemble(o, o1, Out(), ExprCode(e), StoreLocal(off));
      case If(c, t, els) => CodegenIf(c, t, els);
      case While(c, b) => CodegenWhile(c, b);
      case Print(e) =>
        CodegenExpr(e);
        ghost var o1 := Out();
        EmitCallPrint();
        GrewAssemble(o, o1, Out(), ExprCode(e), CallPrint(printFn));
      case Return(e) =>
        CodegenExpr(e);
        ghost var o1 := Out();
        EmitEpilogue();
        GrewAssemble(o, o1, Out(), ExprCode(e), Epilogue());
    }

    method CodegenIf(c: Expr, t: Stmt, els: Option<Stmt>)
      requires Valid() && error.None?
      modifies this`pos, this`error, code
      ensures Valid() && Grew(old(Out()), Out(), Assemble(StmtCode(If(c, t, els), printFn)))
      decreases If(c, t, els), 0
    {
      hide Assemble, Grew, PatchedOutput, StmtCode;
      ghost var o := Out();
      CodegenExpr(c);
      ghost var o1 := Out();
      var l1 := EmitJzPlaceholder();
      ghost var o2 := Out();
      CodegenStmt(t);
      ghost var o3 := Out();
      GrewBounds(o2, o3, Assemble(StmtCode(t, printFn)));
      if els.Some? {
        CodegenElse(c, t, els.value, l1, o, o1, o2, o3);
      } else {
        Patch(l1, pos);
        IfBytes(o, o1, o2, o3, Out(), c, t, printFn, l1);
      }
    }

    /** The rest of an if after its then-part: the jump over the else-part, and the else-part. */
    method CodegenElse(c: Expr, t: Stmt, els: Stmt, l1: nat, ghost o: Output, ghost o1: Output, ghost o2: Output, ghost o3: Output)
      requires Valid() && Out() == o3
      requires Grew(o, o1, Assemble(ExprCode(c))) && Grew(o1, o2, TEST_JZ + ZERO32)
      requires Grew(o2, o3, Assemble(StmtCode(t, printFn))) && (o2.error.None? ==> l1 + 4 == |o2.bytes|)
      modifies this`pos, this`error, code
      ensures Valid() && Grew(o, Out(), Assemble(StmtCode(If(c, t, Some(els)), printFn)))
      decreases els, 2
    {
      hide Assemble, Grew, PatchedOutput, StmtCode;
      GrewBounds(o2, o3, Assemble(StmtCode(t, printFn)));
      var l2 := EmitJmpPlaceholder();
      ghost var o4 := Out();
      GrewBounds(o3, o4, [0xE9] + ZERO32);
      Patch(l1, pos);
      ghost var o5 := Out();
      PatchBounds(o4, o5, l1, |o4.bytes|);
      CodegenStmt(els);
      ghost var o6 := Out();
      GrewBounds(o5, o6, Assemble(StmtCode(els, printFn)));
      Patch(l2, pos);
      IfElseBytes(o, o1, o2, o3, o4, o5, o6, Out(), c, t, els, printFn, l1, l2);
    }

    method CodegenWhile(c: Expr, b: Stmt)
      requires Valid() && error.None?
      modifies this`pos, this`error, code
      ensures Valid() && Grew(old(Out()), Out(), Assemble(StmtCode(While(c, b), printFn)))
      decreases While(c, b), 0
    {
      hide Assemble, Grew, PatchedOutput, StmtCode, Wrap, LittleEndian;
      ghost var o := Out();
      var start := pos;
      CodegenExpr(c);
      ghost var o1 := Out();
      var l1 := EmitJzPlaceholder();
      ghost var o2 := Out();
      CodegenStmt(b);
      ghost var o3 := Out();
      GrewBounds(o2, o3, Assemble(StmtCode(b, printFn)));
      assert start == |o.bytes| && pos == |o3.bytes|;
      ghost var back := [0xE9] + LittleEndian(Wrap(start - (pos + 5)));
      EmitJmpBack(start);
      ghost var o4 := Out();
      GrewBounds(o3, o4, back);
      Patch(l1, pos);
      WhileBytes(o, o1, o2, o3, o4, Out(), c, b, printFn, l1);
    }

    /** The statements of a block, one after the other, until an error is latched. */
    method CodegenStmts(ss: seq<Stmt>)
      requires Valid() && error.None?
      modifies this`pos, this`error, code
      ensures Valid() && Grew(old(Out()), Out(), Assemble(StmtsCode(ss, printFn)))
      decreases ss, 0
    {
      hide Assemble, StmtCode;
      ghost var o := Out();
      var i := 0;
      NothingAssembled();
      while i < |ss| && error.None?
        invariant 0 <= i <= |ss| && Valid() && Grew(o, Out(), Assemble(StmtsCode(ss[..i], printFn)))
        invariant error.Some? ==> error == Some(TOO_LONG) && |o.bytes| + Size(StmtsCode(ss, printFn)) > CODE_SIZE
      {
        ghost var o1 := Out();
        CodegenStmt(ss[i]);
        GrewAssemble(o, o1, Out(), StmtsCode(ss[..i], printFn), StmtCode(ss[i], printFn));
        StmtsCodeSnoc(ss, i, printFn);
        i := i + 1;
      }
      assert i == |ss| ==> ss[..i] == ss;
    }

    /** The code of `main`, and the return of 0 that catches a body running off its end. */
    method GenerateProgram(body: Stmt, n: nat)
      requires Valid()
      modifies this`pos, this`error, code
      ensures Valid() && Grew(old(Out()), Out(), Assemble(ProgramCode(body, n, printFn)))
    {
      hide Assemble, Grew, Prologue, StmtCode, Epilogue;
      ghost var o := Out();
      EmitPrologue(n);
      ghost var o1 := Out();
      CodegenStmt(body);
      ghost var o2 := Out();
      EmitMovEaxImm32(0);
      ghost var o3 := Out();
      EmitEpilogue();
      ghost var zero: seq<Op> := [X.MovImm(X.EAX, 0)];
      GrewAssemble(o2, o3, Out(), zero, Epilogue());
      GrewAssemble(o1, o2, Out(), StmtCode(body, printFn), zero + Epilogue());
      GrewAssemble(o, o1, Out(), Prologue(n), StmtCode(body, printFn) + (zero + Epilogue()));
    }
  }

  // ---- the bytes of the instructions ----

  lemma AssembleOne(i: Op)
    ensures Assemble([i]) == X.Encode(i)
  {
    assert [i][1..] == [];
  }

  lemma AssembleTwo(i: Op, j: Op)
    ensures Assemble([i, j]) == X.Encode(i) + X.Encode(j)
  {
    AssembleOne(i);
    AssembleOne(j);
    AssembleAppend([i], [j]);
    assert [i, j] == [i] + [j];
  }

  lemma CompareBytes(cc: Byte)
    requires 0x90 <= cc < 0xA0
    ensures Assemble(Compare(cc - 0x90)) == [0x39, 0xC8] + [0x0F, cc, 0xC0] + [0x0F, 0xB6, 0xC0]
  {
    hide Assemble;
    var a, b := [X.Cmp(EAX, X.ECX), X.Setcc(cc - 0x90, EAX)], [X.Movzx(X.EAX, EAX)];
    AssembleTwo(X.Cmp(EAX, X.ECX), X.Setcc(cc - 0x90, EAX));
    AssembleOne(X.Movzx(X.EAX, EAX));
    AssembleAppend(a, b);
    assert Compare(cc - 0x90) == a + b;
  }

  lemma PrologueBytes(n: nat)
    ensures Assemble(Prologue(n)) ==
            [0x55, 0x89, 0xE5] + if n > 0 then [0x81, 0xEC] + LittleEndian(Wrap(4 * n)) else []
  {
    hide Assemble;
    var enter: seq<Op> := [X.Push(X.EBP), X.Mov(EBP, X.ESP)];
    AssembleTwo(X.Push(X.EBP), X.Mov(EBP, X.ESP));
    if n > 0 {
      AssembleAppend(enter, [X.SubImm32(ESP, Wrap(4 * n))]);
      AssembleOne(X.SubImm32(ESP, Wrap(4 * n)));
    } else {
      assert Prologue(n) == enter;
    }
  }

  lemma EpilogueBytes()
    ensures Assemble(Epilogue()) == [0x89, 0xEC, 0x5D] + [0xC3]
  {
    AssembleTwo(X.Mov(ESP, X.EBP), X.Pop(X.EBP));
    AssembleOne(X.Ret);
    AssembleAppend([X.Mov(ESP, X.EBP), X.Pop(X.EBP)], [X.Ret]);
    assert Epilogue() == [X.Mov(ESP, X.EBP), X.Pop(X.EBP)] + [X.Ret];
  }

  lemma CallPrintBytes(printAddr: Int32)
    ensures Assemble(CallPrint(printAddr)) ==
            Assemble([X.Push(X.EAX)]) + Assemble([X.MovImm(X.EAX, printAddr)]) + ([0xFF, 0xD0] + [0x83, 0xC4, 0x04])
  {
    hide Assemble;
    var a, b, c := [X.Push(X.EAX)], [X.MovImm(X.EAX, printAddr)], [X.Call(EAX), X.AddImm8(ESP, 4)];
    assert CallPrint(printAddr) == a + b + c;
    AssembleAppend(a, b);
    AssembleAppend(a + b, c);
    AssembleTwo(X.Call(EAX), X.AddImm8(ESP, 4));
  }

  lemma NothingAssembled()
    ensures Assemble([]) == []
  {
  }

  // ---- composing emissions ----

  lemma GrewRefl(o: Output, bs: seq<Byte>)
    requires o.error.Some?
    ensures Grew(o, o, bs)
  {
  }

  lemma GrewAssemble(o: Output, o1: Output, o2: Output, a: seq<Op>, b: seq<Op>)
    requires Grew(o, o1, Assemble(a)) && Grew(o1, o2, Assemble(b))
    ensures Grew(o, o2, Assemble(a + b))
  {
    AssembleAppend(a, b);
    GrewTrans(o, o1, o2, Assemble(a), Assemble(b));
  }

  /** The arithmetic operations. */
  lemma OpBytes(op: BinOp, bs: seq<Byte>)
    requires match op
      case Add => bs == [0x01, 0xC8]
      case Sub => bs == [0x29, 0xC8]
      case Mul => bs == [0x0F, 0xAF, 0xC1]
      case Div => bs == [0x99, 0xF7, 0xF9]
      case _ => false
    ensures Assemble(OpCode(op)) == bs
  {
    hide Assemble;
    match op
    case Add => AssembleOne(X.Add(EAX, X.ECX));
    case Sub => AssembleOne(X.Sub(EAX, X.ECX));
    case Mul => AssembleOne(X.Imul(X.EAX, ECX));
    case Div => AssembleTwo(X.Cdq, X.Idiv(ECX));
    case _ =>
  }

  lemma GrewBounds(o: Output, o': Output, bs: seq<Byte>)
    requires Grew(o, o', bs)
    ensures o'.error.None? ==> o.error.None? && |o.bytes| <= |o'.bytes|
  {
  }

  lemma PatchBounds(o: Output, o': Output, at: nat, target: int)
    requires (o.error.None? ==> at + 4 <= |o.bytes|) && o' == PatchedOutput(o, at, target)
    ensures o'.error == o.error && |o'.bytes| == |o.bytes|
  {
  }

  lemma {:induction false} StmtsCodeSnoc(ss: seq<Stmt>, i: nat, printAddr: Int32)
    requires i < |ss|
    ensures StmtsCode(ss[..i + 1], printAddr) == StmtsCode(ss[..i], printAddr) + StmtCode(ss[i], printAddr)
    ensures Size(StmtsCode(ss[..i + 1], printAddr)) <= Size(StmtsCode(ss, printAddr))
  {
    StmtsCodeAppend(ss[..i], [ss[i]], printAddr);
    assert ss[..i + 1] == ss[..i] + [ss[i]];
    assert StmtsCode([ss[i]], printAddr) == StmtCode(ss[i], printAddr) by { assert [ss[i]][1..] == []; }
    StmtsCodeAppend(ss[..i + 1], ss[i + 1..], printAddr);
    assert ss == ss[..i + 1] + ss[i + 1..];
    AssembleAppend(StmtsCode(ss[..i + 1], printAddr), StmtsCode(ss[i + 1..], printAddr));
  }

  lemma {:induction false} StmtsCodeAppend(a: seq<Stmt>, b: seq<Stmt>, printAddr: Int32)
    ensures StmtsCode(a + b, printAddr) == StmtsCode(a, printAddr) + StmtsCode(b, printAddr)
  {
    hide StmtCode;
    if a == [] {
      assert a + b == b;
    } else {
      assert (a + b)[1..] == a[1..] + b;
      StmtsCodeAppend(a[1..], b, printAddr);
    }
  }

  lemma BinBytes(o: Output, o1: Output, o2: Output, o3: Output, o4: Output, o5: Output, op: BinOp, l: Expr, r: Expr)
    requires Grew(o, o1, Assemble(ExprCode(l))) && Grew(o1, o2, Assemble([X.Push(X.EAX)]))
    requires Grew(o2, o3, Assemble(ExprCode(r))) && Grew(o3, o4, Assemble([X.Mov(ECX, X.EAX), X.Pop(X.EAX)]))
    requires Grew(o4, o5, Assemble(OpCode(op)))
    ensures Grew(o, o5, Assemble(ExprCode(Bin(op, l, r))))
  {
    hide Assemble, Grew, OpCode;
    var push, both := [X.Push(X.EAX)], [X.Mov(ECX, X.EAX), X.Pop(X.EAX)];
    GrewAssemble(o3, o4, o5, both, OpCode(op));
    GrewAssemble(o2, o3, o5, ExprCode(r), both + OpCode(op));
    GrewAssemble(o1, o2, o5, push, ExprCode(r) + (both + OpCode(op)));
    GrewAssemble(o, o1, o5, ExprCode(l), push + (ExprCode(r) + (both + OpCode(op))));
  }

  lemma JumpBytes(rel: int)
    ensures Assemble(Jump(rel)) == [0xE9] + LittleEndian(Wrap(rel))
    ensures Assemble(Test(rel)) == TEST_JZ + LittleEndian(Wrap(rel))
  {
    AssembleOne(X.Jmp(Wrap(rel)));
    AssembleTwo(X.Test(EAX, X.EAX), X.Jz(Wrap(rel)));
  }

  /** Patching a gap `z` between `x` and `y`. */
  lemma PatchGap(x: seq<Byte>, z: seq<Byte>, y: seq<Byte>, target: int)
    requires |z| == 4
    ensures Patched(x + z + y, |x|, target) == x + LittleEndian(Wrap(target - (|x| + 4))) + y
  {
    assert (x + z + y)[..|x|] == x;
    assert (x + z + y)[|x| + 4..] == y;
  }

  lemma IfBytes(o: Output, o1: Output, o2: Output, o3: Output, o4: Output, c: Expr, t: Stmt, printAddr: Int32, l1: nat)
    requires Grew(o, o1, Assemble(ExprCode(c))) && Grew(o1, o2, TEST_JZ + ZERO32)
    requires Grew(o2, o3, Assemble(StmtCode(t, printAddr))) && (o2.error.None? ==> l1 + 4 == |o2.bytes|)
    requires (o3.error.None? ==> l1 + 4 <= |o3.bytes|) && o4 == PatchedOutput(o3, l1, |o3.bytes|)
    ensures Grew(o, o4, Assemble(StmtCode(If(c, t, None), printAddr)))
  {
    hide Assemble, ExprCode, StmtCode, Test, Grew, PatchedOutput;
    var E, T := Assemble(ExprCode(c)), Assemble(StmtCode(t, printAddr));
    GrewTrans(o, o1, o2, E, TEST_JZ + ZERO32);
    GrewTrans(o, o2, o3, E + (TEST_JZ + ZERO32), T);
    GrewSizes(o, o1, o2, E, TEST_JZ + ZERO32);
    GrewBounds(o2, o3, T);
    var x := E + TEST_JZ;
    assert E + (TEST_JZ + ZERO32) + T == x + ZERO32 + T;
    PatchGrew(o, o3, o4, x, T, l1);
    IfShape(c, t, printAddr);
    assert x + LittleEndian(Wrap(|T|)) + T == E + (TEST_JZ + LittleEndian(Wrap(|T|)) + T);
  }

  lemma IfShape(c: Expr, t: Stmt, printAddr: Int32)
    ensures var T := Assemble(StmtCode(t, printAddr));
      Assemble(StmtCode(If(c, t, None), printAddr)) == Assemble(ExprCode(c)) + (TEST_JZ + LittleEndian(Wrap(|T|)) + T)
  {
    hide Assemble, ExprCode, Test;
    var tc := StmtCode(t, printAddr);
    JumpBytes(Size(tc));
    AssembleAppend(Test(Size(tc)), tc);
    AssembleAppend(ExprCode(c), Test(Size(tc)) + tc);
  }

  /** Patching a gap with the distance to the current write position. */
  lemma PatchGrew(o: Output, o1: Output, o2: Output, x: seq<Byte>, y: seq<Byte>, at: nat)
    requires Grew(o, o1, x + ZERO32 + y) && (o1.error.None? ==> at == |o.bytes| + |x|)
    requires o2 == PatchedOutput(o1, at, |o1.bytes|)
    ensures Grew(o, o2, x + LittleEndian(Wrap(|y|)) + y)
  {
    if o1.error.None? {
      assert o1.bytes == (o.bytes + x) + ZERO32 + y;
      PatchGap(o.bytes + x, ZERO32, y, |o1.bytes|);
      assert o2.bytes == o.bytes + (x + LittleEndian(Wrap(|y|)) + y);
    }
  }

  lemma IfElseBytes(o: Output, o1: Output, o2: Output, o3: Output, o4: Output, o5: Output, o6: Output, o7: Output,
                    c: Expr, t: Stmt, e: Stmt, printAddr: Int32, l1: nat, l2: nat)
    requires Grew(o, o1, Assemble(ExprCode(c))) && Grew(o1, o2, TEST_JZ + ZERO32)
    requires Grew(o2, o3, Assemble(StmtCode(t, printAddr))) && (o2.error.None? ==> l1 + 4 == |o2.bytes|)
    requires Grew(o3, o4, [0xE9] + ZERO32) && (o4.error.None? ==> l1 + 4 <= |o4.bytes| && l2 + 4 == |o4.bytes|)
    requires o5 == PatchedOutput(o4, l1, |o4.bytes|)
    requires Grew(o5, o6, Assemble(StmtCode(e, printAddr))) && (o6.error.None? ==> l2 + 4 <= |o6.bytes|)
    requires o7 == PatchedOutput(o6, l2, |o6.bytes|)
    ensures Grew(o, o7, Assemble(StmtCode(If(c, t, Some(e)), printAddr)))
  {
    hide Assemble, ExprCode, StmtCode, Test, Jump, Grew, PatchedOutput;
    var E, T, F := Assemble(ExprCode(c)), Assemble(StmtCode(t, printAddr)), Assemble(StmtCode(e, printAddr));
    IfElseShape(c, t, e, printAddr);
    GrewTrans(o, o1, o2, E, TEST_JZ + ZERO32);
    GrewTrans(o, o2, o3, E + (TEST_JZ + ZERO32), T);
    GrewTrans(o, o3, o4, E + (TEST_JZ + ZERO32) + T, [0xE9] + ZERO32);
    var x, y := E + TEST_JZ, T + ([0xE9] + ZERO32);
    assert E + (TEST_JZ + ZERO32) + T + ([0xE9] + ZERO32) == x + ZERO32 + y;
    GrewSizes(o, o1, o2, E, TEST_JZ + ZERO32);
    GrewBounds(o2, o3, T);
    GrewBounds(o3, o4, [0xE9] + ZERO32);
    PatchGrew(o, o4, o5, x, y, l1);
    PatchBounds(o4, o5, l1, |o4.bytes|);
    var r := LittleEndian(Wrap(|T| + JUMP_SIZE));
    GrewTrans(o, o5, o6, x + r + y, F);
    var x2 := x + r + T + [0xE9];
    assert x + r + y + F == x2 + ZERO32 + F;
    GrewSize(o, o5, x + r + y);
    GrewBounds(o5, o6, F);
    PatchGrew(o, o6, o7, x2, F, l2);
    var j := [0xE9] + LittleEndian(Wrap(|F|)) + F;
    assert x2 + LittleEndian(Wrap(|F|)) + F == E + (TEST_JZ + r + (T + j));
  }

  lemma GrewSize(o: Output, o1: Output, a: seq<Byte>)
    requires Grew(o, o1, a)
    ensures o1.error.None? ==> |o1.bytes| == |o.bytes| + |a|
  {
  }

  lemma GrewSizes(o: Output, o1: Output, o2: Output, a: seq<Byte>, b: seq<Byte>)
    requires Grew(o, o1, a) && Grew(o1, o2, b)
    ensures o2.error.None? ==> |o2.bytes| == |o.bytes| + |a| + |b|
  {
  }

  lemma IfElseShape(c: Expr, t: Stmt, e: Stmt, printAddr: Int32)
    ensures var T, F := Assemble(StmtCode(t, printAddr)), Assemble(StmtCode(e, printAddr));
      Assemble(StmtCode(If(c, t, Some(e)), printAddr)) ==
      Assemble(ExprCode(c)) + (TEST_JZ + LittleEndian(Wrap(|T| + JUMP_SIZE)) + (T + ([0xE9] + LittleEndian(Wrap(|F|)) + F)))
  {
    hide Assemble, ExprCode, StmtCode, Test, Jump, Size;
    var tc, ec := StmtCode(t, printAddr), StmtCode(e, printAddr);
    IfElseParts(c, t, e, printAddr);
    JumpBytes(Size(tc) + JUMP_SIZE);
    JumpBytes(Size(ec));
    FourParts(Test(Size(tc) + JUMP_SIZE), tc, Jump(Size(ec)), ec);
    AssembleAppend(ExprCode(c), Test(Size(tc) + JUMP_SIZE) + (tc + (Jump(Size(ec)) + ec)));
    SizeIs(tc);
    SizeIs(ec);
  }

  lemma IfElseParts(c: Expr, t: Stmt, e: Stmt, printAddr: Int32)
    ensures var tc, ec := StmtCode(t, printAddr), StmtCode(e, printAddr);
      StmtCode(If(c, t, Some(e)), printAddr) == ExprCode(c) + (Test(Size(tc) + JUMP_SIZE) + (tc + (Jump(Size(ec)) + ec)))
  {
    hide ExprCode, Test, Jump, Size;
  }

  lemma WhileBytes(o: Output, o1: Output, o2: Output, o3: Output, o4: Output, o5: Output,
                   c: Expr, b: Stmt, printAddr: Int32, l1: nat)
    requires o.error.None? && Grew(o, o1, Assemble(ExprCode(c))) && Grew(o1, o2, TEST_JZ + ZERO32)
    requires Grew(o2, o3, Assemble(StmtCode(b, printAddr))) && (o2.error.None? ==> l1 + 4 == |o2.bytes|)
    requires Grew(o3, o4, [0xE9] + LittleEndian(Wrap(|o.bytes| - (|o3.bytes| + 5))))
    requires (o4.error.None? ==> l1 + 4 <= |o4.bytes|) && o5 == PatchedOutput(o4, l1, |o4.bytes|)
    ensures Grew(o, o5, Assemble(StmtCode(While(c, b), printAddr)))
  {
    hide Assemble, ExprCode, StmtCode, Test, Jump, Grew, PatchedOutput;
    var E, B := Assemble(ExprCode(c)), Assemble(StmtCode(b, printAddr));
    var J := [0xE9] + LittleEndian(Wrap(|o.bytes| - (|o3.bytes| + 5)));
    GrewTrans(o, o1, o2, E, TEST_JZ + ZERO32);
    GrewTrans(o, o2, o3, E + (TEST_JZ + ZERO32), B);
    GrewTrans(o, o3, o4, E + (TEST_JZ + ZERO32) + B, J);
    var x, y := E + TEST_JZ, B + J;
    assert E + (TEST_JZ + ZERO32) + B + J == x + ZERO32 + y;
    GrewSizes(o, o1, o2, E, TEST_JZ + ZERO32);
    GrewBounds(o2, o3, B);
    GrewBounds(o3, o4, J);
    PatchGrew(o, o4, o5, x, y, l1);
    GrewSize(o, o3, E + (TEST_JZ + ZERO32) + B);
    WhileShape(c, b, printAddr);
    if o3.error.None? {
      assert x + LittleEndian(Wrap(|y|)) + y == E + (TEST_JZ + LittleEndian(Wrap(|B| + JUMP_SIZE)) + (B + J));
    } else {
      PatchBounds(o4, o5, l1, |o4.bytes|);
      GrewLength(o, o5, x + LittleEndian(Wrap(|y|)) + y, Assemble(StmtCode(While(c, b), printAddr)));
    }
  }

  /** An overflow depends on the length only. */
  lemma GrewLength(o: Output, o1: Output, a: seq<Byte>, b: seq<Byte>)
    requires Grew(o, o1, a) && o.error.None? && o1.error.Some? && |a| == |b|
    ensures Grew(o, o1, b)
  {
  }

  lemma WhileShape(c: Expr, b: Stmt, printAddr: Int32)
    ensures var E, B := Assemble(ExprCode(c)), Assemble(StmtCode(b, printAddr));
      Assemble(StmtCode(While(c, b), printAddr)) ==
      E + (TEST_JZ + LittleEndian(Wrap(|B| + JUMP_SIZE)) +
           (B + ([0xE9] + LittleEndian(Wrap(-(|E| + TEST_SIZE + |B| + JUMP_SIZE))))))
  {
    hide Assemble, ExprCode, StmtCode, Test, Jump, Size;
    var e, bc := ExprCode(c), StmtCode(b, printAddr);
    var back := -(Size(e) + TEST_SIZE + Size(bc) + JUMP_SIZE);
    WhileParts(c, b, printAddr);
    JumpBytes(Size(bc) + JUMP_SIZE);
    JumpBytes(back);
    FourParts(e, Test(Size(bc) + JUMP_SIZE), bc, Jump(back));
    SizeIs(e);
    SizeIs(bc);
  }

  lemma SizeIs(ops: seq<Op>)
    ensures Size(ops) == |Assemble(ops)|
  {
  }

  lemma WhileParts(c: Expr, b: Stmt, printAddr: Int32)
    ensures var e, bc := ExprCode(c), StmtCode(b, printAddr);
      StmtCode(While(c, b), printAddr) ==
      e + (Test(Size(bc) + JUMP_SIZE) + (bc + Jump(-(Size(e) + TEST_SIZE + Size(bc) + JUMP_SIZE))))
  {
    hide ExprCode, Test, Jump, Size;
  }

  lemma FourParts(a: seq<Op>, b: seq<Op>, c: seq<Op>, d: seq<Op>)
    ensures Assemble(a + (b + (c + d))) == Assemble(a) + (Assemble(b) + (Assemble(c) + Assemble(d)))
  {
    hide Assemble;
    AssembleAppend(c, d);
    AssembleAppend(b, c + d);
    AssembleAppend(a, b + (c + d));
  }
}
