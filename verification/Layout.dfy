/** The shape of compiled code: one instruction stream from first byte to last, in which every jump lands on the
    start of an instruction. */
module Layout {
  import opened Words
  import opened Source
  import opened Codegen
  import opened Correctness
  import X = X86

  /** From byte `p` to its end, `c` decodes as exactly the instructions `ins`. */
  ghost predicate Disassembles(c: seq<Byte>, p: nat, ins: seq<Op>)
    decreases |ins|
  {
    if ins == [] then p == |c| else
    match X.Decode(c, p)
    case Invalid => false
    case Decoded(i, next) => i == ins[0] && p < next <= |c| && Disassembles(c, next, ins[1..])
  }

  lemma {:induction false} PlacedDisassembles(c: seq<Byte>, p: nat, ins: seq<Op>)
    requires Placed(c, p, ins) && p + Size(ins) == |c|
    ensures Disassembles(c, p, ins)
    decreases |ins|
  {
    hide X.Decode, X.Encode, Placed;
    if ins != [] {
      FetchFirst(c, p, ins);
      PlacedDisassembles(c, p + |X.Encode(ins[0])|, ins[1..]);
    }
  }

  /** Disassembling undoes assembling. */
  lemma DisassembleAssemble(ins: seq<Op>)
    ensures Disassembles(Assemble(ins), 0, ins)
  {
    hide Assemble, Disassembles;
    assert Placed(Assemble(ins), 0, ins);
    PlacedDisassembles(Assemble(ins), 0, ins);
  }

  // ---- jump targets ----

  /** Byte offset `q` is the start of an instruction of `ins`, or the end. */
  ghost predicate Boundary(ins: seq<Op>, q: int) {
    exists j: nat :: j <= |ins| && Size(ins[..j]) == q
  }

  ghost predicate IsJump(i: X.Instr) { i.Jz? || i.Jmp? }

  ghost predicate Straight(ins: seq<Op>) {
    forall i :: 0 <= i < |ins| ==> !IsJump(ins[i])
  }

  /** The byte offset the jump at index `i` goes to. */
  ghost function Target(ins: seq<Op>, i: nat): int
    requires i < |ins| && IsJump(ins[i])
  {
    Size(ins[..i + 1]) + ins[i].rel
  }

  /** Every jump of `ins` lands on an instruction of `ins`, or just behind them. */
  ghost predicate Closed(ins: seq<Op>) {
    forall i: nat :: i < |ins| && IsJump(ins[i]) ==> Boundary(ins, Target(ins, i))
  }

  lemma BoundaryLeft(a: seq<Op>, b: seq<Op>, q: int)
    requires Boundary(a, q)
    ensures Boundary(a + b, q)
  {
    var j: nat :| j <= |a| && Size(a[..j]) == q;
    assert (a + b)[..j] == a[..j];
  }

  lemma BoundaryRight(a: seq<Op>, b: seq<Op>, q: int)
    requires Boundary(b, q - Size(a))
    ensures Boundary(a + b, q)
  {
    var j: nat :| j <= |b| && Size(b[..j]) == q - Size(a);
    assert (a + b)[..|a| + j] == a + b[..j];
    AssembleAppend(a, b[..j]);
  }

  lemma TargetLeft(a: seq<Op>, b: seq<Op>, i: nat)
    requires i < |a| && IsJump(a[i])
    ensures Target(a + b, i) == Target(a, i)
  {
    hide Assemble;
    assert (a + b)[..i + 1] == a[..i + 1];
  }

  lemma TargetRight(a: seq<Op>, b: seq<Op>, k: nat)
    requires k < |b| && IsJump(b[k])
    ensures Target(a + b, |a| + k) == Size(a) + Target(b, k)
  {
    hide Assemble;
    assert (a + b)[..|a| + k + 1] == a + b[..k + 1];
    AssembleAppend(a, b[..k + 1]);
  }

  lemma ClosedAppend(a: seq<Op>, b: seq<Op>)
    requires Closed(a) && Closed(b)
    ensures Closed(a + b)
  {
    hide Boundary, Target, Assemble;
    forall i: nat | i < |a + b| && IsJump((a + b)[i])
      ensures Boundary(a + b, Target(a + b, i))
    {
      if i < |a| {
        TargetLeft(a, b, i);
        BoundaryLeft(a, b, Target(a, i));
      } else {
        TargetRight(a, b, i - |a|);
        BoundaryRight(a, b, Target(a + b, i));
      }
    }
  }

  lemma ClosedStraight(ins: seq<Op>)
    requires Straight(ins)
    ensures Closed(ins)
  {
  }

  lemma {:induction false} ExprStraight(e: Expr)
    ensures Straight(ExprCode(e))
  {
    hide OpCode;
    match e
    case Neg(x) => ExprStraight(x);
    case Bin(op, l, r) =>
      ExprStraight(l);
      ExprStraight(r);
      OpStraight(op);
      var last := [X.Mov(ECX, X.EAX), X.Pop(X.EAX)] + OpCode(op);
      StraightAppend(ExprCode(r), last);
      StraightAppend([X.Push(X.EAX)], ExprCode(r) + last);
      StraightAppend(ExprCode(l), [X.Push(X.EAX)] + (ExprCode(r) + last));
    case _ =>
  }

  lemma OpStraight(op: BinOp)
    ensures Straight(OpCode(op))
  {
  }

  lemma StraightAppend(a: seq<Op>, b: seq<Op>)
    requires Straight(a) && Straight(b)
    ensures Straight(a + b)
  {
  }

  lemma StartIsBoundary(ins: seq<Op>)
    ensures Boundary(ins, 0) && Boundary(ins, Size(ins))
  {
    assert ins[..0] == [] && ins[..|ins|] == ins;
    assert Size(ins[..0]) == 0;
  }

  /** A test in front of `rest` whose jump goes to a boundary of `rest`. */
  lemma ClosedTest(rest: seq<Op>, rel: int)
    requires Closed(rest) && Boundary(rest, rel) && 0 <= rel <= CODE_SIZE
    ensures Closed(Test(rel) + rest)
  {
    hide Closed, Boundary, Assemble;
    FixedSizes(rel);
    BoundaryRight(Test(rel), rest, TEST_SIZE + rel);
    ClosedBehind(Test(rel), rest, 1);
  }

  lemma ClosedJump(rest: seq<Op>, rel: int)
    requires Closed(rest) && Boundary(rest, rel) && 0 <= rel <= CODE_SIZE
    ensures Closed(Jump(rel) + rest)
  {
    hide Closed, Boundary, Assemble;
    FixedSizes(rel);
    BoundaryRight(Jump(rel), rest, JUMP_SIZE + rel);
    ClosedBehind(Jump(rel), rest, 0);
  }

  /** `head` has one jump, its last instruction, at index `k`. */
  lemma ClosedBehind(head: seq<Op>, rest: seq<Op>, k: nat)
    requires k + 1 == |head| && IsJump(head[k]) && (forall i :: 0 <= i < k ==> !IsJump(head[i]))
    requires Closed(rest) && Boundary(head + rest, Size(head) + head[k].rel)
    ensures Closed(head + rest)
  {
    var ins := head + rest;
    forall i: nat | i < |ins| && IsJump(ins[i])
      ensures Boundary(ins, Target(ins, i))
    {
      if i == k {
        assert ins[..i + 1] == head;
      } else {
        var j := i - |head|;
        assert ins[..i + 1] == head + rest[..j + 1];
        AssembleAppend(head, rest[..j + 1]);
        BoundaryRight(head, rest, Target(ins, i));
      }
    }
  }

  lemma {:induction false} StmtClosed(s: Stmt, printAddr: Int32)
    requires Size(StmtCode(s, printAddr)) <= CODE_SIZE
    ensures Closed(StmtCode(s, printAddr))
    decreases s, 1
  {
    hide Assemble, Closed, Boundary, ExprCode;
    match s
    case Block(ss) => StmtsClosed(ss, printAddr);
    case Decl(off, init) =>
      if init.None? {
        ClosedStraight(StmtCode(s, printAddr));
      } else {
        ExprThenStraight(init.value, StoreLocal(off));
      }
    case Assign(off, e) => ExprThenStraight(e, StoreLocal(off));
    case Print(e) => ExprThenStraight(e, CallPrint(printAddr));
    case Return(e) => ExprThenStraight(e, Epilogue());
    case If(c, t, els) =>
      if els.None? {
        IfClosed(c, t, printAddr);
      } else {
        IfElseClosed(c, t, els.value, printAddr);
      }
    case While(c, b) => WhileClosed(c, b, printAddr);
  }

  lemma ExprThenStraight(e: Expr, tail: seq<Op>)
    requires Straight(tail)
    ensures Closed(ExprCode(e) + tail)
  {
    hide Closed, ExprCode;
    ExprStraight(e);
    ClosedStraight(ExprCode(e));
    ClosedStraight(tail);
    ClosedAppend(ExprCode(e), tail);
  }

  lemma {:induction false} IfClosed(c: Expr, t: Stmt, printAddr: Int32)
    requires Size(StmtCode(If(c, t, None), printAddr)) <= CODE_SIZE
    ensures Closed(StmtCode(If(c, t, None), printAddr))
    decreases If(c, t, None), 0
  {
    hide Assemble, Closed, Boundary, ExprCode, Test;
    var tc := StmtCode(t, printAddr);
    AssembleAppend(Test(Size(tc)), tc);
    AssembleAppend(ExprCode(c), Test(Size(tc)) + tc);
    StmtClosed(t, printAddr);
    StartIsBoundary(tc);
    ClosedTest(tc, Size(tc));
    ExprStraight(c);
    ClosedStraight(ExprCode(c));
    ClosedAppend(ExprCode(c), Test(Size(tc)) + tc);
  }

  lemma {:induction false} IfElseClosed(c: Expr, t: Stmt, e: Stmt, printAddr: Int32)
    requires Size(StmtCode(If(c, t, Some(e)), printAddr)) <= CODE_SIZE
    ensures Closed(StmtCode(If(c, t, Some(e)), printAddr))
    decreases If(c, t, Some(e)), 0
  {
    hide Assemble, Closed, Boundary, ExprCode, Test, Jump;
    var tc, ec := StmtCode(t, printAddr), StmtCode(e, printAddr);
    var test, jump := Test(Size(tc) + JUMP_SIZE), Jump(Size(ec));
    FixedSizes(Size(tc) + JUMP_SIZE);
    FixedSizes(Size(ec));
    AssembleAppend(jump, ec);
    AssembleAppend(tc, jump + ec);
    AssembleAppend(test, tc + (jump + ec));
    AssembleAppend(ExprCode(c), test + (tc + (jump + ec)));
    StmtClosed(t, printAddr);
    StmtClosed(e, printAddr);
    StartIsBoundary(ec);
    ClosedJump(ec, Size(ec));
    ClosedAppend(tc, jump + ec);
    BoundaryRight(jump, ec, JUMP_SIZE);
    BoundaryRight(tc, jump + ec, Size(tc) + JUMP_SIZE);
    ClosedTest(tc + (jump + ec), Size(tc) + JUMP_SIZE);
    ExprStraight(c);
    ClosedStraight(ExprCode(c));
    ClosedAppend(ExprCode(c), test + (tc + (jump + ec)));
  }

  lemma {:induction false} WhileClosed(c: Expr, b: Stmt, printAddr: Int32)
    requires Size(StmtCode(While(c, b), printAddr)) <= CODE_SIZE
    ensures Closed(StmtCode(While(c, b), printAddr))
    decreases While(c, b), 0
  {
    hide Assemble, Closed, Boundary, ExprCode, Test, Jump;
    var cc, bc := ExprCode(c), StmtCode(b, printAddr);
    var rel := Size(bc) + JUMP_SIZE;
    var back := -(Size(cc) + TEST_SIZE + Size(bc) + JUMP_SIZE);
    var test, jump := Test(rel), Jump(back);
    FixedSizes(rel);
    FixedSizes(back);
    AssembleAppend(bc, jump);
    AssembleAppend(test, bc + jump);
    AssembleAppend(cc, test + (bc + jump));
    AssembleAppend(cc, test);
    AssembleAppend(cc + test, bc);
    StmtClosed(b, printAddr);
    ExprStraight(c);
    assert StmtCode(While(c, b), printAddr) == cc + (test + (bc + jump));
    WhileJumps(cc, bc, rel, back);
  }

  /** A jump inside the middle of three parts stays inside it. */
  lemma JumpInside(a: seq<Op>, b: seq<Op>, c: seq<Op>, i: nat)
    requires Closed(b) && |a| <= i < |a| + |b| && IsJump(b[i - |a|])
    ensures Boundary(a + (b + c), Target(a + (b + c), i))
  {
    hide Assemble;
    var k := i - |a|;
    var ins := a + (b + c);
    assert ins[..i + 1] == a + b[..k + 1];
    AssembleAppend(a, b[..k + 1]);
    BoundaryLeft(b, c, Target(b, k));
    BoundaryRight(a, b + c, Target(ins, i));
  }

  /** The two jumps of a loop: over its end, and back to its start. */
  lemma WhileJumps(cc: seq<Op>, bc: seq<Op>, rel: nat, back: int)
    requires Closed(bc) && rel == Size(bc) + JUMP_SIZE && back == -(Size(cc) + TEST_SIZE + rel)
    requires Straight(cc) && Size(cc) + TEST_SIZE + rel <= CODE_SIZE
    ensures Closed(cc + (Test(rel) + (bc + Jump(back))))
  {
    hide Assemble, Boundary;
    var test, jump := Test(rel), Jump(back);
    var ins, n := cc + (test + (bc + jump)), |cc|;
    assert ins == (cc + test) + (bc + jump);
    WhileSizes(cc, bc, rel, back);
    StartIsBoundary(ins);
    forall i: nat | i < |ins| && IsJump(ins[i])
      ensures Boundary(ins, Target(ins, i))
    {
      if i < n + 2 {
        assert i == n + 1 && ins[..i + 1] == cc + test;
      } else if i < n + 2 + |bc| {
        JumpInside(cc + test, bc, jump, i);
      } else {
        assert ins[..i + 1] == ins;
      }
    }
  }

  lemma WhileSizes(cc: seq<Op>, bc: seq<Op>, rel: int, back: int)
    ensures Size(cc + Test(rel)) == Size(cc) + TEST_SIZE
    ensures Size(cc + (Test(rel) + (bc + Jump(back)))) == Size(cc) + TEST_SIZE + Size(bc) + JUMP_SIZE
  {
    hide Assemble, Test, Jump;
    FixedSizes(rel);
    FixedSizes(back);
    AssembleAppend(cc, Test(rel));
    AssembleAppend(bc, Jump(back));
    AssembleAppend(Test(rel), bc + Jump(back));
    AssembleAppend(cc, Test(rel) + (bc + Jump(back)));
  }

  lemma {:induction false} StmtsClosed(ss: seq<Stmt>, printAddr: Int32)
    requires Size(StmtsCode(ss, printAddr)) <= CODE_SIZE
    ensures Closed(StmtsCode(ss, printAddr))
    decreases ss, 0
  {
    hide Assemble, Closed, StmtCode;
    if ss == [] {
      ClosedStraight(StmtsCode(ss, printAddr));
    } else {
      AssembleAppend(StmtCode(ss[0], printAddr), StmtsCode(ss[1..], printAddr));
      StmtClosed(ss[0], printAddr);
      StmtsClosed(ss[1..], printAddr);
      ClosedAppend(StmtCode(ss[0], printAddr), StmtsCode(ss[1..], printAddr));
    }
  }

  /** Every jump of `ins` lands on an instruction of `ins`. */
  ghost predicate LandsInside(ins: seq<Op>) {
    forall i: nat :: i < |ins| && IsJump(ins[i]) ==> Boundary(ins, Target(ins, i)) && 0 <= Target(ins, i) < Size(ins)
  }

  lemma BoundaryInside(ins: seq<Op>, q: int)
    requires Boundary(ins, q)
    ensures 0 <= q <= Size(ins)
  {
    hide Assemble;
    var j: nat :| j <= |ins| && Size(ins[..j]) == q;
    assert ins == ins[..j] + ins[j..];
    AssembleAppend(ins[..j], ins[j..]);
  }

  /** Behind `body` there is still the code of `last`, so a jump to its end lands on an instruction. */
  lemma LandsBefore(head: seq<Op>, body: seq<Op>, last: seq<Op>)
    requires Closed(body) && Closed(head + (body + last)) && Size(last) > 0
    requires Straight(head)
    requires Straight(last)
    ensures LandsInside(head + (body + last))
  {
    hide Assemble, Boundary;
    var ins := head + (body + last);
    AssembleAppend(body, last);
    AssembleAppend(head, body + last);
    forall i: nat | i < |ins| && IsJump(ins[i])
      ensures Boundary(ins, Target(ins, i)) && 0 <= Target(ins, i) < Size(ins)
    {
      var k := i - |head|;
      assert 0 <= k < |body|;
      assert ins[..i + 1] == head + body[..k + 1];
      AssembleAppend(head, body[..k + 1]);
      BoundaryInside(body, Target(body, k));
    }
  }

  /** The bytes of a compiled program are one instruction stream, no placeholder is left in it, and every jump
      stays inside and lands on an instruction. */
  lemma ProgramLayout(body: Stmt, n: nat, printAddr: Int32)
    requires Size(ProgramCode(body, n, printAddr)) <= CODE_SIZE
    ensures var ins := ProgramCode(body, n, printAddr);
      Disassembles(Assemble(ins), 0, ins) && LandsInside(ins)
  {
    hide Assemble, Closed, StmtCode, Disassembles, LandsInside, X.Encode;
    var last: seq<Op> := [X.MovImm(X.EAX, 0)] + Epilogue();
    DisassembleAssemble(ProgramCode(body, n, printAddr));
    AssembleAppend(StmtCode(body, printAddr), last);
    AssembleAppend(Prologue(n), StmtCode(body, printAddr) + last);
    StmtClosed(body, printAddr);
    ClosedStraight(last);
    ClosedAppend(StmtCode(body, printAddr), last);
    ClosedStraight(Prologue(n));
    ClosedAppend(Prologue(n), StmtCode(body, printAddr) + last);
    LastIsCode(last);
    LandsBefore(Prologue(n), StmtCode(body, printAddr), last);
  }

  lemma LastIsCode(ins: seq<Op>)
    requires ins != []
    ensures Size(ins) > 0
  {
  }
}
