/** Compiler correctness: running the emitted bytes is running the source. */
module Correctness {
  import opened Words
  import opened Source
  import opened Codegen
  import X = X86

  // ---- single steps ----

  ghost predicate Loaded(w: X.World) {
    w.base + |w.code| <= TWO32
  }

  ghost predicate At(w: X.World, m: X.Machine, p: nat) {
    m.Running? && m.eip == w.base + p
  }

  /** The first of the instructions at `p` decodes, and the others follow it. */
  lemma FetchFirst(c: seq<Byte>, p: nat, ins: seq<Op>)
    requires ins != [] && Placed(c, p, ins)
    ensures Size(ins) == |X.Encode(ins[0])| + Size(ins[1..])
    ensures p < p + |X.Encode(ins[0])| <= |c|
    ensures Placed(c, p + |X.Encode(ins[0])|, ins[1..])
    ensures X.Decode(c, p) == X.Decoded(ins[0], p + |X.Encode(ins[0])|)
  {
    hide X.Decode, X.Encode, X.BytesAt;
    BytesSplit(c, p, X.Encode(ins[0]), Assemble(ins[1..]));
    FirstInside(c, p, X.Encode(ins[0]));
    X.DecodeEncode(c, p, ins[0]);
  }

  lemma FirstInside(c: seq<Byte>, p: nat, bs: seq<Byte>)
    requires X.BytesAt(c, p, bs)
    ensures p + |bs| <= |c|
  {
  }

  lemma StepFirst(w: X.World, m: X.Machine, p: nat, ins: seq<Op>)
    requires Loaded(w) && At(w, m, p) && ins != [] && Placed(w.code, p, ins)
    ensures X.Inside(w, m)
    ensures X.Step(w, m) == X.Execute(w, m.(eip := w.base + p + |X.Encode(ins[0])|), ins[0])
    ensures Placed(w.code, p + |X.Encode(ins[0])|, ins[1..])
    ensures Size(ins) == |X.Encode(ins[0])| + Size(ins[1..])
  {
    hide X.Decode, X.Encode, X.Execute, Assemble, Placed;
    FetchFirst(w.code, p, ins);
  }

  lemma RunFew(w: X.World, m: X.Machine)
    ensures X.Run(w, m, 0) == m && X.Run(w, m, 1) == X.Step(w, m)
    ensures X.Run(w, m, 2) == X.Step(w, X.Step(w, m))
    ensures X.Run(w, m, 3) == X.Step(w, X.Step(w, X.Step(w, m)))
    ensures X.Run(w, m, 4) == X.Step(w, X.Step(w, X.Step(w, X.Step(w, m))))
  {
    hide X.Step;
    var m1 := X.Step(w, m);
    var m2 := X.Step(w, m1);
    var m3 := X.Step(w, m2);
    assert X.Run(w, m, 1) == X.Run(w, m1, 0);
    assert X.Run(w, m, 2) == X.Run(w, m1, 1) == X.Run(w, m2, 0);
    assert X.Run(w, m, 3) == X.Run(w, m1, 2) == X.Run(w, m2, 1) == X.Run(w, m3, 0);
    assert X.Run(w, m, 4) == X.Run(w, m1, 3) == X.Run(w, m2, 2) == X.Run(w, m3, 1);
    assert X.Run(w, m3, 1) == X.Run(w, X.Step(w, m3), 0);
  }

  lemma RunSnoc(w: X.World, m: X.Machine, k: nat)
    ensures X.Run(w, m, k + 1) == X.Step(w, X.Run(w, m, k))
  {
    hide X.Step;
    X.RunAdd(w, m, k, 1);
    RunFew(w, X.Run(w, m, k));
  }

  // ---- frames ----

  /** The registers a callee must give back, the stack pointer, and the memory from `lo` up are the same. */
  ghost predicate Kept(m: X.Machine, r: X.Machine, lo: int) {
    && m.Running? && r.Running?
    && r.regs[X.ESP] == m.regs[X.ESP] && r.regs[X.EBP] == m.regs[X.EBP] && r.regs[X.EBX] == m.regs[X.EBX]
    && r.regs[X.ESI] == m.regs[X.ESI] && r.regs[X.EDI] == m.regs[X.EDI]
    && forall a :: a >= lo ==> X.Read(r.mem, a) == X.Read(m.mem, a)
  }

  /** The frame at `fp` holds the store, and the stack pointer `sp` is below its slots. */
  ghost predicate InFrame(m: X.Machine, fp: nat, n: nat, sp: nat, store: Store) {
    && m.Running?
    && fp < TWO32 && fp % 4 == 0 && sp % 4 == 0 && sp + 4 * n <= fp && n <= MAX_LOCALS
    && m.regs[X.EBP] == Pattern(fp) && m.regs[X.ESP] == Pattern(sp)
    && Covers(store, n)
    && forall off: nat :: Slot(off, n) ==> X.Read(m.mem, fp - off) == store[off]
  }

  lemma FrameFacts(m: X.Machine, fp: nat, n: nat, sp: nat, store: Store)
    requires InFrame(m, fp, n, sp, store)
    ensures m.Running? && Covers(store, n) && sp % 4 == 0 && sp < TWO32
  {
  }

  lemma LocalAddress(regs: X.Regs, fp: nat, n: nat, off: nat)
    requires fp < TWO32 && fp % 4 == 0 && 4 * n <= fp && n <= MAX_LOCALS && Slot(off, n)
    requires regs[X.EBP] == Pattern(fp)
    ensures Local(off).disp == 0 - off
    ensures X.Address(regs, X.EBP, Local(off).disp) == fp - off && (fp - off) % 4 == 0
  {
  }

  // ---- expressions ----

  /** Stack words an expression pushes at most. */
  ghost function Depth(e: Expr): nat {
    match e
    case Num(_) => 0
    case Var(_) => 0
    case Neg(e) => Depth(e)
    case Bin(_, l, r) =>
      var d := 1 + Depth(r);
      if Depth(l) > d then Depth(l) else d
  }

  /** `r` has computed `v` and stands at `p`; nothing else that matters has changed since `m`. */
  ghost predicate Delivered(w: X.World, m: X.Machine, r: X.Machine, p: nat, sp: nat, v: Int32) {
    At(w, r, p) && r.regs[X.EAX] == v && Kept(m, r, sp) && r.trace == m.trace
  }

  lemma CompareConditions(a: Int32, b: Int32)
    ensures var f := X.CompareFlags(a, b);
      && X.Condition(0x4, f) == Some(a == b) && X.Condition(0x5, f) == Some(a != b)
      && X.Condition(0xC, f) == Some(a < b) && X.Condition(0xF, f) == Some(a > b)
      && X.Condition(0xE, f) == Some(a <= b) && X.Condition(0xD, f) == Some(a >= b)
  {
  }

  lemma CompareRuns(w: X.World, m: X.Machine, p: nat, cc: nat, a: Int32, b: Int32, t: bool, sp: nat) returns (k: nat)
    requires Loaded(w) && At(w, m, p) && cc < 16 && Placed(w.code, p, Compare(cc))
    requires m.regs[X.EAX] == a && m.regs[X.ECX] == b && X.Condition(cc, X.CompareFlags(a, b)) == Some(t)
    ensures Delivered(w, m, X.Run(w, m, k), p + Size(Compare(cc)), sp, Truth(t))
  {
    hide X.Decode, X.Encode, Assemble, Placed, X.Step, X.Run, X.Condition, X.CompareFlags;
    var ins := Compare(cc);
    StepFirst(w, m, p, ins);
    var m1, p1 := X.Step(w, m), p + |X.Encode(ins[0])|;
    StepFirst(w, m1, p1, ins[1..]);
    var m2, p2 := X.Step(w, m1), p1 + |X.Encode(ins[1])|;
    StepFirst(w, m2, p2, ins[1..][1..]);
    k := 3;
    RunFew(w, m);
    EmptySize(ins[1..][1..][1..]);
  }

  lemma EmptySize(ins: seq<Op>)
    requires ins == []
    ensures Size(ins) == 0
  {
  }

  lemma ArithRuns(w: X.World, m: X.Machine, p: nat, op: BinOp, a: Int32, b: Int32, sp: nat) returns (k: nat)
    requires Loaded(w) && At(w, m, p) && Placed(w.code, p, OpCode(op)) && (op.Add? || op.Sub? || op.Mul?)
    requires m.regs[X.EAX] == a && m.regs[X.ECX] == b
    ensures Delivered(w, m, X.Run(w, m, k), p + Size(OpCode(op)), sp, Apply(op, a, b).v)
  {
    hide X.Decode, X.Encode, Assemble, Placed, X.Step, X.Run;
    StepFirst(w, m, p, OpCode(op));
    k := 1;
    RunFew(w, m);
    EmptySize(OpCode(op)[1..]);
  }

  lemma DivideRuns(w: X.World, m: X.Machine, p: nat, a: Int32, b: Int32, sp: nat) returns (k: nat)
    requires Loaded(w) && At(w, m, p) && Placed(w.code, p, OpCode(Div))
    requires m.regs[X.EAX] == a && m.regs[X.ECX] == b
    ensures var r := X.Run(w, m, k); match Apply(Div, a, b)
      case DivTrap => r == X.DivideError(m.trace)
      case Val(v) => Delivered(w, m, r, p + Size(OpCode(Div)), sp, v)
  {
    hide X.Decode, X.Encode, Assemble, Placed, X.Step, X.Run, Quotient;
    var ins := OpCode(Div);
    StepFirst(w, m, p, ins);
    var m1, p1 := X.Step(w, m), p + |X.Encode(ins[0])|;
    StepFirst(w, m1, p1, ins[1..]);
    k := 2;
    RunFew(w, m);
    EmptySize(ins[1..][1..]);
    assert m1.regs[X.EDX] * TWO32 + Unsigned(m1.regs[X.EAX]) == a;
    if b != 0 {
      DivideInRange(a, b);
    }
  }

  lemma OpRuns(w: X.World, m: X.Machine, p: nat, op: BinOp, a: Int32, b: Int32, sp: nat) returns (k: nat)
    requires Loaded(w) && At(w, m, p) && Placed(w.code, p, OpCode(op))
    requires m.regs[X.EAX] == a && m.regs[X.ECX] == b
    ensures var r := X.Run(w, m, k); match Apply(op, a, b)
      case DivTrap => r == X.DivideError(m.trace)
      case Val(v) => Delivered(w, m, r, p + Size(OpCode(op)), sp, v)
  {
    hide X.Decode, X.Encode, Assemble, Placed, X.Step, X.Run, X.Condition, X.CompareFlags, Delivered, Quotient;
    CompareConditions(a, b);
    match op
    case Div => k := DivideRuns(w, m, p, a, b, sp);
    case Eq => k := CompareRuns(w, m, p, 0x4, a, b, a == b, sp);
    case Ne => k := CompareRuns(w, m, p, 0x5, a, b, a != b, sp);
    case Lt => k := CompareRuns(w, m, p, 0xC, a, b, a < b, sp);
    case Gt => k := CompareRuns(w, m, p, 0xF, a, b, a > b, sp);
    case Le => k := CompareRuns(w, m, p, 0xE, a, b, a <= b, sp);
    case Ge => k := CompareRuns(w, m, p, 0xD, a, b, a >= b, sp);
    case _ => k := ArithRuns(w, m, p, op, a, b, sp);
  }

  lemma StillInFrame(m: X.Machine, r: X.Machine, fp: nat, n: nat, sp: nat, store: Store)
    requires InFrame(m, fp, n, sp, store) && Kept(m, r, sp)
    ensures InFrame(r, fp, n, sp, store)
  {
  }

  /** Running the code of an expression leaves its value in eax, or traps exactly when its evaluation does. */
  lemma {:induction false} ExprRuns(w: X.World, m: X.Machine, p: nat, e: Expr, fp: nat, n: nat, sp: nat, store: Store)
      returns (k: nat)
    requires Loaded(w) && At(w, m, p) && Placed(w.code, p, ExprCode(e))
    requires WfExpr(e, n) && InFrame(m, fp, n, sp, store) && 4 * Depth(e) <= sp
    ensures var r := X.Run(w, m, k); match Eval(e, n, store)
      case DivTrap => r == X.DivideError(m.trace)
      case Val(v) => Delivered(w, m, r, p + Size(ExprCode(e)), sp, v)
    decreases e, 1
  {
    hide X.Decode, X.Encode, Assemble, Placed, X.Step, X.Run, X.Execute, InFrame, Delivered, ExprCode;
    match e
    case Num(_) =>
      NumRuns(w, m, p, e, fp, n, sp, store);
      k := 1;
    case Var(off) =>
      VarRuns(w, m, p, e, fp, n, sp, store);
      k := 1;
    case Neg(e1) => k := NegRuns(w, m, p, e1, fp, n, sp, store);
    case Bin(op, l, r) => k := BinRuns(w, m, p, op, l, r, fp, n, sp, store);
  }

  lemma NumRuns(w: X.World, m: X.Machine, p: nat, e: Expr, fp: nat, n: nat, sp: nat, store: Store)
    requires Loaded(w) && At(w, m, p) && Placed(w.code, p, ExprCode(e)) && e.Num? && InFrame(m, fp, n, sp, store)
    ensures Delivered(w, m, X.Run(w, m, 1), p + Size(ExprCode(e)), sp, e.v)
  {
    hide X.Decode, X.Encode, Assemble, Placed, X.Step, X.Run, InFrame;
    FrameFacts(m, fp, n, sp, store);
    StepFirst(w, m, p, ExprCode(e));
    EmptySize(ExprCode(e)[1..]);
    RunFew(w, m);
  }

  lemma VarRuns(w: X.World, m: X.Machine, p: nat, e: Expr, fp: nat, n: nat, sp: nat, store: Store)
    requires Loaded(w) && At(w, m, p) && Placed(w.code, p, ExprCode(e)) && e.Var? && InFrame(m, fp, n, sp, store)
    requires Slot(e.off, n)
    ensures e.off in store && Delivered(w, m, X.Run(w, m, 1), p + Size(ExprCode(e)), sp, store[e.off])
  {
    hide X.Decode, X.Encode, Assemble, Placed, X.Step, X.Run;
    StepFirst(w, m, p, ExprCode(e));
    EmptySize(ExprCode(e)[1..]);
    RunFew(w, m);
    LocalAddress(m.regs, fp, n, e.off);
  }

  lemma {:induction false} NegRuns(w: X.World, m: X.Machine, p: nat, e1: Expr, fp: nat, n: nat, sp: nat, store: Store)
      returns (k: nat)
    requires Loaded(w) && At(w, m, p) && Placed(w.code, p, ExprCode(Neg(e1)))
    requires WfExpr(e1, n) && InFrame(m, fp, n, sp, store) && 4 * Depth(e1) <= sp
    ensures var r := X.Run(w, m, k); match Eval(Neg(e1), n, store)
      case DivTrap => r == X.DivideError(m.trace)
      case Val(v) => Delivered(w, m, r, p + Size(ExprCode(Neg(e1))), sp, v)
    decreases Neg(e1), 0
  {
    hide X.Decode, X.Encode, Assemble, Placed, X.Step, X.Run, InFrame, Delivered;
    FrameFacts(m, fp, n, sp, store);
    PlacedAppend(w.code, p, ExprCode(e1), [X.Neg(EAX)]);
    k := ExprRuns(w, m, p, e1, fp, n, sp, store);
    var v := Eval(e1, n, store);
    if v.Val? {
      NegateRuns(w, m, X.Run(w, m, k), p + Size(ExprCode(e1)), sp, v.v);
      RunSnoc(w, m, k);
      k := k + 1;
    }
  }

  lemma NegateRuns(w: X.World, m: X.Machine, m1: X.Machine, p: nat, sp: nat, v: Int32)
    requires Loaded(w) && Placed(w.code, p, [X.Neg(EAX)]) && Delivered(w, m, m1, p, sp, v)
    ensures Delivered(w, m, X.Step(w, m1), p + Size([X.Neg(EAX)]), sp, Wrap(0 - v))
  {
    hide X.Decode, X.Encode, Assemble, Placed, X.Step, X.Execute;
    StepFirst(w, m1, p, [X.Neg(EAX)]);
    EmptySize([X.Neg(EAX)][1..]);
    Negates(w, m1.(eip := w.base + p + Size([X.Neg(EAX)])));
  }

  lemma Negates(w: X.World, m: X.Machine)
    requires m.Running?
    ensures var v: int := m.regs[X.EAX];
      X.Execute(w, m, X.Neg(EAX)) == m.(flags := X.Undefined, regs := m.regs[X.EAX := Wrap(0 - v)])
  {
  }

  lemma {:induction false} BinRuns(w: X.World, m: X.Machine, p: nat, op: BinOp, l: Expr, r: Expr,
                                   fp: nat, n: nat, sp: nat, store: Store) returns (k: nat)
    requires Loaded(w) && At(w, m, p) && Placed(w.code, p, ExprCode(Bin(op, l, r)))
    requires WfExpr(l, n) && WfExpr(r, n) && InFrame(m, fp, n, sp, store) && 4 * Depth(Bin(op, l, r)) <= sp
    ensures var q := X.Run(w, m, k); match Eval(Bin(op, l, r), n, store)
      case DivTrap => q == X.DivideError(m.trace)
      case Val(v) => Delivered(w, m, q, p + Size(ExprCode(Bin(op, l, r))), sp, v)
    decreases Bin(op, l, r), 0
  {
    hide X.Decode, X.Encode, Assemble, Placed, X.Step, X.Run, X.Execute, Delivered, ExprCode, OpCode, Apply, Pushed, InFrame,
      Kept;
    var push, both := [X.Push(X.EAX)], [X.Mov(ECX, X.EAX), X.Pop(X.EAX)];
    FrameFacts(m, fp, n, sp, store);
    BinLayout(w.code, p, op, l, r);
    var p1 := p + Size(ExprCode(l));
    var p2 := p1 + Size(push);
    var p3 := p2 + Size(ExprCode(r));
    var p4 := p3 + Size(both);
    k := ExprRuns(w, m, p, l, fp, n, sp, store);
    var a := Eval(l, n, store);
    if a.DivTrap? { return; }
    var m1 := X.Run(w, m, k);
    PushRuns(w, m, m1, p1, fp, n, sp, store, a.v);
    RunSnoc(w, m, k);
    var m2 := X.Step(w, m1);
    var j := ExprRuns(w, m2, p2, r, fp, n, sp - 4, store);
    X.RunAdd(w, m, k + 1, j);
    k := k + 1 + j;
    var b := Eval(r, n, store);
    if b.DivTrap? { return; }
    var m3 := X.Run(w, m2, j);
    var m5 := PopRuns(w, m, m2, m3, p3, sp, a.v, b.v);
    X.RunAdd(w, m, k, 2);
    var i := OpRuns(w, m5, p4, op, a.v, b.v, sp);
    X.RunAdd(w, m, k + 2, i);
    k := k + 2 + i;
    if Apply(op, a.v, b.v).Val? {
      DeliveredTrans(w, m, m5, X.Run(w, m, k), p4 + Size(OpCode(op)), sp, Apply(op, a.v, b.v).v);
    }
  }

  lemma DeliveredTrans(w: X.World, m: X.Machine, m': X.Machine, r: X.Machine, p: nat, sp: nat, v: Int32)
    requires Kept(m, m', sp) && m'.trace == m.trace && Delivered(w, m', r, p, sp, v)
    ensures Delivered(w, m, r, p, sp, v)
  {
  }

  lemma BinLayout(c: seq<Byte>, p: nat, op: BinOp, l: Expr, r: Expr)
    requires Placed(c, p, ExprCode(Bin(op, l, r)))
    ensures var push, both := [X.Push(X.EAX)], [X.Mov(ECX, X.EAX), X.Pop(X.EAX)];
      var p1 := p + Size(ExprCode(l));
      var p2 := p1 + Size(push);
      var p3 := p2 + Size(ExprCode(r));
      var p4 := p3 + Size(both);
      && Placed(c, p, ExprCode(l)) && Placed(c, p1, push) && Placed(c, p2, ExprCode(r)) && Placed(c, p3, both)
      && Placed(c, p4, OpCode(op)) && p4 + Size(OpCode(op)) == p + Size(ExprCode(Bin(op, l, r)))
  {
    hide Assemble, Placed, OpCode;
    var push, both := [X.Push(X.EAX)], [X.Mov(ECX, X.EAX), X.Pop(X.EAX)];
    var t3 := both + OpCode(op);
    var t2 := ExprCode(r) + t3;
    var t1 := push + t2;
    var p1 := p + Size(ExprCode(l));
    PlacedAppend(c, p, ExprCode(l), t1);
    PlacedAppend(c, p1, push, t2);
    PlacedAppend(c, p1 + Size(push), ExprCode(r), t3);
    PlacedAppend(c, p1 + Size(push) + Size(ExprCode(r)), both, OpCode(op));
  }

  /** `r` is `m` after pushing `a`, whatever eax, ecx and edx hold. */
  ghost predicate Pushed(m: X.Machine, r: X.Machine, sp: nat, a: Int32)
    requires 4 <= sp < TWO32
  {
    && m.Running? && r.Running? && r.trace == m.trace && X.Read(r.mem, sp - 4) == a
    && m.regs[X.ESP] == Pattern(sp) && r.regs[X.ESP] == Pattern(sp - 4)
    && r.regs[X.EBP] == m.regs[X.EBP] && r.regs[X.EBX] == m.regs[X.EBX]
    && r.regs[X.ESI] == m.regs[X.ESI] && r.regs[X.EDI] == m.regs[X.EDI]
    && forall q :: q >= sp ==> X.Read(r.mem, q) == X.Read(m.mem, q)
  }

  lemma PushRuns(w: X.World, m: X.Machine, m1: X.Machine, p: nat, fp: nat, n: nat, sp: nat, store: Store, a: Int32)
    requires Loaded(w) && Placed(w.code, p, [X.Push(X.EAX)]) && 4 <= sp
    requires InFrame(m, fp, n, sp, store) && Delivered(w, m, m1, p, sp, a)
    ensures var m2 := X.Step(w, m1);
      && At(w, m2, p + Size([X.Push(X.EAX)])) && InFrame(m2, fp, n, sp - 4, store)
      && m2.trace == m.trace && Pushed(m, m2, sp, a)
  {
    hide X.Decode, X.Encode, Assemble, Placed, X.Step;
    StepFirst(w, m1, p, [X.Push(X.EAX)]);
    EmptySize([X.Push(X.EAX)][1..]);
  }

  lemma PopRuns(w: X.World, m: X.Machine, m2: X.Machine, m3: X.Machine, p: nat, sp: nat, a: Int32, b: Int32)
      returns (m5: X.Machine)
    requires Loaded(w) && Placed(w.code, p, [X.Mov(ECX, X.EAX), X.Pop(X.EAX)])
    requires 4 <= sp < TWO32 && sp % 4 == 0 && Pushed(m, m2, sp, a)
    requires Delivered(w, m2, m3, p, sp - 4, b)
    ensures m5 == X.Run(w, m3, 2)
    ensures At(w, m5, p + Size([X.Mov(ECX, X.EAX), X.Pop(X.EAX)])) && Kept(m, m5, sp) && m5.trace == m.trace
    ensures m5.regs[X.EAX] == a && m5.regs[X.ECX] == b
  {
    hide X.Decode, X.Encode, Assemble, Placed, X.Step;
    var both := [X.Mov(ECX, X.EAX), X.Pop(X.EAX)];
    StepFirst(w, m3, p, both);
    var m4 := X.Step(w, m3);
    StepFirst(w, m4, p + |X.Encode(both[0])|, both[1..]);
    m5 := X.Step(w, m4);
    EmptySize(both[1..][1..]);
    RunFew(w, m3);
  }

  // ---- statements ----

  /** Stack words a statement pushes at most; a print pushes its argument and a return address. */
  ghost function StmtDepth(s: Stmt): nat
    decreases s, 1
  {
    match s
    case Block(ss) => StmtsDepth(ss)
    case Decl(_, init) => if init.Some? then Depth(init.value) else 0
    case Assign(_, e) => Depth(e)
    case If(c, t, els) => Max(Depth(c), Max(StmtDepth(t), if els.Some? then StmtDepth(els.value) else 0))
    case While(c, b) => Max(Depth(c), StmtDepth(b))
    case Print(e) => Max(Depth(e), 2)
    case Return(e) => Depth(e)
  }

  ghost function StmtsDepth(ss: seq<Stmt>): nat
    decreases ss, 0
  {
    if ss == [] then 0 else Max(StmtDepth(ss[0]), StmtsDepth(ss[1..]))
  }

  /** The machine `r` has returned `v` to the caller of the frame at `fp`. */
  ghost predicate Left(m: X.Machine, r: X.Machine, fp: nat, v: Int32, trace: seq<Int32>)
    requires m.Running? && fp + 8 < TWO32
  {
    && r.Running? && r.eip == Unsigned(X.Read(m.mem, fp + 4)) && r.regs[X.EAX] == v && r.trace == trace
    && r.regs[X.ESP] == Pattern(fp + 8) && r.regs[X.EBP] == X.Read(m.mem, fp)
    && r.regs[X.EBX] == m.regs[X.EBX] && r.regs[X.ESI] == m.regs[X.ESI] && r.regs[X.EDI] == m.regs[X.EDI]
    && forall a :: a >= fp ==> X.Read(r.mem, a) == X.Read(m.mem, a)
  }

  /** After `k` steps from `m` the machine `r` shows the source outcome `o`; a normal outcome leaves it at `p`. */
  ghost predicate Matches(w: X.World, m: X.Machine, r: X.Machine, p: nat, fp: nat, n: nat, k: nat, fuel: nat, o: Outcome)
    requires m.Running? && 4 * n <= fp && fp + 8 < TWO32
  {
    match o
    case Normal(store, trace) =>
      At(w, r, p) && Kept(m, r, fp) && r.trace == trace && InFrame(r, fp, n, fp - 4 * n, store)
    case Returned(v, trace) => Left(m, r, fp, v, trace)
    case Trapped(trace) => r == X.DivideError(trace)
    case Timeout(trace) => X.Inside(w, r) && r.trace == trace && k >= fuel
  }

  lemma MatchesAfter(w: X.World, m: X.Machine, m1: X.Machine, r: X.Machine, p: nat, fp: nat, n: nat,
                     k: nat, fuel: nat, k1: nat, fuel1: nat, o: Outcome)
    requires m.Running? && 4 * n <= fp && fp + 8 < TWO32
    requires Kept(m, m1, fp) && Matches(w, m1, r, p, fp, n, k1, fuel1, o)
    requires o.Timeout? ==> k >= fuel
    ensures Matches(w, m, r, p, fp, n, k, fuel, o)
  {
  }

  lemma JumpRuns(w: X.World, m: X.Machine, p: nat, rel: int)
    requires Loaded(w) && |w.code| <= CODE_SIZE && At(w, m, p) && Placed(w.code, p, Jump(rel))
    requires 0 <= p + JUMP_SIZE + rel < |w.code|
    ensures X.Step(w, m) == m.(eip := w.base + p + JUMP_SIZE + rel)
  {
    hide X.Decode, X.Encode, Assemble, Placed, X.Step;
    StepFirst(w, m, p, Jump(rel));
    EmptySize(Jump(rel)[1..]);
    FixedSizes(rel);
  }

  lemma TestRuns(w: X.World, m: X.Machine, p: nat, rel: int)
    requires Loaded(w) && |w.code| <= CODE_SIZE && At(w, m, p) && Placed(w.code, p, Test(rel))
    requires 0 <= p + TEST_SIZE + rel < |w.code|
    ensures var r := X.Run(w, m, 2);
      r.Running? && r == m.(eip := w.base + p + TEST_SIZE + (if m.regs[X.EAX] == 0 then rel else 0), flags := r.flags)
  {
    hide X.Decode, X.Encode, Assemble, Placed, X.Step, X.Execute;
    var ins := Test(rel);
    StepFirst(w, m, p, ins);
    TestZero(w, m.(eip := w.base + p + |X.Encode(ins[0])|));
    StepFirst(w, X.Step(w, m), p + |X.Encode(ins[0])|, ins[1..]);
    EmptySize(ins[1..][1..]);
    FixedSizes(rel);
    JumpIfZero(w, X.Step(w, m).(eip := w.base + p + TEST_SIZE), rel);
    RunFew(w, m);
  }

  lemma TestZero(w: X.World, m: X.Machine)
    requires m.Running?
    ensures X.Execute(w, m, X.Test(EAX, X.EAX)) == m.(flags := X.Flags(m.regs[X.EAX] == 0, m.regs[X.EAX] < 0, false))
  {
  }

  lemma JumpIfZero(w: X.World, m: X.Machine, rel: int)
    requires m.Running? && m.flags.Flags? && 0 <= m.eip + rel < TWO32 && -TWO31 <= rel < TWO31
    ensures X.Execute(w, m, X.Jz(Wrap(rel))) == m.(eip := m.eip + if m.flags.zf then rel else 0)
  {
  }

  /** A condition and its test: fall through when it holds, jump by `rel` when it is zero. */
  lemma CondRuns(w: X.World, m: X.Machine, p: nat, c: Expr, rel: int, fp: nat, n: nat, store: Store) returns (k: nat)
    requires Loaded(w) && |w.code| <= CODE_SIZE && At(w, m, p)
    requires Placed(w.code, p, ExprCode(c)) && Placed(w.code, p + Size(ExprCode(c)), Test(rel))
    requires 0 <= p + Size(ExprCode(c)) + TEST_SIZE + rel < |w.code|
    requires WfExpr(c, n) && 4 * n <= fp && InFrame(m, fp, n, fp - 4 * n, store) && 4 * Depth(c) <= fp - 4 * n
    ensures var r := X.Run(w, m, k); match Eval(c, n, store)
      case DivTrap => r == X.DivideError(m.trace)
      case Val(v) =>
        && 1 <= k && At(w, r, p + Size(ExprCode(c)) + TEST_SIZE + if v == 0 then rel else 0)
        && Kept(m, r, fp) && r.trace == m.trace && InFrame(r, fp, n, fp - 4 * n, store)
  {
    hide X.Decode, X.Encode, Assemble, Placed, X.Step, X.Run, ExprCode;
    k := ExprRuns(w, m, p, c, fp, n, fp - 4 * n, store);
    if Eval(c, n, store).Val? {
      var r := X.Run(w, m, k);
      TestRuns(w, r, p + Size(ExprCode(c)), rel);
      X.RunAdd(w, m, k, 2);
      StillInFrame(m, X.Run(w, r, 2), fp, n, fp - 4 * n, store);
      k := k + 2;
    }
  }

  lemma StoreRuns(w: X.World, m: X.Machine, p: nat, off: nat, fp: nat, n: nat, store: Store, v: Int32)
    requires Loaded(w) && At(w, m, p) && Placed(w.code, p, StoreLocal(off)) && Slot(off, n)
    requires 4 * n <= fp && InFrame(m, fp, n, fp - 4 * n, store) && m.regs[X.EAX] == v
    ensures var r := X.Step(w, m);
      && At(w, r, p + Size(StoreLocal(off))) && Kept(m, r, fp) && r.trace == m.trace
      && InFrame(r, fp, n, fp - 4 * n, store[off := v])
  {
    hide X.Decode, X.Encode, Assemble, Placed, X.Step;
    StepFirst(w, m, p, StoreLocal(off));
    EmptySize(StoreLocal(off)[1..]);
    LocalAddress(m.regs, fp, n, off);
  }

  lemma ZeroRuns(w: X.World, m: X.Machine, p: nat, off: nat, fp: nat, n: nat, store: Store)
    requires var ins := [X.MovRmImm(Local(off), 0)];
      Loaded(w) && At(w, m, p) && Placed(w.code, p, ins) && Slot(off, n)
    requires 4 * n <= fp && InFrame(m, fp, n, fp - 4 * n, store)
    ensures var r := X.Step(w, m); var ins := [X.MovRmImm(Local(off), 0)];
      && At(w, r, p + Size(ins)) && Kept(m, r, fp) && r.trace == m.trace
      && InFrame(r, fp, n, fp - 4 * n, store[off := 0])
  {
    hide X.Decode, X.Encode, Assemble, Placed, X.Step;
    var ins := [X.MovRmImm(Local(off), 0)];
    StepFirst(w, m, p, ins);
    EmptySize(ins[1..]);
    LocalAddress(m.regs, fp, n, off);
  }

  lemma AssignRuns(w: X.World, m: X.Machine, p: nat, off: nat, e: Expr, fp: nat, n: nat, store: Store) returns (k: nat)
    requires Loaded(w) && At(w, m, p) && Placed(w.code, p, ExprCode(e) + StoreLocal(off))
    requires Slot(off, n) && WfExpr(e, n) && 4 * n <= fp && fp + 8 < TWO32
    requires InFrame(m, fp, n, fp - 4 * n, store) && 4 * Depth(e) <= fp - 4 * n
    ensures Matches(w, m, X.Run(w, m, k), p + Size(ExprCode(e) + StoreLocal(off)), fp, n, k, k,
                    var v := Eval(e, n, store);
                    if v.DivTrap? then Trapped(m.trace) else Normal(store[off := v.v], m.trace))
  {
    hide X.Decode, X.Encode, Assemble, Placed, X.Step, X.Run, ExprCode, StoreLocal;
    PlacedAppend(w.code, p, ExprCode(e), StoreLocal(off));
    k := ExprRuns(w, m, p, e, fp, n, fp - 4 * n, store);
    var v := Eval(e, n, store);
    if v.Val? {
      var r := X.Run(w, m, k);
      StillInFrame(m, r, fp, n, fp - 4 * n, store);
      StoreRuns(w, r, p + Size(ExprCode(e)), off, fp, n, store, v.v);
      RunSnoc(w, m, k);
      k := k + 1;
    }
  }

  lemma CallRuns(w: X.World, m: X.Machine, p: nat, fp: nat, n: nat, store: Store, v: Int32)
    requires Loaded(w) && At(w, m, p) && Placed(w.code, p, CallPrint(w.printAddr))
    requires 4 * n + 8 <= fp && InFrame(m, fp, n, fp - 4 * n, store) && m.regs[X.EAX] == v
    ensures var r := X.Run(w, m, 4);
      && At(w, r, p + Size(CallPrint(w.printAddr))) && Kept(m, r, fp) && r.trace == m.trace + [v]
      && InFrame(r, fp, n, fp - 4 * n, store)
  {
    hide X.Decode, X.Encode, Assemble, Placed, X.Step, X.Execute, X.Read, Covers, Slot;
    var ins, sp := CallPrint(w.printAddr), fp - 4 * n;
    StepFirst(w, m, p, ins);
    var m1, p1 := X.Step(w, m), p + |X.Encode(ins[0])|;
    PushArgument(w, m, m1, p1, sp, v);
    StepFirst(w, m1, p1, ins[1..]);
    var m2, p2 := X.Step(w, m1), p1 + |X.Encode(ins[1])|;
    assert m2 == m1.(eip := w.base + p2, regs := m1.regs[X.EAX := w.printAddr]) by { LoadImmediate(w, m1.(eip := w.base + p2)); }
    StepFirst(w, m2, p2, ins[1..][1..]);
    var m3, p3 := X.Step(w, m2), p2 + |X.Encode(ins[2])|;
    CallPrinted(w, m, m2, m3, p3, sp, v);
    StepFirst(w, m3, p3, ins[1..][1..][1..]);
    var m4 := X.Step(w, m3);
    EmptySize(ins[1..][1..][1..][1..]);
    DropArgument(w, m3, m4, p3 + |X.Encode(ins[3])|, sp);
    StillInFrame(m, m4, fp, n, sp, store);
    RunFew(w, m);
  }

  lemma PushArgument(w: X.World, m: X.Machine, m1: X.Machine, p1: nat, sp: nat, v: Int32)
    requires m.Running? && m.regs[X.EAX] == v && 4 <= sp < TWO32 && sp % 4 == 0 && m.regs[X.ESP] == Pattern(sp)
    requires m1 == X.Execute(w, m.(eip := w.base + p1), X.Push(X.EAX))
    ensures At(w, m1, p1) && Pushed(m, m1, sp, v)
  {
  }

  lemma LoadImmediate(w: X.World, m: X.Machine)
    requires m.Running?
    ensures X.Execute(w, m, X.MovImm(X.EAX, w.printAddr)) == m.(regs := m.regs[X.EAX := w.printAddr])
  {
  }

  lemma CallPrinted(w: X.World, m: X.Machine, m2: X.Machine, m3: X.Machine, p3: nat, sp: nat, v: Int32)
    requires 8 <= sp < TWO32 && sp % 4 == 0 && Pushed(m, m2, sp, v) && m2.regs[X.EAX] == w.printAddr
    requires m3 == X.Execute(w, m2.(eip := w.base + p3), X.Call(EAX))
    ensures At(w, m3, p3) && m3.trace == m.trace + [v]
    ensures m3.regs[X.ESP] == Pattern(sp - 4) && Kept(m, m3.(regs := m3.regs[X.ESP := m.regs[X.ESP]]), sp)
  {
  }

  lemma DropArgument(w: X.World, m3: X.Machine, m4: X.Machine, p4: nat, sp: nat)
    requires 8 <= sp < TWO32 && m3.Running? && m3.regs[X.ESP] == Pattern(sp - 4)
    requires m4 == X.Execute(w, m3.(eip := w.base + p4), X.AddImm8(ESP, 4))
    ensures m4 == m3.(eip := w.base + p4, flags := X.Undefined, regs := m3.regs[X.ESP := Pattern(sp)])
  {
  }

  lemma EpilogueRuns(w: X.World, m: X.Machine, p: nat, fp: nat, n: nat, store: Store, v: Int32)
    requires Loaded(w) && At(w, m, p) && Placed(w.code, p, Epilogue())
    requires 4 * n <= fp && fp + 8 < TWO32 && InFrame(m, fp, n, fp - 4 * n, store) && m.regs[X.EAX] == v
    ensures Left(m, X.Run(w, m, 3), fp, v, m.trace)
  {
    hide X.Decode, X.Encode, Assemble, Placed, X.Step, X.Execute, Covers, Slot;
    var ins := Epilogue();
    StepFirst(w, m, p, ins);
    var m1, p1 := X.Step(w, m), p + |X.Encode(ins[0])|;
    DropFrame(w, m, p1, fp);
    StepFirst(w, m1, p1, ins[1..]);
    var m2, p2 := X.Step(w, m1), p1 + |X.Encode(ins[1])|;
    RestoreBase(w, m1, p2, fp);
    StepFirst(w, m2, p2, ins[1..][1..]);
    GoBack(w, m2, p2 + |X.Encode(ins[2])|, fp);
    RunFew(w, m);
  }

  lemma DropFrame(w: X.World, m: X.Machine, p1: nat, fp: nat)
    requires m.Running? && fp < TWO32 && m.regs[X.EBP] == Pattern(fp)
    ensures X.Execute(w, m.(eip := w.base + p1), X.Mov(ESP, X.EBP)) ==
            m.(eip := w.base + p1, regs := m.regs[X.ESP := Pattern(fp)])
  {
  }

  lemma RestoreBase(w: X.World, m1: X.Machine, p2: nat, fp: nat)
    requires m1.Running? && fp % 4 == 0 && fp + 4 < TWO32 && m1.regs[X.ESP] == Pattern(fp)
    ensures X.Execute(w, m1.(eip := w.base + p2), X.Pop(X.EBP)) ==
            m1.(eip := w.base + p2, regs := m1.regs[X.ESP := Pattern(fp + 4)][X.EBP := X.Read(m1.mem, fp)])
  {
  }

  lemma GoBack(w: X.World, m2: X.Machine, p3: nat, fp: nat)
    requires m2.Running? && fp % 4 == 0 && fp + 8 < TWO32 && m2.regs[X.ESP] == Pattern(fp + 4)
    ensures X.Execute(w, m2.(eip := w.base + p3), X.Ret) ==
            m2.(eip := Unsigned(X.Read(m2.mem, fp + 4)), regs := m2.regs[X.ESP := Pattern(fp + 8)])
  {
  }

  lemma PrintRuns(w: X.World, m: X.Machine, p: nat, e: Expr, fp: nat, n: nat, store: Store) returns (k: nat)
    requires Loaded(w) && At(w, m, p) && Placed(w.code, p, ExprCode(e) + CallPrint(w.printAddr))
    requires WfExpr(e, n) && 4 * n <= fp && fp + 8 < TWO32
    requires InFrame(m, fp, n, fp - 4 * n, store) && 4 * Max(Depth(e), 2) <= fp - 4 * n
    ensures Matches(w, m, X.Run(w, m, k), p + Size(ExprCode(e) + CallPrint(w.printAddr)), fp, n, k, k,
                    Exec(Print(e), n, store, m.trace, 0))
  {
    hide X.Decode, X.Encode, Assemble, Placed, X.Step, X.Run, ExprCode, CallPrint;
    PlacedAppend(w.code, p, ExprCode(e), CallPrint(w.printAddr));
    k := ExprRuns(w, m, p, e, fp, n, fp - 4 * n, store);
    var v := Eval(e, n, store);
    if v.Val? {
      var r := X.Run(w, m, k);
      StillInFrame(m, r, fp, n, fp - 4 * n, store);
      CallRuns(w, r, p + Size(ExprCode(e)), fp, n, store, v.v);
      X.RunAdd(w, m, k, 4);
      k := k + 4;
    }
  }

  lemma ReturnRuns(w: X.World, m: X.Machine, p: nat, e: Expr, fp: nat, n: nat, store: Store) returns (k: nat)
    requires Loaded(w) && At(w, m, p) && Placed(w.code, p, ExprCode(e) + Epilogue())
    requires WfExpr(e, n) && 4 * n <= fp && fp + 8 < TWO32
    requires InFrame(m, fp, n, fp - 4 * n, store) && 4 * Depth(e) <= fp - 4 * n
    ensures Matches(w, m, X.Run(w, m, k), p + Size(ExprCode(e) + Epilogue()), fp, n, k, k,
                    Exec(Return(e), n, store, m.trace, 0))
  {
    hide X.Decode, X.Encode, Assemble, Placed, X.Step, X.Run, ExprCode, Epilogue, Depth, Slot, X.Read, Left;
    PlacedAppend(w.code, p, ExprCode(e), Epilogue());
    k := ExprRuns(w, m, p, e, fp, n, fp - 4 * n, store);
    var v := Eval(e, n, store);
    if v.Val? {
      var r := X.Run(w, m, k);
      StillInFrame(m, r, fp, n, fp - 4 * n, store);
      EpilogueRuns(w, r, p + Size(ExprCode(e)), fp, n, store, v.v);
      LeftAfter(m, r, X.Run(w, r, 3), fp, fp - 4 * n, v.v);
      X.RunAdd(w, m, k, 3);
      k := k + 3;
    }
  }

  lemma LeftAfter(m: X.Machine, r: X.Machine, q: X.Machine, fp: nat, lo: nat, v: Int32)
    requires fp + 8 < TWO32 && lo <= fp && Kept(m, r, lo) && Left(r, q, fp, v, r.trace)
    ensures Left(m, q, fp, v, r.trace)
  {
  }

  /** What holds where a statement starts to run. */
  ghost predicate Starts(w: X.World, m: X.Machine, p: nat, ins: seq<Op>, depth: nat, fp: nat, n: nat, store: Store) {
    && Loaded(w) && |w.code| <= CODE_SIZE && At(w, m, p) && Placed(w.code, p, ins) && p + Size(ins) < |w.code|
    && 4 * n <= fp && fp + 8 < TWO32 && InFrame(m, fp, n, fp - 4 * n, store) && 4 * depth <= fp - 4 * n
    && Covers(store, n)
  }

  /** Running the code of a statement matches the source run step for step, whatever the fuel. */
  lemma {:induction false} StmtRuns(w: X.World, m: X.Machine, p: nat, s: Stmt, fp: nat, n: nat, store: Store, fuel: nat)
      returns (k: nat)
    requires Starts(w, m, p, StmtCode(s, w.printAddr), StmtDepth(s), fp, n, store) && WfStmt(s, n)
    ensures Matches(w, m, X.Run(w, m, k), p + Size(StmtCode(s, w.printAddr)), fp, n, k, fuel,
                    Exec(s, n, store, m.trace, fuel))
    decreases fuel, s, 2
  {
    hide X.Decode, X.Encode, Assemble, Placed, X.Step, X.Run, ExprCode, StoreLocal, Matches, InFrame, Covers, WfExpr, Depth;
    match s
    case Block(ss) => k := StmtsRuns(w, m, p, ss, fp, n, store, fuel);
    case Decl(_, _) => k := DeclRuns(w, m, p, s, fp, n, store, fuel);
    case Assign(off, e) =>
      k := AssignRuns(w, m, p, off, e, fp, n, store);
      MatchesFuel(w, m, X.Run(w, m, k), p + Size(StmtCode(s, w.printAddr)), fp, n, k, k, fuel, Exec(s, n, store, m.trace, fuel));
    case If(c, t, els) =>
      if els.None? {
        k := IfRuns(w, m, p, s, fp, n, store, fuel);
      } else {
        k := IfElseRuns(w, m, p, s, fp, n, store, fuel);
      }
    case While(c, b) => k := WhileRuns(w, m, p, s, fp, n, store, fuel);
    case Print(e) =>
      k := PrintRuns(w, m, p, e, fp, n, store);
      MatchesFuel(w, m, X.Run(w, m, k), p + Size(StmtCode(s, w.printAddr)), fp, n, k, k, fuel, Exec(s, n, store, m.trace, fuel));
    case Return(e) =>
      k := ReturnRuns(w, m, p, e, fp, n, store);
      MatchesFuel(w, m, X.Run(w, m, k), p + Size(StmtCode(s, w.printAddr)), fp, n, k, k, fuel, Exec(s, n, store, m.trace, fuel));
  }

  lemma MatchesNormal(w: X.World, m: X.Machine, r: X.Machine, p: nat, fp: nat, n: nat, k: nat, fuel: nat,
                      store: Store, trace: seq<Int32>)
    requires m.Running? && 4 * n <= fp && fp + 8 < TWO32
    requires At(w, r, p) && Kept(m, r, fp) && r.trace == trace && InFrame(r, fp, n, fp - 4 * n, store)
    ensures Matches(w, m, r, p, fp, n, k, fuel, Normal(store, trace))
  {
  }

  lemma DeclRuns(w: X.World, m: X.Machine, p: nat, s: Stmt, fp: nat, n: nat, store: Store, fuel: nat) returns (k: nat)
    requires s.Decl?
    requires Starts(w, m, p, StmtCode(s, w.printAddr), StmtDepth(s), fp, n, store) && WfStmt(s, n)
    ensures Matches(w, m, X.Run(w, m, k), p + Size(StmtCode(s, w.printAddr)), fp, n, k, fuel,
                    Exec(s, n, store, m.trace, fuel))
  {
    hide X.Decode, X.Encode, Assemble, Placed, X.Step, X.Run, ExprCode, StoreLocal, Matches, InFrame, Covers, WfExpr, Depth;
    var p1 := p + Size(StmtCode(s, w.printAddr));
    if s.init.None? {
      ZeroRuns(w, m, p, s.off, fp, n, store);
      RunFew(w, m);
      k := 1;
      MatchesNormal(w, m, X.Run(w, m, 1), p1, fp, n, k, fuel, store[s.off := 0], m.trace);
    } else {
      k := AssignRuns(w, m, p, s.off, s.init.value, fp, n, store);
      MatchesFuel(w, m, X.Run(w, m, k), p1, fp, n, k, k, fuel, Exec(s, n, store, m.trace, fuel));
    }
  }

  lemma MatchesFuel(w: X.World, m: X.Machine, r: X.Machine, p: nat, fp: nat, n: nat, k: nat, fuel: nat, fuel1: nat,
                    o: Outcome)
    requires m.Running? && 4 * n <= fp && fp + 8 < TWO32 && !o.Timeout? && Matches(w, m, r, p, fp, n, k, fuel, o)
    ensures Matches(w, m, r, p, fp, n, k, fuel1, o)
  {
  }

  lemma {:induction false} StmtsRuns(w: X.World, m: X.Machine, p: nat, ss: seq<Stmt>, fp: nat, n: nat, store: Store, fuel: nat)
      returns (k: nat)
    requires Starts(w, m, p, StmtsCode(ss, w.printAddr), StmtsDepth(ss), fp, n, store) && WfStmts(ss, n)
    ensures Matches(w, m, X.Run(w, m, k), p + Size(StmtsCode(ss, w.printAddr)), fp, n, k, fuel,
                    ExecAll(ss, n, store, m.trace, fuel))
    decreases fuel, ss, 0
  {
    hide X.Decode, X.Encode, Placed, X.Step, X.Run, StmtCode, InFrame, Matches, Kept, Size;
    var end := p + Size(StmtsCode(ss, w.printAddr));
    if ss == [] {
      k := 0;
      RunFew(w, m);
      EmptySize(StmtsCode(ss, w.printAddr));
      KeptRefl(m, fp);
      MatchesNormal(w, m, m, end, fp, n, 0, fuel, store, m.trace);
    } else {
      var first, rest := StmtCode(ss[0], w.printAddr), StmtsCode(ss[1..], w.printAddr);
      PlacedAppend(w.code, p, first, rest);
      k := StmtRuns(w, m, p, ss[0], fp, n, store, fuel);
      var o := Exec(ss[0], n, store, m.trace, fuel);
      MatchesElim(w, m, X.Run(w, m, k), p + Size(first), fp, n, k, fuel, o);
      if o.Normal? {
        var j := StmtsRuns(w, X.Run(w, m, k), p + Size(first), ss[1..], fp, n, o.store, fuel);
        k := Chain(w, m, k, j, end, fp, n, fuel, ExecAll(ss[1..], n, o.store, o.trace, fuel));
      }
    }
  }

  lemma KeptRefl(m: X.Machine, lo: int)
    requires m.Running?
    ensures Kept(m, m, lo)
  {
  }

  lemma {:induction false} IfRuns(w: X.World, m: X.Machine, p: nat, s: Stmt, fp: nat, n: nat, store: Store, fuel: nat)
      returns (k: nat)
    requires s.If? && s.els.None?
    requires Starts(w, m, p, StmtCode(s, w.printAddr), StmtDepth(s), fp, n, store) && WfStmt(s, n)
    ensures Matches(w, m, X.Run(w, m, k), p + Size(StmtCode(s, w.printAddr)), fp, n, k, fuel,
                    Exec(s, n, store, m.trace, fuel))
    decreases fuel, s, 1
  {
    hide X.Decode, X.Encode, Assemble, Placed, X.Step, X.Run, ExprCode, InFrame, Kept, Test;
    var tc := StmtCode(s.thn, w.printAddr);
    var test := Test(Size(tc));
    var end := p + Size(StmtCode(s, w.printAddr));
    PlacedAppend(w.code, p, ExprCode(s.cond), test + tc);
    PlacedAppend(w.code, p + Size(ExprCode(s.cond)), test, tc);
    FixedSizes(Size(tc));
    k := CondRuns(w, m, p, s.cond, Size(tc), fp, n, store);
    var v := Eval(s.cond, n, store);
    if v.Val? && v.v != 0 {
      var r := X.Run(w, m, k);
      var j := StmtRuns(w, r, p + Size(ExprCode(s.cond)) + TEST_SIZE, s.thn, fp, n, store, fuel);
      X.RunAdd(w, m, k, j);
      MatchesAfter(w, m, r, X.Run(w, r, j), end, fp, n, k + j, fuel, j, fuel, Exec(s.thn, n, store, m.trace, fuel));
      k := k + j;
    }
  }

  /** Where the parts of an if-else stand. */
  lemma IfElseLayout(c: seq<Byte>, p: nat, s: Stmt, printAddr: Int32)
    requires s.If? && s.els.Some? && Placed(c, p, StmtCode(s, printAddr))
    ensures var tc, ec := StmtCode(s.thn, printAddr), StmtCode(s.els.value, printAddr);
      var p0 := p + Size(ExprCode(s.cond));
      var p1 := p0 + TEST_SIZE;
      var p2 := p1 + Size(tc);
      && Placed(c, p, ExprCode(s.cond)) && Placed(c, p0, Test(Size(tc) + JUMP_SIZE)) && Placed(c, p1, tc)
      && Placed(c, p2, Jump(Size(ec))) && Placed(c, p2 + JUMP_SIZE, ec)
      && p2 + JUMP_SIZE + Size(ec) == p + Size(StmtCode(s, printAddr))
  {
    hide Assemble, Placed, ExprCode, Test, Jump;
    var tc, ec := StmtCode(s.thn, printAddr), StmtCode(s.els.value, printAddr);
    var test, jump := Test(Size(tc) + JUMP_SIZE), Jump(Size(ec));
    var p0 := p + Size(ExprCode(s.cond));
    PlacedAppend(c, p, ExprCode(s.cond), test + (tc + (jump + ec)));
    PlacedAppend(c, p0, test, tc + (jump + ec));
    FixedSizes(Size(tc) + JUMP_SIZE);
    FixedSizes(Size(ec));
    PlacedAppend(c, p0 + TEST_SIZE, tc, jump + ec);
    PlacedAppend(c, p0 + TEST_SIZE + Size(tc), jump, ec);
  }

  lemma {:induction false} IfElseRuns(w: X.World, m: X.Machine, p: nat, s: Stmt, fp: nat, n: nat, store: Store, fuel: nat)
      returns (k: nat)
    requires s.If? && s.els.Some?
    requires Starts(w, m, p, StmtCode(s, w.printAddr), StmtDepth(s), fp, n, store) && WfStmt(s, n)
    ensures Matches(w, m, X.Run(w, m, k), p + Size(StmtCode(s, w.printAddr)), fp, n, k, fuel,
                    Exec(s, n, store, m.trace, fuel))
    decreases fuel, s, 1
  {
    hide X.Decode, X.Encode, Placed, X.Step, X.Run, ExprCode, StmtCode, InFrame, Kept, Test, Jump, Matches, Size;
    var tc, ec := StmtCode(s.thn, w.printAddr), StmtCode(s.els.value, w.printAddr);
    var p1 := p + Size(ExprCode(s.cond)) + TEST_SIZE;
    var p2 := p1 + Size(tc);
    var end := p + Size(StmtCode(s, w.printAddr));
    IfElseLayout(w.code, p, s, w.printAddr);
    k := CondRuns(w, m, p, s.cond, Size(tc) + JUMP_SIZE, fp, n, store);
    var v := Eval(s.cond, n, store);
    var r := X.Run(w, m, k);
    if v.DivTrap? {
      MatchesTrap(w, m, r, end, fp, n, k, fuel);
    } else if v.v != 0 {
      var j := StmtRuns(w, r, p1, s.thn, fp, n, store, fuel);
      var o := Exec(s.thn, n, store, m.trace, fuel);
      var i := JumpAfter(w, r, j, p2, Size(ec), fp, n, fuel, o);
      k := Chain(w, m, k, i, end, fp, n, fuel, o);
    } else {
      var j := StmtRuns(w, r, p2 + JUMP_SIZE, s.els.value, fp, n, store, fuel);
      k := Chain(w, m, k, j, end, fp, n, fuel, Exec(s.els.value, n, store, m.trace, fuel));
    }
  }

  lemma Chain(w: X.World, m: X.Machine, k: nat, j: nat, p: nat, fp: nat, n: nat, fuel: nat, o: Outcome) returns (kj: nat)
    requires m.Running? && 4 * n <= fp && fp + 8 < TWO32
    requires Kept(m, X.Run(w, m, k), fp) && Matches(w, X.Run(w, m, k), X.Run(w, X.Run(w, m, k), j), p, fp, n, j, fuel, o)
    ensures kj == k + j && Matches(w, m, X.Run(w, m, kj), p, fp, n, kj, fuel, o)
  {
    hide X.Run;
    X.RunAdd(w, m, k, j);
    kj := k + j;
    MatchesAfter(w, m, X.Run(w, m, k), X.Run(w, m, kj), p, fp, n, kj, fuel, j, fuel, o);
  }

  lemma MatchesTrap(w: X.World, m: X.Machine, r: X.Machine, p: nat, fp: nat, n: nat, k: nat, fuel: nat)
    requires m.Running? && 4 * n <= fp && fp + 8 < TWO32 && r == X.DivideError(m.trace)
    ensures Matches(w, m, r, p, fp, n, k, fuel, Trapped(m.trace))
  {
  }

  lemma MatchesTimeout(w: X.World, m: X.Machine, p: nat, end: nat, fp: nat, n: nat)
    requires At(w, m, p) && p < |w.code| && 4 * n <= fp && fp + 8 < TWO32
    ensures Matches(w, m, m, end, fp, n, 0, 0, Timeout(m.trace))
  {
  }

  lemma MatchesElim(w: X.World, m: X.Machine, r: X.Machine, p: nat, fp: nat, n: nat, k: nat, fuel: nat, o: Outcome)
    requires m.Running? && 4 * n <= fp && fp + 8 < TWO32 && Matches(w, m, r, p, fp, n, k, fuel, o)
    ensures o.Normal? ==> At(w, r, p) && Kept(m, r, fp) && r.trace == o.trace && InFrame(r, fp, n, fp - 4 * n, o.store)
    ensures !o.Normal? ==> forall q: nat :: Matches(w, m, r, q, fp, n, k, fuel, o)
  {
  }

  /** A run that ends normally in front of a jump goes on to its target. */
  lemma JumpAfter(w: X.World, m: X.Machine, k: nat, p: nat, rel: int, fp: nat, n: nat, fuel: nat, o: Outcome)
      returns (k': nat)
    requires Loaded(w) && |w.code| <= CODE_SIZE && Placed(w.code, p, Jump(rel)) && 0 <= p + JUMP_SIZE + rel < |w.code|
    requires m.Running? && 4 * n <= fp && fp + 8 < TWO32
    requires Matches(w, m, X.Run(w, m, k), p, fp, n, k, fuel, o)
    ensures k <= k' && Matches(w, m, X.Run(w, m, k'), p + JUMP_SIZE + rel, fp, n, k', fuel, o)
  {
    hide X.Decode, X.Encode, Assemble, Placed, X.Step, X.Run, Jump;
    k' := k;
    if o.Normal? {
      JumpRuns(w, X.Run(w, m, k), p, rel);
      RunSnoc(w, m, k);
      k' := k + 1;
    }
  }

  /** Where the parts of a loop stand. */
  lemma WhileLayout(c: seq<Byte>, p: nat, s: Stmt, printAddr: Int32)
    requires s.While? && Placed(c, p, StmtCode(s, printAddr))
    ensures var bc := StmtCode(s.body, printAddr);
      var p0 := p + Size(ExprCode(s.cond));
      var p1 := p0 + TEST_SIZE;
      var p2 := p1 + Size(bc);
      && Placed(c, p, ExprCode(s.cond)) && Placed(c, p0, Test(Size(bc) + JUMP_SIZE)) && Placed(c, p1, bc)
      && Placed(c, p2, Jump(p - (p2 + JUMP_SIZE))) && p2 + JUMP_SIZE == p + Size(StmtCode(s, printAddr))
  {
    hide Assemble, Placed, ExprCode, Test, Jump;
    var bc := StmtCode(s.body, printAddr);
    var p0 := p + Size(ExprCode(s.cond));
    var p2 := p0 + TEST_SIZE + Size(bc);
    var test, jump := Test(Size(bc) + JUMP_SIZE), Jump(p - (p2 + JUMP_SIZE));
    PlacedAppend(c, p, ExprCode(s.cond), test + (bc + jump));
    PlacedAppend(c, p0, test, bc + jump);
    FixedSizes(Size(bc) + JUMP_SIZE);
    FixedSizes(p - (p2 + JUMP_SIZE));
    PlacedAppend(c, p0 + TEST_SIZE, bc, jump);
  }

  lemma {:induction false} WhileRuns(w: X.World, m: X.Machine, p: nat, s: Stmt, fp: nat, n: nat, store: Store, fuel: nat)
      returns (k: nat)
    requires s.While?
    requires Starts(w, m, p, StmtCode(s, w.printAddr), StmtDepth(s), fp, n, store) && WfStmt(s, n)
    ensures Matches(w, m, X.Run(w, m, k), p + Size(StmtCode(s, w.printAddr)), fp, n, k, fuel,
                    Exec(s, n, store, m.trace, fuel))
    decreases fuel, s, 1
  {
    hide X.Decode, X.Encode, Placed, X.Step, X.Run, ExprCode, StmtCode, InFrame, Kept, Test, Jump, Matches, Size, Covers,
      WfExpr, Depth;
    var p1 := p + Size(ExprCode(s.cond)) + TEST_SIZE;
    var p2 := p1 + Size(StmtCode(s.body, w.printAddr));
    var end := p + Size(StmtCode(s, w.printAddr));
    WhileLayout(w.code, p, s, w.printAddr);
    if fuel == 0 {
      k := 0;
      RunFew(w, m);
      MatchesTimeout(w, m, p, end, fp, n);
      return;
    }
    k := CondRuns(w, m, p, s.cond, Size(StmtCode(s.body, w.printAddr)) + JUMP_SIZE, fp, n, store);
    var v := Eval(s.cond, n, store);
    var r := X.Run(w, m, k);
    if v.DivTrap? {
      MatchesTrap(w, m, r, end, fp, n, k, fuel);
    } else if v.v == 0 {
      MatchesNormal(w, m, r, end, fp, n, k, fuel, store, m.trace);
    } else {
      var j := StmtRuns(w, r, p1, s.body, fp, n, store, fuel - 1);
      var o := Exec(s.body, n, store, m.trace, fuel - 1);
      var i := JumpAfter(w, r, j, p2, p - (p2 + JUMP_SIZE), fp, n, fuel - 1, o);
      k := ChainLater(w, m, k, i, p, fp, n, fuel, o);
      MatchesElim(w, m, X.Run(w, m, k), p, fp, n, k, fuel, o);
      if o.Normal? {
        var j2 := WhileRuns(w, X.Run(w, m, k), p, s, fp, n, o.store, fuel - 1);
        k := ChainLater(w, m, k, j2, end, fp, n, fuel, Exec(s, n, o.store, o.trace, fuel - 1));
      }
    }
  }

  /** As Chain, when at least one step has paid for one unit of fuel. */
  lemma ChainLater(w: X.World, m: X.Machine, k: nat, j: nat, p: nat, fp: nat, n: nat, fuel: nat, o: Outcome) returns (kj: nat)
    requires m.Running? && 4 * n <= fp && fp + 8 < TWO32 && 1 <= k && 1 <= fuel
    requires Kept(m, X.Run(w, m, k), fp)
    requires Matches(w, X.Run(w, m, k), X.Run(w, X.Run(w, m, k), j), p, fp, n, j, fuel - 1, o)
    ensures kj == k + j && Matches(w, m, X.Run(w, m, kj), p, fp, n, kj, fuel, o)
  {
    hide X.Run;
    X.RunAdd(w, m, k, j);
    kj := k + j;
    MatchesAfter(w, m, X.Run(w, m, k), X.Run(w, m, kj), p, fp, n, kj, fuel, j, fuel - 1, o);
  }

  // ---- whole programs ----

  /** The locals as the program finds them: the frame is not cleared. */
  ghost function FrameStore(mem: X.Memory, fp: nat, n: nat): Store {
    imap off: int | 0 <= off && Slot(off, n) :: X.Read(mem, fp - off)
  }

  /** The compiled program has just been called: `sp` is the address of the return address. */
  ghost predicate Called(w: X.World, m: X.Machine, body: Stmt, n: nat, sp: nat) {
    && n <= MAX_LOCALS && WfStmt(body, n)
    && w.code == Assemble(ProgramCode(body, n, w.printAddr)) && |w.code| <= CODE_SIZE && Loaded(w)
    && m.Running? && m.eip == w.base && m.trace == []
    && sp % 4 == 0 && sp + 4 < TWO32 && m.regs[X.ESP] == Pattern(sp)
    && 4 + 4 * n + 4 * StmtDepth(body) <= sp   // there is stack for the frame and the deepest expression
  }

  /** Back at the caller with result `v`: esp, ebp and the callee-saved registers are as before the call. */
  ghost predicate BackAtCaller(m: X.Machine, r: X.Machine, sp: nat, v: Int32, trace: seq<Int32>)
    requires sp + 4 < TWO32 && m.Running?
  {
    && r.Running? && r.eip == Unsigned(X.Read(m.mem, sp)) && r.regs[X.EAX] == v && r.trace == trace
    && r.regs[X.ESP] == Pattern(sp + 4) && r.regs[X.EBP] == m.regs[X.EBP] && r.regs[X.EBX] == m.regs[X.EBX]
    && r.regs[X.ESI] == m.regs[X.ESI] && r.regs[X.EDI] == m.regs[X.EDI]
    && forall a :: a >= sp ==> X.Read(r.mem, a) == X.Read(m.mem, a)
  }

  ghost function SourceRun(m: X.Machine, body: Stmt, n: nat, sp: nat, fuel: nat): Outcome
    requires m.Running? && WfStmt(body, n) && 4 <= sp
  {
    ExecMain(body, n, FrameStore(m.mem, sp - 4, n), fuel)
  }

  lemma EnterRuns(w: X.World, m: X.Machine, n: nat, sp: nat) returns (k: nat)
    requires Loaded(w) && At(w, m, 0) && Placed(w.code, 0, Prologue(n)) && n <= MAX_LOCALS
    requires sp % 4 == 0 && 4 + 4 * n <= sp && sp + 4 < TWO32 && m.regs[X.ESP] == Pattern(sp)
    ensures Entered(w, m, X.Run(w, m, k), n, sp)
  {
    hide X.Decode, X.Encode, Assemble, Placed, X.Step, X.Run, X.Execute, Entered;
    var ins := Prologue(n);
    StepFirst(w, m, 0, ins);
    var m1, p1 := X.Step(w, m), |X.Encode(ins[0])|;
    EnterSteps(w, m, m1, p1, sp);
    StepFirst(w, m1, p1, ins[1..]);
    var m2, p2 := X.Step(w, m1), p1 + |X.Encode(ins[1])|;
    SetFrame(w, m1, p2, sp);
    RunFew(w, m);
    if n == 0 {
      EmptySize(ins[1..][1..]);
      k := 2;
      EnteredIntro(w, m, m2, p2, n, sp);
    } else {
      StepFirst(w, m2, p2, ins[1..][1..]);
      EmptySize(ins[1..][1..][1..]);
      k := 3;
      var m3, p3 := X.Step(w, m2), p2 + |X.Encode(ins[2])|;
      ReserveFrame(w, m2, p3, n, sp);
      EnteredIntro(w, m, m3, p3, n, sp);
    }
  }

  ghost predicate Entered(w: X.World, m: X.Machine, r: X.Machine, n: nat, sp: nat)
    requires m.Running? && 4 + 4 * n <= sp
  {
    && At(w, r, Size(Prologue(n))) && r.trace == m.trace
    && InFrame(r, sp - 4, n, sp - 4 - 4 * n, FrameStore(m.mem, sp - 4, n))
    && X.Read(r.mem, sp - 4) == m.regs[X.EBP] && (forall a :: a >= sp ==> X.Read(r.mem, a) == X.Read(m.mem, a))
    && r.regs[X.EBX] == m.regs[X.EBX] && r.regs[X.ESI] == m.regs[X.ESI] && r.regs[X.EDI] == m.regs[X.EDI]
  }

  lemma EnterSteps(w: X.World, m: X.Machine, m1: X.Machine, p1: nat, sp: nat)
    requires m.Running? && sp % 4 == 0 && 4 <= sp < TWO32 && m.regs[X.ESP] == Pattern(sp)
    requires m1 == X.Execute(w, m.(eip := w.base + p1), X.Push(X.EBP))
    ensures m1 == m.(eip := w.base + p1, regs := m.regs[X.ESP := Pattern(sp - 4)], mem := m.mem[sp - 4 := m.regs[X.EBP]])
  {
  }

  lemma SetFrame(w: X.World, m1: X.Machine, p2: nat, sp: nat)
    requires m1.Running?
    ensures X.Execute(w, m1.(eip := w.base + p2), X.Mov(EBP, X.ESP)) ==
            m1.(eip := w.base + p2, regs := m1.regs[X.EBP := m1.regs[X.ESP]])
  {
  }

  lemma ReserveFrame(w: X.World, m2: X.Machine, p3: nat, n: nat, sp: nat)
    requires m2.Running? && n <= MAX_LOCALS && 4 + 4 * n <= sp < TWO32 && m2.regs[X.ESP] == Pattern(sp - 4)
    ensures X.Execute(w, m2.(eip := w.base + p3), X.SubImm32(ESP, Wrap(4 * n))) ==
            m2.(eip := w.base + p3, flags := X.Undefined, regs := m2.regs[X.ESP := Pattern(sp - 4 - 4 * n)])
  {
  }

  lemma EnteredIntro(w: X.World, m: X.Machine, r: X.Machine, p: nat, n: nat, sp: nat)
    requires m.Running? && sp % 4 == 0 && 4 + 4 * n <= sp < TWO32 && n <= MAX_LOCALS
    requires At(w, r, p) && p == Size(Prologue(n)) && r.trace == m.trace && r.mem == m.mem[sp - 4 := m.regs[X.EBP]]
    requires r.regs == m.regs[X.ESP := Pattern(sp - 4)][X.EBP := Pattern(sp - 4)][X.ESP := Pattern(sp - 4 - 4 * n)]
    ensures Entered(w, m, r, n, sp)
  {
    hide Prologue, Assemble, FrameStore, InFrame;
    EnteredFrame(m, r, n, sp);
  }

  lemma EnteredFrame(m: X.Machine, r: X.Machine, n: nat, sp: nat)
    requires m.Running? && r.Running? && sp % 4 == 0 && 4 + 4 * n <= sp < TWO32 && n <= MAX_LOCALS
    requires r.mem == m.mem[sp - 4 := m.regs[X.EBP]]
    requires r.regs[X.EBP] == Pattern(sp - 4) && r.regs[X.ESP] == Pattern(sp - 4 - 4 * n)
    ensures InFrame(r, sp - 4, n, sp - 4 - 4 * n, FrameStore(m.mem, sp - 4, n))
  {
    hide FrameStore, Slot, Pattern;
    FreshFrame(m.mem, m.regs[X.EBP], sp - 4, n);
  }

  lemma FreshFrame(mem: X.Memory, saved: Int32, fp: nat, n: nat)
    ensures Covers(FrameStore(mem, fp, n), n)
    ensures forall off: nat :: Slot(off, n) ==> X.Read(mem[fp := saved], fp - off) == FrameStore(mem, fp, n)[off]
  {
  }

  /** The machine after `k` steps and the source outcome say the same. */
  ghost predicate Behaves(w: X.World, m: X.Machine, r: X.Machine, sp: nat, k: nat, fuel: nat, o: Outcome)
    requires sp + 4 < TWO32 && m.Running?
  {
    match o
    case Normal(_, _) => false
    case Returned(v, trace) => BackAtCaller(m, r, sp, v, trace)
    case Trapped(trace) => r == X.DivideError(trace)
    case Timeout(trace) => X.Inside(w, r) && r.trace == trace && k >= fuel
  }

  /** Compiler correctness, forward: every source run, complete or cut off, is a run of the emitted bytes. */
  lemma ProgramRuns(w: X.World, m: X.Machine, body: Stmt, n: nat, sp: nat, fuel: nat) returns (k: nat)
    requires Called(w, m, body, n, sp)
    ensures Behaves(w, m, X.Run(w, m, k), sp, k, fuel, SourceRun(m, body, n, sp, fuel))
  {
    hide X.Decode, X.Encode, Assemble, Placed, X.Step, X.Run, StmtCode, Prologue, Epilogue, InFrame, Matches, Entered, Behaves,
      WfStmt, StmtDepth, FrameStore, Exec, Covers, X.Read, Kept, Left;
    var code, fp := StmtCode(body, w.printAddr), sp - 4;
    var p1 := Size(Prologue(n));
    var p2 := p1 + Size(code);
    ProgramLayout(w.code, body, n, w.printAddr);
    var k0 := EnterRuns(w, m, n, sp);
    var r0 := X.Run(w, m, k0);
    EnteredElim(w, m, r0, n, sp);
    var store := FrameStore(m.mem, fp, n);
    var k1 := StmtRuns(w, r0, p1, body, fp, n, store, fuel);
    var r1 := X.Run(w, r0, k1);
    var o := Exec(body, n, store, [], fuel);
    X.RunAdd(w, m, k0, k1);
    k := k0 + k1;
    if o.Normal? {
      MatchesElim(w, r0, r1, p2, fp, n, k1, fuel, o);
      var k2 := FinishRuns(w, r0, r1, p2, fp, n, o.store);
      X.RunAdd(w, m, k, k2);
      k := k + k2;
      LeftIsBack(w, m, r0, X.Run(w, r1, k2), n, sp, k, k, fuel, Returned(0, o.trace));
    } else {
      MatchesIsBehaves(w, m, r0, r1, p2, n, sp, k, k1, fuel, o);
    }
  }

  lemma ProgramLayout(c: seq<Byte>, body: Stmt, n: nat, printAddr: Int32)
    requires c == Assemble(ProgramCode(body, n, printAddr))
    ensures var code := StmtCode(body, printAddr);
      var p1 := Size(Prologue(n));
      var p2 := p1 + Size(code);
      && Placed(c, 0, Prologue(n)) && Placed(c, p1, code) && Placed(c, p2, [X.MovImm(X.EAX, 0)] + Epilogue()) && p2 < |c|
  {
    hide Assemble, StmtCode, Prologue, Epilogue, X.Encode, X.Decode;
    var code, last := StmtCode(body, printAddr), [X.MovImm(X.EAX, 0)] + Epilogue();
    assert X.BytesAt(c, 0, Assemble(ProgramCode(body, n, printAddr)));
    PlacedAppend(c, 0, Prologue(n), code + last);
    PlacedAppend(c, Size(Prologue(n)), code, last);
    FetchFirst(c, Size(Prologue(n)) + Size(code), last);
  }

  lemma EnteredElim(w: X.World, m: X.Machine, r: X.Machine, n: nat, sp: nat)
    requires m.Running? && 4 + 4 * n <= sp && Entered(w, m, r, n, sp)
    ensures At(w, r, Size(Prologue(n))) && r.trace == m.trace
    ensures InFrame(r, sp - 4, n, sp - 4 - 4 * n, FrameStore(m.mem, sp - 4, n)) && Covers(FrameStore(m.mem, sp - 4, n), n)
  {
  }

  /** Running off the end of `main` returns 0. */
  lemma FinishRuns(w: X.World, m: X.Machine, r: X.Machine, p: nat, fp: nat, n: nat, store: Store) returns (k: nat)
    requires Loaded(w) && At(w, r, p) && Placed(w.code, p, [X.MovImm(X.EAX, 0)] + Epilogue())
    requires 4 * n <= fp && fp + 8 < TWO32 && Kept(m, r, fp) && InFrame(r, fp, n, fp - 4 * n, store)
    ensures Left(m, X.Run(w, r, k), fp, 0, r.trace)
  {
    hide X.Decode, X.Encode, Assemble, Placed, X.Step, X.Run, Epilogue;
    var ins := [X.MovImm(X.EAX, 0)] + Epilogue();
    StepFirst(w, r, p, ins);
    var r1 := X.Step(w, r);
    assert ins[1..] == Epilogue();
    StillInFrame(r, r1, fp, n, fp - 4 * n, store);
    EpilogueRuns(w, r1, p + |X.Encode(ins[0])|, fp, n, store, 0);
    RunFew(w, r);
    X.RunAdd(w, r, 1, 3);
    k := 4;
  }

  lemma LeftIsBack(w: X.World, m: X.Machine, r0: X.Machine, r: X.Machine, n: nat, sp: nat, k: nat, k': nat, fuel: nat, o: Outcome)
    requires m.Running? && 4 + 4 * n <= sp && sp + 4 < TWO32 && Entered(w, m, r0, n, sp)
    requires o.Returned? && Left(r0, r, sp - 4, o.v, o.trace)
    ensures Behaves(w, m, r, sp, k', fuel, o)
  {
  }

  lemma MatchesIsBehaves(w: X.World, m: X.Machine, r0: X.Machine, r: X.Machine, p: nat, n: nat, sp: nat,
                         k: nat, k1: nat, fuel: nat, o: Outcome)
    requires m.Running? && 4 + 4 * n <= sp && sp + 4 < TWO32 && Entered(w, m, r0, n, sp)
    requires Matches(w, r0, r, p, sp - 4, n, k1, fuel, o) && !o.Normal? && k1 <= k
    ensures Behaves(w, m, r, sp, k, fuel, o)
  {
    if o.Returned? {
      LeftIsBack(w, m, r0, r, n, sp, k, k, fuel, o);
    }
  }

  // ---- both directions ----

  /** Control has left the program, or never will again. */
  lemma Settled(w: X.World, m: X.Machine, j: nat, k: nat)
    requires !X.Inside(w, X.Run(w, m, j)) && j <= k
    ensures X.Run(w, m, k) == X.Run(w, m, j)
  {
    hide X.Run, X.Step, X.Inside;
    X.RunAdd(w, m, j, k - j);
    X.RunOutside(w, X.Run(w, m, j), k - j);
  }

  /** The caller stands outside the program, so arriving there is leaving it. */
  ghost predicate CallerOutside(w: X.World, m: X.Machine, sp: nat)
    requires m.Running?
  {
    var ret := Unsigned(X.Read(m.mem, sp));
    ret < w.base || w.base + |w.code| <= ret
  }

  /** Every program whose code fits can be called so, wherever there is room on the stack. */
  lemma CanBeCalled(body: Stmt, n: nat, printAddr: Int32, sp: nat) returns (w: X.World, m: X.Machine)
    requires n <= MAX_LOCALS && WfStmt(body, n) && Size(ProgramCode(body, n, printAddr)) <= CODE_SIZE
    requires sp % 4 == 0 && 4 + 4 * n + 4 * StmtDepth(body) <= sp && sp + 4 < TWO32
    ensures w.printAddr == printAddr && Called(w, m, body, n, sp) && CallerOutside(w, m, sp)
  {
    hide Assemble, ProgramCode, WfStmt, StmtDepth;
    w := X.World(Assemble(ProgramCode(body, n, printAddr)), 0, printAddr, _ => X.Clobber(0, 0, 0, _ => 0));
    var regs: X.Regs := [0, 0, 0, 0, Pattern(sp), 0, 0, 0];
    m := X.Running(regs, 0, X.Undefined, imap[sp := -1], []);
  }

  /** A machine that has stopped after `k` steps shows what the source does when given fuel `k + 1`. */
  lemma StoppedShowsSource(w: X.World, m: X.Machine, body: Stmt, n: nat, sp: nat, k: nat)
    requires Called(w, m, body, n, sp) && CallerOutside(w, m, sp) && !X.Inside(w, X.Run(w, m, k))
    ensures var o := SourceRun(m, body, n, sp, k + 1);
      !o.Timeout? && Behaves(w, m, X.Run(w, m, k), sp, k, k + 1, o)
  {
    hide X.Run, X.Step, Assemble, ExecMain, Called;
    assert m.Running? && sp + 4 < TWO32 && WfStmt(body, n) && 4 <= sp by { CalledElim(w, m, body, n, sp); }
    var o := SourceRun(m, body, n, sp, k + 1);
    var j := ProgramRuns(w, m, body, n, sp, k + 1);
    if o.Timeout? {
      Settled(w, m, k, j);
    } else if j <= k {
      Settled(w, m, j, k);
    } else {
      Settled(w, m, k, j);
    }
  }

  lemma CalledElim(w: X.World, m: X.Machine, body: Stmt, n: nat, sp: nat)
    requires Called(w, m, body, n, sp)
    ensures m.Running? && sp + 4 < TWO32 && WfStmt(body, n) && 4 <= sp
  {
  }

  /** Compiler correctness, both directions: the bytes come back to the caller with result `v` having printed
      `trace` if and only if the source does. */
  lemma ReturnsIff(w: X.World, m: X.Machine, body: Stmt, n: nat, sp: nat, v: Int32, trace: seq<Int32>)
    requires Called(w, m, body, n, sp) && CallerOutside(w, m, sp)
    ensures (exists k: nat :: BackAtCaller(m, X.Run(w, m, k), sp, v, trace)) <==>
            (exists fuel: nat :: SourceRun(m, body, n, sp, fuel) == Returned(v, trace))
  {
    hide X.Run, X.Step, Assemble, ExecMain, ProgramCode;
    if k: nat :| BackAtCaller(m, X.Run(w, m, k), sp, v, trace) {
      StoppedShowsSource(w, m, body, n, sp, k);
      assert SourceRun(m, body, n, sp, k + 1) == Returned(v, trace);
    }
    if fuel: nat :| SourceRun(m, body, n, sp, fuel) == Returned(v, trace) {
      var k := ProgramRuns(w, m, body, n, sp, fuel);
      assert BackAtCaller(m, X.Run(w, m, k), sp, v, trace);
    }
  }

  /** The bytes raise a divide error, having printed `trace`, if and only if the source divides by zero or
      overflows a quotient. */
  lemma TrapsIff(w: X.World, m: X.Machine, body: Stmt, n: nat, sp: nat, trace: seq<Int32>)
    requires Called(w, m, body, n, sp) && CallerOutside(w, m, sp)
    ensures (exists k: nat :: X.Run(w, m, k) == X.DivideError(trace)) <==>
            (exists fuel: nat :: SourceRun(m, body, n, sp, fuel) == Trapped(trace))
  {
    hide X.Run, X.Step, Assemble, ExecMain, ProgramCode;
    if k: nat :| X.Run(w, m, k) == X.DivideError(trace) {
      StoppedShowsSource(w, m, body, n, sp, k);
      assert SourceRun(m, body, n, sp, k + 1) == Trapped(trace);
    }
    if fuel: nat :| SourceRun(m, body, n, sp, fuel) == Trapped(trace) {
      var k := ProgramRuns(w, m, body, n, sp, fuel);
      assert X.Run(w, m, k) == X.DivideError(trace);
    }
  }

  /** The bytes run for ever if and only if the source does. */
  lemma DivergesIff(w: X.World, m: X.Machine, body: Stmt, n: nat, sp: nat)
    requires Called(w, m, body, n, sp) && CallerOutside(w, m, sp)
    ensures (forall k: nat :: X.Inside(w, X.Run(w, m, k))) <==>
            (forall fuel: nat :: SourceRun(m, body, n, sp, fuel).Timeout?)
  {
    hide X.Run, X.Step, Assemble, ExecMain, ProgramCode;
    if fuel: nat :| !SourceRun(m, body, n, sp, fuel).Timeout? {
      var k := ProgramRuns(w, m, body, n, sp, fuel);
      assert !X.Inside(w, X.Run(w, m, k));
    }
    if k: nat :| !X.Inside(w, X.Run(w, m, k)) {
      StoppedShowsSource(w, m, body, n, sp, k);
      assert !SourceRun(m, body, n, sp, k + 1).Timeout?;
    }
  }

  /** No run of compiled code reaches a bad instruction, an unaligned access or a wrong call target. */
  lemma NeverStuck(w: X.World, m: X.Machine, body: Stmt, n: nat, sp: nat, k: nat)
    requires Called(w, m, body, n, sp) && CallerOutside(w, m, sp)
    ensures !X.Run(w, m, k).Stuck?
  {
    hide X.Run, X.Step, Assemble, ExecMain, ProgramCode;
    if X.Run(w, m, k).Stuck? {
      StoppedShowsSource(w, m, body, n, sp, k);
    }
  }

  lemma StepExtendsTrace(w: X.World, m: X.Machine)
    requires m.Running? && X.Step(w, m).Running?
    ensures m.trace <= X.Step(w, m).trace
  {
    hide X.Decode;
  }

  lemma {:induction false} RunExtendsTrace(w: X.World, m: X.Machine, k: nat)
    requires m.Running? && forall j: nat :: j <= k ==> X.Run(w, m, j).Running?
    ensures m.trace <= X.Run(w, m, k).trace
    decreases k
  {
    hide X.Step;
    RunFew(w, m);
    if k > 0 {
      assert X.Run(w, m, 1).Running?;
      var m1 := X.Step(w, m);
      StepExtendsTrace(w, m);
      forall j: nat | j <= k - 1
        ensures X.Run(w, m1, j).Running?
      {
        assert X.Run(w, m, j + 1) == X.Run(w, m1, j);
      }
      RunExtendsTrace(w, m1, k - 1);
    }
  }

  /** A diverging program prints the same endless sequence in both worlds: everything the machine has printed
      after `k` steps the source has printed with fuel `k`, and everything the source has printed with that fuel
      the machine prints within finitely many steps. */
  lemma DivergingTraces(w: X.World, m: X.Machine, body: Stmt, n: nat, sp: nat, k: nat) returns (j: nat)
    requires Called(w, m, body, n, sp) && CallerOutside(w, m, sp)
    requires forall i: nat :: X.Inside(w, X.Run(w, m, i))
    ensures X.Inside(w, X.Run(w, m, k)) && X.Inside(w, X.Run(w, m, j))
    ensures var o := SourceRun(m, body, n, sp, k);
      o.Timeout? && k <= j && X.Run(w, m, k).trace <= o.trace && X.Run(w, m, j).trace == o.trace
  {
    hide X.Run, X.Step, Assemble, ExecMain, ProgramCode;
    j := ProgramRuns(w, m, body, n, sp, k);
    assert X.Inside(w, X.Run(w, m, j)) && X.Inside(w, X.Run(w, m, k));
    X.RunAdd(w, m, k, j - k);
    var mk := X.Run(w, m, k);
    forall i: nat | i <= j - k
      ensures X.Run(w, mk, i).Running?
    {
      X.RunAdd(w, m, k, i);
      assert X.Inside(w, X.Run(w, m, k + i));
    }
    RunExtendsTrace(w, mk, j - k);
  }
}
