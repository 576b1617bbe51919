/** Abstract syntax and meaning of the compiled C subset. A variable is the distance of its slot below the frame
    pointer; a store gives the slots their values. */
module Source {
  import opened Words

  const MAX_LOCALS := 32   // variables a program may declare

  datatype BinOp = Add | Sub | Mul | Div | Eq | Ne | Lt | Gt | Le | Ge

  datatype Expr =
    | Num(v: Int32)
    | Var(off: nat)
    | Neg(e: Expr)
    | Bin(op: BinOp, l: Expr, r: Expr)

  datatype Stmt =
    | Block(ss: seq<Stmt>)
    | Decl(off: nat, init: Option<Expr>)
    | Assign(off: nat, e: Expr)
    | If(cond: Expr, thn: Stmt, els: Option<Stmt>)
    | While(cond: Expr, body: Stmt)
    | Print(e: Expr)
    | Return(e: Expr)

  /** Offset `off` is one of the `n` slots. */
  predicate Slot(off: nat, n: nat) {
    off % 4 == 0 && 4 <= off <= 4 * n
  }

  predicate WfExpr(e: Expr, n: nat) {
    match e
    case Num(_) => true
    case Var(off) => Slot(off, n)
    case Neg(e) => WfExpr(e, n)
    case Bin(_, l, r) => WfExpr(l, n) && WfExpr(r, n)
  }

  predicate WfStmt(s: Stmt, n: nat)
    decreases s, 1
  {
    match s
    case Block(ss) => WfStmts(ss, n)
    case Decl(off, init) => Slot(off, n) && (init.Some? ==> WfExpr(init.value, n))
    case Assign(off, e) => Slot(off, n) && WfExpr(e, n)
    case If(c, t, els) => WfExpr(c, n) && WfStmt(t, n) && (els.Some? ==> WfStmt(els.value, n))
    case While(c, b) => WfExpr(c, n) && WfStmt(b, n)
    case Print(e) => WfExpr(e, n)
    case Return(e) => WfExpr(e, n)
  }

  predicate WfStmts(ss: seq<Stmt>, n: nat)
    decreases ss, 0
  {
    ss == [] || (WfStmt(ss[0], n) && WfStmts(ss[1..], n))
  }

  // ---- expressions ----

  type Store = imap<int, Int32>

  ghost predicate Covers(store: Store, n: nat) {
    forall off: nat :: Slot(off, n) ==> off in store
  }

  datatype Value = Val(v: Int32) | DivTrap

  function Truth(b: bool): Int32 { if b then 1 else 0 }

  /** Signed arithmetic wraps; a zero divisor and an unrepresentable quotient trap. */
  function Apply(op: BinOp, a: Int32, b: Int32): Value {
    match op
    case Add => Val(Wrap(a + b))
    case Sub => Val(Wrap(a - b))
    case Mul => Val(Wrap(a * b))
    case Div =>
      if b == 0 || (a == -0x8000_0000 && b == -1) then DivTrap else
      DivideInRange(a, b);
      Val(Quotient(a, b))
    case Eq => Val(Truth(a == b))
    case Ne => Val(Truth(a != b))
    case Lt => Val(Truth(a < b))
    case Gt => Val(Truth(a > b))
    case Le => Val(Truth(a <= b))
    case Ge => Val(Truth(a >= b))
  }

  lemma DivideInRange(a: Int32, b: Int32)
    requires b != 0
    ensures -0x8000_0000 <= Quotient(a, b) < 0x8000_0000 <==> !(a == -0x8000_0000 && b == -1)
  {
    var x, y := Abs(a), Abs(b);
    if y == 1 {
      assert x / y == x;
    } else {
      DivShrinks(x, y);
    }
  }

  lemma DivShrinks(x: nat, y: nat)
    requires 2 <= y && x <= 0x8000_0000
    ensures x / y <= 0x4000_0000
  {
    var q := x / y;
    assert q * y <= x;
    if 0 < q {
      MulOrder(2, y, q);
    }
  }

  ghost function Eval(e: Expr, n: nat, store: Store): Value
    requires WfExpr(e, n) && Covers(store, n)
  {
    match e
    case Num(v) => Val(v)
    case Var(off) => Val(store[off])
    case Neg(e) =>
      var v := Eval(e, n, store);
      if v.DivTrap? then DivTrap else Val(Wrap(0 - v.v))
    case Bin(op, l, r) =>
      var a := Eval(l, n, store);
      if a.DivTrap? then DivTrap else
      var b := Eval(r, n, store);
      if b.DivTrap? then DivTrap else Apply(op, a.v, b.v)
  }

  // ---- statements ----

  /** How a run ends. `Timeout` is a run cut off when its fuel, the number of iterations granted to each loop,
      is spent; a program diverges when every fuel ends so. Every outcome carries what was printed. */
  datatype Outcome =
    | Normal(store: Store, trace: seq<Int32>)
    | Returned(v: Int32, trace: seq<Int32>)
    | Trapped(trace: seq<Int32>)
    | Timeout(trace: seq<Int32>)

  ghost function Exec(s: Stmt, n: nat, store: Store, trace: seq<Int32>, fuel: nat): (o: Outcome)
    requires WfStmt(s, n) && Covers(store, n)
    ensures o.Normal? ==> Covers(o.store, n)
    decreases fuel, s, 1
  {
    match s
    case Block(ss) => ExecAll(ss, n, store, trace, fuel)
    case Decl(off, init) =>
      var v := if init.None? then Val(0) else Eval(init.value, n, store);
      if v.DivTrap? then Trapped(trace) else Normal(store[off := v.v], trace)
    case Assign(off, e) =>
      var v := Eval(e, n, store);
      if v.DivTrap? then Trapped(trace) else Normal(store[off := v.v], trace)
    case If(c, t, els) =>
      var v := Eval(c, n, store);
      if v.DivTrap? then Trapped(trace)
      else if v.v != 0 then Exec(t, n, store, trace, fuel)
      else if els.Some? then Exec(els.value, n, store, trace, fuel)
      else Normal(store, trace)
    case While(c, b) =>
      if fuel == 0 then Timeout(trace) else
      var v := Eval(c, n, store);
      if v.DivTrap? then Trapped(trace)
      else if v.v == 0 then Normal(store, trace)
      else
        var o := Exec(b, n, store, trace, fuel - 1);
        if o.Normal? then Exec(s, n, o.store, o.trace, fuel - 1) else o
    case Print(e) =>
      var v := Eval(e, n, store);
      if v.DivTrap? then Trapped(trace) else Normal(store, trace + [v.v])
    case Return(e) =>
      var v := Eval(e, n, store);
      if v.DivTrap? then Trapped(trace) else Returned(v.v, trace)
  }

  ghost function ExecAll(ss: seq<Stmt>, n: nat, store: Store, trace: seq<Int32>, fuel: nat): (o: Outcome)
    requires WfStmts(ss, n) && Covers(store, n)
    ensures o.Normal? ==> Covers(o.store, n)
    decreases fuel, ss, 0
  {
    if ss == [] then Normal(store, trace) else
    var o := Exec(ss[0], n, store, trace, fuel);
    if o.Normal? then ExecAll(ss[1..], n, o.store, o.trace, fuel) else o
  }

  /** A whole program: the body of `main`, which returns 0 when it runs off its end. */
  ghost function ExecMain(body: Stmt, n: nat, store: Store, fuel: nat): (o: Outcome)
    requires WfStmt(body, n) && Covers(store, n)
    ensures !o.Normal?
  {
    var o := Exec(body, n, store, [], fuel);
    if o.Normal? then Returned(0, o.trace) else o
  }
}
