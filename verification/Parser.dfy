/** The recursive descent parser as functions on a token sequence. A parse has a position, the names declared so
    far and the number of arena bytes taken; it ends in the first error or in a result and a later state. */
module Parser {
  import opened Words
  import opened Lexer
  import opened Source
  import Emitter

  type Error = Emitter.Error

  const ARENA_SIZE := 64 * 1024
  const NODE_SIZE := 36      // sizeof(cc_node_t): nine words

  function NodeBytes(k: nat): nat { 36 * k }

  type Toks = ts: seq<Token> | WfTokens(ts) witness [Token(Eof, 1)]

  datatype State = State(i: nat, syms: seq<string>, arena: nat)

  datatype Result<+T> = Ok(v: T, s: State) | Err(error: Error)

  /** The current token exists and is no lexical error. */
  ghost predicate Live(ts: Toks, s: State) {
    s.i < |ts| && !ts[s.i].kind.Bad?
  }

  /** Result `r` has consumed at least `n` tokens after `s`. */
  ghost predicate Past<T>(ts: Toks, s: State, n: nat, r: Result<T>) {
    r.Ok? ==> Live(ts, r.s) && s.i + n <= r.s.i
  }

  ghost function Advance(ts: Toks, s: State): (r: Result<()>)
    requires Live(ts, s) && !ts[s.i].kind.Eof?
    ensures Past(ts, s, 1, r) && (r.Ok? ==> r.s == s.(i := s.i + 1))
  {
    if ts[s.i + 1].kind.Bad? then Err(Emitter.Error(ts[s.i + 1].line, "caractere invalido"))
    else Ok((), s.(i := s.i + 1))
  }

  ghost function Expect(ts: Toks, s: State, k: Kind, msg: string): (r: Result<()>)
    requires Live(ts, s) && !Final(k)
    ensures Past(ts, s, 1, r) && (r.Ok? ==> ts[s.i].kind == k && r.s == s.(i := s.i + 1))
  {
    if ts[s.i].kind != k then Err(Emitter.Error(ts[s.i].line, msg)) else Advance(ts, s)
  }

  /** One syntax tree node taken from the arena. */
  ghost function Alloc<T>(s: State, node: T): Result<T> {
    if s.arena + NODE_SIZE > ARENA_SIZE then Err(Emitter.Error(-1, "programa fonte grande demais"))
    else Ok(node, s.(arena := s.arena + NODE_SIZE))
  }

  // ---- symbols ----

  /** The position of a name, or -1. */
  function IndexOf(syms: seq<string>, name: string): (k: int)
    ensures -1 <= k < |syms|
    ensures k >= 0 ==> syms[k] == name && name !in syms[..k]
    ensures k < 0 <==> name !in syms
  {
    if syms == [] then -1
    else if syms[0] == name then 0
    else
      var k := IndexOf(syms[1..], name);
      if k < 0 then -1 else
      assert syms[..k + 1] == [syms[0]] + syms[1..][..k];
      k + 1
  }

  /** The frame offset of a declared name, or -1. */
  function Lookup(syms: seq<string>, name: string): int {
    var k := IndexOf(syms, name);
    if k < 0 then -1 else 4 * (k + 1)
  }

  ghost function Declare(s: State, name: string, line: int): Result<nat> {
    if name in s.syms then Err(Emitter.Error(line, "variavel redeclarada"))
    else if |s.syms| >= MAX_LOCALS then Err(Emitter.Error(line, "muitas variaveis locais"))
    else Ok(4 * (|s.syms| + 1), s.(syms := s.syms + [name]))
  }

  // ---- expressions ----

  function TermOp(k: Kind): Option<BinOp> {
    match k case Star => Some(Mul) case Slash => Some(Div) case _ => None
  }

  function AddOp(k: Kind): Option<BinOp> {
    match k case Plus => Some(Add) case Minus => Some(Sub) case _ => None
  }

  function CmpOp(k: Kind): Option<BinOp> {
    match k
    case EqEq => Some(Eq) case NotEq => Some(Ne) case Less => Some(Lt)
    case Greater => Some(Gt) case LessEq => Some(Le) case GreaterEq => Some(Ge)
    case _ => None
  }

  ghost function Primary(ts: Toks, s: State): (r: Result<Expr>)
    requires Live(ts, s)
    ensures Past(ts, s, 1, r)
    decreases |ts| - s.i, 0
  {
    var tok := ts[s.i];
    match tok.kind
    case Num(v) =>
      var n := Alloc(s, Source.Num(v));
      if n.Err? then n else
      var a := Advance(ts, n.s);
      if a.Err? then Err(a.error) else Ok(n.v, a.s)
    case Ident(name) =>
      var off := Lookup(s.syms, name);
      if off < 0 then Err(Emitter.Error(tok.line, "variavel nao declarada")) else
      var a := Advance(ts, s);
      if a.Err? then Err(a.error) else Alloc(a.s, Var(off))
    case LParen =>
      var a := Advance(ts, s);
      if a.Err? then Err(a.error) else
      var e := Comparison(ts, a.s);
      if e.Err? then e else
      var c := Expect(ts, e.s, RParen, "esperado ')'");
      if c.Err? then Err(c.error) else Ok(e.v, c.s)
    case _ => Err(Emitter.Error(tok.line, "esperado numero, variavel ou '('"))
  }

  ghost function Unary(ts: Toks, s: State): (r: Result<Expr>)
    requires Live(ts, s)
    ensures Past(ts, s, 1, r)
    decreases |ts| - s.i, 1
  {
    if ts[s.i].kind != Minus then Primary(ts, s) else
    var a := Advance(ts, s);
    if a.Err? then Err(a.error) else
    var e := Unary(ts, a.s);
    if e.Err? then e else Alloc(e.s, Neg(e.v))
  }

  ghost function Term(ts: Toks, s: State): (r: Result<Expr>)
    requires Live(ts, s)
    ensures Past(ts, s, 1, r)
    decreases |ts| - s.i, 3
  {
    var l := Unary(ts, s);
    if l.Err? then l else TermLoop(ts, l.s, l.v)
  }

  /** Further factors, associated to the left of `l`. */
  ghost function TermLoop(ts: Toks, s: State, l: Expr): (r: Result<Expr>)
    requires Live(ts, s)
    ensures Past(ts, s, 0, r)
    decreases |ts| - s.i, 2
  {
    var op := TermOp(ts[s.i].kind);
    if op.None? then Ok(l, s) else
    var a := Advance(ts, s);
    if a.Err? then Err(a.error) else
    var e := Unary(ts, a.s);
    if e.Err? then e else
    var n := Alloc(e.s, Bin(op.value, l, e.v));
    if n.Err? then n else TermLoop(ts, n.s, n.v)
  }

  ghost function Additive(ts: Toks, s: State): (r: Result<Expr>)
    requires Live(ts, s)
    ensures Past(ts, s, 1, r)
    decreases |ts| - s.i, 5
  {
    var l := Term(ts, s);
    if l.Err? then l else AdditiveLoop(ts, l.s, l.v)
  }

  ghost function AdditiveLoop(ts: Toks, s: State, l: Expr): (r: Result<Expr>)
    requires Live(ts, s)
    ensures Past(ts, s, 0, r)
    decreases |ts| - s.i, 4
  {
    var op := AddOp(ts[s.i].kind);
    if op.None? then Ok(l, s) else
    var a := Advance(ts, s);
    if a.Err? then Err(a.error) else
    var e := Term(ts, a.s);
    if e.Err? then e else
    var n := Alloc(e.s, Bin(op.value, l, e.v));
    if n.Err? then n else AdditiveLoop(ts, n.s, n.v)
  }

  ghost function Comparison(ts: Toks, s: State): (r: Result<Expr>)
    requires Live(ts, s)
    ensures Past(ts, s, 1, r)
    decreases |ts| - s.i, 6
  {
    var l := Additive(ts, s);
    if l.Err? then l else
    var op := CmpOp(ts[l.s.i].kind);
    if op.None? then l else
    var a := Advance(ts, l.s);
    if a.Err? then Err(a.error) else
    var e := Additive(ts, a.s);
    if e.Err? then e else Alloc(e.s, Bin(op.value, l.v, e.v))
  }

  /** What the loop makes of one more operator and operand. */
  lemma TermNext(ts: Toks, s: State, l: Expr)
    requires Live(ts, s) && TermOp(ts[s.i].kind).Some?
    ensures var goal, a := TermLoop(ts, s, l), Advance(ts, s);
      && (a.Err? ==> goal == Err(a.error))
      && (a.Ok? ==>
            var r := Unary(ts, a.s);
            && (r.Err? ==> goal == r)
            && (r.Ok? ==>
                  var n := Alloc(r.s, Bin(TermOp(ts[s.i].kind).value, l, r.v));
                  (n.Err? ==> goal == n) && (n.Ok? ==> Live(ts, n.s) && goal == TermLoop(ts, n.s, n.v))))
  {
    hide WfTokens, Unary;
  }

  lemma TermEnds(ts: Toks, s: State, l: Expr)
    requires Live(ts, s) && TermOp(ts[s.i].kind).None?
    ensures TermLoop(ts, s, l) == Ok(l, s)
  {
    hide WfTokens;
  }

  /** What the loop makes of one more operator and operand. */
  lemma AdditiveNext(ts: Toks, s: State, l: Expr)
    requires Live(ts, s) && AddOp(ts[s.i].kind).Some?
    ensures var goal, a := AdditiveLoop(ts, s, l), Advance(ts, s);
      && (a.Err? ==> goal == Err(a.error))
      && (a.Ok? ==>
            var r := Term(ts, a.s);
            && (r.Err? ==> goal == r)
            && (r.Ok? ==>
                  var n := Alloc(r.s, Bin(AddOp(ts[s.i].kind).value, l, r.v));
                  (n.Err? ==> goal == n) && (n.Ok? ==> Live(ts, n.s) && goal == AdditiveLoop(ts, n.s, n.v))))
  {
    hide WfTokens, Term;
  }

  lemma AdditiveEnds(ts: Toks, s: State, l: Expr)
    requires Live(ts, s) && AddOp(ts[s.i].kind).None?
    ensures AdditiveLoop(ts, s, l) == Ok(l, s)
  {
    hide WfTokens;
  }

  // ---- statements ----

  ghost function Statement(ts: Toks, s: State): (r: Result<Stmt>)
    requires Live(ts, s)
    ensures Past(ts, s, 1, r)
    decreases |ts| - s.i, 1
  {
    match ts[s.i].kind
    case LBrace => BlockStmt(ts, s)
    case KwInt => DeclStmt(ts, s)
    case KwIf => IfStmt(ts, s)
    case KwWhile => WhileStmt(ts, s)
    case KwPrint => PrintStmt(ts, s)
    case KwReturn => ReturnStmt(ts, s)
    case Ident(_) => AssignStmt(ts, s)
    case _ => Err(Emitter.Error(ts[s.i].line, "comando invalido"))
  }

  ghost function DeclStmt(ts: Toks, s: State): (r: Result<Stmt>)
    requires Live(ts, s) && ts[s.i].kind == KwInt
    ensures Past(ts, s, 1, r)
  {
    var line := ts[s.i].line;
    var a := Advance(ts, s);
    if a.Err? then Err(a.error) else
    if !ts[a.s.i].kind.Ident? then Err(Emitter.Error(line, "esperado nome de variavel")) else
    var name := ts[a.s.i].kind.name;
    var b := Advance(ts, a.s);
    if b.Err? then Err(b.error) else
    var d := Declare(b.s, name, line);
    if d.Err? then Err(d.error) else
    var n := Alloc(d.s, d.v);
    if n.Err? then Err(n.error) else
    DeclRest(ts, n.s, d.v)
  }

  /** The initialiser, if any, and the semicolon of a declaration. */
  ghost function DeclRest(ts: Toks, s: State, off: nat): (r: Result<Stmt>)
    requires Live(ts, s)
    ensures Past(ts, s, 1, r)
  {
    if ts[s.i].kind != Becomes then
      var c := Expect(ts, s, Semi, "esperado ';'");
      if c.Err? then Err(c.error) else Ok(Decl(off, None), c.s)
    else
      var q := Advance(ts, s);
      if q.Err? then Err(q.error) else
      var e := Comparison(ts, q.s);
      if e.Err? then Err(e.error) else
      var c := Expect(ts, e.s, Semi, "esperado ';'");
      if c.Err? then Err(c.error) else Ok(Decl(off, Some(e.v)), c.s)
  }

  /** The parenthesised expression after `if`, `while` or `print`. */
  ghost function Condition(ts: Toks, s: State): (r: Result<Expr>)
    requires Live(ts, s) && !ts[s.i].kind.Eof?
    ensures Past(ts, s, 4, r)
  {
    var a := Advance(ts, s);
    if a.Err? then Err(a.error) else
    var o := Expect(ts, a.s, LParen, "esperado '('");
    if o.Err? then Err(o.error) else
    var e := Comparison(ts, o.s);
    if e.Err? then e else
    var c := Expect(ts, e.s, RParen, "esperado ')'");
    if c.Err? then Err(c.error) else Ok(e.v, c.s)
  }

  ghost function IfStmt(ts: Toks, s: State): (r: Result<Stmt>)
    requires Live(ts, s) && ts[s.i].kind == KwIf
    ensures Past(ts, s, 1, r)
    decreases |ts| - s.i, 0
  {
    var c := Condition(ts, s);
    if c.Err? then Err(c.error) else
    var t := Statement(ts, c.s);
    if t.Err? then t else
    if ts[t.s.i].kind != KwElse then Alloc(t.s, If(c.v, t.v, None)) else
    var a := Advance(ts, t.s);
    if a.Err? then Err(a.error) else
    var e := Statement(ts, a.s);
    if e.Err? then e else Alloc(e.s, If(c.v, t.v, Some(e.v)))
  }

  ghost function WhileStmt(ts: Toks, s: State): (r: Result<Stmt>)
    requires Live(ts, s) && ts[s.i].kind == KwWhile
    ensures Past(ts, s, 1, r)
    decreases |ts| - s.i, 0
  {
    var c := Condition(ts, s);
    if c.Err? then Err(c.error) else
    var b := Statement(ts, c.s);
    if b.Err? then b else Alloc(b.s, While(c.v, b.v))
  }

  ghost function PrintStmt(ts: Toks, s: State): (r: Result<Stmt>)
    requires Live(ts, s) && ts[s.i].kind == KwPrint
    ensures Past(ts, s, 1, r)
  {
    var e := Condition(ts, s);
    if e.Err? then Err(e.error) else
    var c := Expect(ts, e.s, Semi, "esperado ';'");
    if c.Err? then Err(c.error) else Alloc(c.s, Print(e.v))
  }

  ghost function ReturnStmt(ts: Toks, s: State): (r: Result<Stmt>)
    requires Live(ts, s) && ts[s.i].kind == KwReturn
    ensures Past(ts, s, 1, r)
  {
    var a := Advance(ts, s);
    if a.Err? then Err(a.error) else
    var e := Comparison(ts, a.s);
    if e.Err? then Err(e.error) else
    var c := Expect(ts, e.s, Semi, "esperado ';'");
    if c.Err? then Err(c.error) else Alloc(c.s, Return(e.v))
  }

  ghost function AssignStmt(ts: Toks, s: State): (r: Result<Stmt>)
    requires Live(ts, s) && ts[s.i].kind.Ident?
    ensures Past(ts, s, 1, r)
  {
    var tok := ts[s.i];
    var a := Advance(ts, s);
    if a.Err? then Err(a.error) else
    var off := Lookup(a.s.syms, tok.kind.name);
    if off < 0 then Err(Emitter.Error(tok.line, "variavel nao declarada")) else
    var o := Expect(ts, a.s, Becomes, "esperado '='");
    if o.Err? then Err(o.error) else
    var e := Comparison(ts, o.s);
    if e.Err? then Err(e.error) else
    var c := Expect(ts, e.s, Semi, "esperado ';'");
    if c.Err? then Err(c.error) else Alloc(c.s, Source.Assign(off, e.v))
  }

  ghost function BlockStmt(ts: Toks, s: State): (r: Result<Stmt>)
    requires Live(ts, s)
    ensures Past(ts, s, 1, r)
    decreases |ts| - s.i, 0
  {
    var o := Expect(ts, s, LBrace, "esperado '{'");
    if o.Err? then Err(o.error) else
    var n := Alloc(o.s, ());
    if n.Err? then Err(n.error) else
    var b := Statements(ts, n.s);
    if b.Err? then Err(b.error) else
    var c := Expect(ts, b.s, RBrace, "esperado '}'");
    if c.Err? then Err(c.error) else Ok(Block(b.v), c.s)
  }

  ghost function Statements(ts: Toks, s: State): (r: Result<seq<Stmt>>)
    requires Live(ts, s)
    ensures Past(ts, s, 0, r)
    decreases |ts| - s.i, 2
  {
    if ts[s.i].kind.RBrace? || ts[s.i].kind.Eof? then Ok([], s) else
    var a := Statement(ts, s);
    if a.Err? then Err(a.error) else
    var b := Statements(ts, a.s);
    if b.Err? then b else Ok([a.v] + b.v, b.s)
  }

  ghost function Program(ts: Toks, s: State): (r: Result<Stmt>)
    requires Live(ts, s)
    ensures Past(ts, s, 1, r)
  {
    var a := Expect(ts, s, KwInt, "esperado 'int'");
    if a.Err? then Err(a.error) else
    if ts[a.s.i].kind != Ident("main") then Err(Emitter.Error(ts[a.s.i].line, "esperado 'main'")) else
    var b := Advance(ts, a.s);
    if b.Err? then Err(b.error) else
    var o := Expect(ts, b.s, LParen, "esperado '('");
    if o.Err? then Err(o.error) else
    var c := Expect(ts, o.s, RParen, "esperado ')'");
    if c.Err? then Err(c.error) else BlockStmt(ts, c.s)
  }

  /** The front end on a whole text: the tree and the names of `main`, or the first error. */
  ghost function Parse(src: string): Result<Stmt> {
    var ts: Toks := Tokens(src, 0, 1);
    if ts[0].kind.Bad? then Err(Emitter.Error(ts[0].line, "caractere invalido"))
    else Program(ts, State(0, [], 0))
  }
}
