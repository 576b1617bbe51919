/** The language the parser accepts, independently of how it parses: phrases with their written form, and the proof
    that the parser accepts exactly the token sequences that some phrase writes, with that phrase's tree. */
module Grammar {
  import opened Words
  import opened Lexer
  import opened Source
  import opened Parser

  /** Expressions as written: names instead of offsets, and parentheses. */
  datatype Phrase =
    | Lit(v: Int32)
    | Name(name: string)
    | Minus(p: Phrase)
    | Infix(op: BinOp, l: Phrase, r: Phrase)
    | Paren(p: Phrase)

  datatype Command =
    | CBlock(cs: seq<Command>)
    | CDecl(name: string, init: Option<Phrase>)
    | CAssign(name: string, p: Phrase)
    | CIf(cond: Phrase, thn: Command, els: Option<Command>)
    | CWhile(cond: Phrase, body: Command)
    | CPrint(p: Phrase)
    | CReturn(p: Phrase)

  // ---- written form ----

  /** What is written never starts with an end marker. */
  predicate NoMarkerFirst(ks: seq<Kind>) { ks == [] || !Final(ks[0]) }

  function OpKind(op: BinOp): Kind {
    match op
    case Add => Plus case Sub => Kind.Minus case Mul => Star case Div => Slash
    case Eq => EqEq case Ne => NotEq case Lt => Less case Gt => Greater case Le => LessEq case Ge => GreaterEq
  }

  function Write(p: Phrase): (ks: seq<Kind>)
    ensures |ks| > 0 && NoMarkerFirst(ks)
  {
    match p
    case Lit(v) => [Kind.Num(v)]
    case Name(name) => [Ident(name)]
    case Minus(q) => [Kind.Minus] + Write(q)
    case Infix(op, l, r) => Write(l) + [OpKind(op)] + Write(r)
    case Paren(q) => [LParen] + Write(q) + [RParen]
  }

  function DeclTail(init: Option<Phrase>): (ks: seq<Kind>)
    ensures NoMarkerFirst(ks)
  {
    (if init.Some? then [Becomes] + Write(init.value) else []) + [Semi]
  }

  /** A keyword and its parenthesised expression. */
  function Heading(kw: Kind, p: Phrase): (ks: seq<Kind>)
    requires !Final(kw)
    ensures |ks| > 0 && NoMarkerFirst(ks)
  {
    [kw, LParen] + Write(p) + [RParen]
  }

  function WriteCommand(c: Command): (ks: seq<Kind>)
    ensures |ks| > 0 && NoMarkerFirst(ks)
    decreases c, 1
  {
    match c
    case CBlock(cs) => [LBrace] + WriteCommands(cs) + [RBrace]
    case CDecl(name, init) =>
      [KwInt, Ident(name)] + DeclTail(init)
    case CAssign(name, p) => [Ident(name), Becomes] + Write(p) + [Semi]
    case CIf(p, t, els) =>
      Heading(KwIf, p) + WriteCommand(t) + if els.Some? then [KwElse] + WriteCommand(els.value) else []
    case CWhile(p, b) => Heading(KwWhile, p) + WriteCommand(b)
    case CPrint(p) => Heading(KwPrint, p) + [Semi]
    case CReturn(p) => [KwReturn] + Write(p) + [Semi]
  }

  function WriteCommands(cs: seq<Command>): (ks: seq<Kind>)
    ensures NoMarkerFirst(ks)
    decreases cs, 0
  {
    if cs == [] then [] else WriteCommand(cs[0]) + WriteCommands(cs[1..])
  }

  function WriteProgram(c: Command): seq<Kind> {
    [KwInt, Ident("main"), LParen, RParen] + WriteCommand(c)
  }

  // ---- precedence ----

  /** How tightly a phrase binds: 4 for a primary, 3 unary, 2 for a product, 1 for a sum, 0 for a comparison. */
  function Level(p: Phrase): nat {
    match p
    case Minus(_) => 3
    case Infix(op, _, _) => OpLevel(op)
    case _ => 4
  }

  function OpLevel(op: BinOp): nat {
    match op
    case Mul => 2 case Div => 2 case Add => 1 case Sub => 1 case _ => 0
  }

  /** Products and sums associate to the left; comparisons do not chain. */
  predicate WellWritten(p: Phrase) {
    match p
    case Minus(q) => WellWritten(q) && Level(q) >= 3
    case Infix(op, l, r) =>
      WellWritten(l) && WellWritten(r) && Level(r) > OpLevel(op) && Level(l) >= OpLevel(op) &&
      (OpLevel(op) == 0 ==> Level(l) > 0)
    case Paren(q) => WellWritten(q)
    case _ => true
  }

  /** An `else` written after this command would be taken into it. */
  predicate TakesElse(c: Command) {
    match c
    case CIf(_, t, els) => els.None? || TakesElse(els.value)
    case CWhile(_, b) => TakesElse(b)
    case _ => false
  }

  predicate WellWrittenCommand(c: Command)
    decreases c, 1
  {
    match c
    case CBlock(cs) => WellWrittenCommands(cs)
    case CDecl(_, init) => init.Some? ==> WellWritten(init.value)
    case CAssign(_, p) => WellWritten(p)
    case CIf(p, t, els) =>
      WellWritten(p) && WellWrittenCommand(t) && (els.Some? ==> WellWrittenCommand(els.value) && !TakesElse(t))
    case CWhile(p, b) => WellWritten(p) && WellWrittenCommand(b)
    case CPrint(p) => WellWritten(p)
    case CReturn(p) => WellWritten(p)
  }

  predicate WellWrittenCommands(cs: seq<Command>)
    decreases cs, 0
  {
    cs == [] || (WellWrittenCommand(cs[0]) && WellWrittenCommands(cs[1..]))
  }

  // ---- meaning: names to offsets ----

  function Resolve(p: Phrase, syms: seq<string>): Option<Expr> {
    match p
    case Lit(v) => Some(Source.Num(v))
    case Name(name) => if name in syms then Some(Var(Offset(syms, name))) else None
    case Minus(q) =>
      var e := Resolve(q, syms);
      if e.None? then None else Some(Neg(e.value))
    case Infix(op, l, r) =>
      var a, b := Resolve(l, syms), Resolve(r, syms);
      if a.None? || b.None? then None else Some(Bin(op, a.value, b.value))
    case Paren(q) => Resolve(q, syms)
  }

  function Offset(syms: seq<string>, name: string): nat
    requires name in syms
  {
    4 * (IndexOf(syms, name) + 1)
  }

  /** A name may be declared once, anywhere in the function, and at most MAX_LOCALS of them; it is visible from
      its declaration on, its own initialiser and later blocks included. */
  function ResolveCommand(c: Command, syms: seq<string>): (r: Option<(Stmt, seq<string>)>)
    decreases c, 1
  {
    match c
    case CBlock(cs) =>
      var r := ResolveCommands(cs, syms);
      if r.None? then None else Some((Block(r.value.0), r.value.1))
    case CDecl(name, init) =>
      if name in syms || |syms| >= MAX_LOCALS then None else
      var syms' := syms + [name];
      if init.None? then Some((Decl(4 * |syms'|, None), syms')) else
      var e := Resolve(init.value, syms');
      if e.None? then None else Some((Decl(4 * |syms'|, e), syms'))
    case CAssign(name, p) =>
      var e := Resolve(p, syms);
      if name !in syms || e.None? then None else Some((Source.Assign(Offset(syms, name), e.value), syms))
    case CIf(p, t, els) =>
      var e := Resolve(p, syms);
      if e.None? then None else
      var a := ResolveCommand(t, syms);
      if a.None? then None else
      if els.None? then Some((If(e.value, a.value.0, None), a.value.1)) else
      var b := ResolveCommand(els.value, a.value.1);
      if b.None? then None else Some((If(e.value, a.value.0, Some(b.value.0)), b.value.1))
    case CWhile(p, b) =>
      var e := Resolve(p, syms);
      if e.None? then None else
      var a := ResolveCommand(b, syms);
      if a.None? then None else Some((While(e.value, a.value.0), a.value.1))
    case CPrint(p) =>
      var e := Resolve(p, syms);
      if e.None? then None else Some((Print(e.value), syms))
    case CReturn(p) =>
      var e := Resolve(p, syms);
      if e.None? then None else Some((Return(e.value), syms))
  }

  function ResolveCommands(cs: seq<Command>, syms: seq<string>): (r: Option<(seq<Stmt>, seq<string>)>)
    decreases cs, 0
  {
    if cs == [] then Some(([], syms)) else
    var a := ResolveCommand(cs[0], syms);
    if a.None? then None else
    var b := ResolveCommands(cs[1..], a.value.1);
    if b.None? then None else Some(([a.value.0] + b.value.0, b.value.1))
  }

  // ---- size ----

  /** Tree nodes; parentheses take none. */
  function Nodes(p: Phrase): nat {
    match p
    case Minus(q) => 1 + Nodes(q)
    case Infix(_, l, r) => 1 + Nodes(l) + Nodes(r)
    case Paren(q) => Nodes(q)
    case _ => 1
  }

  function NodesCommand(c: Command): nat
    decreases c, 1
  {
    match c
    case CBlock(cs) => 1 + NodesCommands(cs)
    case CDecl(_, init) => 1 + if init.Some? then Nodes(init.value) else 0
    case CAssign(_, p) => 1 + Nodes(p)
    case CIf(p, t, els) => 1 + Nodes(p) + NodesCommand(t) + if els.Some? then NodesCommand(els.value) else 0
    case CWhile(p, b) => 1 + Nodes(p) + NodesCommand(b)
    case CPrint(p) => 1 + Nodes(p)
    case CReturn(p) => 1 + Nodes(p)
  }

  function NodesCommands(cs: seq<Command>): nat
    decreases cs, 0
  {
    if cs == [] then 0 else NodesCommand(cs[0]) + NodesCommands(cs[1..])
  }

  // ---- tokens that spell a phrase ----

  /** The tokens at `i` are `ks`, and another token that is no lexical error follows. */
  ghost predicate Spells(ts: Toks, i: nat, ks: seq<Kind>) {
    && i + |ks| < |ts| && !ts[i + |ks|].kind.Bad?
    && forall k {:trigger ks[k]} :: 0 <= k < |ks| ==> ts[i + k].kind == ks[k]
  }

  ghost function Next(ts: Toks, i: nat, ks: seq<Kind>): Kind
    requires Spells(ts, i, ks)
  {
    ts[i + |ks|].kind
  }

  lemma SpellsSplit(ts: Toks, i: nat, a: seq<Kind>, b: seq<Kind>)
    requires Spells(ts, i, a + b) && NoMarkerFirst(b)
    ensures Spells(ts, i, a) && Spells(ts, i + |a|, b)
    ensures Next(ts, i + |a|, b) == Next(ts, i, a + b)
    ensures b != [] ==> Next(ts, i, a) == b[0]
    ensures a != [] ==> ts[i].kind == a[0]
  {
    var ab := a + b;
    forall k | 0 <= k < |a|
      ensures ts[i + k].kind == a[k]
    {
      assert ab[k] == a[k];
    }
    forall k | 0 <= k < |b|
      ensures ts[i + |a| + k].kind == b[k]
    {
      assert ab[|a| + k] == b[k];
    }
    if b != [] {
      assert ts[i + |a| + 0].kind == b[0];
    }
    if a != [] {
      assert ts[i + 0].kind == a[0];
    }
  }

  lemma SpellsJoin(ts: Toks, i: nat, a: seq<Kind>, b: seq<Kind>)
    requires Spells(ts, i, a) && Spells(ts, i + |a|, b)
    ensures Spells(ts, i, a + b) && Next(ts, i, a + b) == Next(ts, i + |a|, b)
  {
    var ab := a + b;
    forall k | 0 <= k < |ab|
      ensures ts[i + k].kind == ab[k]
    {
      if k >= |a| {
        assert ts[i + |a| + (k - |a|)].kind == b[k - |a|];
      } else {
        assert ts[i + k].kind == a[k];
      }
    }
  }

  lemma SpellsOne(ts: Toks, i: nat, k: Kind)
    requires Spells(ts, i, [k])
    ensures ts[i].kind == k && Next(ts, i, [k]) == ts[i + 1].kind && !ts[i + 1].kind.Bad?
  {
    assert ts[i + 0].kind == [k][0];
  }

  lemma SpellsInRange(ts: Toks, i: nat, ks: seq<Kind>)
    requires Spells(ts, i, ks)
    ensures i + |ks| < |ts|
  {
  }

  /** The first of the tokens, and the others. */
  lemma SpellsCons(ts: Toks, i: nat, k: Kind, rest: seq<Kind>)
    requires Spells(ts, i, [k] + rest) && NoMarkerFirst(rest)
    ensures i + 1 < |ts| && ts[i].kind == k && !ts[i + 1].kind.Bad?
    ensures Spells(ts, i + 1, rest) && Next(ts, i + 1, rest) == Next(ts, i, [k] + rest)
  {
    SpellsSplit(ts, i, [k], rest);
    SpellsOne(ts, i, k);
  }

  /** The state after `n` more tokens and `k` more nodes. */
  function Moved(s: State, n: nat, k: nat): State {
    State(s.i + n, s.syms, s.arena + NodeBytes(k))
  }

  predicate Room(s: State, k: nat) { s.arena + NodeBytes(k) <= ARENA_SIZE }

  // ---- completeness: what a phrase writes, the parser reads ----

  /** Tokens at `s` write `p`, whose names are declared and whose nodes fit. */
  ghost predicate Readable(ts: Toks, s: State, p: Phrase) {
    WellWritten(p) && Spells(ts, s.i, Write(p)) && Resolve(p, s.syms).Some? && Room(s, Nodes(p))
  }

  ghost function Read(s: State, p: Phrase): Result<Expr>
    requires Resolve(p, s.syms).Some?
  {
    Ok(Resolve(p, s.syms).value, Moved(s, |Write(p)|, Nodes(p)))
  }

  lemma {:induction false} UnaryReads(ts: Toks, s: State, p: Phrase)
    requires Readable(ts, s, p) && Level(p) >= 3
    ensures Unary(ts, s) == Read(s, p)
    decreases p, 0
  {
    hide Unary, Readable, Read;
    match p
    case Minus(q) => MinusReads(ts, s, q);
    case Paren(q) => ParenReads(ts, s, q);
    case _ => LeafReads(ts, s, p);
  }

  lemma LeafReads(ts: Toks, s: State, p: Phrase)
    requires Readable(ts, s, p) && (p.Lit? || p.Name?)
    ensures Unary(ts, s) == Read(s, p)
  {
    hide WfTokens, Spells;
    SpellsOne(ts, s.i, Write(p)[0]);
  }

  lemma {:induction false} MinusReads(ts: Toks, s: State, q: Phrase)
    requires Readable(ts, s, Phrase.Minus(q))
    ensures Unary(ts, s) == Read(s, Phrase.Minus(q))
    decreases q, 4
  {
    hide WfTokens, Spells, Primary;
    SpellsCons(ts, s.i, Kind.Minus, Write(q));
    UnaryReads(ts, Moved(s, 1, 0), q);
  }

  lemma {:induction false} ParenReads(ts: Toks, s: State, q: Phrase)
    requires Readable(ts, s, Paren(q))
    ensures Unary(ts, s) == Read(s, Paren(q))
    decreases q, 4
  {
    hide Comparison, WfTokens, Spells, Write, Unary, Primary;
    assert Write(Paren(q)) == [LParen] + (Write(q) + [RParen]) by { ParenShape(q); }
    SpellsCons(ts, s.i, LParen, Write(q) + [RParen]);
    PhraseEnds(ts, s.i + 1, q, RParen);
    SpellsOne(ts, s.i + 1 + |Write(q)|, RParen);
    ComparisonReads(ts, Moved(s, 1, 0), q);
    ParenSteps(ts, s, Read(Moved(s, 1, 0), q));
  }

  lemma ParenSteps(ts: Toks, s: State, r: Result<Expr>)
    requires Live(ts, s) && ts[s.i].kind.LParen? && Live(ts, Moved(s, 1, 0)) && Comparison(ts, Moved(s, 1, 0)) == r && r.Ok?
    requires ts[r.s.i].kind.RParen? && !ts[r.s.i + 1].kind.Bad?
    ensures Unary(ts, s) == Ok(r.v, Moved(r.s, 1, 0))
  {
    hide Comparison, WfTokens;
  }

  lemma ParenShape(q: Phrase)
    ensures Write(Paren(q)) == [LParen] + (Write(q) + [RParen])
  {
  }

  lemma {:induction false} TermReads(ts: Toks, s: State, p: Phrase)
    requires Readable(ts, s, p) && Level(p) >= 2
    ensures Term(ts, s) == TermLoop(ts, Read(s, p).s, Read(s, p).v)
    decreases p, 1
  {
    hide Unary, Readable, Write, Spells, TermLoop;
    ReadableElim(ts, s, p);
    if Level(p) >= 3 {
      UnaryReads(ts, s, p);
    } else {
      var s1, s2 := InfixReads(ts, s, p.op, p.l, p.r);
      TermReads(ts, s, p.l);
      UnaryReads(ts, s2, p.r);
      TermNext(ts, s1, Read(s, p.l).v);
    }
  }

  lemma ReadableElim(ts: Toks, s: State, p: Phrase)
    requires Readable(ts, s, p)
    ensures WellWritten(p) && Live(ts, s) && Resolve(p, s.syms).Some? && Room(s, Nodes(p))
    ensures Live(ts, Read(s, p).s)
  {
    assert ts[s.i + 0].kind == Write(p)[0];
  }

  /** An infix phrase, taken apart: where its operator stands and where its right operand starts. */
  lemma InfixReads(ts: Toks, s: State, op: BinOp, l: Phrase, r: Phrase) returns (s1: State, s2: State)
    requires Readable(ts, s, Infix(op, l, r))
    ensures Readable(ts, s, l) && s1 == Read(s, l).s && s2 == Moved(s1, 1, 0)
    ensures Live(ts, s1) && ts[s1.i].kind == OpKind(op) && Parser.Advance(ts, s1) == Ok((), s2)
    ensures Readable(ts, s2, r) && Spells(ts, s2.i, Write(r))
    ensures Next(ts, s2.i, Write(r)) == Next(ts, s.i, Write(Infix(op, l, r)))
    ensures Read(s, Infix(op, l, r)) == Alloc(Read(s2, r).s, Bin(op, Read(s, l).v, Read(s2, r).v))
  {
    hide WfTokens, Spells, Write, NoMarkerFirst;
    s1 := Read(s, l).s;
    s2 := Moved(s1, 1, 0);
    InfixShape(op, l, r);
    SpellsSplit(ts, s.i, Write(l), [OpKind(op)] + Write(r));
    SpellsCons(ts, s1.i, OpKind(op), Write(r));
    ReadInfix(s, s2, op, l, r);
  }

  lemma ReadInfix(s: State, s2: State, op: BinOp, l: Phrase, r: Phrase)
    requires Resolve(Infix(op, l, r), s.syms).Some? && Room(s, Nodes(Infix(op, l, r)))
    requires Resolve(l, s.syms).Some? && s2 == Moved(Read(s, l).s, 1, 0)
    ensures Resolve(r, s2.syms).Some? && Room(s2, Nodes(r))
    ensures Read(s, Infix(op, l, r)) == Alloc(Read(s2, r).s, Bin(op, Read(s, l).v, Read(s2, r).v))
  {
  }

  lemma InfixShape(op: BinOp, l: Phrase, r: Phrase)
    ensures Write(Infix(op, l, r)) == Write(l) + ([OpKind(op)] + Write(r)) && NoMarkerFirst([OpKind(op)] + Write(r))
  {
    hide Write, OpKind;
    OpNoMarker(op);
    WriteInfix(op, l, r);
    Reassociate(Write(l), [OpKind(op)], Write(r));
  }

  lemma WriteInfix(op: BinOp, l: Phrase, r: Phrase)
    ensures Write(Infix(op, l, r)) == Write(l) + [OpKind(op)] + Write(r)
  {
    hide OpKind;
  }

  lemma Reassociate(a: seq<Kind>, b: seq<Kind>, c: seq<Kind>)
    ensures a + b + c == a + (b + c)
  {
  }

  lemma OpNoMarker(op: BinOp)
    ensures !Final(OpKind(op))
  {
  }

  lemma {:induction false} AdditiveReads(ts: Toks, s: State, p: Phrase)
    requires Readable(ts, s, p) && Level(p) >= 1 && TermOp(Next(ts, s.i, Write(p))).None?
    ensures Parser.Additive(ts, s) == AdditiveLoop(ts, Read(s, p).s, Read(s, p).v)
    decreases p, 2
  {
    hide Term, Readable, Write, Spells, TermLoop, AdditiveLoop;
    ReadableElim(ts, s, p);
    if Level(p) >= 2 {
      TermReads(ts, s, p);
      TermEnds(ts, Read(s, p).s, Read(s, p).v);
    } else {
      var s1, s2 := InfixReads(ts, s, p.op, p.l, p.r);
      AdditiveReads(ts, s, p.l);
      TermReads(ts, s2, p.r);
      ReadableElim(ts, s2, p.r);
      TermEnds(ts, Read(s2, p.r).s, Read(s2, p.r).v);
      AdditiveNext(ts, s1, Read(s, p.l).v);
    }
  }

  /** No operator follows, so the phrase ends here. */
  predicate Stops(k: Kind) { TermOp(k).None? && AddOp(k).None? && CmpOp(k).None? }

  /** Every well-written expression is read as its tree. */
  lemma {:induction false} ComparisonReads(ts: Toks, s: State, p: Phrase)
    requires Readable(ts, s, p) && Stops(Next(ts, s.i, Write(p)))
    ensures Comparison(ts, s) == Read(s, p)
    decreases p, 3
  {
    hide Parser.Additive, Readable, Write, Spells, WfTokens, Resolve, Nodes, AdditiveLoop, Comparison;
    ReadableElim(ts, s, p);
    if Level(p) >= 1 {
      AdditiveReads(ts, s, p);
      AdditiveEnds(ts, Read(s, p).s, Read(s, p).v);
      ComparisonPlain(ts, s, Read(s, p));
    } else {
      var s1, s2 := InfixReads(ts, s, p.op, p.l, p.r);
      ReadableElim(ts, s, p.l);
      ReadableElim(ts, s2, p.r);
      AdditiveReads(ts, s, p.l);
      AdditiveEnds(ts, s1, Read(s, p.l).v);
      AdditiveReads(ts, s2, p.r);
      AdditiveEnds(ts, Read(s2, p.r).s, Read(s2, p.r).v);
      ComparisonStep(ts, s, s2, p.op, Read(s, p.l), Read(s2, p.r));
    }
  }

  lemma ComparisonPlain(ts: Toks, s: State, r: Result<Expr>)
    requires Live(ts, s) && Parser.Additive(ts, s) == r && r.Ok? && CmpOp(ts[r.s.i].kind).None?
    ensures Comparison(ts, s) == r
  {
    hide Parser.Additive, WfTokens;
  }

  lemma ComparisonStep(ts: Toks, s: State, s2: State, op: BinOp, l: Result<Expr>, r: Result<Expr>)
    requires Live(ts, s) && Parser.Additive(ts, s) == l && l.Ok? && CmpOp(ts[l.s.i].kind) == Some(op)
    requires Parser.Advance(ts, l.s) == Ok((), s2) && Parser.Additive(ts, s2) == r && r.Ok?
    ensures Comparison(ts, s) == Alloc(r.s, Bin(op, l.v, r.v))
  {
    hide Parser.Additive, WfTokens;
  }

  lemma PhraseEnds(ts: Toks, i: nat, p: Phrase, k: Kind)
    requires Spells(ts, i, Write(p) + [k]) && !Final(k)
    ensures Spells(ts, i, Write(p)) && Next(ts, i, Write(p)) == k && Spells(ts, i + |Write(p)|, [k])
  {
    hide Write;
    SpellsSplit(ts, i, Write(p), [k]);
  }

  /** Reading an expression and the closing token after it. */
  lemma ClosedReads(ts: Toks, s: State, p: Phrase, k: Kind, msg: string)
    requires WellWritten(p) && Resolve(p, s.syms).Some? && Room(s, Nodes(p))
    requires Spells(ts, s.i, Write(p) + [k]) && !Final(k) && Stops(k)
    ensures Live(ts, s) && Comparison(ts, s) == Read(s, p)
    ensures Live(ts, Read(s, p).s) && Parser.Expect(ts, Read(s, p).s, k, msg) == Ok((), Moved(Read(s, p).s, 1, 0))
  {
    hide Comparison, Write;
    PhraseEnds(ts, s.i, p, k);
    SpellsOne(ts, s.i + |Write(p)|, k);
    ComparisonReads(ts, s, p);
    ReadableElim(ts, s, p);
  }

  lemma ConditionReads(ts: Toks, s: State, kw: Kind, p: Phrase)
    requires !Final(kw) && WellWritten(p) && Resolve(p, s.syms).Some? && Room(s, Nodes(p))
    requires Spells(ts, s.i, Heading(kw, p))
    ensures Live(ts, s) && ts[s.i].kind == kw
    ensures Condition(ts, s) == Ok(Resolve(p, s.syms).value, Moved(s, |Write(p)| + 3, Nodes(p)))
  {
    hide Comparison, Write, WfTokens, Spells, Stops, Condition;
    var tail := Write(p) + [RParen];
    assert Heading(kw, p) == [kw] + ([LParen] + tail);
    SpellsCons(ts, s.i, kw, [LParen] + tail);
    SpellsCons(ts, s.i + 1, LParen, tail);
    assert Stops(RParen) by { RParenStops(); }
    ClosedReads(ts, Moved(s, 2, 0), p, RParen, "esperado ')'");
    ConditionSteps(ts, s, Read(Moved(s, 2, 0), p));
  }

  lemma ConditionSteps(ts: Toks, s: State, r: Result<Expr>)
    requires s.i + 2 < |ts| && !Final(ts[s.i].kind) && ts[s.i + 1].kind.LParen? && !ts[s.i + 2].kind.Bad?
    requires Comparison(ts, Moved(s, 2, 0)) == r && r.Ok? && Live(ts, r.s)
    requires Parser.Expect(ts, r.s, RParen, "esperado ')'") == Ok((), Moved(r.s, 1, 0))
    ensures Condition(ts, s) == Ok(r.v, Moved(r.s, 1, 0))
  {
    hide Comparison, WfTokens;
  }

  lemma RParenStops()
    ensures Stops(RParen) && Stops(Semi)
  {
  }

  ghost predicate ReadableCommand(ts: Toks, s: State, c: Command) {
    && WellWrittenCommand(c) && Spells(ts, s.i, WriteCommand(c)) && ResolveCommand(c, s.syms).Some?
    && Room(s, NodesCommand(c))
  }

  /** Readable, and no `else` stands behind it that it would take. */
  ghost predicate Ready(ts: Toks, s: State, c: Command) {
    ReadableCommand(ts, s, c) && (TakesElse(c) ==> !Next(ts, s.i, WriteCommand(c)).KwElse?)
  }

  ghost function ReadCommand(s: State, c: Command): Result<Stmt>
    requires ResolveCommand(c, s.syms).Some?
  {
    var r := ResolveCommand(c, s.syms).value;
    Ok(r.0, State(s.i + |WriteCommand(c)|, r.1, s.arena + NodeBytes(NodesCommand(c))))
  }

  lemma AssignReads(ts: Toks, s: State, c: Command)
    requires ReadableCommand(ts, s, c) && c.CAssign?
    ensures Live(ts, s) && Statement(ts, s) == ReadCommand(s, c)
  {
    hide Comparison, Write, Spells, WfTokens, Statement, AssignStmt, Parser.Expect, Stops, Offset;
    RParenStops();
    var tail := Write(c.p) + [Semi];
    assert WriteCommand(c) == [Ident(c.name)] + ([Becomes] + tail);
    SpellsCons(ts, s.i, Ident(c.name), [Becomes] + tail);
    SpellsCons(ts, s.i + 1, Becomes, tail);
    ClosedReads(ts, Moved(s, 2, 0), c.p, Semi, "esperado ';'");
    AssignSteps(ts, s, c.name, Read(Moved(s, 2, 0), c.p));
    StatementIsAssign(ts, s);
  }

  lemma AssignSteps(ts: Toks, s: State, name: string, r: Result<Expr>)
    requires s.i + 2 < |ts| && ts[s.i].kind == Ident(name) && ts[s.i + 1].kind.Becomes? && !ts[s.i + 2].kind.Bad?
    requires name in s.syms && Comparison(ts, Moved(s, 2, 0)) == r && r.Ok? && Live(ts, r.s)
    requires Parser.Expect(ts, r.s, Semi, "esperado ';'") == Ok((), Moved(r.s, 1, 0))
    ensures AssignStmt(ts, s) == Alloc(Moved(r.s, 1, 0), Source.Assign(Offset(s.syms, name), r.v))
  {
    hide Comparison, WfTokens, Parser.Expect, Parser.Advance, Alloc, Lookup, Offset;
    LookupIs(s.syms, name);
    AdvanceIs(ts, s);
    ExpectIs(ts, Moved(s, 1, 0), Becomes, "esperado '='");
  }

  lemma LookupIs(syms: seq<string>, name: string)
    requires name in syms
    ensures Lookup(syms, name) == Offset(syms, name)
  {
  }

  lemma AdvanceIs(ts: Toks, s: State)
    requires s.i + 1 < |ts| && !Final(ts[s.i].kind) && !ts[s.i + 1].kind.Bad?
    ensures Parser.Advance(ts, s) == Ok((), Moved(s, 1, 0))
  {
    hide WfTokens;
  }

  lemma StatementIsAssign(ts: Toks, s: State)
    requires Live(ts, s) && ts[s.i].kind.Ident?
    ensures Statement(ts, s) == AssignStmt(ts, s)
  {
    hide AssignStmt, WfTokens;
  }

  lemma ReturnReads(ts: Toks, s: State, c: Command)
    requires ReadableCommand(ts, s, c) && c.CReturn?
    ensures Live(ts, s) && Statement(ts, s) == ReadCommand(s, c)
  {
    hide Comparison, Write, Spells, WfTokens, BlockStmt, DeclStmt, IfStmt, WhileStmt, PrintStmt, AssignStmt;
    var tail := Write(c.p) + [Semi];
    assert WriteCommand(c) == [KwReturn] + tail;
    SpellsCons(ts, s.i, KwReturn, tail);
    ClosedReads(ts, Moved(s, 1, 0), c.p, Semi, "esperado ';'");
  }

  lemma PrintReads(ts: Toks, s: State, c: Command)
    requires ReadableCommand(ts, s, c) && c.CPrint?
    ensures Live(ts, s) && Statement(ts, s) == ReadCommand(s, c)
  {
    hide Comparison, Write, Condition, Spells, WfTokens, BlockStmt, DeclStmt, IfStmt, WhileStmt, ReturnStmt, AssignStmt,
      PrintStmt;
    var head := Heading(KwPrint, c.p);
    assert WriteCommand(c) == head + [Semi];
    SpellsSplit(ts, s.i, head, [Semi]);
    SpellsOne(ts, s.i + |head|, Semi);
    SpellsInRange(ts, s.i + |head|, [Semi]);
    ConditionReads(ts, s, KwPrint, c.p);
    PrintSteps(ts, s, Condition(ts, s));
  }

  lemma PrintSteps(ts: Toks, s: State, r: Result<Expr>)
    requires Live(ts, s) && ts[s.i].kind == KwPrint && Condition(ts, s) == r && r.Ok?
    requires ts[r.s.i].kind.Semi? && r.s.i + 1 < |ts| && !ts[r.s.i + 1].kind.Bad?
    ensures PrintStmt(ts, s) == Alloc(Moved(r.s, 1, 0), Print(r.v))
  {
    hide Condition, WfTokens;
  }

  lemma DeclReads(ts: Toks, s: State, c: Command)
    requires ReadableCommand(ts, s, c) && c.CDecl?
    ensures Live(ts, s) && Statement(ts, s) == ReadCommand(s, c)
  {
    hide Comparison, Write, Spells, WfTokens, BlockStmt, DeclStmt, IfStmt, WhileStmt, PrintStmt, ReturnStmt, AssignStmt;
    var tail := DeclTail(c.init);
    assert WriteCommand(c) == [KwInt] + ([Ident(c.name)] + tail);
    SpellsCons(ts, s.i, KwInt, [Ident(c.name)] + tail);
    SpellsCons(ts, s.i + 1, Ident(c.name), tail);
    DeclTailReads(ts, s, c.name, c.init);
  }

  lemma DeclTailReads(ts: Toks, s: State, name: string, init: Option<Phrase>)
    requires s.i + 2 < |ts| && ts[s.i].kind == KwInt && ts[s.i + 1].kind == Ident(name) && !ts[s.i + 2].kind.Bad?
    requires Spells(ts, s.i + 2, DeclTail(init)) && name !in s.syms && |s.syms| < MAX_LOCALS
    requires init.Some? ==> WellWritten(init.value) && Resolve(init.value, s.syms + [name]).Some?
    requires Room(s, 1 + if init.Some? then Nodes(init.value) else 0)
    ensures DeclStmt(ts, s) ==
            Ok(Decl(4 * (|s.syms| + 1), if init.Some? then Resolve(init.value, s.syms + [name]) else None),
               State(s.i + 2 + |DeclTail(init)|, s.syms + [name],
                     s.arena + NodeBytes(1 + if init.Some? then Nodes(init.value) else 0)))
  {
    hide Comparison, Write, Spells, WfTokens, DeclStmt, DeclRest, DeclTail, Resolve, Nodes;
    var s3 := State(s.i + 2, s.syms + [name], s.arena + NODE_SIZE);
    DeclBegins(ts, s, s3, name);
    DeclTailIs(init);
    if init.Some? {
      InitReads(ts, s3, 4 * (|s.syms| + 1), init.value);
    } else {
      PlainReads(ts, s3, 4 * (|s.syms| + 1));
    }
  }

  lemma InitReads(ts: Toks, s: State, off: nat, p: Phrase)
    requires Spells(ts, s.i, [Becomes] + (Write(p) + [Semi])) && !ts[s.i].kind.Bad?
    requires WellWritten(p) && Resolve(p, s.syms).Some? && Room(s, Nodes(p))
    ensures DeclRest(ts, s, off) == Ok(Decl(off, Resolve(p, s.syms)), Moved(s, |Write(p)| + 2, Nodes(p)))
  {
    hide Comparison, Write, Spells, WfTokens, DeclRest, Stops, Parser.Advance, Parser.Expect, Resolve, Nodes, WellWritten;
    SpellsCons(ts, s.i, Becomes, Write(p) + [Semi]);
    assert Stops(Semi) by { RParenStops(); }
    ClosedReads(ts, Moved(s, 1, 0), p, Semi, "esperado ';'");
    RestInit(ts, s, off, Read(Moved(s, 1, 0), p));
  }

  lemma PlainReads(ts: Toks, s: State, off: nat)
    requires Spells(ts, s.i, [Semi]) && !ts[s.i].kind.Bad?
    ensures DeclRest(ts, s, off) == Ok(Decl(off, None), Moved(s, 1, 0))
  {
    hide Spells, WfTokens, DeclRest;
    SpellsOne(ts, s.i, Semi);
    SpellsInRange(ts, s.i, [Semi]);
    RestPlain(ts, s, off);
  }

  lemma DeclTailIs(init: Option<Phrase>)
    ensures DeclTail(init) == if init.Some? then [Becomes] + (Write(init.value) + [Semi]) else [Semi]
  {
    hide Write;
  }

  /** The tokens and the room a declaration of `name` starts with; `s3` is the state behind the name. */
  ghost predicate Declares(ts: Toks, s: State, s3: State, name: string) {
    && s.i + 2 < |ts| && ts[s.i].kind == KwInt && ts[s.i + 1].kind == Ident(name) && !ts[s.i + 2].kind.Bad?
    && name !in s.syms && |s.syms| < MAX_LOCALS && Room(s, 1) && s3 == State(s.i + 2, s.syms + [name], s.arena + NODE_SIZE)
  }

  lemma DeclBegins(ts: Toks, s: State, s3: State, name: string)
    requires Declares(ts, s, s3, name)
    ensures DeclStmt(ts, s) == DeclRest(ts, s3, 4 * (|s.syms| + 1))
  {
    hide DeclRest, WfTokens;
  }

  lemma RestPlain(ts: Toks, s: State, off: nat)
    requires s.i + 1 < |ts| && ts[s.i].kind.Semi? && !ts[s.i + 1].kind.Bad?
    ensures DeclRest(ts, s, off) == Ok(Decl(off, None), Moved(s, 1, 0))
  {
    hide Comparison, WfTokens;
  }

  lemma RestInit(ts: Toks, s: State, off: nat, r: Result<Expr>)
    requires Live(ts, s) && ts[s.i].kind.Becomes? && Live(ts, Moved(s, 1, 0))
    requires Comparison(ts, Moved(s, 1, 0)) == r && r.Ok? && Live(ts, r.s)
    requires Parser.Expect(ts, r.s, Semi, "esperado ';'") == Ok((), Moved(r.s, 1, 0))
    ensures DeclRest(ts, s, off) == Ok(Decl(off, Some(r.v)), Moved(r.s, 1, 0))
  {
    hide Comparison, WfTokens, Parser.Expect;
  }

  /** Every well-written command is read as its tree, unless an `else` behind it would be taken into it. */
  lemma {:induction false} CommandReads(ts: Toks, s: State, c: Command)
    requires Ready(ts, s, c)
    ensures Live(ts, s) && Statement(ts, s) == ReadCommand(s, c)
    decreases c, 1
  {
    hide Statement, ReadCommand, ReadableCommand;
    match c
    case CBlock(_) => BlockReads(ts, s, c);
    case CDecl(_, _) => DeclReads(ts, s, c);
    case CAssign(_, _) => AssignReads(ts, s, c);
    case CIf(_, _, _) => IfReads(ts, s, c);
    case CWhile(_, _) => WhileReads(ts, s, c);
    case CPrint(_) => PrintReads(ts, s, c);
    case CReturn(_) => ReturnReads(ts, s, c);
  }

  /** The parts of a readable `if` or `while`; `s1` is the state after the condition. */
  lemma HeadReadable(ts: Toks, s: State, s1: State, c: Command, p: Phrase, t: Command)
    requires ReadableCommand(ts, s, c)
    requires (c.CIf? && p == c.cond && t == c.thn) || (c.CWhile? && p == c.cond && t == c.body)
    requires s1.syms == s.syms && s1.arena == s.arena + NodeBytes(Nodes(p))
    ensures WellWritten(p) && Resolve(p, s.syms).Some? && Room(s, Nodes(p))
    ensures WellWrittenCommand(t) && ResolveCommand(t, s.syms).Some? && Room(s1, NodesCommand(t))
    ensures c.CIf? && c.els.Some? ==> !TakesElse(t) && WellWrittenCommand(c.els.value)
    ensures c.CIf? && c.els.Some? ==>
            && ResolveCommand(c.els.value, ResolveCommand(t, s.syms).value.1).Some?
            && Room(ReadCommand(s1, t).s, NodesCommand(c.els.value))
  {
    hide Spells;
  }

  lemma {:induction false} WhileReads(ts: Toks, s: State, c: Command)
    requires c.CWhile?
    requires Ready(ts, s, c)
    ensures Live(ts, s) && Statement(ts, s) == ReadCommand(s, c)
    decreases c, 0
  {
    hide Comparison, Write, Condition, Spells, WfTokens, WellWrittenCommand, Resolve;
    hide BlockStmt, DeclStmt, IfStmt, PrintStmt, ReturnStmt, AssignStmt;
    var head, w := Heading(KwWhile, c.cond), WriteCommand(c.body);
    HeadReadable(ts, s, Moved(s, |head|, Nodes(c.cond)), c, c.cond, c.body);
    SpellsSplit(ts, s.i, head, w);
    ConditionReads(ts, s, KwWhile, c.cond);
    CommandReads(ts, Moved(s, |head|, Nodes(c.cond)), c.body);
  }

  lemma {:induction false} IfReads(ts: Toks, s: State, c: Command)
    requires c.CIf?
    requires Ready(ts, s, c)
    ensures Live(ts, s) && Statement(ts, s) == ReadCommand(s, c)
    decreases c, 0
  {
    hide Write, Condition, Spells, WfTokens, WriteCommand, IfStmt, Heading, WellWrittenCommand, NodesCommand, Resolve;
    hide BlockStmt, DeclStmt, WhileStmt, PrintStmt, ReturnStmt, AssignStmt, ReadableCommand;
    var s1 := Moved(s, |Heading(KwIf, c.cond)|, Nodes(c.cond));
    IfBegins(ts, s, s1, c);
    IfBranch(ts, s, s1, c);
    CommandReads(ts, s1, c.thn);
    var s2 := ReadCommand(s1, c.thn).s;
    IfGoesOn(ts, s, s1, s2, c);
    if c.els.Some? {
      CommandReads(ts, Moved(s2, 1, 0), c.els.value);
      IfElseSteps(ts, s, s1, s2, c);
    } else {
      IfOnlySteps(ts, s, s1, s2, c);
    }
  }

  /** The condition is read. */
  lemma IfBegins(ts: Toks, s: State, s1: State, c: Command)
    requires c.CIf? && ReadableCommand(ts, s, c) && s1 == Moved(s, |Heading(KwIf, c.cond)|, Nodes(c.cond))
    ensures Live(ts, s) && ts[s.i].kind == KwIf && Resolve(c.cond, s.syms).Some?
    ensures Condition(ts, s) == Ok(Resolve(c.cond, s.syms).value, s1)
  {
    hide Comparison, Write, Condition, Spells, WfTokens, WriteCommand, WellWrittenCommand, NodesCommand, Resolve, ResolveCommand;
    hide Statement, Heading, NodeBytes, Room;
    var tail := if c.els.Some? then [KwElse] + WriteCommand(c.els.value) else [];
    HeadReadable(ts, s, s1, c, c.cond, c.thn);
    IfShape(c);
    SpellsThree(ts, s.i, Heading(KwIf, c.cond), WriteCommand(c.thn), tail);
    ConditionReads(ts, s, KwIf, c.cond);
    HeadingLength(KwIf, c.cond);
  }

  /** The first branch can be read. */
  lemma IfBranch(ts: Toks, s: State, s1: State, c: Command)
    requires c.CIf? && Ready(ts, s, c) && s1 == Moved(s, |Heading(KwIf, c.cond)|, Nodes(c.cond))
    ensures Ready(ts, s1, c.thn) && ResolveCommand(c, s.syms).Some? && Room(s, NodesCommand(c))
  {
    hide Comparison, Write, Condition, Spells, WfTokens, WriteCommand, WellWrittenCommand, NodesCommand, Resolve, ResolveCommand;
    hide Statement, Heading, NodeBytes, Room;
    var tail := if c.els.Some? then [KwElse] + WriteCommand(c.els.value) else [];
    HeadReadable(ts, s, s1, c, c.cond, c.thn);
    IfShape(c);
    SpellsThree(ts, s.i, Heading(KwIf, c.cond), WriteCommand(c.thn), tail);
  }

  /** What stands behind the first branch: the `else` and a readable second branch, or no `else`. */
  lemma IfGoesOn(ts: Toks, s: State, s1: State, s2: State, c: Command)
    requires c.CIf? && Ready(ts, s, c) && s1 == Moved(s, |Heading(KwIf, c.cond)|, Nodes(c.cond))
    requires ResolveCommand(c.thn, s1.syms).Some? && s2 == ReadCommand(s1, c.thn).s
    ensures Live(ts, s1) && Live(ts, s2) && (ts[s2.i].kind.KwElse? <==> c.els.Some?)
    ensures c.els.Some? ==> Live(ts, Moved(s2, 1, 0)) && Ready(ts, Moved(s2, 1, 0), c.els.value)
  {
    hide Comparison, Write, Condition, Spells, WfTokens, WriteCommand, WellWrittenCommand, NodesCommand, Resolve, ResolveCommand;
    hide Statement, Heading, NodeBytes, Room, Next, ReadCommand, ReadableCommand, NoMarkerFirst;
    var head, w := Heading(KwIf, c.cond), WriteCommand(c.thn);
    var tail := if c.els.Some? then [KwElse] + WriteCommand(c.els.value) else [];
    assert Spells(ts, s.i, WriteCommand(c)) by { ReadableSpells(ts, s, c); }
    assert s2.i == s.i + |head| + |w| by { BehindBranch(s1, c.thn); }
    IfShape(c);
    SpellsThree(ts, s.i, head, w, tail);
    if c.els.Some? {
      SpellsCons(ts, s2.i, KwElse, WriteCommand(c.els.value));
      assert ReadableCommand(ts, Moved(s2, 1, 0), c.els.value) by { ElseReadable(ts, s, s1, s2, c); }
    }
  }

  lemma ReadableSpells(ts: Toks, s: State, c: Command)
    requires ReadableCommand(ts, s, c)
    ensures Spells(ts, s.i, WriteCommand(c))
  {
    hide Spells;
  }

  lemma BehindBranch(s1: State, t: Command)
    requires ResolveCommand(t, s1.syms).Some?
    ensures ReadCommand(s1, t).s.i == s1.i + |WriteCommand(t)|
  {
    hide ResolveCommand, WriteCommand;
  }

  lemma ElseReadable(ts: Toks, s: State, s1: State, s2: State, c: Command)
    requires c.CIf? && c.els.Some? && ReadableCommand(ts, s, c) && s1 == Moved(s, |Heading(KwIf, c.cond)|, Nodes(c.cond))
    requires ResolveCommand(c.thn, s1.syms).Some? && s2 == ReadCommand(s1, c.thn).s
    requires Spells(ts, s2.i + 1, WriteCommand(c.els.value))
    ensures ReadableCommand(ts, Moved(s2, 1, 0), c.els.value)
  {
    hide Spells, WriteCommand, WellWrittenCommand, NodesCommand, Resolve, ResolveCommand, Heading, NodeBytes, Room;
    HeadReadable(ts, s, s1, c, c.cond, c.thn);
    RoomSame(s2, NodesCommand(c.els.value));
  }

  lemma RoomSame(s: State, k: nat)
    requires Room(s, k)
    ensures Room(Moved(s, 1, 0), k)
  {
  }

  lemma HeadingLength(kw: Kind, p: Phrase)
    requires !Final(kw)
    ensures |Heading(kw, p)| == |Write(p)| + 3
  {
  }

  lemma IfOnlySteps(ts: Toks, s: State, s1: State, s2: State, c: Command)
    requires c.CIf? && c.els.None? && ResolveCommand(c, s.syms).Some? && Room(s, NodesCommand(c))
    requires Live(ts, s) && ts[s.i].kind == KwIf
    requires Condition(ts, s) == Ok(Resolve(c.cond, s.syms).value, s1) && s1 == Moved(s, |Heading(KwIf, c.cond)|, Nodes(c.cond))
    requires Live(ts, s1) && Statement(ts, s1) == ReadCommand(s1, c.thn) && s2 == ReadCommand(s1, c.thn).s
    requires Live(ts, s2) && !ts[s2.i].kind.KwElse?
    ensures IfStmt(ts, s) == ReadCommand(s, c)
  {
    hide Statement, Condition, Spells, Heading, WfTokens, WriteCommand, WellWrittenCommand;
    IfLength(c);
  }

  lemma IfElseSteps(ts: Toks, s: State, s1: State, s2: State, c: Command)
    requires c.CIf? && c.els.Some? && ResolveCommand(c, s.syms).Some? && Room(s, NodesCommand(c))
    requires Live(ts, s) && ts[s.i].kind == KwIf
    requires Condition(ts, s) == Ok(Resolve(c.cond, s.syms).value, s1) && s1 == Moved(s, |Heading(KwIf, c.cond)|, Nodes(c.cond))
    requires Live(ts, s1) && Statement(ts, s1) == ReadCommand(s1, c.thn) && s2 == ReadCommand(s1, c.thn).s
    requires Live(ts, s2) && ts[s2.i].kind.KwElse? && Live(ts, Moved(s2, 1, 0))
    requires Statement(ts, Moved(s2, 1, 0)) == ReadCommand(Moved(s2, 1, 0), c.els.value)
    ensures IfStmt(ts, s) == ReadCommand(s, c)
  {
    hide Statement, Condition, Spells, Heading, WfTokens, WriteCommand, WellWrittenCommand, ResolveCommand, NodesCommand;
    hide Resolve, IfStmt;
    var e := c.els.value;
    var r1, r2 := IfResolves(c, s.syms);
    IfLength(c);
    assert NodesCommand(c) == 1 + Nodes(c.cond) + NodesCommand(c.thn) + NodesCommand(e) by { IfNodes(c); }
    assert s2 == State(s1.i + |WriteCommand(c.thn)|, r1.1, s1.arena + NodeBytes(NodesCommand(c.thn)));
    var s3 := State(s2.i + 1 + |WriteCommand(e)|, r2.1, s2.arena + NodeBytes(NodesCommand(e)));
    assert Statement(ts, Moved(s2, 1, 0)) == Ok(r2.0, s3);
    IfStmtElse(ts, s, s1, s2, s3, Resolve(c.cond, s.syms).value, r1.0, r2.0);
  }

  lemma IfStmtElse(ts: Toks, s: State, s1: State, s2: State, s3: State, c: Expr, t: Stmt, e: Stmt)
    requires Live(ts, s) && ts[s.i].kind == KwIf && Condition(ts, s) == Ok(c, s1)
    requires Live(ts, s1) && Statement(ts, s1) == Ok(t, s2) && Live(ts, s2) && ts[s2.i].kind.KwElse?
    requires Live(ts, Moved(s2, 1, 0)) && Statement(ts, Moved(s2, 1, 0)) == Ok(e, s3)
    ensures IfStmt(ts, s) == Alloc(s3, If(c, t, Some(e)))
  {
    hide Statement, Condition, WfTokens;
  }

  lemma IfNodes(c: Command)
    requires c.CIf? && c.els.Some?
    ensures NodesCommand(c) == 1 + Nodes(c.cond) + NodesCommand(c.thn) + NodesCommand(c.els.value)
  {
  }

  lemma IfResolves(c: Command, syms: seq<string>) returns (r1: (Stmt, seq<string>), r2: (Stmt, seq<string>))
    requires c.CIf? && c.els.Some? && ResolveCommand(c, syms).Some?
    ensures Resolve(c.cond, syms).Some? && ResolveCommand(c.thn, syms) == Some(r1)
    ensures ResolveCommand(c.els.value, r1.1) == Some(r2)
    ensures ResolveCommand(c, syms) == Some((If(Resolve(c.cond, syms).value, r1.0, Some(r2.0)), r2.1))
  {
    r1 := ResolveCommand(c.thn, syms).value;
    r2 := ResolveCommand(c.els.value, r1.1).value;
  }

  lemma IfShape(c: Command)
    requires c.CIf?
    ensures WriteCommand(c) == Heading(KwIf, c.cond) +
            (WriteCommand(c.thn) + if c.els.Some? then [KwElse] + WriteCommand(c.els.value) else [])
    ensures NoMarkerFirst(if c.els.Some? then [KwElse] + WriteCommand(c.els.value) else [])
  {
    hide Heading;
  }

  lemma IfLength(c: Command)
    requires c.CIf?
    ensures |WriteCommand(c)| == |Heading(KwIf, c.cond)| + |WriteCommand(c.thn)| +
            if c.els.Some? then 1 + |WriteCommand(c.els.value)| else 0
  {
    IfShape(c);
  }

  lemma SpellsThree(ts: Toks, i: nat, a: seq<Kind>, b: seq<Kind>, c: seq<Kind>)
    requires Spells(ts, i, a + (b + c)) && NoMarkerFirst(b) && NoMarkerFirst(c)
    ensures Spells(ts, i, a) && Spells(ts, i + |a|, b) && Spells(ts, i + |a| + |b|, c)
    ensures i + |a| + |b| < |ts| && !ts[i + |a|].kind.Bad? && !ts[i + |a| + |b|].kind.Bad?
    ensures Next(ts, i + |a|, b) == ts[i + |a| + |b|].kind == if c == [] then Next(ts, i, a + (b + c)) else c[0]
    ensures Next(ts, i + |a| + |b|, c) == Next(ts, i, a + (b + c))
  {
    hide Spells, WfTokens;
    SpellsSplit(ts, i, a, b + c);
    SpellsSplit(ts, i + |a|, b, c);
    NextIsLive(ts, i, a);
    NextIsLive(ts, i + |a|, b);
    assert c == [] ==> b + c == b;
  }

  lemma NextIsLive(ts: Toks, i: nat, ks: seq<Kind>)
    requires Spells(ts, i, ks)
    ensures i + |ks| < |ts| && Next(ts, i, ks) == ts[i + |ks|].kind && !ts[i + |ks|].kind.Bad?
  {
  }

  lemma {:induction false} BlockReads(ts: Toks, s: State, c: Command)
    requires ReadableCommand(ts, s, c) && c.CBlock?
    ensures Live(ts, s) && Statement(ts, s) == ReadCommand(s, c) == BlockStmt(ts, s)
    decreases c, 0
  {
    hide Spells, WfTokens, WriteCommands, Statements, BlockStmt, Statement;
    var w := WriteCommands(c.cs);
    assert WriteCommand(c) == [LBrace] + (w + [RBrace]);
    SpellsCons(ts, s.i, LBrace, w + [RBrace]);
    SpellsSplit(ts, s.i + 1, w, [RBrace]);
    SpellsOne(ts, s.i + 1 + |w|, RBrace);
    SpellsInRange(ts, s.i + 1 + |w|, [RBrace]);
    CommandsRead(ts, Moved(s, 1, 1), c.cs);
    BlockSteps(ts, s, Statements(ts, Moved(s, 1, 1)));
    StatementIsBlock(ts, s);
  }

  lemma BlockSteps(ts: Toks, s: State, r: Result<seq<Stmt>>)
    requires s.i + 1 < |ts| && ts[s.i].kind.LBrace? && !ts[s.i + 1].kind.Bad? && Room(s, 1)
    requires Statements(ts, Moved(s, 1, 1)) == r && r.Ok?
    requires ts[r.s.i].kind.RBrace? && r.s.i + 1 < |ts| && !ts[r.s.i + 1].kind.Bad?
    ensures BlockStmt(ts, s) == Ok(Block(r.v), Moved(r.s, 1, 0))
  {
    hide Statements, WfTokens, Parser.Expect, Parser.Advance, Alloc;
    ExpectIs(ts, s, LBrace, "esperado '{'");
    assert Alloc(Moved(s, 1, 0), ()) == Ok((), Moved(s, 1, 1)) by { OneNode(s); }
    ExpectIs(ts, r.s, RBrace, "esperado '}'");
  }

  lemma OneNode(s: State)
    requires Room(s, 1)
    ensures Alloc(Moved(s, 1, 0), ()) == Ok((), Moved(s, 1, 1))
  {
  }

  lemma StatementIsBlock(ts: Toks, s: State)
    requires Live(ts, s) && ts[s.i].kind.LBrace?
    ensures Statement(ts, s) == BlockStmt(ts, s)
  {
    hide BlockStmt, WfTokens;
  }

  lemma ExpectIs(ts: Toks, s: State, k: Kind, msg: string)
    requires s.i + 1 < |ts| && ts[s.i].kind == k && !Final(k) && !ts[s.i + 1].kind.Bad?
    ensures Parser.Expect(ts, s, k, msg) == Ok((), Moved(s, 1, 0))
  {
    hide WfTokens;
  }

  lemma FirstKind(c: Command)
    ensures var k := WriteCommand(c)[0]; !k.KwElse? && !k.RBrace? && !k.Eof?
  {
    hide Write;
  }

  lemma {:induction false} CommandsRead(ts: Toks, s: State, cs: seq<Command>)
    requires WellWrittenCommands(cs) && Spells(ts, s.i, WriteCommands(cs)) && Next(ts, s.i, WriteCommands(cs)).RBrace?
    requires ResolveCommands(cs, s.syms).Some? && Room(s, NodesCommands(cs))
    ensures var r := ResolveCommands(cs, s.syms).value;
      Live(ts, s) && Statements(ts, s) ==
      Ok(r.0, State(s.i + |WriteCommands(cs)|, r.1, s.arena + NodeBytes(NodesCommands(cs))))
    decreases cs, 0
  {
    hide Statement, WriteCommand, ResolveCommand;
    if cs != [] {
      var w, rest := WriteCommand(cs[0]), WriteCommands(cs[1..]);
      SpellsSplit(ts, s.i, w, rest);
      FirstKind(cs[0]);
      if cs[1..] != [] {
        FirstKind(cs[1]);
        assert rest[0] == WriteCommand(cs[1])[0];
      }
      CommandReads(ts, s, cs[0]);
      CommandsRead(ts, ReadCommand(s, cs[0]).s, cs[1..]);
    }
  }

  // ---- soundness: what the parser reads, some phrase writes ----

  /** Reading `r` from `s` on has consumed exactly what `p` writes. */
  ghost predicate Wrote(ts: Toks, s: State, p: Phrase, r: Result<Expr>) {
    && r.Ok? && WellWritten(p) && Spells(ts, s.i, Write(p)) && Resolve(p, s.syms) == Some(r.v)
    && Room(s, Nodes(p)) && r.s == Moved(s, |Write(p)|, Nodes(p))
  }

  lemma {:induction false} PrimarySound(ts: Toks, s: State) returns (p: Phrase)
    requires Live(ts, s) && Primary(ts, s).Ok?
    ensures Level(p) == 4 && Wrote(ts, s, p, Primary(ts, s))
    decreases |ts| - s.i, 0
  {
    hide Comparison, WfTokens, Spells, NoMarkerFirst;
    match ts[s.i].kind
    case Num(v) =>
      p := Lit(v);
      SpellsSingle(ts, s.i, Kind.Num(v));
    case Ident(name) =>
      p := Name(name);
      SpellsSingle(ts, s.i, Ident(name));
    case LParen =>
      var s1 := Moved(s, 1, 0);
      var q := ComparisonSound(ts, s1);
      p := Paren(q);
      ClosedSound(ts, s1, q, Comparison(ts, s1), RParen);
      SpellsBefore(ts, s.i, LParen, Write(q) + [RParen]);
      ParenShape(q);
  }

  lemma {:induction false} UnarySound(ts: Toks, s: State) returns (p: Phrase)
    requires Live(ts, s) && Unary(ts, s).Ok?
    ensures Level(p) >= 3 && Wrote(ts, s, p, Unary(ts, s))
    decreases |ts| - s.i, 1
  {
    hide Primary, NoMarkerFirst;
    if ts[s.i].kind.Minus? {
      var q := UnarySound(ts, Moved(s, 1, 0));
      p := Phrase.Minus(q);
      SpellsJoin(ts, s.i, [Kind.Minus], Write(q));
    } else {
      p := PrimarySound(ts, s);
    }
  }

  /** One more operand: `l` from `s0` to `s`, an operator, and `r` from there on make an infix phrase. */
  lemma InfixSound(ts: Toks, s0: State, l: Phrase, a: Result<Expr>, op: BinOp, r: Phrase, b: Result<Expr>)
    requires Live(ts, s0) && Wrote(ts, s0, l, a) && Live(ts, a.s) && ts[a.s.i].kind == OpKind(op)
    requires Wrote(ts, Moved(a.s, 1, 0), r, b) && !ts[a.s.i + 1].kind.Bad?
    requires WellWritten(Infix(op, l, r))
    ensures var n := Alloc(b.s, Bin(op, a.v, b.v)); n.Ok? ==> Wrote(ts, s0, Infix(op, l, r), n)
  {
    hide WfTokens, Spells, Write, NoMarkerFirst;
    SpellsInRange(ts, a.s.i + 1, Write(r));
    SpellsBefore(ts, a.s.i, OpKind(op), Write(r));
    SpellsJoin(ts, s0.i, Write(l), [OpKind(op)] + Write(r));
    InfixShape(op, l, r);
  }

  lemma {:induction false} TermLoopSound(ts: Toks, s0: State, s: State, l: Phrase, e: Expr) returns (p: Phrase)
    requires Live(ts, s0) && Live(ts, s) && TermLoop(ts, s, e).Ok? && Wrote(ts, s0, l, Ok(e, s)) && Level(l) >= 2
    ensures Level(p) >= 2 && Wrote(ts, s0, p, TermLoop(ts, s, e))
    decreases |ts| - s.i, 2
  {
    hide Unary, Wrote, Write, Spells;
    var op := TermOp(ts[s.i].kind);
    if op.None? {
      p := l;
    } else {
      var b := Unary(ts, Moved(s, 1, 0));
      var r := UnarySound(ts, Moved(s, 1, 0));
      WroteWell(ts, s0, l, Ok(e, s));
      WroteWell(ts, Moved(s, 1, 0), r, b);
      InfixSound(ts, s0, l, Ok(e, s), op.value, r, b);
      var n := Alloc(b.s, Bin(op.value, e, b.v));
      p := TermLoopSound(ts, s0, n.s, Infix(op.value, l, r), n.v);
    }
  }

  lemma WroteWell(ts: Toks, s: State, p: Phrase, r: Result<Expr>)
    requires Wrote(ts, s, p, r)
    ensures r.Ok? && WellWritten(p)
  {
  }

  lemma {:induction false} TermSound(ts: Toks, s: State) returns (p: Phrase)
    requires Live(ts, s) && Term(ts, s).Ok?
    ensures Level(p) >= 2 && Wrote(ts, s, p, Term(ts, s))
    decreases |ts| - s.i, 3
  {
    hide Unary, Wrote, Spells;
    var l := UnarySound(ts, s);
    p := TermLoopSound(ts, s, Unary(ts, s).s, l, Unary(ts, s).v);
  }

  lemma {:induction false} AdditiveLoopSound(ts: Toks, s0: State, s: State, l: Phrase, e: Expr) returns (p: Phrase)
    requires Live(ts, s0) && Live(ts, s) && AdditiveLoop(ts, s, e).Ok? && Wrote(ts, s0, l, Ok(e, s)) && Level(l) >= 1
    ensures Level(p) >= 1 && Wrote(ts, s0, p, AdditiveLoop(ts, s, e))
    decreases |ts| - s.i, 4
  {
    hide Term, Wrote, Write, Spells;
    var op := AddOp(ts[s.i].kind);
    if op.None? {
      p := l;
    } else {
      var b := Term(ts, Moved(s, 1, 0));
      var r := TermSound(ts, Moved(s, 1, 0));
      WroteWell(ts, s0, l, Ok(e, s));
      WroteWell(ts, Moved(s, 1, 0), r, b);
      InfixSound(ts, s0, l, Ok(e, s), op.value, r, b);
      var n := Alloc(b.s, Bin(op.value, e, b.v));
      p := AdditiveLoopSound(ts, s0, n.s, Infix(op.value, l, r), n.v);
    }
  }

  lemma {:induction false} AdditiveSound(ts: Toks, s: State) returns (p: Phrase)
    requires Live(ts, s) && Parser.Additive(ts, s).Ok?
    ensures Level(p) >= 1 && Wrote(ts, s, p, Parser.Additive(ts, s))
    decreases |ts| - s.i, 5
  {
    hide Term, Wrote, Spells;
    var l := TermSound(ts, s);
    p := AdditiveLoopSound(ts, s, Term(ts, s).s, l, Term(ts, s).v);
  }

  lemma {:induction false} ComparisonSound(ts: Toks, s: State) returns (p: Phrase)
    requires Live(ts, s) && Comparison(ts, s).Ok?
    ensures Wrote(ts, s, p, Comparison(ts, s))
    decreases |ts| - s.i, 6
  {
    hide Parser.Additive, Wrote, Write, Spells;
    var a := Parser.Additive(ts, s);
    p := AdditiveSound(ts, s);
    var op := CmpOp(ts[a.s.i].kind);
    if op.Some? {
      var s2 := Moved(a.s, 1, 0);
      var b := Parser.Additive(ts, s2);
      var r := AdditiveSound(ts, s2);
      WroteWell(ts, s, p, a);
      WroteWell(ts, s2, r, b);
      InfixSound(ts, s, p, a, op.value, r, b);
      p := Infix(op.value, p, r);
    }
  }

  /** As Wrote, for a command; an `else` that follows is not this command's. */
  ghost predicate WroteCommand(ts: Toks, s: State, c: Command, r: Result<Stmt>) {
    && r.Ok? && WellWrittenCommand(c) && Spells(ts, s.i, WriteCommand(c))
    && ResolveCommand(c, s.syms) == Some((r.v, r.s.syms)) && Room(s, NodesCommand(c))
    && r.s == State(s.i + |WriteCommand(c)|, r.s.syms, s.arena + NodeBytes(NodesCommand(c)))
    && (TakesElse(c) ==> !Next(ts, s.i, WriteCommand(c)).KwElse?)
  }

  /** A phrase and the token `k` behind it. */
  lemma ClosedSound(ts: Toks, s: State, p: Phrase, r: Result<Expr>, k: Kind)
    requires Wrote(ts, s, p, r) && ts[r.s.i].kind == k && r.s.i + 1 < |ts| && !ts[r.s.i + 1].kind.Bad?
    ensures Spells(ts, s.i, Write(p) + [k])
  {
    hide Write;
    SpellsSingle(ts, r.s.i, k);
    SpellsJoin(ts, s.i, Write(p), [k]);
  }

  lemma SpellsSingle(ts: Toks, i: nat, k: Kind)
    requires i + 1 < |ts| && ts[i].kind == k && !ts[i + 1].kind.Bad?
    ensures Spells(ts, i, [k])
  {
    assert ts[i + 0].kind == [k][0];
  }

  lemma SpellsBefore(ts: Toks, i: nat, k: Kind, rest: seq<Kind>)
    requires i + 1 < |ts| && ts[i].kind == k && !ts[i + 1].kind.Bad? && Spells(ts, i + 1, rest)
    ensures Spells(ts, i, [k] + rest) && Next(ts, i, [k] + rest) == Next(ts, i + 1, rest)
  {
    SpellsSingle(ts, i, k);
    SpellsJoin(ts, i, [k], rest);
  }

  lemma ConditionSound(ts: Toks, s: State) returns (p: Phrase)
    requires Live(ts, s) && !ts[s.i].kind.Eof? && Condition(ts, s).Ok?
    ensures var r := Condition(ts, s); var h := Heading(ts[s.i].kind, p);
      && WellWritten(p) && Spells(ts, s.i, h) && Resolve(p, s.syms) == Some(r.v) && Room(s, Nodes(p))
      && r.s == Moved(s, |h|, Nodes(p))
  {
    hide Comparison, Spells, WfTokens, Write, NoMarkerFirst;
    var s2 := Moved(s, 2, 0);
    p := ComparisonSound(ts, s2);
    ClosedSound(ts, s2, p, Comparison(ts, s2), RParen);
    SpellsBefore(ts, s.i + 1, LParen, Write(p) + [RParen]);
    SpellsBefore(ts, s.i, ts[s.i].kind, [LParen] + (Write(p) + [RParen]));
    assert Heading(ts[s.i].kind, p) == [ts[s.i].kind] + ([LParen] + (Write(p) + [RParen]));
  }

  lemma AssignSound(ts: Toks, s: State) returns (c: Command)
    requires Live(ts, s) && ts[s.i].kind.Ident? && AssignStmt(ts, s).Ok?
    ensures WroteCommand(ts, s, c, AssignStmt(ts, s))
  {
    hide Comparison, Spells, WfTokens, Write, NoMarkerFirst;
    var name, s2 := ts[s.i].kind.name, Moved(s, 2, 0);
    var p := ComparisonSound(ts, s2);
    c := CAssign(name, p);
    ClosedSound(ts, s2, p, Comparison(ts, s2), Semi);
    SpellsBefore(ts, s.i + 1, Becomes, Write(p) + [Semi]);
    SpellsBefore(ts, s.i, Ident(name), [Becomes] + (Write(p) + [Semi]));
    assert WriteCommand(c) == [Ident(name)] + ([Becomes] + (Write(p) + [Semi]));
  }

  lemma ReturnSound(ts: Toks, s: State) returns (c: Command)
    requires Live(ts, s) && ts[s.i].kind == KwReturn && ReturnStmt(ts, s).Ok?
    ensures WroteCommand(ts, s, c, ReturnStmt(ts, s))
  {
    hide Comparison, Spells, WfTokens, Write, NoMarkerFirst;
    var s1 := Moved(s, 1, 0);
    var p := ComparisonSound(ts, s1);
    c := CReturn(p);
    ClosedSound(ts, s1, p, Comparison(ts, s1), Semi);
    SpellsBefore(ts, s.i, KwReturn, Write(p) + [Semi]);
    assert WriteCommand(c) == [KwReturn] + (Write(p) + [Semi]);
  }

  lemma PrintSound(ts: Toks, s: State) returns (c: Command)
    requires Live(ts, s) && ts[s.i].kind == KwPrint && PrintStmt(ts, s).Ok?
    ensures WroteCommand(ts, s, c, PrintStmt(ts, s))
  {
    hide Condition, Spells, WfTokens, Write, NoMarkerFirst;
    var p := ConditionSound(ts, s);
    c := CPrint(p);
    SpellsSingle(ts, Condition(ts, s).s.i, Semi);
    SpellsJoin(ts, s.i, Heading(KwPrint, p), [Semi]);
  }

  lemma DeclSound(ts: Toks, s: State) returns (c: Command)
    requires Live(ts, s) && ts[s.i].kind == KwInt && DeclStmt(ts, s).Ok?
    ensures WroteCommand(ts, s, c, DeclStmt(ts, s))
  {
    hide Comparison, Spells, WfTokens, Write, DeclStmt, DeclRest, DeclTail, WriteCommand, WroteCommand, NodeBytes, NoMarkerFirst;
    var name, s3 := DeclStarts(ts, s);
    if ts[s3.i].kind.Becomes? {
      RestInitSound(ts, s3, 4 * (|s.syms| + 1));
      var s4 := Moved(s3, 1, 0);
      var p := ComparisonSound(ts, s4);
      c := CDecl(name, Some(p));
      ClosedSound(ts, s4, p, Comparison(ts, s4), Semi);
      SpellsBefore(ts, s3.i, Becomes, Write(p) + [Semi]);
    } else {
      RestPlainSound(ts, s3, 4 * (|s.syms| + 1));
      c := CDecl(name, None);
      SpellsSingle(ts, s3.i, Semi);
    }
    DeclTailIs(c.init);
    SpellsBefore(ts, s.i + 1, Ident(name), DeclTail(c.init));
    SpellsBefore(ts, s.i, KwInt, [Ident(name)] + DeclTail(c.init));
    WroteDecl(ts, s, s3, c);
  }

  /** What an accepted declaration starts with. */
  lemma DeclStarts(ts: Toks, s: State) returns (name: string, s3: State)
    requires Live(ts, s) && ts[s.i].kind == KwInt && DeclStmt(ts, s).Ok?
    ensures Declares(ts, s, s3, name) && DeclStmt(ts, s) == DeclRest(ts, s3, 4 * (|s.syms| + 1))
  {
    hide DeclRest, WfTokens;
    name := ts[s.i + 1].kind.name;
    s3 := State(s.i + 2, s.syms + [name], s.arena + NODE_SIZE);
  }

  lemma RestPlainSound(ts: Toks, s: State, off: nat)
    requires Live(ts, s) && !ts[s.i].kind.Becomes? && DeclRest(ts, s, off).Ok?
    ensures ts[s.i].kind.Semi? && s.i + 1 < |ts| && !ts[s.i + 1].kind.Bad?
    ensures DeclRest(ts, s, off) == Ok(Decl(off, None), Moved(s, 1, 0))
  {
    hide Comparison, WfTokens;
  }

  lemma RestInitSound(ts: Toks, s: State, off: nat)
    requires Live(ts, s) && ts[s.i].kind.Becomes? && DeclRest(ts, s, off).Ok?
    ensures Live(ts, Moved(s, 1, 0)) && Comparison(ts, Moved(s, 1, 0)).Ok?
    ensures var r := Comparison(ts, Moved(s, 1, 0));
      && ts[r.s.i].kind.Semi? && r.s.i + 1 < |ts| && !ts[r.s.i + 1].kind.Bad?
      && DeclRest(ts, s, off) == Ok(Decl(off, Some(r.v)), Moved(r.s, 1, 0))
  {
    hide Comparison, WfTokens, Parser.Advance, Parser.Expect;
    var q := Parser.Advance(ts, s);
    var r := Comparison(ts, q.s);
    var e := Parser.Expect(ts, r.s, Semi, "esperado ';'");
    assert DeclRest(ts, s, off) == Ok(Decl(off, Some(r.v)), e.s);
  }

  lemma WroteDecl(ts: Toks, s: State, s3: State, c: Command)
    requires c.CDecl? && Declares(ts, s, s3, c.name) && Spells(ts, s.i, [KwInt] + ([Ident(c.name)] + DeclTail(c.init)))
    requires c.init.None? ==> DeclStmt(ts, s) == Ok(Decl(4 * (|s.syms| + 1), None), Moved(s3, 1, 0))
    requires c.init.Some? ==> var r := Comparison(ts, Moved(s3, 1, 0));
      Wrote(ts, Moved(s3, 1, 0), c.init.value, r) && DeclStmt(ts, s) == Ok(Decl(4 * (|s.syms| + 1), Some(r.v)), Moved(r.s, 1, 0))
    ensures WroteCommand(ts, s, c, DeclStmt(ts, s))
  {
    hide Comparison, Spells, WfTokens, Write, DeclStmt, WriteCommand, DeclTail, NoMarkerFirst;
    hide WellWrittenCommand, WellWritten, ResolveCommand, Resolve, NodesCommand, Nodes, TakesElse;
    DeclTailIs(c.init);
    DeclShape(c);
    DeclFacts(c, s, s3);
  }

  lemma DeclFacts(c: Command, s: State, s3: State)
    requires c.CDecl? && c.name !in s.syms && |s.syms| < MAX_LOCALS && Room(s, 1)
    requires s3 == State(s.i + 2, s.syms + [c.name], s.arena + NODE_SIZE)
    requires c.init.Some? ==>
      WellWritten(c.init.value) && Resolve(c.init.value, s3.syms).Some? && Room(s3, Nodes(c.init.value))
    ensures WellWrittenCommand(c) && !TakesElse(c) && Room(s, NodesCommand(c))
    ensures ResolveCommand(c, s.syms) ==
            Some((Decl(4 * (|s.syms| + 1), if c.init.Some? then Resolve(c.init.value, s3.syms) else None), s3.syms))
    ensures s.arena + NodeBytes(NodesCommand(c)) == s3.arena + if c.init.Some? then NodeBytes(Nodes(c.init.value)) else 0
  {
    hide WellWritten, Resolve, Nodes;
  }

  lemma DeclShape(c: Command)
    requires c.CDecl?
    ensures WriteCommand(c) == [KwInt] + ([Ident(c.name)] + DeclTail(c.init))
  {
    hide DeclTail;
  }

  /** Every statement the parser reads is written by some well-written command with that tree. */
  lemma {:induction false} CommandSound(ts: Toks, s: State) returns (c: Command)
    requires Live(ts, s) && Statement(ts, s).Ok?
    ensures WroteCommand(ts, s, c, Statement(ts, s))
    decreases |ts| - s.i, 1
  {
    hide WroteCommand, BlockStmt, DeclStmt, IfStmt, WhileStmt, PrintStmt, ReturnStmt, AssignStmt;
    match ts[s.i].kind
    case LBrace => c := BlockSound(ts, s);
    case KwInt => c := DeclSound(ts, s);
    case KwIf => c := IfSound(ts, s);
    case KwWhile => c := WhileSound(ts, s);
    case KwPrint => c := PrintSound(ts, s);
    case KwReturn => c := ReturnSound(ts, s);
    case Ident(_) => c := AssignSound(ts, s);
  }

  lemma {:induction false} WhileSound(ts: Toks, s: State) returns (c: Command)
    requires Live(ts, s) && ts[s.i].kind == KwWhile && WhileStmt(ts, s).Ok?
    ensures WroteCommand(ts, s, c, WhileStmt(ts, s))
    decreases |ts| - s.i, 0
  {
    hide Condition, Statement, Spells, WfTokens, Heading, NoMarkerFirst;
    var p := ConditionSound(ts, s);
    var b := CommandSound(ts, Condition(ts, s).s);
    c := CWhile(p, b);
    SpellsJoin(ts, s.i, Heading(KwWhile, p), WriteCommand(b));
  }

  lemma {:induction false} IfSound(ts: Toks, s: State) returns (c: Command)
    requires Live(ts, s) && ts[s.i].kind == KwIf && IfStmt(ts, s).Ok?
    ensures WroteCommand(ts, s, c, IfStmt(ts, s))
    decreases |ts| - s.i, 0
  {
    hide Condition, Statement, Spells, WfTokens, Heading, WriteCommand, Resolve, NoMarkerFirst;
    var p := ConditionSound(ts, s);
    var s1 := Condition(ts, s).s;
    var t := CommandSound(ts, s1);
    var a := Statement(ts, s1);
    NextIsLive(ts, s1.i, WriteCommand(t));
    SpellsJoin(ts, s.i, Heading(KwIf, p), WriteCommand(t));
    if ts[a.s.i].kind.KwElse? {
      var e := CommandSound(ts, Moved(a.s, 1, 0));
      c := CIf(p, t, Some(e));
      SpellsBefore(ts, a.s.i, KwElse, WriteCommand(e));
      SpellsJoin(ts, s.i, Heading(KwIf, p) + WriteCommand(t), [KwElse] + WriteCommand(e));
      WroteIfElse(ts, s, s1, c, Condition(ts, s).v, a, Statement(ts, Moved(a.s, 1, 0)));
    } else {
      c := CIf(p, t, None);
      WroteIfOnly(ts, s, s1, c, Condition(ts, s).v, a);
    }
  }

  /** The condition of `c` has been read, and its first branch after it. */
  ghost predicate WroteBranch(ts: Toks, s: State, s1: State, c: Command, e: Expr, a: Result<Stmt>) {
    && c.CIf? && WellWritten(c.cond) && Resolve(c.cond, s.syms) == Some(e)
    && s1 == Moved(s, |Heading(KwIf, c.cond)|, Nodes(c.cond)) && WroteCommand(ts, s1, c.thn, a)
  }

  lemma WroteIfOnly(ts: Toks, s: State, s1: State, c: Command, e: Expr, a: Result<Stmt>)
    requires WroteBranch(ts, s, s1, c, e, a) && c.els.None? && Room(a.s, 1)
    requires Spells(ts, s.i, Heading(KwIf, c.cond) + WriteCommand(c.thn)) && !ts[a.s.i].kind.KwElse?
    ensures WroteCommand(ts, s, c, Alloc(a.s, If(e, a.v, None)))
  {
    hide Spells, WfTokens, Heading, WriteCommand, Resolve, WellWritten, Nodes, NoMarkerFirst;
    IfShape(c);
    IfLength(c);
    assert WriteCommand(c) == Heading(KwIf, c.cond) + WriteCommand(c.thn);
    NextIsLive(ts, s.i, WriteCommand(c));
  }

  lemma WroteIfElse(ts: Toks, s: State, s1: State, c: Command, e: Expr, a: Result<Stmt>, b: Result<Stmt>)
    requires WroteBranch(ts, s, s1, c, e, a) && c.els.Some? && WroteCommand(ts, Moved(a.s, 1, 0), c.els.value, b) && Room(b.s, 1)
    requires Spells(ts, s1.i, WriteCommand(c.thn)) && Next(ts, s1.i, WriteCommand(c.thn)).KwElse?
    requires Spells(ts, s.i, Heading(KwIf, c.cond) + WriteCommand(c.thn) + ([KwElse] + WriteCommand(c.els.value)))
    requires Next(ts, s.i, Heading(KwIf, c.cond) + WriteCommand(c.thn) + ([KwElse] + WriteCommand(c.els.value))) ==
             Next(ts, a.s.i + 1, WriteCommand(c.els.value))
    ensures WroteCommand(ts, s, c, Alloc(b.s, If(e, a.v, Some(b.v))))
  {
    hide Spells, WfTokens, Heading, WriteCommand, Resolve, WellWritten, Nodes, NoMarkerFirst;
    IfShape(c);
    IfLength(c);
    Reassociate(Heading(KwIf, c.cond), WriteCommand(c.thn), [KwElse] + WriteCommand(c.els.value));
  }

  lemma {:induction false} BlockSound(ts: Toks, s: State) returns (c: Command)
    requires Live(ts, s) && BlockStmt(ts, s).Ok?
    ensures WroteCommand(ts, s, c, BlockStmt(ts, s))
    decreases |ts| - s.i, 0
  {
    hide Statements, Spells, WfTokens, WriteCommands, NoMarkerFirst;
    var s1 := Moved(s, 1, 1);
    var cs := CommandsSound(ts, s1);
    c := CBlock(cs);
    SpellsSingle(ts, Statements(ts, s1).s.i, RBrace);
    SpellsJoin(ts, s1.i, WriteCommands(cs), [RBrace]);
    SpellsBefore(ts, s.i, LBrace, WriteCommands(cs) + [RBrace]);
    assert WriteCommand(c) == [LBrace] + (WriteCommands(cs) + [RBrace]);
  }

  lemma {:induction false} CommandsSound(ts: Toks, s: State) returns (cs: seq<Command>)
    requires Live(ts, s) && Statements(ts, s).Ok? && s.arena <= ARENA_SIZE
    ensures var r := Statements(ts, s);
      && WellWrittenCommands(cs) && Spells(ts, s.i, WriteCommands(cs))
      && ResolveCommands(cs, s.syms) == Some((r.v, r.s.syms)) && Room(s, NodesCommands(cs))
      && r.s == State(s.i + |WriteCommands(cs)|, r.s.syms, s.arena + NodeBytes(NodesCommands(cs)))
    decreases |ts| - s.i, 2
  {
    hide Statement, WfTokens, WriteCommand, WellWrittenCommand, ResolveCommand, NoMarkerFirst;
    cs := [];
    if !ts[s.i].kind.RBrace? && !ts[s.i].kind.Eof? {
      var c := CommandSound(ts, s);
      var rest := CommandsSound(ts, Statement(ts, s).s);
      cs := [c] + rest;
      assert cs[1..] == rest;
      SpellsJoin(ts, s.i, WriteCommand(c), WriteCommands(rest));
    }
  }
}
