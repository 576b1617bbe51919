/** Whole texts: which of them the front end accepts, and that reading undoes printing. */
module Printing {
  import opened Words
  import opened Lexer
  import opened Source
  import opened Parser
  import opened Grammar

  // ---- accepted texts ----

  /** The text starts with the program `c`; anything that lexes at least one token may follow. */
  ghost predicate Writes(src: string, c: Command) {
    && c.CBlock? && WellWrittenCommand(c) && Spells(Tokens(src, 0, 1), 0, WriteProgram(c))
    && ResolveCommand(c, []).Some? && NodeBytes(NodesCommand(c)) <= ARENA_SIZE
  }

  /** Completeness: a text that writes a program is accepted with that program's tree and names. */
  lemma ParseComplete(src: string, c: Command)
    requires Writes(src, c)
    ensures Parse(src).Ok?
    ensures (Parse(src).v, Parse(src).s.syms) == ResolveCommand(c, []).value
  {
    hide Spells, BlockStmt, WriteCommand, ResolveCommand, WellWrittenCommand, WfTokens, Tokens;
    var ts: Toks := Tokens(src, 0, 1);
    var s := State(0, [], 0);
    var w := WriteCommand(c);
    HeaderSplit(ts, c);
    var s4 := State(4, [], 0);
    assert ReadableCommand(ts, s4, c);
    BlockReads(ts, s4, c);
  }

  lemma HeaderSplit(ts: Toks, c: Command)
    requires Spells(ts, 0, WriteProgram(c))
    ensures 4 < |ts| && !ts[0].kind.Bad? && !ts[1].kind.Bad? && !ts[2].kind.Bad? && !ts[3].kind.Bad? && !ts[4].kind.Bad?
    ensures ts[0].kind == KwInt && ts[1].kind == Ident("main") && ts[2].kind == LParen && ts[3].kind == RParen
    ensures Spells(ts, 4, WriteCommand(c))
  {
    hide Spells, WriteCommand, WfTokens;
    var w := WriteCommand(c);
    assert WriteProgram(c) == [KwInt] + ([Ident("main")] + ([LParen] + ([RParen] + w)));
    SpellsCons(ts, 0, KwInt, [Ident("main")] + ([LParen] + ([RParen] + w)));
    SpellsCons(ts, 1, Ident("main"), [LParen] + ([RParen] + w));
    SpellsCons(ts, 2, LParen, [RParen] + w);
    SpellsCons(ts, 3, RParen, w);
  }

  /** Soundness: an accepted text writes a program whose tree and names the parser returns. */
  lemma ParseSound(src: string) returns (c: Command)
    requires Parse(src).Ok?
    ensures Writes(src, c)
    ensures (Parse(src).v, Parse(src).s.syms) == ResolveCommand(c, []).value
  {
    hide Spells, BlockStmt, WriteCommand, ResolveCommand, WellWrittenCommand, WfTokens, Tokens;
    var ts: Toks := Tokens(src, 0, 1);
    var s4 := State(4, [], 0);
    c := BlockSound(ts, s4);
    assert c.CBlock? by { BlockIsBlock(ts, s4, c); }
    var w := WriteCommand(c);
    SpellsBefore(ts, 3, RParen, w);
    SpellsBefore(ts, 2, LParen, [RParen] + w);
    SpellsBefore(ts, 1, Ident("main"), [LParen] + ([RParen] + w));
    SpellsBefore(ts, 0, KwInt, [Ident("main")] + ([LParen] + ([RParen] + w)));
    assert WriteProgram(c) == [KwInt] + ([Ident("main")] + ([LParen] + ([RParen] + w)));
  }

  lemma BlockIsBlock(ts: Toks, s: State, c: Command)
    requires Live(ts, s) && BlockStmt(ts, s).Ok? && WroteCommand(ts, s, c, BlockStmt(ts, s))
    ensures c.CBlock?
  {
    hide Statements;
    assert BlockStmt(ts, s).v.Block?;
  }

  /** The accepted texts are exactly those that write a program. */
  lemma AcceptsIff(src: string)
    ensures Parse(src).Ok? <==> exists c :: Writes(src, c)
  {
    hide Writes, Parse;
    if Parse(src).Ok? {
      var c := ParseSound(src);
    }
    if c :| Writes(src, c) {
      ParseComplete(src, c);
    }
  }

  // ---- trees the parser returns ----

  lemma {:induction false} WfMono(e: Expr, n: nat, m: nat)
    requires WfExpr(e, n) && n <= m
    ensures WfExpr(e, m)
  {
    match e
    case Neg(x) => WfMono(x, n, m);
    case Bin(_, l, r) => WfMono(l, n, m); WfMono(r, n, m);
    case _ =>
  }

  lemma {:induction false} WfStmtMono(s: Stmt, n: nat, m: nat)
    requires WfStmt(s, n) && n <= m
    ensures WfStmt(s, m)
    decreases s, 1
  {
    match s
    case Block(ss) => WfStmtsMono(ss, n, m);
    case Decl(_, init) => if init.Some? { WfMono(init.value, n, m); }
    case Assign(_, e) => WfMono(e, n, m);
    case If(c, t, els) => WfMono(c, n, m); WfStmtMono(t, n, m); if els.Some? { WfStmtMono(els.value, n, m); }
    case While(c, b) => WfMono(c, n, m); WfStmtMono(b, n, m);
    case Print(e) => WfMono(e, n, m);
    case Return(e) => WfMono(e, n, m);
  }

  lemma {:induction false} WfStmtsMono(ss: seq<Stmt>, n: nat, m: nat)
    requires WfStmts(ss, n) && n <= m
    ensures WfStmts(ss, m)
    decreases ss, 0
  {
    if ss != [] {
      WfStmtMono(ss[0], n, m);
      WfStmtsMono(ss[1..], n, m);
    }
  }

  lemma {:induction false} ResolveWf(p: Phrase, syms: seq<string>)
    requires Resolve(p, syms).Some?
    ensures WfExpr(Resolve(p, syms).value, |syms|)
  {
    match p
    case Minus(q) => ResolveWf(q, syms);
    case Infix(_, l, r) => ResolveWf(l, syms); ResolveWf(r, syms);
    case Paren(q) => ResolveWf(q, syms);
    case _ =>
  }

  predicate Distinct(syms: seq<string>) {
    forall j, k :: 0 <= j < k < |syms| ==> syms[j] != syms[k]
  }

  lemma {:induction false} ResolveCommandWf(c: Command, syms: seq<string>)
    requires ResolveCommand(c, syms).Some? && |syms| <= MAX_LOCALS && Distinct(syms)
    ensures var (s, syms') := ResolveCommand(c, syms).value;
      syms <= syms' && |syms'| <= MAX_LOCALS && Distinct(syms') && WfStmt(s, |syms'|)
    decreases c, 1
  {
    match c
    case CBlock(cs) => ResolveCommandsWf(cs, syms);
    case CDecl(name, init) => if init.Some? { ResolveWf(init.value, syms + [name]); }
    case CAssign(_, p) => ResolveWf(p, syms);
    case CIf(p, t, els) =>
      ResolveWf(p, syms);
      ResolveCommandWf(t, syms);
      var (a, syms1) := ResolveCommand(t, syms).value;
      if els.Some? {
        ResolveCommandWf(els.value, syms1);
        var n := |ResolveCommand(els.value, syms1).value.1|;
        WfStmtMono(a, |syms1|, n);
        WfMono(Resolve(p, syms).value, |syms|, n);
      } else {
        WfMono(Resolve(p, syms).value, |syms|, |syms1|);
      }
    case CWhile(p, b) =>
      ResolveWf(p, syms);
      ResolveCommandWf(b, syms);
      WfMono(Resolve(p, syms).value, |syms|, |ResolveCommand(b, syms).value.1|);
    case CPrint(p) => ResolveWf(p, syms);
    case CReturn(p) => ResolveWf(p, syms);
  }

  lemma {:induction false} ResolveCommandsWf(cs: seq<Command>, syms: seq<string>)
    requires ResolveCommands(cs, syms).Some? && |syms| <= MAX_LOCALS && Distinct(syms)
    ensures var (ss, syms') := ResolveCommands(cs, syms).value;
      syms <= syms' && |syms'| <= MAX_LOCALS && Distinct(syms') && WfStmts(ss, |syms'|)
    decreases cs, 0
  {
    if cs != [] {
      ResolveCommandWf(cs[0], syms);
      var (s, syms1) := ResolveCommand(cs[0], syms).value;
      ResolveCommandsWf(cs[1..], syms1);
      var (ss, syms2) := ResolveCommands(cs[1..], syms1).value;
      WfStmtMono(s, |syms1|, |syms2|);
      assert ([s] + ss)[1..] == ss;
    }
  }

  /** Every variable of an accepted program has one of at most MAX_LOCALS frame slots, so the code generator's
      8-bit displacements are exact. */
  lemma ParsedTrees(src: string)
    requires Parse(src).Ok?
    ensures |Parse(src).s.syms| <= MAX_LOCALS && Distinct(Parse(src).s.syms)
    ensures WfStmt(Parse(src).v, |Parse(src).s.syms|)
  {
    hide Parse, ResolveCommand;
    var c := ParseSound(src);
    ResolveCommandWf(c, []);
  }

  // ---- trees as phrases ----

  /** Parentheses only where the phrase binds less tightly than its place demands. */
  function Bracket(p: Phrase, level: nat): Phrase {
    if Level(p) >= level then p else Paren(p)
  }

  function Show(e: Expr, names: seq<string>, level: nat): Phrase
    requires WfExpr(e, |names|)
  {
    match e
    case Num(v) => Lit(v)
    case Var(off) => Name(names[off / 4 - 1])
    case Neg(x) => Bracket(Phrase.Minus(Show(x, names, 3)), level)
    case Bin(op, l, r) =>
      Bracket(Infix(op, Show(l, names, Max(OpLevel(op), 1)), Show(r, names, OpLevel(op) + 1)), level)
  }

  lemma {:induction false} ShowWellWritten(e: Expr, names: seq<string>, level: nat)
    requires WfExpr(e, |names|) && level <= 4
    ensures WellWritten(Show(e, names, level)) && Level(Show(e, names, level)) >= level
  {
    match e
    case Neg(x) => ShowWellWritten(x, names, 3);
    case Bin(op, l, r) =>
      ShowWellWritten(l, names, Max(OpLevel(op), 1));
      ShowWellWritten(r, names, OpLevel(op) + 1);
    case _ =>
  }

  lemma {:induction false} ShowResolves(e: Expr, names: seq<string>, level: nat)
    requires WfExpr(e, |names|) && Distinct(names)
    ensures Resolve(Show(e, names, level), names) == Some(e)
  {
    match e
    case Num(_) =>
    case Var(off) =>
      var j := IndexOf(names, names[off / 4 - 1]);
      assert j == off / 4 - 1;
    case Neg(x) => ShowResolves(x, names, 3);
    case Bin(op, l, r) =>
      ShowResolves(l, names, Max(OpLevel(op), 1));
      ShowResolves(r, names, OpLevel(op) + 1);
  }

  lemma {:induction false} ShowNodes(e: Expr, names: seq<string>, level: nat)
    requires WfExpr(e, |names|)
    ensures Nodes(Show(e, names, level)) == ExprNodes(e)
  {
    match e
    case Neg(x) => ShowNodes(x, names, 3);
    case Bin(op, l, r) =>
      ShowNodes(l, names, Max(OpLevel(op), 1));
      ShowNodes(r, names, OpLevel(op) + 1);
    case _ =>
  }

  function ExprNodes(e: Expr): nat {
    match e
    case Neg(x) => 1 + ExprNodes(x)
    case Bin(_, l, r) => 1 + ExprNodes(l) + ExprNodes(r)
    case _ => 1
  }

  // ---- statements as commands ----

  /** The number of names declared after `s` when there were `k` before it, if every declaration takes the next
      slot, every use is of a declared slot, and no more than MAX_LOCALS are declared. */
  function Scope(s: Stmt, k: nat): (r: Option<nat>)
    ensures r.Some? ==> k <= r.value && (k <= MAX_LOCALS ==> r.value <= MAX_LOCALS)
    decreases s, 1
  {
    match s
    case Block(ss) => ScopeAll(ss, k)
    case Decl(off, init) =>
      if off == 4 * (k + 1) && k < MAX_LOCALS && (init.Some? ==> WfExpr(init.value, k + 1)) then Some(k + 1) else None
    case Assign(off, e) => if Slot(off, k) && WfExpr(e, k) then Some(k) else None
    case If(c, t, els) =>
      if !WfExpr(c, k) then None else
      var a := Scope(t, k);
      if a.None? || els.None? then a else Scope(els.value, a.value)
    case While(c, b) => if WfExpr(c, k) then Scope(b, k) else None
    case Print(e) => if WfExpr(e, k) then Some(k) else None
    case Return(e) => if WfExpr(e, k) then Some(k) else None
  }

  function ScopeAll(ss: seq<Stmt>, k: nat): (r: Option<nat>)
    ensures r.Some? ==> k <= r.value && (k <= MAX_LOCALS ==> r.value <= MAX_LOCALS)
    decreases ss, 0
  {
    if ss == [] then Some(k) else
    var a := Scope(ss[0], k);
    if a.None? then None else ScopeAll(ss[1..], a.value)
  }

  function ShowAt(e: Expr, names: seq<string>, k: nat): Phrase
    requires WfExpr(e, k) && k <= |names|
  {
    Show(e, names[..k], 0)
  }

  function ShowStmt(s: Stmt, names: seq<string>, k: nat): Command
    requires Scope(s, k).Some? && Scope(s, k).value <= |names|
    decreases s, 1
  {
    match s
    case Block(ss) => CBlock(ShowStmts(ss, names, k))
    case Decl(off, init) =>
      CDecl(names[k], if init.Some? then Some(ShowAt(init.value, names, k + 1)) else None)
    case Assign(off, e) => CAssign(names[off / 4 - 1], ShowAt(e, names, k))
    case If(c, t, els) =>
      CIf(ShowAt(c, names, k), ShowStmt(t, names, k),
          if els.Some? then Some(ShowStmt(els.value, names, Scope(t, k).value)) else None)
    case While(c, b) => CWhile(ShowAt(c, names, k), ShowStmt(b, names, k))
    case Print(e) => CPrint(ShowAt(e, names, k))
    case Return(e) => CReturn(ShowAt(e, names, k))
  }

  function ShowStmts(ss: seq<Stmt>, names: seq<string>, k: nat): seq<Command>
    requires ScopeAll(ss, k).Some? && ScopeAll(ss, k).value <= |names|
    decreases ss, 0
  {
    if ss == [] then [] else
    [ShowStmt(ss[0], names, k)] + ShowStmts(ss[1..], names, Scope(ss[0], k).value)
  }

  /** Resolving the names of a shown statement gives the statement back. */
  lemma {:induction false} ShowStmtResolves(s: Stmt, names: seq<string>, k: nat)
    requires Distinct(names) && |names| <= MAX_LOCALS && Scope(s, k).Some? && Scope(s, k).value <= |names|
    ensures ResolveCommand(ShowStmt(s, names, k), names[..k]) == Some((s, names[..Scope(s, k).value]))
    decreases s, 1
  {
    hide Show, Resolve, IndexOf, Distinct, ShowStmts, ResolveCommands, ScopeAll;
    assert Distinct(names[..k]) by { DistinctPrefix(names, k); }
    match s
    case Block(ss) => ShowStmtsResolve(ss, names, k);
    case Decl(off, init) => ShowDeclResolves(s, names, k);
    case Assign(off, e) =>
      ShowResolves(e, names[..k], 0);
      SlotIndex(names, k, off);
    case If(c, t, els) =>
      ShowResolves(c, names[..k], 0);
      ShowStmtResolves(t, names, k);
      if els.Some? { ShowStmtResolves(els.value, names, Scope(t, k).value); }
    case While(c, b) => ShowResolves(c, names[..k], 0); ShowStmtResolves(b, names, k);
    case Print(e) => ShowResolves(e, names[..k], 0);
    case Return(e) => ShowResolves(e, names[..k], 0);
  }

  lemma DistinctPrefix(names: seq<string>, k: nat)
    requires Distinct(names) && k <= |names|
    ensures Distinct(names[..k])
  {
  }

  lemma ShowDeclResolves(s: Stmt, names: seq<string>, k: nat)
    requires s.Decl? && Distinct(names) && |names| <= MAX_LOCALS && Scope(s, k).Some? && Scope(s, k).value <= |names|
    ensures ResolveCommand(ShowStmt(s, names, k), names[..k]) == Some((s, names[..Scope(s, k).value]))
  {
    hide Show, Resolve;
    assert names[..k] + [names[k]] == names[..k + 1];
    if s.init.Some? { ShowResolves(s.init.value, names[..k + 1], 0); }
  }

  lemma SlotIndex(names: seq<string>, k: nat, off: nat)
    requires Distinct(names) && k <= |names| && Slot(off, k)
    ensures names[off / 4 - 1] in names[..k] && Offset(names[..k], names[off / 4 - 1]) == off
  {
    var j := IndexOf(names[..k], names[off / 4 - 1]);
    assert names[..k][off / 4 - 1] == names[off / 4 - 1];
    assert j == off / 4 - 1;
  }

  lemma {:induction false} ShowStmtsResolve(ss: seq<Stmt>, names: seq<string>, k: nat)
    requires Distinct(names) && |names| <= MAX_LOCALS && ScopeAll(ss, k).Some? && ScopeAll(ss, k).value <= |names|
    ensures ResolveCommands(ShowStmts(ss, names, k), names[..k]) == Some((ss, names[..ScopeAll(ss, k).value]))
    decreases ss, 0
  {
    if ss != [] {
      var k1 := Scope(ss[0], k).value;
      ShowStmtResolves(ss[0], names, k);
      ShowStmtsResolve(ss[1..], names, k1);
      var c, cs := ShowStmt(ss[0], names, k), ShowStmts(ss[1..], names, k1);
      assert ([c] + cs)[1..] == cs;
      assert [ss[0]] + ss[1..] == ss;
    }
  }

  function StmtNodes(s: Stmt): nat
    decreases s, 1
  {
    match s
    case Block(ss) => 1 + StmtsNodes(ss)
    case Decl(_, init) => 1 + if init.Some? then ExprNodes(init.value) else 0
    case Assign(_, e) => 1 + ExprNodes(e)
    case If(c, t, els) => 1 + ExprNodes(c) + StmtNodes(t) + if els.Some? then StmtNodes(els.value) else 0
    case While(c, b) => 1 + ExprNodes(c) + StmtNodes(b)
    case Print(e) => 1 + ExprNodes(e)
    case Return(e) => 1 + ExprNodes(e)
  }

  function StmtsNodes(ss: seq<Stmt>): nat
    decreases ss, 0
  {
    if ss == [] then 0 else StmtNodes(ss[0]) + StmtsNodes(ss[1..])
  }

  lemma {:induction false} ShowStmtNodes(s: Stmt, names: seq<string>, k: nat)
    requires Scope(s, k).Some? && Scope(s, k).value <= |names|
    ensures NodesCommand(ShowStmt(s, names, k)) == StmtNodes(s)
    decreases s, 1
  {
    hide Show, Nodes, ExprNodes;
    match s
    case Block(ss) => ShowStmtsNodes(ss, names, k);
    case Decl(_, init) => if init.Some? { ShowNodes(init.value, names[..k + 1], 0); }
    case Assign(_, e) => ShowNodes(e, names[..k], 0);
    case If(c, t, els) =>
      ShowNodes(c, names[..k], 0);
      ShowStmtNodes(t, names, k);
      if els.Some? { ShowStmtNodes(els.value, names, Scope(t, k).value); }
    case While(c, b) => ShowNodes(c, names[..k], 0); ShowStmtNodes(b, names, k);
    case Print(e) => ShowNodes(e, names[..k], 0);
    case Return(e) => ShowNodes(e, names[..k], 0);
  }

  lemma {:induction false} ShowStmtsNodes(ss: seq<Stmt>, names: seq<string>, k: nat)
    requires ScopeAll(ss, k).Some? && ScopeAll(ss, k).value <= |names|
    ensures NodesCommands(ShowStmts(ss, names, k)) == StmtsNodes(ss)
    decreases ss, 0
  {
    if ss != [] {
      var k1 := Scope(ss[0], k).value;
      ShowStmtNodes(ss[0], names, k);
      ShowStmtsNodes(ss[1..], names, k1);
      assert ([ShowStmt(ss[0], names, k)] + ShowStmts(ss[1..], names, k1))[1..] == ShowStmts(ss[1..], names, k1);
    }
  }

  /** A statement an `else` could attach to. */
  predicate EndsOpen(s: Stmt) {
    match s
    case If(_, _, els) => els.None? || EndsOpen(els.value)
    case While(_, b) => EndsOpen(b)
    case _ => false
  }

  /** Every `else` belongs to the nearest `if`; the grammar can write no other tree. */
  predicate NearestElse(s: Stmt)
    decreases s, 1
  {
    match s
    case Block(ss) => NearestElses(ss)
    case If(_, t, els) => NearestElse(t) && (els.Some? ==> NearestElse(els.value) && !EndsOpen(t))
    case While(_, b) => NearestElse(b)
    case _ => true
  }

  predicate NearestElses(ss: seq<Stmt>)
    decreases ss, 0
  {
    ss == [] || (NearestElse(ss[0]) && NearestElses(ss[1..]))
  }

  lemma {:induction false} ShowEndsOpen(s: Stmt, names: seq<string>, k: nat)
    requires Scope(s, k).Some? && Scope(s, k).value <= |names|
    ensures TakesElse(ShowStmt(s, names, k)) == EndsOpen(s)
  {
    match s
    case If(_, t, els) => if els.Some? { ShowEndsOpen(els.value, names, Scope(t, k).value); }
    case While(_, b) => ShowEndsOpen(b, names, k);
    case _ =>
  }

  lemma {:induction false} ShowStmtWellWritten(s: Stmt, names: seq<string>, k: nat)
    requires Scope(s, k).Some? && Scope(s, k).value <= |names| && NearestElse(s)
    ensures WellWrittenCommand(ShowStmt(s, names, k))
    decreases s, 1
  {
    match s
    case Block(ss) => ShowStmtsWellWritten(ss, names, k);
    case Decl(_, init) => if init.Some? { ShowWellWritten(init.value, names[..k + 1], 0); }
    case Assign(_, e) => ShowWellWritten(e, names[..k], 0);
    case If(c, t, els) =>
      ShowWellWritten(c, names[..k], 0);
      ShowStmtWellWritten(t, names, k);
      ShowEndsOpen(t, names, k);
      if els.Some? { ShowStmtWellWritten(els.value, names, Scope(t, k).value); }
    case While(c, b) => ShowWellWritten(c, names[..k], 0); ShowStmtWellWritten(b, names, k);
    case Print(e) => ShowWellWritten(e, names[..k], 0);
    case Return(e) => ShowWellWritten(e, names[..k], 0);
  }

  lemma {:induction false} ShowStmtsWellWritten(ss: seq<Stmt>, names: seq<string>, k: nat)
    requires ScopeAll(ss, k).Some? && ScopeAll(ss, k).value <= |names| && NearestElses(ss)
    ensures WellWrittenCommands(ShowStmts(ss, names, k))
    decreases ss, 0
  {
    if ss != [] {
      var k1 := Scope(ss[0], k).value;
      ShowStmtWellWritten(ss[0], names, k);
      ShowStmtsWellWritten(ss[1..], names, k1);
      assert ([ShowStmt(ss[0], names, k)] + ShowStmts(ss[1..], names, k1))[1..] == ShowStmts(ss[1..], names, k1);
    }
  }

  /** Reading undoes printing: a text whose tokens are those of a well-scoped tree, printed with no more
      parentheses than it needs, parses to that tree. */
  lemma ParseUndoesPrint(src: string, body: Stmt, names: seq<string>)
    requires body.Block? && NearestElse(body) && Distinct(names) && |names| <= MAX_LOCALS
    requires Scope(body, 0) == Some(|names|) && NodeBytes(StmtNodes(body)) <= ARENA_SIZE
    requires Spells(Tokens(src, 0, 1), 0, WriteProgram(ShowStmt(body, names, 0)))
    ensures Parse(src).Ok? && Parse(src).v == body && Parse(src).s.syms == names
  {
    hide Spells, Parse, WriteProgram, Tokens, ShowStmt;
    var c := ShowStmt(body, names, 0);
    assert c.CBlock? by { ShowBlock(body, names); }
    ShowStmtResolves(body, names, 0);
    ShowStmtNodes(body, names, 0);
    ShowStmtWellWritten(body, names, 0);
    assert names[..0] == [] && names[..|names|] == names;
    ParseComplete(src, c);
  }

  lemma ShowBlock(body: Stmt, names: seq<string>)
    requires body.Block? && Scope(body, 0).Some? && Scope(body, 0).value <= |names|
    ensures ShowStmt(body, names, 0).CBlock?
  {
  }

  // ---- characters ----

  function Digit(d: nat): char
    requires d < 10
  {
    ['0', '1', '2', '3', '4', '5', '6', '7', '8', '9'][d]
  }

  function Decimal(v: nat): (s: string)
    ensures |s| > 0 && forall k :: 0 <= k < |s| ==> IsDigit(s[k])
  {
    if v < 10 then [Digit(v)] else Decimal(v / 10) + [Digit(v % 10)]
  }

  predicate IsName(name: string) {
    && 0 < |name| <= NAME_MAX && IsAlpha(name[0]) && (forall k :: 0 <= k < |name| ==> IsAlnum(name[k]))
    && Keyword(name) == Ident(name)
  }

  /** A token that can be written down. */
  predicate Printable(k: Kind) {
    match k
    case Eof => false
    case Bad => false
    case Ident(name) => IsName(name)
    case Num(v) => 0 <= v
    case _ => true
  }

  function Text(k: Kind): (s: string)
    requires Printable(k)
    ensures |s| > 0
  {
    match k
    case Ident(name) => name
    case Num(v) => Decimal(v)
    case KwInt => "int" case KwIf => "if" case KwElse => "else"
    case KwWhile => "while" case KwPrint => "print" case KwReturn => "return"
    case LBrace => "{" case RBrace => "}" case LParen => "(" case RParen => ")" case Semi => ";"
    case Plus => "+" case Minus => "-" case Star => "*" case Slash => "/" case Becomes => "="
    case EqEq => "==" case NotEq => "!=" case Less => "<" case Greater => ">" case LessEq => "<=" case GreaterEq => ">="
  }

  predicate IsWord(k: Kind) {
    k.Ident? || k.KwInt? || k.KwIf? || k.KwElse? || k.KwWhile? || k.KwPrint? || k.KwReturn?
  }

  /** The text of `k` would go on if `c` came right behind it. */
  predicate RunsOn(k: Kind, c: char) {
    if k.Num? then IsDigit(c) else if IsWord(k) then IsAlnum(c) else c == '=' && (k.Becomes? || k.Less? || k.Greater?)
  }

  predicate Blank(s: string) { forall k :: 0 <= k < |s| ==> IsSpace(s[k]) }

  /** The tokens with blanks behind each of them. */
  function Render(ks: seq<Kind>, blanks: seq<string>): (r: string)
    requires |ks| == |blanks| && forall k :: 0 <= k < |ks| ==> Printable(ks[k])
    ensures ks != [] ==> r != "" && r[0] == Text(ks[0])[0]
  {
    if ks == [] then "" else Text(ks[0]) + blanks[0] + Render(ks[1..], blanks[1..])
  }

  /** `s` stands at `p` in `src`. */
  ghost predicate StandsAt(src: string, p: nat, s: string) {
    p + |s| <= |src| && src[p..p + |s|] == s
  }

  lemma StandsSplit(src: string, p: nat, a: string, b: string)
    requires StandsAt(src, p, a + b)
    ensures StandsAt(src, p, a) && StandsAt(src, p + |a|, b)
  {
    var t := src[p..p + |a + b|];
    assert src[p..p + |a|] == t[..|a|];
    assert src[p + |a|..p + |a| + |b|] == t[|a|..];
  }

  lemma StandsChar(src: string, p: nat, s: string, k: nat)
    requires StandsAt(src, p, s) && k < |s|
    ensures p + k < |src| && src[p + k] == s[k]
  {
    assert src[p..p + |s|][k] == s[k];
  }

  lemma DigitValue(d: nat)
    requires d < 10
    ensures IsDigit(Digit(d)) && Digit(d) as int - '0' as int == d
  {
  }

  lemma {:induction false} ScanDecimal(src: string, p: nat, v: nat)
    requires v < TWO31 && StandsAt(src, p, Decimal(v))
    ensures ScanNumber(src, p, 0) == ScanNumber(src, p + |Decimal(v)|, v)
  {
    hide Digit, ScanNumber, StandsAt;
    if v < 10 {
      StandsChar(src, p, Decimal(v), 0);
      ScanDigit(src, p, 0, v);
    } else {
      var d := Decimal(v / 10);
      StandsSplit(src, p, d, [Digit(v % 10)]);
      ScanDecimal(src, p, v / 10);
      StandsChar(src, p + |d|, [Digit(v % 10)], 0);
      ScanDigit(src, p + |d|, v / 10, v % 10);
    }
  }

  lemma ScanDigit(src: string, p: nat, val: nat, d: nat)
    requires p < |src| && d < 10 && src[p] == Digit(d) && val * 10 + d < TWO31
    ensures ScanNumber(src, p, val) == ScanNumber(src, p + 1, val * 10 + d)
  {
    hide Digit;
    DigitValue(d);
  }

  lemma {:induction false} ScanWord(src: string, p: nat, s: string, text: string)
    requires StandsAt(src, p, s) && (forall k :: 0 <= k < |s| ==> IsAlnum(s[k])) && |text| + |s| <= NAME_MAX
    ensures ScanName(src, p, text) == ScanName(src, p + |s|, text + s)
    decreases |s|
  {
    hide IsAlnum, ScanName;
    if s == "" {
      assert text + s == text;
    } else {
      var c, rest := [s[0]], s[1..];
      assert c + rest == s;
      StandsSplit(src, p, c, rest);
      StandsChar(src, p, c, 0);
      ScanNameNext(src, p, text);
      ScanWord(src, p + 1, rest, text + c);
      assert text + c + rest == text + s;
    }
  }

  lemma {:induction false} SkipBlank(src: string, p: nat, s: string, line: int) returns (line': int)
    requires StandsAt(src, p, s) && Blank(s)
    ensures SkipBlanks(src, p, line) == SkipBlanks(src, p + |s|, line')
    decreases |s|
  {
    if s == "" {
      line' := line;
    } else {
      assert s[..1] + s[1..] == s;
      StandsSplit(src, p, s[..1], s[1..]);
      StandsChar(src, p, s, 0);
      line' := SkipBlank(src, p + 1, s[1..], if s[0] == '\n' then line + 1 else line);
    }
  }

  /** A token's text, followed by the end or by something that does not continue it, scans as that token. */
  lemma ScanText(src: string, p: nat, k: Kind, line: int)
    requires Printable(k) && StandsAt(src, p, Text(k))
    requires p + |Text(k)| == |src| || !RunsOn(k, src[p + |Text(k)|])
    ensures Scan(src, p, line) == Lexeme(k, p + |Text(k)|, line)
  {
    hide ScanNumber, ScanName, Keyword, Punctuation, Decimal;
    StandsChar(src, p, Text(k), 0);
    if k.Num? {
      ScanNumberText(src, p, k);
    } else if IsWord(k) {
      ScanNameText(src, p, k);
    } else {
      ScanPunctuation(src, p, k);
    }
  }

  lemma ScanNumberText(src: string, p: nat, k: Kind)
    requires k.Num? && Printable(k) && StandsAt(src, p, Text(k))
    requires p + |Text(k)| == |src| || !RunsOn(k, src[p + |Text(k)|])
    ensures ScanNumber(src, p, 0) == (p + |Text(k)|, k.v)
  {
    ScanDecimal(src, p, k.v);
  }

  lemma ScanNameText(src: string, p: nat, k: Kind)
    requires IsWord(k)
    requires Printable(k) && StandsAt(src, p, Text(k))
    requires p + |Text(k)| == |src| || !RunsOn(k, src[p + |Text(k)|])
    ensures ScanName(src, p, "") == (p + |Text(k)|, Text(k))
    ensures IsAlpha(Text(k)[0]) && Keyword(Text(k)) == k
  {
    hide Text, Keyword, IsAlnum, IsAlpha, Printable, ScanName, StandsAt, RunsOn, IsWord;
    TextIsWord(k);
    var end := p + |Text(k)|;
    assert end <= |src| by { StandsInside(src, p, Text(k)); }
    ScanWord(src, p, Text(k), "");
    assert "" + Text(k) == Text(k);
    assert end < |src| ==> !IsAlnum(src[end]) by { WordStops(src, end, k); }
    ScanNameStops(src, end, Text(k));
  }

  lemma StandsInside(src: string, p: nat, s: string)
    requires StandsAt(src, p, s)
    ensures p + |s| <= |src|
  {
  }

  lemma WordStops(src: string, p: nat, k: Kind)
    requires IsWord(k) && p <= |src| && (p == |src| || !RunsOn(k, src[p]))
    ensures p < |src| ==> !IsAlnum(src[p])
  {
  }

  lemma TextIsWord(k: Kind)
    requires IsWord(k)
    requires Printable(k)
    ensures |Text(k)| <= NAME_MAX && IsAlpha(Text(k)[0]) && Keyword(Text(k)) == k
    ensures forall j :: 0 <= j < |Text(k)| ==> IsAlnum(Text(k)[j])
  {
  }

  lemma ScanPunctuation(src: string, p: nat, k: Kind)
    requires Printable(k) && !IsWord(k) && !k.Num? && StandsAt(src, p, Text(k))
    requires p + |Text(k)| == |src| || !RunsOn(k, src[p + |Text(k)|])
    ensures !IsSpace(src[p]) && !IsDigit(src[p]) && !IsAlpha(src[p])
    ensures Punctuation(src[p], if p + 1 < |src| then Some(src[p + 1]) else None) == (k, |Text(k)|)
  {
    StandsChar(src, p, Text(k), 0);
    if |Text(k)| == 2 {
      StandsChar(src, p, Text(k), 1);
    }
  }

  /** Scanning skips blanks first. */
  lemma ScanSkips(src: string, p: nat, line: int, p': nat, line': int)
    requires p <= |src| && p' <= |src| && SkipBlanks(src, p, line) == SkipBlanks(src, p', line')
    ensures Scan(src, p, line) == Scan(src, p', line')
  {
  }

  /** Blanks to put behind the tokens `ks`: none are needed but where the next token would continue the last. */
  predicate Separators(ks: seq<Kind>, blanks: seq<string>)
    requires forall k :: 0 <= k < |ks| ==> Printable(ks[k])
  {
    && |blanks| == |ks| && (forall k :: 0 <= k < |ks| ==> Blank(blanks[k]))
    && forall k :: 0 <= k < |ks| - 1 && blanks[k] == "" ==> !RunsOn(ks[k], Text(ks[k + 1])[0])
  }

  /** Lexing undoes rendering: whatever blanks separate them, the tokens come back, and then the end. */
  lemma {:induction false} LexUndoesRender(src: string, p: nat, line: int, ks: seq<Kind>, blanks: seq<string>)
    requires (forall k :: 0 <= k < |ks| ==> Printable(ks[k])) && Separators(ks, blanks)
    requires p <= |src| && src[p..] == Render(ks, blanks)
    ensures Kinds(Tokens(src, p, line)) == ks + [Eof]
    decreases |ks|
  {
    hide Scan, Text, Tokens, RunsOn;
    if ks == [] {
      OnlyEnd(src, line);
    } else {
      var rest := Render(ks[1..], blanks[1..]);
      SeparatorsTail(ks, blanks);
      var p2, line2 := LexOne(src, p, line, ks[0], blanks[0], rest);
      LexUndoesRender(src, p2, line2, ks[1..], blanks[1..]);
      KindsCons(Token(ks[0], line), Tokens(src, p2, line2));
      assert ks + [Eof] == [ks[0]] + (ks[1..] + [Eof]);
    }
  }

  lemma SeparatorsTail(ks: seq<Kind>, blanks: seq<string>)
    requires ks != [] && (forall k :: 0 <= k < |ks| ==> Printable(ks[k])) && Separators(ks, blanks)
    ensures Separators(ks[1..], blanks[1..]) && Blank(blanks[0])
    ensures var rest := Render(ks[1..], blanks[1..]); rest == "" || blanks[0] != "" || !RunsOn(ks[0], rest[0])
  {
    hide RunsOn, Text, Blank;
    forall k | 0 <= k < |ks[1..]| - 1 && blanks[1..][k] == ""
      ensures !RunsOn(ks[1..][k], Text(ks[1..][k + 1])[0])
    {
      assert blanks[k + 1] == "";
    }
    if |ks| > 1 {
      assert Render(ks[1..], blanks[1..])[0] == Text(ks[1])[0];
    }
  }

  /** One token and the blanks behind it. */
  lemma LexOne(src: string, p: nat, line: int, k: Kind, blank: string, rest: string) returns (p2: nat, line2: int)
    requires Printable(k) && Blank(blank) && p <= |src| && src[p..] == Text(k) + blank + rest
    requires rest == "" || blank != "" || !RunsOn(k, rest[0])
    ensures p2 <= |src| && src[p2..] == rest && Tokens(src, p, line) == [Token(k, line)] + Tokens(src, p2, line2)
  {
    hide Scan, Text, Tokens, RunsOn;
    var t := Text(k);
    var p1 := p + |t|;
    p2 := p1 + |blank|;
    assert src[p2..] == src[p..][|t| + |blank|..] == rest;
    assert StandsAt(src, p, t) by { assert src[p..p1] == src[p..][..|t|]; }
    assert StandsAt(src, p1, blank) by { assert src[p1..p2] == src[p..][|t|..|t| + |blank|]; }
    if blank != "" {
      StandsChar(src, p1, blank, 0);
      SpaceStops(k, blank[0]);
    }
    ScanText(src, p, k, line);
    line2 := SkipBlank(src, p1, blank, line);
    ScanSkips(src, p1, line, p2, line2);
    TokensFrom(src, p1, line, p2, line2);
    TokensOne(src, p, line, k, p1);
  }

  lemma SpaceStops(k: Kind, c: char)
    requires IsSpace(c)
    ensures !RunsOn(k, c)
  {
  }

  lemma TokensOne(src: string, p: nat, line: int, k: Kind, p1: nat)
    requires p <= |src| && p1 <= |src| && !Final(k) && Scan(src, p, line) == Lexeme(k, p1, line)
    ensures Tokens(src, p, line) == [Token(k, line)] + Tokens(src, p1, line)
  {
    hide Scan;
  }

  lemma OnlyEnd(src: string, line: int)
    ensures Kinds(Tokens(src, |src|, line)) == [Eof]
  {
    hide Scan;
    NothingLeft(src, line);
  }

  lemma NothingLeft(src: string, line: int)
    ensures Scan(src, |src|, line).kind == Eof
  {
  }

  lemma TokensFrom(src: string, p: nat, line: int, p': nat, line': int)
    requires p <= |src| && p' <= |src| && Scan(src, p, line) == Scan(src, p', line')
    ensures Tokens(src, p, line) == Tokens(src, p', line')
  {
    hide Scan;
  }

  ghost function Kinds(ts: seq<Token>): (ks: seq<Kind>)
    ensures |ks| == |ts| && forall k :: 0 <= k < |ts| ==> ks[k] == ts[k].kind
  {
    seq(|ts|, k requires 0 <= k < |ts| => ts[k].kind)
  }

  lemma KindsCons(t: Token, ts: seq<Token>)
    ensures Kinds([t] + ts) == [t.kind] + Kinds(ts)
  {
  }

  lemma KindsSpell(ts: Toks, ks: seq<Kind>)
    requires Kinds(ts) == ks + [Eof]
    ensures Spells(ts, 0, ks)
  {
    assert forall k :: 0 <= k < |ks| ==> ts[0 + k].kind == (ks + [Eof])[k];
    assert ts[|ks|].kind == (ks + [Eof])[|ks|];
  }

  /** From characters to tree: the text of a well-scoped program, printed with any blanks in front of and between its
      tokens, or none where none are needed, and no more parentheses than it needs, compiles to that program's tree. */
  lemma ParseUndoesRender(body: Stmt, names: seq<string>, lead: string, blanks: seq<string>)
    requires body.Block? && NearestElse(body) && Distinct(names) && |names| <= MAX_LOCALS
    requires Scope(body, 0) == Some(|names|) && NodeBytes(StmtNodes(body)) <= ARENA_SIZE
    requires var ks := WriteProgram(ShowStmt(body, names, 0));
      Blank(lead) && (forall k :: 0 <= k < |ks| ==> Printable(ks[k])) && Separators(ks, blanks)
    ensures var src := lead + Render(WriteProgram(ShowStmt(body, names, 0)), blanks);
      Parse(src).Ok? && Parse(src).v == body && Parse(src).s.syms == names
  {
    hide Render, Parse, WriteProgram, ShowStmt, Tokens, Scan, RunsOn, Text, Printable;
    var ks := WriteProgram(ShowStmt(body, names, 0));
    var src := lead + Render(ks, blanks);
    assert StandsAt(src, 0, lead);
    var line := SkipBlank(src, 0, lead, 1);
    ScanSkips(src, 0, 1, |lead|, line);
    TokensFrom(src, 0, 1, |lead|, line);
    assert src[|lead|..] == Render(ks, blanks);
    LexUndoesRender(src, |lead|, line, ks, blanks);
    KindsSpell(Tokens(src, 0, 1), ks);
    ParseUndoesPrint(src, body, names);
  }
}
