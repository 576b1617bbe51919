/** Lexer and parser as the compiler runs them: one object whose position, lookahead token, arena cursor, symbol
    table and error latch are updated in place. */
module FrontEnd {
  import opened Words
  import opened Lexer
  import opened Source
  import opened Parser
  import Emitter

  class FrontEnd {
    var src: string
    var pos: nat
    var line: int
    var cur: Token
    var arena: nat
    var syms: seq<string>
    var error: Option<Error>

    ghost var ts: Toks   // all tokens of `src`
    ghost var i: nat     // which of them is `cur`

    ghost predicate Valid()
      reads this
    {
      && pos <= |src| && |syms| <= MAX_LOCALS
      && (error.None? ==> i < |ts| && cur == ts[i] && !cur.kind.Bad? && Synced())
    }

    /** The tokens not yet read are those of the text not yet read. */
    ghost predicate Synced()
      requires pos <= |src| && i < |ts|
      reads this
    {
      ts[i..] == [cur] + if cur.kind.Eof? then [] else Tokens(src, pos, line)
    }

    ghost function Now(): State
      reads this
    {
      State(i, syms, arena)
    }

    /** Tokens still to be read, for termination. */
    ghost function Left(): nat
      reads this
    {
      if error.None? && i < |ts| then |ts| - i else 0
    }

    /** The object shows result `r`: the value returned and the new state, or the error latched. */
    ghost predicate Agrees<T>(r: Result<T>, v: Option<T>)
      reads this
    {
      match r
      case Ok(x, s) => error.None? && v == Some(x) && Now() == s
      case Err(e) => error == Some(e)
    }

    constructor ()
      ensures Valid()
    {
      src, pos, line, cur, arena, syms, error := "", 0, 1, Token(Eof, 1), 0, [], None;
      ts, i := [Token(Eof, 1)], 0;
    }

    /** Keeps the first error only. */
    method CcError(line: int, msg: string)
      modifies this`error
      ensures error == if old(error).Some? then old(error) else Some(Emitter.Error(line, msg))
    {
      if error.Some? {
        return;
      }
      error := Some(Emitter.Error(line, msg));
    }

    // ---- lexer ----

    method SkipWs()
      requires pos <= |src|
      modifies this`pos, this`line
      ensures pos <= |src| && (pos, line) == SkipBlanks(src, old(pos), old(line))
    {
      while pos < |src|
        invariant pos <= |src| && SkipBlanks(src, pos, line) == SkipBlanks(src, old(pos), old(line))
        decreases |src| - pos
      {
        var c := src[pos];
        if c == '\n' {
          line := line + 1;
          pos := pos + 1;
        } else if c == ' ' || c == '\t' || c == '\r' {
          pos := pos + 1;
        } else {
          break;
        }
      }
    }

    method LexNumber() returns (val: Int32)
      requires pos <= |src|
      modifies this`pos
      ensures (pos, val) == ScanNumber(src, old(pos), 0)
    {
      val := 0;
      while pos < |src| && IsDigit(src[pos])
        invariant pos <= |src| && ScanNumber(src, pos, val) == ScanNumber(src, old(pos), 0)
        decreases |src| - pos
      {
        val := Wrap(val * 10 + (src[pos] as int - '0' as int));
        pos := pos + 1;
      }
    }

    method LexName() returns (text: string)
      requires pos <= |src|
      modifies this`pos
      ensures (pos, text) == ScanName(src, old(pos), "")
    {
      hide IsAlnum, ScanName;
      text := "";
      while pos < |src| && IsAlnum(src[pos])
        invariant pos <= |src| && |text| <= NAME_MAX && ScanName(src, pos, text) == ScanName(src, old(pos), "")
        decreases |src| - pos
      {
        ScanNameNext(src, pos, text);
        if |text| < NAME_MAX {
          text := text + [src[pos]];
        }
        pos := pos + 1;
      }
      ScanNameStops(src, pos, text);
    }

    /** Reads the next token; an invalid character latches an error and reads as the end of the text. */
    method LexNext() returns (out: Token)
      requires pos <= |src|
      modifies this`pos, this`line, this`error
      ensures var l := Scan(src, old(pos), old(line));
        && pos == l.pos && line == l.line
        && out == Token(if l.kind.Bad? then Eof else l.kind, l.line)
        && error == if l.kind.Bad? && old(error).None? then Some(Emitter.Error(l.line, "caractere invalido")) else old(error)
    {
      hide SkipBlanks, ScanNumber, ScanName, Keyword, Punctuation;
      SkipWs();
      var at := line;
      if pos >= |src| {
        return Token(Eof, at);
      }
      var c := src[pos];
      if IsDigit(c) {
        var val := LexNumber();
        return Token(Kind.Num(val), at);
      }
      if IsAlpha(c) {
        var text := LexName();
        return Token(Keyword(text), at);
      }
      var next := if pos + 1 < |src| then Some(src[pos + 1]) else None;
      var (kind, n) := Punctuation(c, next);
      pos := pos + n;
      if kind.Bad? {
        CcError(at, "caractere invalido");
        return Token(Eof, at);
      }
      return Token(kind, at);
    }

    /** Starts a compilation: everything is reset and the first token read. */
    method Start(text: string)
      modifies this
      ensures Valid() && src == text && ts == Tokens(text, 0, 1)
      ensures if ts[0].kind.Bad? then error == Some(Emitter.Error(ts[0].line, "caractere invalido"))
              else error.None? && Now() == State(0, [], 0)
    {
      src, pos, line, arena, syms, error := text, 0, 1, 0, [], None;
      ts, i := Tokens(text, 0, 1), 0;
      cur := LexNext();
    }

    method Advance()
      requires Valid() && (error.None? ==> !cur.kind.Eof?)
      modifies this`pos, this`line, this`error, this`cur, this`i
      ensures Valid()
      ensures old(error).Some? ==> error == old(error)
      ensures old(error).None? ==> Agrees(Parser.Advance(ts, old(Now())), Some(()))
    {
      if error.Some? {
        return;
      }
      hide Scan, Tokens, WfTokens, Synced, Continues;
      ghost var l := Scan(src, pos, line);
      NextToken(this, l);
      cur := LexNext();
      i := i + 1;
      assert !l.kind.Bad? ==> Synced() by {
        if !l.kind.Bad? {
          NowSynced(this);
        }
      }
    }

    method Expect(k: Kind, msg: string)
      requires Valid() && !Final(k)
      modifies this`pos, this`line, this`error, this`cur, this`i
      ensures Valid()
      ensures old(error).Some? ==> error == old(error)
      ensures old(error).None? ==> Agrees(Parser.Expect(ts, old(Now()), k, msg), Some(()))
    {
      if error.Some? {
        return;
      }
      if cur.kind != k {
        CcError(cur.line, msg);
        return;
      }
      Advance();
    }

    /** Takes one node from the arena; says whether there was room. */
    method ArenaAlloc() returns (ok: bool)
      requires Valid()
      modifies this`arena, this`error
      ensures Valid()
      ensures old(error).Some? ==> error == old(error) && !ok
      ensures old(error).None? ==> Agrees(Alloc(old(Now()), ()), Some(())) && ok == error.None?
    {
      if error.Some? {
        return false;
      }
      if arena + NODE_SIZE > ARENA_SIZE {
        CcError(-1, "programa fonte grande demais");
        return false;
      }
      arena := arena + NODE_SIZE;
      return true;
    }

    // ---- symbol table ----

    method SymDeclare(name: string, at: int) returns (offset: int)
      requires Valid()
      modifies this`syms, this`error
      ensures Valid() && (error.None? ==> 0 <= offset)
      ensures old(error).Some? ==> error == old(error)
      ensures old(error).None? ==> match Declare(old(Now()), name, at)
        case Ok(off, s) => error.None? && offset == off && Now() == s
        case Err(e) => error == Some(e)
    {
      var k := 0;
      while k < |syms|
        invariant 0 <= k <= |syms| && name !in syms[..k]
      {
        if syms[k] == name {
          CcError(at, "variavel redeclarada");
          return -1;
        }
        k := k + 1;
      }
      assert syms[..k] == syms;
      if |syms| >= MAX_LOCALS {
        CcError(at, "muitas variaveis locais");
        return -1;
      }
      offset := 4 * (|syms| + 1);
      syms := syms + [name];
    }

    method SymLookup(name: string) returns (offset: int)
      ensures offset == Lookup(syms, name)
    {
      var k := 0;
      while k < |syms|
        invariant 0 <= k <= |syms| && name !in syms[..k]
      {
        if syms[k] == name {
          FirstIndex(syms, name, k);
          return 4 * (k + 1);
        }
        k := k + 1;
      }
      assert syms[..k] == syms;
      return -1;
    }

    // ---- parser: expressions ----

    /** A binary node, if there is room for it. */
    method NewBinop(op: BinOp, l: Option<Expr>, r: Option<Expr>) returns (e: Option<Expr>)
      requires Valid() && (error.None? ==> l.Some? && r.Some?)
      modifies this`arena, this`error
      ensures Valid()
      ensures old(error).Some? ==> error == old(error)
      ensures old(error).None? ==> Agrees(Alloc(old(Now()), Bin(op, l.value, r.value)), e)
    {
      var ok := ArenaAlloc();
      if !ok {
        return None;
      }
      return Some(Bin(op, l.value, r.value));
    }

    method ParsePrimary() returns (e: Option<Expr>)
      requires Valid()
      modifies this`pos, this`line, this`error, this`cur, this`i, this`arena
      ensures Valid()
      ensures old(error).Some? ==> error == old(error)
      ensures old(error).None? ==> Agrees(Parser.Primary(ts, old(Now())), e)
      decreases Left(), 0
    {
      hide Tokens, WfTokens, Synced, Parser.Advance, Parser.Expect, Comparison, Lookup;
      if error.Some? {
        return None;
      }
      var at := cur.line;
      if cur.kind.Num? {
        var v := cur.kind.v;
        var ok := ArenaAlloc();
        if !ok {
          return None;
        }
        Advance();
        return Some(Source.Num(v));
      }
      if cur.kind.Ident? {
        var offset := SymLookup(cur.kind.name);
        if offset < 0 {
          CcError(at, "variavel nao declarada");
          return None;
        }
        Advance();
        var ok := ArenaAlloc();
        if !ok {
          return None;
        }
        return Some(Var(offset));
      }
      if cur.kind.LParen? {
        Advance();
        e := ParseComparison();
        Expect(RParen, "esperado ')'");
        return e;
      }
      CcError(at, "esperado numero, variavel ou '('");
      return None;
    }

    method ParseUnary() returns (e: Option<Expr>)
      requires Valid()
      modifies this`pos, this`line, this`error, this`cur, this`i, this`arena
      ensures Valid()
      ensures old(error).Some? ==> error == old(error)
      ensures old(error).None? ==> Agrees(Parser.Unary(ts, old(Now())), e)
      decreases Left(), 1
    {
      hide Tokens, WfTokens, Synced, Parser.Advance, Primary;
      if error.Some? {
        return None;
      }
      if cur.kind.Minus? {
        Advance();
        var operand := ParseUnary();
        if error.Some? {
          return None;
        }
        var ok := ArenaAlloc();
        if !ok {
          return None;
        }
        return Some(Neg(operand.value));
      }
      e := ParsePrimary();
    }

    method ParseTerm() returns (e: Option<Expr>)
      requires Valid()
      modifies this`pos, this`line, this`error, this`cur, this`i, this`arena
      ensures Valid()
      ensures old(error).Some? ==> error == old(error)
      ensures old(error).None? ==> Agrees(Parser.Term(ts, old(Now())), e)
      decreases Left(), 3
    {
      hide Tokens, WfTokens, Synced, Parser.Advance, Unary, Alloc, TermLoop;
      ghost var goal := if error.None? then Term(ts, Now()) else Err(error.value);
      e := ParseUnary();
      while error.None? && (cur.kind.Star? || cur.kind.Slash?)
        invariant Valid() && (old(error).Some? ==> error == old(error))
        invariant error.None? ==> old(error).None? && e.Some? && Left() < old(Left()) && TermLoop(ts, Now(), e.value) == goal
        invariant error.Some? && old(error).None? ==> goal == Err(error.value)
        decreases Left()
      {
        var op := if cur.kind.Star? then Mul else Div;
        TermNext(ts, Now(), e.value);
        Advance();
        var rhs := ParseUnary();
        e := NewBinop(op, e, rhs);
      }
      if error.None? {
        TermEnds(ts, Now(), e.value);
      }
    }

    method ParseAdditive() returns (e: Option<Expr>)
      requires Valid()
      modifies this`pos, this`line, this`error, this`cur, this`i, this`arena
      ensures Valid()
      ensures old(error).Some? ==> error == old(error)
      ensures old(error).None? ==> Agrees(Parser.Additive(ts, old(Now())), e)
      decreases Left(), 5
    {
      hide Tokens, WfTokens, Synced, Parser.Advance, Term, Alloc, AdditiveLoop;
      ghost var goal := if error.None? then Parser.Additive(ts, Now()) else Err(error.value);
      e := ParseTerm();
      while error.None? && (cur.kind.Plus? || cur.kind.Minus?)
        invariant Valid() && (old(error).Some? ==> error == old(error))
        invariant error.None? ==> old(error).None? && e.Some? && Left() < old(Left()) && AdditiveLoop(ts, Now(), e.value) == goal
        invariant error.Some? && old(error).None? ==> goal == Err(error.value)
        decreases Left()
      {
        var op := if cur.kind.Plus? then Add else Sub;
        AdditiveNext(ts, Now(), e.value);
        Advance();
        var rhs := ParseTerm();
        e := NewBinop(op, e, rhs);
      }
      if error.None? {
        AdditiveEnds(ts, Now(), e.value);
      }
    }

    /** An expression: at most one comparison between two sums. */
    method ParseComparison() returns (e: Option<Expr>)
      requires Valid()
      modifies this`pos, this`line, this`error, this`cur, this`i, this`arena
      ensures Valid()
      ensures old(error).Some? ==> error == old(error)
      ensures old(error).None? ==> Agrees(Parser.Comparison(ts, old(Now())), e)
      decreases Left(), 6
    {
      hide Tokens, WfTokens, Synced, Parser.Advance, Parser.Additive;
      e := ParseAdditive();
      if error.None? && CmpOp(cur.kind).Some? {
        var op := CmpOp(cur.kind).value;
        Advance();
        var rhs := ParseAdditive();
        e := NewBinop(op, e, rhs);
      }
    }

    // ---- parser: statements ----

    /** A parenthesised expression after a keyword. */
    method ParseCondition() returns (e: Option<Expr>)
      requires Valid() && (error.None? ==> !cur.kind.Eof?)
      modifies this`pos, this`line, this`error, this`cur, this`i, this`arena
      ensures Valid()
      ensures old(error).Some? ==> error == old(error)
      ensures old(error).None? ==> Agrees(Parser.Condition(ts, old(Now())), e)
      decreases Left(), 8
    {
      hide Tokens, WfTokens, Synced, Parser.Advance, Parser.Expect, Comparison;
      Advance();
      Expect(LParen, "esperado '('");
      e := ParseComparison();
      Expect(RParen, "esperado ')'");
    }

    method ParseStmt() returns (e: Option<Stmt>)
      requires Valid()
      modifies this`pos, this`line, this`error, this`cur, this`i, this`arena, this`syms
      ensures Valid()
      ensures old(error).Some? ==> error == old(error)
      ensures old(error).None? ==> Agrees(Parser.Statement(ts, old(Now())), e)
      decreases Left(), 11
    {
      hide Tokens, WfTokens, Synced, Parser.Advance, Parser.Expect, Comparison, BlockStmt, DeclStmt, IfStmt, WhileStmt,
        PrintStmt, ReturnStmt, AssignStmt;
      if error.Some? {
        return None;
      }
      var at := cur.line;
      if cur.kind.LBrace? {
        e := ParseBlock();
      } else if cur.kind.KwInt? {
        e := ParseDecl();
      } else if cur.kind.KwIf? {
        e := ParseIf();
      } else if cur.kind.KwWhile? {
        e := ParseWhile();
      } else if cur.kind.KwPrint? {
        e := ParsePrint();
      } else if cur.kind.KwReturn? {
        e := ParseReturn();
      } else if cur.kind.Ident? {
        e := ParseAssign();
      } else {
        CcError(at, "comando invalido");
        e := None;
      }
    }

    method ParseDecl() returns (e: Option<Stmt>)
      requires Valid() && error.None? && cur.kind.KwInt?
      modifies this`pos, this`line, this`error, this`cur, this`i, this`arena, this`syms
      ensures Valid()
      ensures Agrees(Parser.DeclStmt(ts, old(Now())), e)
      decreases Left(), 9
    {
      hide Tokens, WfTokens, Synced, Parser.Advance, Parser.Expect, Comparison;
      ghost var goal := DeclStmt(ts, Now());
      var at := cur.line;
      Advance();
      if error.Some? || !cur.kind.Ident? {
        CcError(at, "esperado nome de variavel");
        return None;
      }
      var name := cur.kind.name;
      Advance();
      var offset := SymDeclare(name, at);
      if error.Some? {
        return None;
      }
      var ok := ArenaAlloc();
      if !ok {
        return None;
      }
      assert goal == DeclRest(ts, Now(), offset);
      var init: Option<Expr> := None;
      if cur.kind.Becomes? {
        Advance();
        init := ParseComparison();
      }
      Expect(Semi, "esperado ';'");
      return Some(Decl(offset, init));
    }

    method ParseIf() returns (e: Option<Stmt>)
      requires Valid() && error.None? && cur.kind.KwIf?
      modifies this`pos, this`line, this`error, this`cur, this`i, this`arena, this`syms
      ensures Valid()
      ensures Agrees(Parser.IfStmt(ts, old(Now())), e)
      decreases Left(), 9
    {
      hide Tokens, WfTokens, Synced, Parser.Advance, Parser.Expect, Comparison, Condition, Statement;
      var cond := ParseCondition();
      var thn := ParseStmt();
      var els: Option<Stmt> := None;
      if error.None? && cur.kind.KwElse? {
        Advance();
        els := ParseStmt();
      }
      if error.Some? {
        return None;
      }
      var ok := ArenaAlloc();
      if !ok {
        return None;
      }
      return Some(If(cond.value, thn.value, els));
    }

    method ParseWhile() returns (e: Option<Stmt>)
      requires Valid() && error.None? && cur.kind.KwWhile?
      modifies this`pos, this`line, this`error, this`cur, this`i, this`arena, this`syms
      ensures Valid()
      ensures Agrees(Parser.WhileStmt(ts, old(Now())), e)
      decreases Left(), 9
    {
      hide Tokens, WfTokens, Synced, Parser.Advance, Parser.Expect, Comparison, Condition, Statement;
      var cond := ParseCondition();
      var body := ParseStmt();
      if error.Some? {
        return None;
      }
      var ok := ArenaAlloc();
      if !ok {
        return None;
      }
      return Some(While(cond.value, body.value));
    }

    method ParsePrint() returns (e: Option<Stmt>)
      requires Valid() && error.None? && cur.kind.KwPrint?
      modifies this`pos, this`line, this`error, this`cur, this`i, this`arena
      ensures Valid()
      ensures Agrees(Parser.PrintStmt(ts, old(Now())), e)
      decreases Left(), 9
    {
      hide Tokens, WfTokens, Synced, Parser.Advance, Parser.Expect, Comparison, Condition;
      var expr := ParseCondition();
      Expect(Semi, "esperado ';'");
      if error.Some? {
        return None;
      }
      var ok := ArenaAlloc();
      if !ok {
        return None;
      }
      return Some(Print(expr.value));
    }

    method ParseReturn() returns (e: Option<Stmt>)
      requires Valid() && error.None? && cur.kind.KwReturn?
      modifies this`pos, this`line, this`error, this`cur, this`i, this`arena
      ensures Valid()
      ensures Agrees(Parser.ReturnStmt(ts, old(Now())), e)
      decreases Left(), 9
    {
      hide Tokens, WfTokens, Synced, Parser.Advance, Parser.Expect, Comparison;
      Advance();
      var expr := ParseComparison();
      Expect(Semi, "esperado ';'");
      if error.Some? {
        return None;
      }
      var ok := ArenaAlloc();
      if !ok {
        return None;
      }
      return Some(Return(expr.value));
    }

    method ParseAssign() returns (e: Option<Stmt>)
      requires Valid() && error.None? && cur.kind.Ident?
      modifies this`pos, this`line, this`error, this`cur, this`i, this`arena
      ensures Valid()
      ensures Agrees(Parser.AssignStmt(ts, old(Now())), e)
      decreases Left(), 9
    {
      hide Tokens, WfTokens, Synced, Parser.Advance, Parser.Expect, Comparison, Lookup;
      ghost var goal := AssignStmt(ts, Now());
      var at, name := cur.line, cur.kind.name;
      Advance();
      assert error.Some? ==> goal == Err(error.value);
      var offset := SymLookup(name);
      if offset < 0 {
        CcError(at, "variavel nao declarada");
        return None;
      }
      Expect(Becomes, "esperado '='");
      assert error.Some? ==> goal == Err(error.value);
      var expr := ParseComparison();
      assert error.Some? ==> goal == Err(error.value);
      Expect(Semi, "esperado ';'");
      assert goal == if error.Some? then Err(error.value) else Alloc(Now(), Source.Assign(offset, expr.value));
      if error.Some? {
        return None;
      }
      var ok := ArenaAlloc();
      if !ok {
        return None;
      }
      return Some(Source.Assign(offset, expr.value));
    }

    method ParseBlock() returns (e: Option<Stmt>)
      requires Valid()
      modifies this`pos, this`line, this`error, this`cur, this`i, this`arena, this`syms
      ensures Valid()
      ensures old(error).Some? ==> error == old(error)
      ensures old(error).None? ==> Agrees(Parser.BlockStmt(ts, old(Now())), e)
      decreases Left(), 10
    {
      hide Tokens, WfTokens, Synced, Parser.Advance, Parser.Expect, Comparison, Statement;
      Expect(LBrace, "esperado '{'");
      if error.Some? {
        return None;
      }
      var ok := ArenaAlloc();
      if !ok {
        return None;
      }
      e := ParseStmts();
      Expect(RBrace, "esperado '}'");
    }

    /** The statements up to the closing brace. */
    method ParseStmts() returns (e: Option<Stmt>)
      requires Valid() && error.None?
      modifies this`pos, this`line, this`error, this`cur, this`i, this`arena, this`syms
      ensures Valid()
      ensures Agrees(match Statements(ts, old(Now())) case Ok(ss, s) => Ok(Block(ss), s) case Err(x) => Err(x), e)
      decreases Left(), 12
    {
      hide Tokens, WfTokens, Synced, Parser.Advance, Parser.Expect, Comparison, Statement;
      var ss: seq<Stmt> := [];
      ghost var goal := Statements(ts, Now());
      PrependNone(ss, goal);
      while error.None? && !cur.kind.RBrace? && !cur.kind.Eof?
        invariant Valid() && Left() <= old(Left())
        invariant error.None? ==> goal == Prepend(ss, Statements(ts, Now()))
        invariant error.Some? ==> goal == Err(error.value)
        decreases Left()
      {
        ghost var rest := Statements(ts, Now());
        var stmt := ParseStmt();
        if error.Some? {
          break;
        }
        assert rest == Prepend([stmt.value], Statements(ts, Now()));
        PrependOne(ss, stmt.value, Statements(ts, Now()));
        ss := ss + [stmt.value];
      }
      if error.None? {
        PrependNone(ss, Statements(ts, Now()));
      }
      return Some(Block(ss));
    }

    method ParseProgram() returns (e: Option<Stmt>)
      requires Valid()
      modifies this`pos, this`line, this`error, this`cur, this`i, this`arena, this`syms
      ensures Valid()
      ensures old(error).Some? ==> error == old(error)
      ensures old(error).None? ==> Agrees(Parser.Program(ts, old(Now())), e)
      decreases Left(), 12
    {
      hide Tokens, WfTokens, Synced, Parser.Advance, Parser.Expect, Comparison, BlockStmt;
      Expect(KwInt, "esperado 'int'");
      if error.Some? {
        return None;
      }
      if cur.kind != Ident("main") {
        CcError(cur.line, "esperado 'main'");
        return None;
      }
      Advance();
      Expect(LParen, "esperado '('");
      Expect(RParen, "esperado ')'");
      if error.Some? {
        return None;
      }
      e := ParseBlock();
    }
  }

  /** A list of statements read after `ss`; an error stays. */
  ghost function Prepend(ss: seq<Stmt>, r: Result<seq<Stmt>>): Result<seq<Stmt>> {
    match r
    case Ok(v, s) => Ok(ss + v, s)
    case Err(_) => r
  }

  lemma PrependNone(ss: seq<Stmt>, r: Result<seq<Stmt>>)
    ensures Prepend([], r) == r
    ensures r.Ok? && r.v == [] ==> Prepend(ss, r) == Ok(ss, r.s)
  {
    if r.Ok? {
      assert [] + r.v == r.v;
      assert ss + [] == ss;
    }
  }

  lemma PrependOne(ss: seq<Stmt>, a: Stmt, r: Result<seq<Stmt>>)
    ensures Prepend(ss, Prepend([a], r)) == Prepend(ss + [a], r)
  {
    if r.Ok? {
      assert ss + ([a] + r.v) == ss + [a] + r.v;
    }
  }

  lemma FirstIndex(syms: seq<string>, name: string, k: nat)
    requires k < |syms| && syms[k] == name && name !in syms[..k]
    ensures IndexOf(syms, name) == k
  {
    var j := IndexOf(syms, name);
    assert forall q :: 0 <= q < k ==> syms[q] in syms[..k];
    assert forall q :: 0 <= q < j ==> syms[q] in syms[..j];
  }

  /** What follows a token that is not the last one. */
  lemma NextToken(f: FrontEnd, l: Lexeme)
    requires f.Valid() && f.error.None? && !f.cur.kind.Eof? && l == Scan(f.src, f.pos, f.line)
    ensures f.i + 1 < |f.ts| && f.ts[f.i + 1] == Token(l.kind, l.line) && Continues(f.ts, f.i + 1, l, f.src)
  {
    hide Scan;
    var ts, i := f.ts, f.i;
    assert ts[i..][1..] == Tokens(f.src, f.pos, f.line);
    assert ts[i + 1..] == ts[i..][1..];
    assert ts[i + 1] == ts[i + 1..][0];
  }

  /** The tokens after `i` are those of the text after lexeme `l`. */
  ghost predicate Continues(ts: Toks, i: nat, l: Lexeme, src: string) {
    i < |ts| && l.pos <= |src| && ts[i..] == [ts[i]] + if Final(l.kind) then [] else Tokens(src, l.pos, l.line)
  }

  lemma NowSynced(f: FrontEnd)
    requires f.pos <= |f.src| && f.i < |f.ts| && f.cur == f.ts[f.i] && !f.cur.kind.Bad?
    requires Continues(f.ts, f.i, Lexeme(f.cur.kind, f.pos, f.line), f.src)
    ensures f.Synced()
  {
    hide Tokens;
  }
}
