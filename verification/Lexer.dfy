/** Source text to tokens. */
module Lexer {
  import opened Words

  datatype Kind =
    | Eof
    | Bad            // an invalid character: the lexer latches an error and reports the end of the text
    | Ident(name: string)
    | Num(v: Int32)
    | KwInt | KwIf | KwElse | KwWhile | KwPrint | KwReturn
    | LBrace | RBrace | LParen | RParen | Semi
    | Plus | Minus | Star | Slash | Becomes
    | EqEq | NotEq | Less | Greater | LessEq | GreaterEq

  datatype Token = Token(kind: Kind, line: int)

  const NAME_MAX := 31   // characters kept of an identifier

  predicate IsDigit(c: char) { '0' <= c <= '9' }

  predicate IsAlpha(c: char) { 'a' <= c <= 'z' || 'A' <= c <= 'Z' || c == '_' }

  predicate IsAlnum(c: char) { IsAlpha(c) || IsDigit(c) }

  predicate IsSpace(c: char) { c == ' ' || c == '\t' || c == '\r' || c == '\n' }

  // ---- what the lexer computes ----

  /** The position of the next character that is not a blank, and its line. */
  function SkipBlanks(src: string, pos: nat, line: int): (r: (nat, int))
    requires pos <= |src|
    ensures pos <= r.0 <= |src| && (r.0 < |src| ==> !IsSpace(src[r.0]))
    decreases |src| - pos
  {
    if pos < |src| && IsSpace(src[pos]) then SkipBlanks(src, pos + 1, if src[pos] == '\n' then line + 1 else line)
    else (pos, line)
  }

  /** The end of a run of digits and its value; like the C int it is computed in, the value wraps. */
  function ScanNumber(src: string, pos: nat, val: Int32): (r: (nat, Int32))
    requires pos <= |src|
    ensures pos <= r.0 <= |src|
    decreases |src| - pos
  {
    if pos < |src| && IsDigit(src[pos]) then ScanNumber(src, pos + 1, Wrap(val * 10 + (src[pos] as int - '0' as int)))
    else (pos, val)
  }

  /** The end of a run of letters and digits and its first NAME_MAX characters. */
  function ScanName(src: string, pos: nat, text: string): (r: (nat, string))
    requires pos <= |src| && |text| <= NAME_MAX
    ensures pos <= r.0 <= |src| && |r.1| <= NAME_MAX
    decreases |src| - pos
  {
    if pos < |src| && IsAlnum(src[pos])
    then ScanName(src, pos + 1, if |text| < NAME_MAX then text + [src[pos]] else text)
    else (pos, text)
  }

  lemma ScanNameNext(src: string, pos: nat, text: string)
    requires pos < |src| && |text| <= NAME_MAX && IsAlnum(src[pos])
    ensures ScanName(src, pos, text) == ScanName(src, pos + 1, if |text| < NAME_MAX then text + [src[pos]] else text)
  {
    hide IsAlnum;
  }

  lemma ScanNameStops(src: string, pos: nat, text: string)
    requires pos <= |src| && |text| <= NAME_MAX && (pos < |src| ==> !IsAlnum(src[pos]))
    ensures ScanName(src, pos, text) == (pos, text)
  {
    hide IsAlnum;
  }

  function Keyword(text: string): (k: Kind)
    ensures !Final(k)
  {
    if text == "int" then KwInt
    else if text == "if" then KwIf
    else if text == "else" then KwElse
    else if text == "while" then KwWhile
    else if text == "print" then KwPrint
    else if text == "return" then KwReturn
    else Ident(text)
  }

  /** The operator or punctuation mark that starts with `c` when `next` follows, and how many characters it takes. */
  function Punctuation(c: char, next: Option<char>): (r: (Kind, nat))
    ensures 1 <= r.1 <= 2 && (r.1 == 2 ==> next.Some?)
  {
    var eq := next == Some('=');
    match c
    case '{' => (LBrace, 1)
    case '}' => (RBrace, 1)
    case '(' => (LParen, 1)
    case ')' => (RParen, 1)
    case ';' => (Semi, 1)
    case '+' => (Plus, 1)
    case '-' => (Minus, 1)
    case '*' => (Star, 1)
    case '/' => (Slash, 1)
    case '=' => if eq then (EqEq, 2) else (Becomes, 1)
    case '!' => if eq then (NotEq, 2) else (Bad, 1)
    case '<' => if eq then (LessEq, 2) else (Less, 1)
    case '>' => if eq then (GreaterEq, 2) else (Greater, 1)
    case _ => (Bad, 1)
  }

  datatype Lexeme = Lexeme(kind: Kind, pos: nat, line: int)

  /** The token at or after `pos`. */
  function Scan(src: string, pos: nat, line: int): (r: Lexeme)
    requires pos <= |src|
    ensures r.pos <= |src| && pos <= r.pos && (r.kind != Eof ==> pos < r.pos)
  {
    var (p, l) := SkipBlanks(src, pos, line);
    if p == |src| then Lexeme(Eof, p, l)
    else if IsDigit(src[p]) then
      var (e, v) := ScanNumber(src, p, 0);
      Lexeme(Num(v), e, l)
    else if IsAlpha(src[p]) then
      var (e, text) := ScanName(src, p, "");
      Lexeme(Keyword(text), e, l)
    else
      var (k, n) := Punctuation(src[p], if p + 1 < |src| then Some(src[p + 1]) else None);
      Lexeme(k, p + n, l)
  }

  predicate Final(k: Kind) { k.Eof? || k.Bad? }

  /** All tokens from `pos` on, up to the end of the text or the first invalid character. */
  function Tokens(src: string, pos: nat, line: int): (ts: seq<Token>)
    requires pos <= |src|
    ensures WfTokens(ts)
    decreases |src| - pos
  {
    var l := Scan(src, pos, line);
    if Final(l.kind) then [Token(l.kind, l.line)]
    else [Token(l.kind, l.line)] + Tokens(src, l.pos, l.line)
  }

  /** A token sequence ends with its only end marker. */
  predicate WfTokens(ts: seq<Token>) {
    |ts| > 0 && forall k :: 0 <= k < |ts| ==> (Final(ts[k].kind) <==> k == |ts| - 1)
  }
}
