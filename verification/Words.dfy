/** 32-bit words, bytes and C integer division.

    A register, a stack word and a C `int` are one thing: a 32-bit pattern. It is represented by its
    signed value, so that arithmetic is arithmetic on `int` followed by `Wrap`. */
module Words {
  const TWO31 := 0x8000_0000
  const TWO32 := 0x1_0000_0000

  type Byte = b: int | 0 <= b < 256
  type U32 = x: int | 0 <= x < 0x1_0000_0000
  type Int32 = x: int | -0x8000_0000 <= x < 0x8000_0000

  datatype Option<+T> = None | Some(value: T)

  /** Two's complement truncation to 32 bits. */
  function Wrap(x: int): (r: Int32) {
    (x + TWO31) % TWO32 - TWO31
  }

  /** The unsigned reading of a 32-bit pattern. */
  function Unsigned(x: Int32): (r: nat)
    ensures r < TWO32
  {
    if x < 0 then x + TWO32 else x
  }

  /** The pattern whose unsigned reading is `a`. */
  function Pattern(a: int): (r: Int32)
    requires 0 <= a < TWO32
    ensures Unsigned(r) == a
  {
    if a < TWO31 then a else a - TWO32
  }

  /** The four bytes of a word, least significant first. */
  function LittleEndian(v: Int32): (s: seq<Byte>)
    ensures |s| == 4
  {
    var u := Unsigned(v);
    var u1 := u / 256;
    var u2 := u1 / 256;
    [u % 256, u1 % 256, u2 % 256, u2 / 256 % 256]
  }

  function FromLittleEndian(b0: Byte, b1: Byte, b2: Byte, b3: Byte): Int32 {
    Pattern(b0 + 0x100 * b1 + 0x1_0000 * b2 + 0x100_0000 * b3)
  }

  lemma LastDigit(u: nat, limit: nat)
    requires u < 256 * limit
    ensures u / 256 < limit && u == u % 256 + 256 * (u / 256)
  {
  }

  lemma Digits(u: nat)
    requires u < TWO32
    ensures var u1 := u / 256; var u2 := u1 / 256; var u3 := u2 / 256;
      u == u % 256 + 0x100 * (u1 % 256) + 0x1_0000 * (u2 % 256) + 0x100_0000 * (u3 % 256)
  {
    LastDigit(u, 0x100_0000);
    LastDigit(u / 256, 0x1_0000);
    LastDigit(u / 256 / 256, 0x100);
    LastDigit(u / 256 / 256 / 256, 1);
  }

  lemma WordBytes(v: Int32)
    ensures var s := LittleEndian(v); FromLittleEndian(s[0], s[1], s[2], s[3]) == v
  {
    var s := LittleEndian(v);
    var u := Unsigned(v);
    var u1 := u / 256;
    var u2 := u1 / 256;
    Digits(u);
    assert s[0] == u % 256 && s[1] == u1 % 256 && s[2] == u2 % 256 && s[3] == u2 / 256 % 256;
  }

  /** An 8-bit displacement as an instruction byte, and back by sign extension. */
  function Byte8(d: int): Byte
    requires -128 <= d < 128
  {
    if d < 0 then d + 256 else d
  }

  function SignExtend8(b: Byte): int {
    if b < 128 then b else b - 256
  }

  function Max(a: nat, b: nat): nat { if a < b then b else a }

  function Abs(x: int): nat { if x < 0 then -x else x }

  /** Integer quotient truncated toward zero, as C99 and `idiv` define it. */
  function Quotient(a: int, b: int): int
    requires b != 0
  {
    var q := Abs(a) / Abs(b);
    if (a < 0) == (b < 0) then q else -q
  }

  function Remainder(a: int, b: int): int
    requires b != 0
  {
    a - Quotient(a, b) * b
  }

  /** Section 6.5.5 of ISO C99: the remainder is smaller than the divisor and takes the sign of the dividend;
      no other quotient has these two properties. */
  lemma TruncatedDivision(a: int, b: int, q: int)
    requires b != 0
    ensures var r := a - q * b;
      q == Quotient(a, b) <==> Abs(r) < Abs(b) && (r == 0 || (r < 0) == (a < 0))
  {
    var x, y := Abs(a) as int, Abs(b) as int;
    var p := if (a < 0) == (b < 0) then q else -q;   // the quotient of the magnitudes
    SignedProduct(q, b);
    assert q * b == if a < 0 then -(p * y) else p * y;
    NaturalDivision(x, y, p);
  }

  lemma SignedProduct(q: int, b: int)
    ensures q * b == if b < 0 then -(q * (-b)) else q * b
    ensures (-q) * b == -(q * b)
    ensures (-q) * (-b) == q * b
  {
  }

  lemma NaturalDivision(x: int, y: int, p: int)
    requires 0 <= x && 0 < y
    ensures p == x / y <==> 0 <= x - p * y < y
  {
    var q, m := x / y, x % y;
    assert x == q * y + m;
    Multiples(q, p, y, m);
  }

  lemma Multiples(q: int, p: int, y: int, m: int)
    requires 0 <= m < y
    ensures p == q <==> 0 <= q * y + m - p * y < y
  {
    if p < q {
      MulOrder(p + 1, q, y);
    } else if p > q {
      MulOrder(q + 1, p, y);
    }
  }

  lemma MulOrder(a: int, b: int, y: int)
    requires a <= b && 0 < y
    ensures (a - 1) * y == a * y - y
    ensures a * y <= b * y
  {
  }
}
