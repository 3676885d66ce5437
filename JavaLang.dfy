/**
 * The parts of the Java platform the primitive types lean on, written out:
 * fixed-width integers, Integer.compare and Integer.signum, truncating
 * division, String.compareTo, String.split on ".", Integer.parseInt and the
 * decimal form of a non-negative int.
 */
module JavaLang {
  import opened Errors

  const MinInt: int := -0x8000_0000
  const MaxInt: int := 0x7fff_ffff

  /** Java's `int`. */
  type int32 = x: int | -0x8000_0000 <= x < 0x8000_0000

  /** Java's signed `byte`. */
  type int8 = x: int | -128 <= x < 128

  /** Integer.compare: -1, 0 or 1 as x is below, equal to or above y. */
  function IntegerCompare(x: int, y: int): (r: int)
    ensures r == -1 <==> x < y
    ensures r == 0 <==> x == y
    ensures r == 1 <==> x > y
  {
    if x < y then -1 else if x == y then 0 else 1
  }

  /** Integer.signum. */
  function Signum(x: int): (r: int)
    ensures r == IntegerCompare(x, 0)
  {
    if x < 0 then -1 else if x == 0 then 0 else 1
  }

  /** Two's-complement wrap-around of an int expression that left the 32-bit range. */
  function Wrap(x: int): (r: int32)
    ensures (r - x) % 0x1_0000_0000 == 0
    ensures MinInt <= x <= MaxInt ==> r == x
  {
    var m := x % 0x1_0000_0000;
    if m < 0x8000_0000 then m else m - 0x1_0000_0000
  }

  /** Java's `x / y` for a positive divisor: rounds toward zero. */
  function Quotient(x: int, y: int): (q: int)
    requires y > 0
    ensures x >= 0 ==> q == x / y
    ensures x < 0 ==> q == -((-x) / y)
  {
    if x >= 0 then x / y else -((-x) / y)
  }

  /** Java's `x % y` for a positive divisor: has the sign of x. */
  function Remainder(x: int, y: int): (m: int)
    requires y > 0
    ensures x == y * Quotient(x, y) + m
    ensures x >= 0 ==> 0 <= m < y
    ensures x < 0 ==> -y < m <= 0
  {
    x - y * Quotient(x, y)
  }

  /** String.compareTo: the difference of the first differing chars, else of the lengths. */
  function StringCompareTo(a: string, b: string): int
  {
    if a == [] || b == [] then |a| - |b|
    else if a[0] != b[0] then a[0] as int - b[0] as int
    else StringCompareTo(a[1..], b[1..])
  }

  /** The char codes of a string, in order. */
  function Codes(s: string): (r: seq<int>)
    ensures |r| == |s|
    ensures forall i :: 0 <= i < |s| ==> r[i] == s[i] as int
  {
    seq(|s|, i requires 0 <= i < |s| => s[i] as int)
  }

  // ---------------------------------------------------------------------
  // String.split("\\.")

  /** Every piece of s between '.' separators, empty ones included. */
  function Pieces(s: string): (r: seq<string>)
    ensures |r| >= 1
  {
    if s == [] then [""]
    else
      var rest := Pieces(s[1..]);
      if s[0] == '.' then [""] + rest else [[s[0]] + rest[0]] + rest[1..]
  }

  /** Drops the empty strings at the end of a list of pieces. */
  function DropTrailingEmpty(pieces: seq<string>): (r: seq<string>)
    ensures |r| <= |pieces| && r == pieces[..|r|]
    ensures r != [] ==> r[|r| - 1] != ""
    ensures forall i :: |r| <= i < |pieces| ==> pieces[i] == ""
  {
    if pieces != [] && pieces[|pieces| - 1] == "" then DropTrailingEmpty(pieces[..|pieces| - 1])
    else pieces
  }

  /**
   * String.split("\\."): a string without any '.' gives itself as the only piece;
   * otherwise the pieces between the dots, with trailing empty pieces removed.
   */
  function Split(s: string): seq<string>
  {
    if '.' !in s then [s] else DropTrailingEmpty(Pieces(s))
  }

  lemma {:induction false} PiecesWithoutDot(s: string)
    requires '.' !in s
    ensures Pieces(s) == [s]
  {
    if s != [] {
      PiecesWithoutDot(s[1..]);
      assert [s[0]] + s[1..] == s;
    }
  }

  lemma {:induction false} PiecesAfterDot(x: string, y: string)
    requires '.' !in x
    ensures Pieces(x + "." + y) == [x] + Pieces(y)
  {
    var s := x + "." + y;
    if x == [] {
      assert s[0] == '.' && s[1..] == y;
    } else {
      assert s[0] == x[0] && s[1..] == x[1..] + "." + y;
      PiecesAfterDot(x[1..], y);
      assert [x[0]] + x[1..] == x;
    }
  }

  // ---------------------------------------------------------------------
  // Decimal digits: Integer.parseInt and Integer.toString

  predicate IsDigit(c: char) { '0' <= c <= '9' }

  predicate AllDigits(s: string) { forall i | 0 <= i < |s| :: IsDigit(s[i]) }

  function DigitsValue(s: string): nat
    requires AllDigits(s)
  {
    if s == [] then 0 else DigitsValue(s[..|s| - 1]) * 10 + (s[|s| - 1] as int - '0' as int)
  }

  /** The decimal form of n, most significant digit first, without leading zeros. */
  function Decimal(n: nat): (s: string)
    ensures |s| >= 1 && AllDigits(s)
    ensures DigitsValue(s) == n
    ensures '.' !in s
  {
    var last := ['0' + (n % 10) as char];
    if n < 10 then last
    else
      var front := Decimal(n / 10);
      assert (front + last)[..|front + last| - 1] == front;
      front + last
  }

  /**
   * Integer.parseInt: an optional '+' or '-', then at least one ASCII digit;
   * a value outside the int range is rejected.
   */
  function ParseInt(s: string): (r: Result<int32>)
    ensures r.Failure? ==> r.error == NumberFormat
  {
    var signed := |s| > 0 && (s[0] == '-' || s[0] == '+');
    var digits := if signed then s[1..] else s;
    if digits == [] || !AllDigits(digits) then Failure(NumberFormat)
    else
      var magnitude: int := DigitsValue(digits);
      var value: int := if s[0] == '-' then -magnitude else magnitude;
      if MinInt <= value <= MaxInt then Success(value) else Failure(NumberFormat)
  }

  /** Integer.parseInt reads back what Integer.toString writes, for every non-negative int. */
  lemma ParseIntDecimal(n: nat)
    requires n <= MaxInt
    ensures ParseInt(Decimal(n)) == Success(n)
  {
    var s := Decimal(n);
    assert IsDigit(s[0]);
  }
}
