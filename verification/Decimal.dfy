/** Decimal numerals: printing, reading back, 64-bit integers, and truncation. */
module Decimal {
  import opened Wrappers

  const MAX_INT: int := 0x7fff_ffff_ffff_ffff
  const MIN_INT: int := -0x8000_0000_0000_0000

  /** The integer a 64-bit register holds after an operation with result x. */
  function Wrap64(x: int): int {
    (x - MIN_INT) % 0x1_0000_0000_0000_0000 + MIN_INT
  }

  /** Conversion of a floating-point number to an integer: towards zero. */
  function Truncate(x: real): int {
    if x >= 0.0 then x.Floor else -(-x).Floor
  }

  lemma WrapKeeps(x: int)
    requires MIN_INT <= x <= MAX_INT
    ensures Wrap64(x) == x
  {
  }

  const TWO_64: int := 0x1_0000_0000_0000_0000

  /** Wrapped results agree exactly when the results differ by a multiple of 2^64. */
  lemma WrapsAgree(x: int, y: int)
    ensures Wrap64(x) == Wrap64(y) <==> (x - y) % TWO_64 == 0
  {
    var (a, b) := (x - MIN_INT, y - MIN_INT);
    assert a == a / TWO_64 * TWO_64 + a % TWO_64;
    assert b == b / TWO_64 * TWO_64 + b % TWO_64;
    assert x - y == (a / TWO_64 - b / TWO_64) * TWO_64 + (a % TWO_64 - b % TWO_64);
  }

  predicate IsDigit(c: char) {
    '0' <= c <= '9'
  }

  function Digit(d: nat): char
    requires d < 10
  {
    (d + '0' as int) as char
  }

  function Print(n: nat): string {
    if n < 10 then [Digit(n)] else Print(n / 10) + [Digit(n % 10)]
  }

  predicate AllDigits(s: string) {
    forall i :: 0 <= i < |s| ==> IsDigit(s[i])
  }

  function Value(s: string): nat
    requires AllDigits(s)
  {
    if s == "" then 0 else Value(s[..|s| - 1]) * 10 + (s[|s| - 1] as int - '0' as int)
  }

  /** A printed number is made of digits, has no leading zero but for zero
      itself, and reads back as the number. */
  lemma {:induction false} PrintThenValue(n: nat)
    ensures |Print(n)| >= 1 && AllDigits(Print(n)) && Value(Print(n)) == n
    ensures n > 0 ==> Print(n)[0] != '0'
  {
    if n < 10 {
      assert Print(n)[..0] == "";
    } else {
      PrintThenValue(n / 10);
      assert Print(n)[..|Print(n)| - 1] == Print(n / 10);
    }
  }

  lemma PrintInjective(m: nat, n: nat)
    requires Print(m) == Print(n)
    ensures m == n
  {
    PrintThenValue(m);
    PrintThenValue(n);
  }

  function Pow10(k: nat): nat {
    if k == 0 then 1 else 10 * Pow10(k - 1)
  }

  lemma {:induction false} PrintIsShort(n: nat, k: nat)
    requires k >= 1 && n < Pow10(k)
    ensures |Print(n)| <= k
    decreases k
  {
    if n >= 10 {
      assert Pow10(1) == 10;
      PrintIsShort(n / 10, k - 1);
    }
  }

  function FormatInt(i: int): string {
    if i < 0 then "-" + Print(-i) else Print(i)
  }

  /** Reading an optional sign and at least one digit, within 64 bits. */
  function Atoi(s: string): Option<int> {
    var signed := s != "" && (s[0] == '-' || s[0] == '+');
    var digits := if signed then s[1..] else s;
    if digits == "" || !AllDigits(digits) then None
    else
      var v: int := if signed && s[0] == '-' then 0 - Value(digits) else Value(digits);
      if MIN_INT <= v <= MAX_INT then Some(v) else None
  }

  lemma FormatThenAtoi(i: int)
    requires MIN_INT <= i <= MAX_INT
    ensures Atoi(FormatInt(i)) == Some(i)
  {
    PrintThenValue(if i < 0 then -i else i);
    if i < 0 {
      assert FormatInt(i)[1..] == Print(-i);
    }
  }
}
