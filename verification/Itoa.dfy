/** The decimal printer of the proxy addresses: it fills a buffer of twenty
    bytes from its end. */
module Itoa {
  import opened Decimal

  lemma TwentyIsEnough(n: nat)
    requires n <= MAX_INT
    ensures |Print(n)| <= 19
  {
    assert Pow10(4) == 10000 && Pow10(8) == Pow10(4) * 10000 && Pow10(12) == Pow10(8) * 10000;
    assert Pow10(16) == Pow10(12) * 10000 && Pow10(19) == Pow10(16) * 1000;
    PrintIsShort(n, 19);
  }

  /** Writes the digits of a positive number backwards from the end. */
  method FillDigits(buf: array<char>, n: nat) returns (bp: nat)
    requires buf.Length == 20 && 0 < n <= MAX_INT
    modifies buf
    ensures 1 <= bp <= 20 && buf[bp..] == Print(n)
  {
    TwentyIsEnough(n);
    bp := buf.Length;
    var i := n;
    while i > 0
      invariant 1 <= bp <= 20
      invariant |Print(n)| <= 19
      invariant Print(n) == (if i > 0 then Print(i) else "") + buf[bp..]
    {
      ghost var tail := buf[bp..];
      assert Print(i) == (if i >= 10 then Print(i / 10) else "") + [Digit(i % 10)];
      bp := bp - 1;
      buf[bp] := (i % 10 + '0' as int) as char;
      assert buf[bp..] == [Digit(i % 10)] + tail;
      i := i / 10;
    }
  }

  /** Prints every integer but the smallest, whose negation is itself. The
      numeral is never longer than the buffer. */
  method Itoa(n: int) returns (s: string)
    requires MIN_INT <= n <= MAX_INT
    ensures s == if n == MIN_INT then "-" else FormatInt(n)
  {
    if n == 0 {
      return "0";
    }
    var i := n;
    var neg := i < 0;
    if neg {
      i := Wrap64(-i);
    }
    var buf := new char[20];
    var bp := buf.Length;
    if i > 0 {
      bp := FillDigits(buf, i);
    }
    if neg {
      ghost var digits := buf[bp..];
      bp := bp - 1;
      buf[bp] := '-';
      assert buf[bp..] == "-" + digits;
    }
    s := buf[bp..];
  }

  /** For every integer but the smallest the printed numeral reads back as the
      integer, with no leading zero; the smallest one prints as no numeral. */
  lemma ItoaReadsBack(n: int)
    requires MIN_INT <= n <= MAX_INT
    ensures var s := if n == MIN_INT then "-" else FormatInt(n);
      && (Atoi(s) == Wrappers.Some(n) <==> n != MIN_INT)
      && (n > 0 ==> s[0] != '0') && (MIN_INT < n < 0 ==> |s| > 1 && s[1] != '0')
  {
    FormatThenAtoi(n);
    PrintThenValue(if n < 0 then -n else n);
  }
}
