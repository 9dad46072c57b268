/**
 * Go's int64 and decimal integers as text: wrap-around arithmetic (Wrap64),
 * Go's `fmt` verb %d and JavaScript's template interpolation of an integer
 * (FormatInt), and Go's strconv.ParseInt with base 10 and bit size 64
 * (ParseInt64).
 */
module Decimal {
  import opened Wrappers

  const MinInt64: int := -0x8000_0000_0000_0000
  const MaxInt64: int := 0x7FFF_FFFF_FFFF_FFFF

  predicate InInt64(n: int)
  {
    MinInt64 <= n <= MaxInt64
  }

  const TwoTo64: int := 0x1_0000_0000_0000_0000

  /** Go's two's-complement int64 arithmetic: the int64 congruent to `x` modulo 2^64. */
  function Wrap64(x: int): (r: int)
    ensures InInt64(r)
    ensures (r - x) % TwoTo64 == 0
    ensures InInt64(x) ==> r == x
  {
    (x - MinInt64) % TwoTo64 + MinInt64
  }

  /** Wrapping an intermediate result does not change the final wrapped sum. */
  lemma Wrap64Add(a: int, b: int)
    ensures Wrap64(Wrap64(a) + b) == Wrap64(a + b)
  {
    var q := (a - MinInt64) / TwoTo64;
    assert Wrap64(a) == a - q * TwoTo64;
  }

  predicate IsDigit(c: char)
  {
    '0' <= c <= '9'
  }

  predicate AllDigits(s: string)
  {
    forall i :: 0 <= i < |s| ==> IsDigit(s[i])
  }

  function DigitChar(d: nat): (c: char)
    requires d < 10
    ensures IsDigit(c)
  {
    ('0' as int + d) as char
  }

  /** The decimal digits of `n`, most significant first, without leading zeros. */
  function Digits(n: nat): (r: string)
    ensures |r| >= 1 && AllDigits(r)
    ensures r[0] == '0' ==> n == 0
  {
    if n < 10 then [DigitChar(n)] else Digits(n / 10) + [DigitChar(n % 10)]
  }

  /** `%d`: an optional minus sign followed by the digits of the magnitude. */
  function FormatInt(n: int): string
  {
    if n < 0 then "-" + Digits(-n) else Digits(n)
  }

  /** The value of a non-empty run of decimal digits. */
  function DigitsValue(s: string): nat
    requires AllDigits(s)
  {
    if s == [] then 0
    else DigitsValue(s[..|s| - 1]) * 10 + (s[|s| - 1] as int - '0' as int)
  }

  /**
   * strconv.ParseInt(s, 10, 64): an optional sign, then at least one decimal
   * digit and nothing else, and the value must fit in an int64.
   */
  function ParseInt64(s: string): (r: Option<int>)
    ensures r.Some? ==> InInt64(r.value)
    ensures r.Some? ==> s != [] && AllDigits(if s[0] == '+' || s[0] == '-' then s[1..] else s)
  {
    if s == [] then None
    else
      var neg := s[0] == '-';
      var body := if s[0] == '+' || s[0] == '-' then s[1..] else s;
      if body == [] || !AllDigits(body) then None
      else
        var v: int := DigitsValue(body);
        if neg then (if v <= -MinInt64 then Some(-v) else None)
        else (if v <= MaxInt64 then Some(v) else None)
  }

  lemma {:induction false} DigitsValueOfDigits(n: nat)
    ensures DigitsValue(Digits(n)) == n
  {
    if n >= 10 {
      DigitsValueOfDigits(n / 10);
      var d := Digits(n);
      assert d[..|d| - 1] == Digits(n / 10);
    }
  }

  /** A run of digits without a sign parses to its value while that fits. */
  lemma ParseUnsigned(s: string)
    requires s != [] && AllDigits(s)
    ensures ParseInt64(s) == if DigitsValue(s) <= MaxInt64 then Some(DigitsValue(s) as int) else None
  {
    assert IsDigit(s[0]);
  }

  /** A minus sign followed by digits parses to the negated value while that fits. */
  lemma ParseNegative(s: string)
    requires s != [] && AllDigits(s)
    ensures ParseInt64("-" + s) == if DigitsValue(s) <= -MinInt64 then Some(-(DigitsValue(s) as int)) else None
  {
    assert ("-" + s)[1..] == s;
  }

  /** Parsing what %d printed gives the integer back, for every int64. */
  lemma FormatParseRoundTrip(n: int)
    requires InInt64(n)
    ensures ParseInt64(FormatInt(n)) == Some(n)
  {
    if n < 0 {
      DigitsValueOfDigits(-n);
      ParseNegative(Digits(-n));
    } else {
      DigitsValueOfDigits(n);
      ParseUnsigned(Digits(n));
    }
  }
}
