/** Decimal rendering of integers, as Kotlin's string templates (`"$n"`, i.e.
    `Int.toString()`) produce it: an optional '-' followed by the digits of the
    magnitude, most significant first, with no leading zeros. A parser is the
    partner that shows the rendering loses no information. */
module Decimal {
  import opened Wrappers

  predicate IsDigit(c: char) {
    '0' <= c <= '9'
  }

  predicate AllDigits(s: string) {
    forall i :: 0 <= i < |s| ==> IsDigit(s[i])
  }

  /** A canonical digit string: non-empty, and no leading zero unless it is "0". */
  predicate Canonical(s: string) {
    && |s| >= 1
    && AllDigits(s)
    && (|s| > 1 ==> s[0] != '0')
  }

  function DigitChar(d: int): (c: char)
    requires 0 <= d < 10
    ensures IsDigit(c)
    ensures DigitValue(c) == d
  {
    "0123456789"[d]
  }

  function DigitValue(c: char): (d: nat)
    requires IsDigit(c)
    ensures d < 10
  {
    (c - '0') as nat
  }

  /** The digits of a natural number, most significant first. */
  function NatToDecimal(n: nat): (s: string)
    ensures Canonical(s)
    ensures n == 0 <==> s == "0"
    decreases n
  {
    if n < 10 then [DigitChar(n)] else NatToDecimal(n / 10) + [DigitChar(n % 10)]
  }

  /** The number a string of digits denotes. */
  function DecimalValue(s: string): nat
    requires AllDigits(s)
    decreases |s|
  {
    if |s| == 0 then 0 else DecimalValue(s[..|s| - 1]) * 10 + DigitValue(s[|s| - 1])
  }

  lemma {:induction false} NatRoundTrip(n: nat)
    ensures DecimalValue(NatToDecimal(n)) == n
    decreases n
  {
    if n >= 10 {
      var s := NatToDecimal(n);
      assert s[..|s| - 1] == NatToDecimal(n / 10);
      NatRoundTrip(n / 10);
    }
  }

  /** The other direction: every canonical digit string is the rendering of its value. */
  lemma {:induction false} CanonicalRoundTrip(s: string)
    requires Canonical(s)
    ensures NatToDecimal(DecimalValue(s)) == s
    decreases |s|
  {
    if |s| == 1 {
      assert DecimalValue(s) == DigitValue(s[0]);
    } else {
      var p := s[..|s| - 1];
      assert p[0] == s[0];
      assert Canonical(p);
      CanonicalRoundTrip(p);
      LeadingDigitPositive(p);
      var v := DecimalValue(s);
      assert v / 10 == DecimalValue(p) && v % 10 == DigitValue(s[|s| - 1]);
      assert s == p + [s[|s| - 1]];
    }
  }

  /** A canonical string longer than one digit denotes a number of at least 10. */
  lemma {:induction false} LeadingDigitPositive(s: string)
    requires Canonical(s)
    ensures |s| > 1 ==> DecimalValue(s) >= 10
    ensures DecimalValue(s) > 0 || s == "0"
    decreases |s|
  {
    if |s| > 1 {
      var p := s[..|s| - 1];
      assert p[0] == s[0];
      LeadingDigitPositive(p);
    } else {
      assert DecimalValue(s) == DigitValue(s[0]);
      if DigitValue(s[0]) == 0 {
        assert s[0] == '0';
        assert s == "0";
      }
    }
  }

  /** Kotlin's `Int.toString()`. */
  function IntToDecimal(n: int): (s: string)
    ensures |s| >= 1
    ensures n >= 0 ==> Canonical(s)
    ensures n < 0 ==> s[0] == '-' && Canonical(s[1..]) && s[1..] != "0"
  {
    if n < 0 then "-" + NatToDecimal(-n) else NatToDecimal(n)
  }

  /** Reads back what `IntToDecimal` writes; `None` for anything it never writes. */
  function ParseInt(s: string): (r: Option<int>)
    ensures r.Some? ==> |s| >= 1 && (s[0] == '-' <==> r.value < 0)
  {
    if |s| >= 1 && s[0] == '-' then
      var m := s[1..];
      if Canonical(m) && m != "0" then
        (LeadingDigitPositive(m); Some(-(DecimalValue(m) as int)))
      else None
    else if Canonical(s) then Some(DecimalValue(s))
    else None
  }

  /** A '-' in front of canonical digits other than "0" parses as the negated value. */
  lemma ParseNegative(m: string)
    requires Canonical(m) && m != "0"
    ensures ParseInt("-" + m) == Some(-(DecimalValue(m) as int))
  {
    assert ("-" + m)[0] == '-' && ("-" + m)[1..] == m;
  }

  /** Canonical digits on their own parse as their value. */
  lemma ParseNonNegative(m: string)
    requires Canonical(m)
    ensures ParseInt(m) == Some(DecimalValue(m) as int)
  {
    assert IsDigit(m[0]);
  }

  lemma IntRoundTrip(n: int)
    ensures ParseInt(IntToDecimal(n)) == Some(n)
  {
    var m := NatToDecimal(if n < 0 then -n else n);
    NatRoundTrip(if n < 0 then -n else n);
    if n < 0 {
      assert IntToDecimal(n) == "-" + m;
      ParseNegative(m);
    } else {
      assert IntToDecimal(n) == m;
      ParseNonNegative(m);
    }
  }

  /** The converse round trip: every string the parser accepts is rendered back unchanged. */
  lemma ParseRoundTrip(s: string)
    requires ParseInt(s).Some?
    ensures IntToDecimal(ParseInt(s).value) == s
  {
    if |s| >= 1 && s[0] == '-' {
      var m := s[1..];
      assert s == "-" + m;
      CanonicalRoundTrip(m);
      ParseNegative(m);
    } else {
      CanonicalRoundTrip(s);
      ParseNonNegative(s);
    }
  }

  /** Distinct integers are rendered as distinct strings. */
  lemma IntToDecimalInjective(a: int, b: int)
    ensures IntToDecimal(a) == IntToDecimal(b) ==> a == b
  {
    IntRoundTrip(a);
    IntRoundTrip(b);
  }
}
