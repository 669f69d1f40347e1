/** Decimal rendering of integers, as `long.ToString()` produces it under the
    invariant culture (negative sign `-`), together with a parser that inverts it. */
module Decimal {
  import opened Wrappers

  predicate IsDigit(c: char)
  {
    '0' <= c <= '9'
  }

  function DigitChar(d: nat): (c: char)
    requires d < 10
    ensures IsDigit(c)
  {
    "0123456789"[d]
  }

  function DigitValue(c: char): (d: nat)
    requires IsDigit(c)
    ensures d < 10
  {
    (c as int) - ('0' as int)
  }

  lemma DigitValueOfChar(d: nat)
    requires d < 10
    ensures DigitValue(DigitChar(d)) == d
  {
  }

  lemma DigitCharOfValue(c: char)
    requires IsDigit(c)
    ensures DigitChar(DigitValue(c)) == c
  {
  }

  predicate AllDigits(s: string)
  {
    forall i :: 0 <= i < |s| ==> IsDigit(s[i])
  }

  /** Shortest decimal rendering of a natural number: no leading zeros. */
  function NatToString(n: nat): (s: string)
    ensures |s| >= 1 && AllDigits(s)
    ensures |s| > 1 ==> s[0] != '0'
    ensures n == 0 <==> s == "0"
  {
    if n < 10 then [DigitChar(n)]
    else NatToString(n / 10) + [DigitChar(n % 10)]
  }

  /** The digit run of a canonical rendering: non-empty, no leading zero. */
  predicate CanonicalDigits(s: string)
  {
    |s| >= 1 && AllDigits(s) && (|s| > 1 ==> s[0] != '0')
  }

  /** The shape of every string `long.ToString()` produces: an optional minus
      sign before a digit run without leading zeros, and never `-0`. */
  predicate Canonical(s: string)
  {
    if |s| >= 1 && s[0] == '-' then CanonicalDigits(s[1..]) && s[1] != '0'
    else CanonicalDigits(s)
  }

  /** Rendering of a signed integer: a minus sign before the magnitude. */
  function IntToString(x: int): (s: string)
    ensures Canonical(s)
  {
    if x < 0 then "-" + NatToString(-x) else NatToString(x)
  }

  /** Value of a non-empty string of digits. */
  function ParseNat(s: string): nat
    requires |s| >= 1 && AllDigits(s)
  {
    if |s| == 1 then DigitValue(s[0])
    else 10 * ParseNat(s[..|s| - 1]) + DigitValue(s[|s| - 1])
  }

  /** Value of an optionally negative decimal string; `None` when malformed. */
  function ParseInt(s: string): Option<int>
  {
    if |s| >= 2 && s[0] == '-' && AllDigits(s[1..]) then Some(0 - ParseNat(s[1..]) as int)
    else if |s| >= 1 && AllDigits(s) then Some(ParseNat(s))
    else None
  }

  lemma {:induction false} NatRoundTrip(n: nat)
    ensures ParseNat(NatToString(n)) == n
  {
    if n < 10 {
      DigitValueOfChar(n);
    } else {
      var s := NatToString(n);
      assert s[..|s| - 1] == NatToString(n / 10);
      NatRoundTrip(n / 10);
      DigitValueOfChar(n % 10);
    }
  }

  /** The rendering is read back as the integer it renders. */
  lemma {:induction false} IntRoundTrip(x: int)
    ensures ParseInt(IntToString(x)) == Some(x)
  {
    var s := IntToString(x);
    if x < 0 {
      var m := NatToString(-x);
      assert s == "-" + m && s[1..] == m;
      NatRoundTrip(-x);
    } else {
      assert s == NatToString(x);
      assert IsDigit(s[0]);
      NatRoundTrip(x);
    }
  }

  /** Distinct integers render as distinct strings. */
  lemma IntToStringInjective(x: int, y: int)
    ensures IntToString(x) == IntToString(y) <==> x == y
  {
    IntRoundTrip(x);
    IntRoundTrip(y);
  }

  lemma {:induction false} ParseNatPositive(s: string)
    requires CanonicalDigits(s) && s[0] != '0'
    ensures ParseNat(s) >= 1
    decreases |s|
  {
    if |s| > 1 {
      var prefix := s[..|s| - 1];
      assert prefix[0] == s[0];
      ParseNatPositive(prefix);
    }
  }

  /** A digit run without leading zeros is the rendering of its own value. */
  lemma {:induction false} CanonicalDigitsAreRendering(s: string)
    requires CanonicalDigits(s)
    ensures NatToString(ParseNat(s)) == s
    decreases |s|
  {
    if |s| == 1 {
      DigitCharOfValue(s[0]);
    } else {
      var prefix := s[..|s| - 1];
      assert prefix[0] == s[0];
      ParseNatPositive(prefix);
      CanonicalDigitsAreRendering(prefix);
      var n := ParseNat(s);
      assert n / 10 == ParseNat(prefix) && n % 10 == DigitValue(s[|s| - 1]);
      DigitCharOfValue(s[|s| - 1]);
      assert s == prefix + [s[|s| - 1]];
    }
  }

  /** Every canonical string is the rendering of the integer it parses to. */
  lemma CanonicalIsRendering(s: string)
    requires Canonical(s)
    ensures ParseInt(s).Some? && IntToString(ParseInt(s).value) == s
  {
    if |s| >= 1 && s[0] == '-' {
      var digits := s[1..];
      assert digits[0] == s[1];
      ParseNatPositive(digits);
      CanonicalDigitsAreRendering(digits);
      assert s == "-" + digits;
    } else {
      CanonicalDigitsAreRendering(s);
    }
  }

  /** A canonical string is determined by its value: two canonical strings that
      parse to the same integer are the same string. */
  lemma CanonicalDetermined(s: string, t: string)
    requires Canonical(s) && Canonical(t)
    ensures ParseInt(s) == ParseInt(t) <==> s == t
  {
    CanonicalIsRendering(s);
    CanonicalIsRendering(t);
  }
}
