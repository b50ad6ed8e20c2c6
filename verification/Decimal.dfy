/** Decimal numbers as text. */
module Decimal {

  function Pow10(w: nat): nat { if w == 0 then 1 else 10 * Pow10(w - 1) }

  predicate IsDigit(c: char) { '0' <= c <= '9' }

  /** `/^\d+$/`. */
  predicate AllDigits(s: string) {
    s != "" && forall c :: c in s ==> IsDigit(c)
  }

  function DigitChar(d: int): char
    requires 0 <= d < 10
  {
    ['0', '1', '2', '3', '4', '5', '6', '7', '8', '9'][d]
  }

  function DigitValue(c: char): (d: int)
    requires IsDigit(c)
    ensures 0 <= d < 10
  {
    c as int - '0' as int
  }

  /** `n` in decimal, padded with zeros to width `w`. */
  function Digits(n: int, w: nat): (s: string)
    requires 0 <= n < Pow10(w)
    ensures |s| == w && forall c :: c in s ==> IsDigit(c)
  {
    if w == 0 then "" else Digits(n / 10, w - 1) + [DigitChar(n % 10)]
  }

  function Value(s: string): (n: nat)
    requires forall c :: c in s ==> IsDigit(c)
  {
    if s == "" then 0
    else
      assert s[|s| - 1] in s;
      10 * Value(s[..|s| - 1]) + DigitValue(s[|s| - 1])
  }

  lemma {:induction false} DigitsValue(n: int, w: nat)
    requires 0 <= n < Pow10(w)
    ensures Value(Digits(n, w)) == n
  {
    if w > 0 {
      DigitsValue(n / 10, w - 1);
      assert Digits(n, w)[..w - 1] == Digits(n / 10, w - 1);
    }
  }

  /** `String(n)`. */
  function ToString(n: nat): (s: string)
    ensures AllDigits(s) && Value(s) == n
  {
    if n < 10 then
      DigitOf(n);
      assert Value([DigitChar(n)]) == n by { assert [DigitChar(n)][..0] == ""; }
      [DigitChar(n)]
    else
      var before, d := ToString(n / 10), DigitChar(n % 10);
      DigitOf(n % 10);
      assert (before + [d])[..|before|] == before;
      before + [d]
  }

  lemma {:induction false} LengthBound(n: nat, w: nat)
    requires 1 <= w && n < Pow10(w)
    ensures |ToString(n)| <= w
  {
    if n >= 10 {
      assert Pow10(w) == 10 * Pow10(w - 1);
      assert w > 1 by { assert Pow10(0) == 1; }
      LengthBound(n / 10, w - 1);
    }
  }

  lemma DigitOf(d: int)
    requires 0 <= d < 10
    ensures IsDigit(DigitChar(d)) && DigitValue(DigitChar(d)) == d
  {
  }

  function DigitPrefix(s: string): (d: string)
    ensures forall c :: c in d ==> IsDigit(c)
  {
    if s == "" || !IsDigit(s[0]) then "" else [s[0]] + DigitPrefix(s[1..])
  }

  lemma {:induction false} DigitsAll(s: string)
    requires forall c :: c in s ==> IsDigit(c)
    ensures DigitPrefix(s) == s
  {
    if s != "" {
      assert s[0] in s && s == [s[0]] + s[1..];
      DigitsAll(s[1..]);
    }
  }

  // ---------------------------------------------------------------------------
  // Leading zeros
  // ---------------------------------------------------------------------------

  function StripZeros(s: string): string {
    if |s| > 1 && s[0] == '0' then StripZeros(s[1..]) else s
  }

  lemma {:induction false} ZeroInFront(s: string)
    requires forall c :: c in s ==> IsDigit(c)
    ensures Value("0" + s) == Value(s)
  {
    if s != "" {
      var t := "0" + s;
      assert t[..|t| - 1] == "0" + s[..|s| - 1] && t[|t| - 1] == s[|s| - 1];
      ZeroInFront(s[..|s| - 1]);
    }
  }

  lemma {:induction false} StripKeepsValue(s: string)
    requires AllDigits(s)
    ensures AllDigits(StripZeros(s)) && Value(StripZeros(s)) == Value(s)
    ensures |StripZeros(s)| > 1 ==> StripZeros(s)[0] != '0'
  {
    if |s| > 1 && s[0] == '0' {
      assert s == "0" + s[1..];
      ZeroInFront(s[1..]);
      StripKeepsValue(s[1..]);
    }
  }

  lemma {:induction false} NoLeadingZero(s: string)
    requires AllDigits(s) && s[0] != '0'
    ensures Value(s) > 0
  {
    if |s| > 1 {
      assert s[..|s| - 1][0] == s[0];
      NoLeadingZero(s[..|s| - 1]);
    } else {
      assert s[..|s| - 1] == "" && Value(s) == DigitValue(s[0]);
    }
  }

  /** A number is written in one way without leading zeros. */
  lemma {:induction false} ValueInjective(s: string, t: string)
    requires AllDigits(s) && AllDigits(t) && Value(s) == Value(t)
    requires (|s| > 1 ==> s[0] != '0') && (|t| > 1 ==> t[0] != '0')
    ensures s == t
    decreases |s|
  {
    var s', t' := s[..|s| - 1], t[..|t| - 1];
    assert s == s' + [s[|s| - 1]] && t == t' + [t[|t| - 1]];
    var d, e := DigitValue(s[|s| - 1]), DigitValue(t[|t| - 1]);
    assert 10 * Value(s') + d == 10 * Value(t') + e;
    assert d == e && Value(s') == Value(t');
    if s' == "" || t' == "" {
      if t' != "" { NoLeadingZero(t'); }
      if s' != "" { NoLeadingZero(s'); }
    } else {
      ValueInjective(s', t');
    }
  }

  lemma ValueUpToZeros(s: string, t: string)
    requires AllDigits(s) && AllDigits(t)
    ensures Value(s) == Value(t) <==> StripZeros(s) == StripZeros(t)
  {
    StripKeepsValue(s);
    StripKeepsValue(t);
    if Value(s) == Value(t) {
      ValueInjective(StripZeros(s), StripZeros(t));
    }
  }
}
