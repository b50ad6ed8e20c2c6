/** String operations of ECMA-262: searching, splitting, trimming and `Number.parseInt`. */
module Strings {
  import opened Common
  import opened Decimal

  // ---------------------------------------------------------------------------
  // Splitting
  // ---------------------------------------------------------------------------

  /** The first position of `c`, or the length when there is none. */
  function IndexOf(s: string, c: char): (i: nat)
    ensures i <= |s| && c !in s[..i] && (i < |s| ==> s[i] == c)
  {
    if s == "" || s[0] == c then 0 else
      assert s == [s[0]] + s[1..];
      assert forall i :: 0 < i <= |s| ==> s[..i] == [s[0]] + s[1..][..i - 1];
      1 + IndexOf(s[1..], c)
  }

  lemma {:induction false} IndexAtMost(s: string, c: char, k: nat)
    requires k < |s| && s[k] == c
    ensures IndexOf(s, c) <= k
  {
    if k > 0 {
      IndexAtMost(s[1..], c, k - 1);
    }
  }

  function Split(s: string, c: char): (parts: seq<string>)
    ensures |parts| > 0
    ensures Join(parts, c) == s
    ensures forall p :: p in parts ==> c !in p
    decreases |s|
  {
    var i := IndexOf(s, c);
    if i == |s| then
      assert s[..i] == s;
      [s]
    else
      assert s == s[..i] + [c] + s[i + 1..];
      [s[..i]] + Split(s[i + 1..], c)
  }

  lemma SplitFirst(front: string, rest: string, c: char)
    requires c !in front
    ensures Split(front + ([c] + rest), c) == [front] + Split(rest, c)
  {
    var s := front + ([c] + rest);
    assert s[|front|] == c;
    IndexAtMost(s, c, |front|);
    forall k | 0 <= k < |front| ensures s[k] in front {
      assert s[k] == front[k];
    }
    assert s[..|front|] == front && s[|front| + 1..] == rest;
  }

  function Join(parts: seq<string>, c: char): string
    requires parts != []
  {
    if |parts| == 1 then parts[0] else parts[0] + [c] + Join(parts[1..], c)
  }

  function SplitPre(v: string): (r: (string, Option<string>))
    ensures v == r.0 + (if r.1.None? then "" else "-" + r.1.value) && '-' !in r.0
  {
    var i := IndexOf(v, '-');
    if i == |v| then
      assert v[..i] == v;
      (v, None)
    else
      assert v == v[..i] + "-" + v[i + 1..];
      (v[..i], Some(v[i + 1..]))
  }

  // ---------------------------------------------------------------------------
  // White space and numbers
  // ---------------------------------------------------------------------------

  /** White space and line terminators of ECMA-262. */
  predicate IsSpace(c: char) {
    || '\t' <= c <= '\r' || c == ' ' || c == '\U{00A0}' || c == '\U{1680}' || '\U{2000}' <= c <= '\U{200A}'
    || c == '\U{2028}' || c == '\U{2029}' || c == '\U{202F}' || c == '\U{205F}' || c == '\U{3000}' || c == '\U{FEFF}'
  }

  function TrimStart(s: string): string {
    if s != "" && IsSpace(s[0]) then TrimStart(s[1..]) else s
  }

  function Trim(s: string): string {
    TrimEnd(TrimStart(s))
  }

  function TrimEnd(s: string): string {
    if s != "" && IsSpace(s[|s| - 1]) then TrimEnd(s[..|s| - 1]) else s
  }

  /** `Number.parseInt(s, 10)`; `None` is NaN. */
  function ParseInt(s: string): Option<int> {
    var t := TrimStart(s);
    var signed := t != "" && (t[0] == '-' || t[0] == '+');
    var digits := DigitPrefix(if signed then t[1..] else t);
    if digits == "" then None
    else
      var value: int := Value(digits);
      Some(if signed && t[0] == '-' then -value else value)
  }

  lemma {:induction false} ParseDigits(s: string)
    requires AllDigits(s)
    ensures ParseInt(s) == Some(Value(s))
  {
    DigitsAll(s);
    assert s[0] in s;
  }
}
