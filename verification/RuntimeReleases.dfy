/**
 Which runtime release a client is offered (apps/desktop/src/runtime-releases.ts).

 The comparison is proved to be the precedence of Semantic Versioning 2.0.0, section 11, on the
 accepted grammar, and the resolver to return a greatest offered version.
 */
module RuntimeReleases {
  import opened Common
  import opened Decimal
  import opened Precedence
  import opened Strings
  import Sorting

  /** What a comparator returns; NaN when a part of a malformed version is no number. */
  datatype Comparison = NaN | Num(value: int)

  datatype Channel = Stable | Test | Dev

  // ---------------------------------------------------------------------------
  // The grammar
  // ---------------------------------------------------------------------------

  predicate PreChar(c: char) {
    IsDigit(c) || 'a' <= c <= 'z' || 'A' <= c <= 'Z' || c == '.' || c == '-'
  }

  /** `/^\d+\.\d+\.\d+(-[A-Za-z0-9.-]+)?$/`. */
  predicate Wellformed(v: string) {
    var (main, pre) := SplitPre(v);
    var parts := Split(main, '.');
    && |parts| == 3 && (forall p :: p in parts ==> AllDigits(p))
    && (pre.Some? ==> pre.value != "" && forall c :: c in pre.value ==> PreChar(c))
  }

  /** Three numbers and, behind a dash, a pre-release part if there is one. */
  predicate Reads(v: string, x: string, y: string, z: string, pre: Option<string>) {
    && AllDigits(x) && AllDigits(y) && AllDigits(z)
    && v == x + ("." + (y + ("." + z))) + (if pre.None? then "" else "-" + pre.value)
    && (pre.Some? ==> pre.value != "")
    && (pre.Some? ==> forall c :: c in pre.value ==> IsDigit(c) || 'a' <= c <= 'z' || 'A' <= c <= 'Z' || c == '.' || c == '-')
  }

  /** A version is accepted exactly when it can be read so. */
  lemma WellformedIff(v: string)
    ensures Wellformed(v) <==> exists x, y, z, pre :: Reads(v, x, y, z, pre)
  {
    if Wellformed(v) {
      var (main, pre) := SplitPre(v);
      var parts := Split(main, '.');
      JoinThree(parts);
      assert AllDigits(parts[0]) && AllDigits(parts[1]) && AllDigits(parts[2]);
      assert Reads(v, parts[0], parts[1], parts[2], pre);
    }
    if x, y, z, pre :| Reads(v, x, y, z, pre) {
      var main := x + ("." + (y + ("." + z)));
      assert v == main + (if pre.None? then "" else "-" + pre.value);
      NumbersSplit(x, y, z);
      assert '-' !in x && '-' !in y && '-' !in z;
      NoDash(x, y, z);
      MainPart(v, main, pre);
    }
  }

  lemma JoinThree(parts: seq<string>)
    requires |parts| == 3
    ensures Join(parts, '.') == parts[0] + ("." + (parts[1] + ("." + parts[2])))
  {
    var rest := parts[1..];
    assert |rest| == 2 && rest[0] == parts[1] && rest[1..] == [parts[2]];
    assert Join(rest, '.') == parts[1] + "." + parts[2];
    assert Join(parts, '.') == parts[0] + "." + Join(rest, '.');
  }

  lemma NumbersSplit(x: string, y: string, z: string)
    requires AllDigits(x) && AllDigits(y) && AllDigits(z)
    ensures Split(x + ("." + (y + ("." + z))), '.') == [x, y, z]
  {
    assert '.' !in x && '.' !in y && '.' !in z;
    SplitFirst(x, y + ("." + z), '.');
    SplitFirst(y, z, '.');
    SplitWhole(z, '.');
    assert [x] + ([y] + [z]) == [x, y, z];
  }

  lemma NoDash(x: string, y: string, z: string)
    requires '-' !in x && '-' !in y && '-' !in z
    ensures '-' !in x + ("." + (y + ("." + z)))
  {
    var right := y + ("." + z);
    assert '-' !in right;
    assert '-' !in "." + right;
  }

  lemma SplitWhole(s: string, c: char)
    requires c !in s
    ensures Split(s, c) == [s]
  {
    assert IndexOf(s, c) == |s|;
  }

  lemma MainPart(v: string, main: string, pre: Option<string>)
    requires '-' !in main && v == main + (if pre.None? then "" else "-" + pre.value)
    ensures SplitPre(v) == (main, pre)
  {
    if pre.Some? {
      Regroup(main, pre.value);
      SplitAtDash(main, pre.value);
    } else {
      assert v == main && IndexOf(v, '-') == |v|;
    }
  }

  function SomeTag(): (v: string)
    ensures Wellformed(v) && v == "0.0.0"
  {
    var v := "0.0.0";
    assert Reads(v, "0", "0", "0", None) by {
      assert v == "0" + ("." + ("0" + ("." + "0"))) + "";
    }
    WellformedIff(v);
    v
  }

  type Tag = v: string | Wellformed(v) witness SomeTag()

  // ---------------------------------------------------------------------------
  // The comparators
  // ---------------------------------------------------------------------------

  function Part(parts: seq<string>, i: nat): Option<int> {
    if i < |parts| then ParseInt(parts[i]) else Some(0)
  }

  function TripleFrom(a: seq<string>, b: seq<string>, i: nat): Comparison
    requires i <= 3
    decreases 3 - i
  {
    if i == 3 then Num(0)
    else
      match (Part(a, i), Part(b, i))
      case (Some(x), Some(y)) => if x != y then Num(x - y) else TripleFrom(a, b, i + 1)
      case _ => NaN
  }

  method CompareNumericTriple(a: string, b: string) returns (r: Comparison)
    ensures r == TripleFrom(Split(a, '.'), Split(b, '.'), 0)
  {
    var aParts, bParts := Split(a, '.'), Split(b, '.');
    for i := 0 to 3
      invariant TripleFrom(aParts, bParts, 0) == TripleFrom(aParts, bParts, i)
    {
      var ai, bi := Part(aParts, i), Part(bParts, i);
      if ai.None? || bi.None? {
        return NaN;   // NaN differs from everything, itself included
      }
      if ai != bi {
        return Num(ai.value - bi.value);
      }
    }
    return Num(0);
  }

  function TextBelow(a: string, b: string): bool {
    if b == "" then false
    else if a == "" then true
    else if a[0] != b[0] then a[0] < b[0]
    else TextBelow(a[1..], b[1..])
  }

  function CompareIdent(a: string, b: string): int {
    if AllDigits(a) && AllDigits(b) then Value(a) - Value(b)
    else if AllDigits(a) then -1
    else if AllDigits(b) then 1
    else if TextBelow(a, b) then -1
    else if TextBelow(b, a) then 1
    else 0
  }

  function PreFrom(a: seq<string>, b: seq<string>, i: nat): int
    requires i <= |a| && i <= |b|
    decreases |a| - i
  {
    if i == |a| then (if i == |b| then 0 else -1)
    else if i == |b| then 1
    else
      var c := CompareIdent(a[i], b[i]);
      if c != 0 then c else PreFrom(a, b, i + 1)
  }

  method ComparePreRelease(a: string, b: string) returns (r: int)
    ensures r == PreFrom(Split(a, '.'), Split(b, '.'), 0)
  {
    var aParts, bParts := Split(a, '.'), Split(b, '.');
    var most := if |aParts| < |bParts| then |bParts| else |aParts|;
    for i := 0 to most
      invariant i <= |aParts| && i <= |bParts|
      invariant PreFrom(aParts, bParts, 0) == PreFrom(aParts, bParts, i)
    {
      if i >= |aParts| { return -1; }
      if i >= |bParts| { return 1; }
      var ap, bp := aParts[i], bParts[i];
      if AllDigits(ap) && AllDigits(bp) {
        if Value(ap) != Value(bp) { return Value(ap) - Value(bp); }
        continue;
      }
      if AllDigits(ap) { return -1; }
      if AllDigits(bp) { return 1; }
      if TextBelow(ap, bp) { return -1; }
      if TextBelow(bp, ap) { return 1; }
    }
    return 0;
  }

  function VersionCmp(a: string, b: string): Comparison {
    var (aMain, aPre) := SplitPre(a);
    var (bMain, bPre) := SplitPre(b);
    var mainCmp := TripleFrom(Split(aMain, '.'), Split(bMain, '.'), 0);
    if mainCmp != Num(0) then mainCmp
    else if aPre.None? && bPre.None? then Num(0)
    else if aPre.None? then Num(1)
    else if bPre.None? then Num(-1)
    else Num(PreFrom(Split(aPre.value, '.'), Split(bPre.value, '.'), 0))
  }

  method CompareVersions(a: string, b: string) returns (r: Comparison)
    ensures r == VersionCmp(a, b)
  {
    var (aMain, aPre) := SplitPre(a);
    var (bMain, bPre) := SplitPre(b);
    var mainCmp := CompareNumericTriple(aMain, bMain);
    if mainCmp != Num(0) { return mainCmp; }
    if aPre.None? && bPre.None? { return Num(0); }
    if aPre.None? { return Num(1); }
    if bPre.None? { return Num(-1); }
    var pre := ComparePreRelease(aPre.value, bPre.value);
    return Num(pre);
  }

  // ---------------------------------------------------------------------------
  // The comparison is the precedence
  // ---------------------------------------------------------------------------

  function Numbers(parts: seq<string>): seq<nat>
    requires forall p :: p in parts ==> AllDigits(p)
  {
    assert forall i :: 0 <= i < |parts| ==> AllDigits(parts[i]);
    seq(|parts|, i requires 0 <= i < |parts| => Value(parts[i]))
  }

  function IdentOf(part: string): Ident {
    if AllDigits(part) then Numeric(Value(part)) else Text(part)
  }

  function Idents(parts: seq<string>): seq<Ident> {
    seq(|parts|, i requires 0 <= i < |parts| => IdentOf(parts[i]))
  }

  function Parsed(v: Tag): Version {
    var (main, pre) := SplitPre(v);
    Version(Numbers(Split(main, '.')), if pre.None? then None else Some(Idents(Split(pre.value, '.'))))
  }

  lemma {:induction false} TextBelowIsLex(a: string, b: string)
    ensures TextBelow(a, b) <==> Lex(a, b, CHAR_BELOW)
  {
    if a != "" && b != "" {
      if a[0] != b[0] {
        assert a[..0] == b[..0];
        LexAt(a, b, CHAR_BELOW, 0);
      } else {
        TextBelowIsLex(a[1..], b[1..]);
        SameHead(a, b);
      }
    } else if b == "" {
      assert !(a < b);
    }
  }

  lemma SameHead(a: string, b: string)
    requires a != "" && b != "" && a[0] == b[0]
    ensures Lex(a, b, CHAR_BELOW) <==> Lex(a[1..], b[1..], CHAR_BELOW)
  {
    var c, d := a[1..], b[1..];
    FirstDifference(c, d);
    assert a == [a[0]] + c && b == [a[0]] + d;
    if k: nat :| DiffersAt(c, d, k) {
      LexAt(c, d, CHAR_BELOW, k);
      assert a[..k + 1] == [a[0]] + c[..k] && b[..k + 1] == [a[0]] + d[..k];
      assert DiffersAt(a, b, k + 1);
      LexAt(a, b, CHAR_BELOW, k + 1);
    } else {
      LexConnected(a, b, CHAR_BELOW);
      LexConnected(c, d, CHAR_BELOW);
    }
  }

  lemma CompareIdentSign(a: string, b: string)
    ensures CompareIdent(a, b) < 0 <==> IdentBelow(IdentOf(a), IdentOf(b))
    ensures CompareIdent(a, b) == 0 <==> IdentOf(a) == IdentOf(b)
    ensures CompareIdent(a, b) > 0 <==> IdentBelow(IdentOf(b), IdentOf(a))
  {
    TextBelowIsLex(a, b);
    TextBelowIsLex(b, a);
    LexConnected(a, b, CHAR_BELOW);
  }

  lemma {:induction false} TripleSign(a: seq<string>, b: seq<string>, i: nat)
    requires |a| == 3 && |b| == 3 && i <= 3
    requires (forall p :: p in a ==> AllDigits(p)) && (forall p :: p in b ==> AllDigits(p))
    requires Numbers(a)[..i] == Numbers(b)[..i]
    ensures TripleFrom(a, b, i).Num?
    ensures TripleFrom(a, b, i).value < 0 <==> Lex(Numbers(a), Numbers(b), NAT_BELOW)
    ensures TripleFrom(a, b, i).value == 0 <==> Numbers(a) == Numbers(b)
    ensures TripleFrom(a, b, i).value > 0 <==> Lex(Numbers(b), Numbers(a), NAT_BELOW)
    decreases 3 - i
  {
    var x, y := Numbers(a), Numbers(b);
    if i == 3 {
      assert x[..3] == x && y[..3] == y;
      BasicOrders();
      LexConnected(x, y, NAT_BELOW);
    } else {
      ParseDigits(a[i]);
      ParseDigits(b[i]);
      if x[i] != y[i] {
        NumbersDiffer(x, y, i);
      } else {
        assert x[..i + 1] == x[..i] + [x[i]] && y[..i + 1] == y[..i] + [y[i]];
        TripleSign(a, b, i + 1);
      }
    }
  }

  lemma NumbersDiffer(x: seq<nat>, y: seq<nat>, i: nat)
    requires DiffersAt(x, y, i)
    ensures (Lex(x, y, NAT_BELOW) <==> x[i] < y[i]) && (Lex(y, x, NAT_BELOW) <==> y[i] < x[i])
  {
    LexAt(x, y, NAT_BELOW, i);
    LexAt(y, x, NAT_BELOW, i);
  }

  lemma {:induction false} PreSign(a: seq<string>, b: seq<string>, i: nat)
    requires i <= |a| && i <= |b| && Idents(a)[..i] == Idents(b)[..i]
    ensures PreFrom(a, b, i) < 0 <==> Lex(Idents(a), Idents(b), IDENT_BELOW)
    ensures PreFrom(a, b, i) == 0 <==> Idents(a) == Idents(b)
    ensures PreFrom(a, b, i) > 0 <==> Lex(Idents(b), Idents(a), IDENT_BELOW)
    decreases |a| - i
  {
    var x, y := Idents(a), Idents(b);
    IdentOrder();
    LexConnected(x, y, IDENT_BELOW);
    if i == |a| || i == |b| {
      assert x[..|a|] == x && y[..|b|] == y;
    } else {
      CompareIdentSign(a[i], b[i]);
      if x[i] != y[i] {
        LexAt(x, y, IDENT_BELOW, i);
        LexAt(y, x, IDENT_BELOW, i);
      } else {
        assert x[..i + 1] == x[..i] + [x[i]] && y[..i + 1] == y[..i] + [y[i]];
        PreSign(a, b, i + 1);
      }
    }
  }

  /** The comparison of two accepted versions is a number whose sign is their precedence. */
  lemma ComparisonIsPrecedence(a: Tag, b: Tag)
    ensures VersionCmp(a, b).Num?
    ensures VersionCmp(a, b).value < 0 <==> Below(Parsed(a), Parsed(b))
    ensures VersionCmp(a, b).value == 0 <==> Parsed(a) == Parsed(b)
    ensures VersionCmp(a, b).value > 0 <==> Below(Parsed(b), Parsed(a))
  {
    var (aMain, aPre) := SplitPre(a);
    var (bMain, bPre) := SplitPre(b);
    TripleSign(Split(aMain, '.'), Split(bMain, '.'), 0);
    if aPre.Some? && bPre.Some? {
      PreSign(Split(aPre.value, '.'), Split(bPre.value, '.'), 0);
    }
  }

  /** A total preorder: antisymmetric up to equality, transitive, never NaN. */
  lemma ComparisonIsTotalPreorder(a: Tag, b: Tag, c: Tag)
    ensures VersionCmp(a, b).Num? && VersionCmp(b, a).Num? && VersionCmp(b, c).Num? && VersionCmp(a, c).Num?
    ensures VersionCmp(a, b).value < 0 <==> VersionCmp(b, a).value > 0
    ensures VersionCmp(a, b).value <= 0 && VersionCmp(b, c).value <= 0 ==> VersionCmp(a, c).value <= 0
    ensures VersionCmp(a, a) == Num(0)
  {
    ComparisonIsPrecedence(a, a);
    ComparisonIsPrecedence(a, b);
    ComparisonIsPrecedence(b, a);
    ComparisonIsPrecedence(b, c);
    ComparisonIsPrecedence(a, c);
    BelowConnected(Parsed(a), Parsed(b));
    BelowConnected(Parsed(b), Parsed(c));
    if Below(Parsed(a), Parsed(b)) && Below(Parsed(b), Parsed(c)) {
      BelowTransitive(Parsed(a), Parsed(b), Parsed(c));
    }
    BelowConnected(Parsed(a), Parsed(c));
  }

  // ---------------------------------------------------------------------------
  // Equal up to leading zeros
  // ---------------------------------------------------------------------------

  predicate SameIdent(p: string, q: string) {
    p == q || (AllDigits(p) && AllDigits(q) && StripZeros(p) == StripZeros(q))
  }

  predicate SameIdents(ps: seq<string>, qs: seq<string>) {
    |ps| == |qs| && forall i :: 0 <= i < |ps| ==> SameIdent(ps[i], qs[i])
  }

  /** The same text but for zeros in front of numeric identifiers. */
  predicate SameUpToZeros(a: string, b: string) {
    var (aMain, aPre) := SplitPre(a);
    var (bMain, bPre) := SplitPre(b);
    && SameIdents(Split(aMain, '.'), Split(bMain, '.'))
    && (aPre.None? <==> bPre.None?)
    && (aPre.Some? ==> SameIdents(Split(aPre.value, '.'), Split(bPre.value, '.')))
  }

  lemma SameIdentIff(p: string, q: string)
    ensures SameIdent(p, q) <==> IdentOf(p) == IdentOf(q)
  {
    if AllDigits(p) && AllDigits(q) {
      ValueUpToZeros(p, q);
    }
  }

  lemma SameIdentsIff(ps: seq<string>, qs: seq<string>)
    ensures SameIdents(ps, qs) <==> Idents(ps) == Idents(qs)
  {
    assert |Idents(ps)| == |ps| && |Idents(qs)| == |qs|;
    if |ps| == |qs| {
      forall i | 0 <= i < |ps| ensures SameIdent(ps[i], qs[i]) <==> Idents(ps)[i] == Idents(qs)[i] {
        SameIdentIff(ps[i], qs[i]);
      }
      assert Idents(ps) == Idents(qs) <==> forall i :: 0 <= i < |ps| ==> Idents(ps)[i] == Idents(qs)[i];
    }
  }

  lemma NumbersIff(ps: seq<string>, qs: seq<string>)
    requires (forall p :: p in ps ==> AllDigits(p)) && (forall q :: q in qs ==> AllDigits(q))
    ensures Numbers(ps) == Numbers(qs) <==> Idents(ps) == Idents(qs)
  {
    assert |Numbers(ps)| == |ps| == |Idents(ps)| && |Numbers(qs)| == |qs| == |Idents(qs)|;
    assert forall i :: 0 <= i < |ps| ==> Idents(ps)[i] == Numeric(Numbers(ps)[i]);
    assert forall i :: 0 <= i < |qs| ==> Idents(qs)[i] == Numeric(Numbers(qs)[i]);
    if |ps| == |qs| {
      assert Numbers(ps) == Numbers(qs) <==> forall i :: 0 <= i < |ps| ==> Numbers(ps)[i] == Numbers(qs)[i];
      assert Idents(ps) == Idents(qs) <==> forall i :: 0 <= i < |ps| ==> Idents(ps)[i] == Idents(qs)[i];
    }
  }

  /** Two accepted versions compare equal exactly when they differ in leading zeros only. */
  lemma EqualUpToZeros(a: Tag, b: Tag)
    ensures VersionCmp(a, b) == Num(0) <==> SameUpToZeros(a, b)
  {
    ComparisonIsPrecedence(a, b);
    var (aMain, aPre) := SplitPre(a);
    var (bMain, bPre) := SplitPre(b);
    NumbersIff(Split(aMain, '.'), Split(bMain, '.'));
    SameIdentsIff(Split(aMain, '.'), Split(bMain, '.'));
    if aPre.Some? && bPre.Some? {
      SameIdentsIff(Split(aPre.value, '.'), Split(bPre.value, '.'));
    }
  }

  // ---------------------------------------------------------------------------
  // Channels
  // ---------------------------------------------------------------------------

  function TrimDigits(s: string): (t: string)
    ensures t <= s && (forall c :: c in s[|t|..] ==> IsDigit(c))
    ensures t != "" ==> !IsDigit(t[|t| - 1])
  {
    if s != "" && IsDigit(s[|s| - 1]) then
      var t := TrimDigits(s[..|s| - 1]);
      assert s[|t|..] == s[..|s| - 1][|t|..] + [s[|s| - 1]];
      t
    else s
  }

  /** `/-lane(\.\d+)?$/`. */
  predicate HasLane(v: string, lane: string) {
    || EndsWith(v, "-" + lane)
    || (|TrimDigits(v)| < |v| && EndsWith(TrimDigits(v), "-" + lane + "."))
  }

  predicate MatchesChannel(version: string, channel: Channel) {
    && Wellformed(version)
    && match channel
       case Stable => '-' !in version
       case Test => HasLane(version, "test")
       case Dev => HasLane(version, "dev")
  }

  /** The lane ends the version, with or without a dot and a number behind it. */
  predicate EndsInLane(v: string, lane: string, front: string, number: Option<string>) {
    match number
    case None => v == front + ("-" + lane)
    case Some(n) => AllDigits(n) && v == front + ("-" + lane + ".") + n
  }

  /** Which versions are on a channel: "test" and "dev" are read at the end, "stable" has no dash. */
  lemma MatchesIff(v: string, channel: Channel)
    ensures MatchesChannel(v, channel) <==>
              && Wellformed(v)
              && match channel
                 case Stable => '-' !in v
                 case Test => exists front, number :: EndsInLane(v, "test", front, number)
                 case Dev => exists front, number :: EndsInLane(v, "dev", front, number)
  {
    match channel
    case Stable =>
    case Test => LaneIff(v, "test");
    case Dev => LaneIff(v, "dev");
  }

  lemma LaneIff(v: string, lane: string)
    ensures HasLane(v, lane) <==> exists front, number :: EndsInLane(v, lane, front, number)
  {
    if HasLane(v, lane) {
      LaneRead(v, lane);
    }
    if front, number :| EndsInLane(v, lane, front, number) {
      LaneBehind(v, lane, front, number);
    }
  }

  lemma LaneRead(v: string, lane: string)
    requires HasLane(v, lane)
    ensures exists front, number :: EndsInLane(v, lane, front, number)
  {
    var t := TrimDigits(v);
    if EndsWith(v, "-" + lane) {
      assert EndsInLane(v, lane, v[..|v| - |lane| - 1], None);
    } else {
      var front, number := t[..|t| - |lane| - 2], v[|t|..];
      assert v == t + number && t == front + ("-" + lane + ".");
      assert EndsInLane(v, lane, front, Some(number));
    }
  }

  lemma LaneBehind(v: string, lane: string, front: string, number: Option<string>)
    requires EndsInLane(v, lane, front, number)
    ensures HasLane(v, lane)
  {
    if number.Some? {
      var last := "-" + lane + ".";
      var end := front + last;
      assert end[|end| - 1] == '.';
      TrimNumber(end, number.value);
      assert end[|end| - |last|..] == last;
    } else {
      assert v[|v| - |"-" + lane|..] == "-" + lane;
    }
  }

  lemma {:induction false} TrimNumber(front: string, number: string)
    requires front != "" && !IsDigit(front[|front| - 1]) && forall c :: c in number ==> IsDigit(c)
    ensures TrimDigits(front + number) == front
  {
    var s := front + number;
    if number == "" {
      assert s == front;
    } else {
      assert s[|s| - 1] == number[|number| - 1] && s[..|s| - 1] == front + number[..|number| - 1];
      TrimNumber(front, number[..|number| - 1]);
    }
  }

  function StripRuntimeTag(tag: string): (r: Option<Tag>)
    ensures forall v :: r == Some(v) <==> tag == "runtime-" + v && Wellformed(v)
  {
    if StartsWith(tag, "runtime-") then
      assert tag == "runtime-" + tag[8..];
      if Wellformed(tag[8..]) then Some(tag[8..]) else None
    else None
  }

  lemma LaneHasDash(v: string, lane: string)
    requires HasLane(v, lane)
    ensures '-' in v
  {
    if EndsWith(v, "-" + lane) {
      assert v[|v| - |lane| - 1..][0] == '-';
      assert v[|v| - |lane| - 1] == '-';
    } else {
      var t := TrimDigits(v);
      assert t[|t| - |lane| - 2..][0] == '-';
      assert t[|t| - |lane| - 2] == '-' && t[|t| - |lane| - 2] == v[|t| - |lane| - 2];
    }
  }

  // The last letter of the lane, before the number if there is one.
  function LaneLetter(v: string): Option<char> {
    var t := TrimDigits(v);
    if v == "" then None
    else if t == v then Some(v[|v| - 1])
    else if |t| >= 2 then Some(t[|t| - 2])
    else None
  }

  /** It decides the lane. */
  lemma LaneEnd(v: string, lane: string)
    requires lane != "" && !IsDigit(lane[|lane| - 1]) && HasLane(v, lane)
    ensures LaneLetter(v) == Some(lane[|lane| - 1])
  {
    var t := TrimDigits(v);
    if EndsWith(v, "-" + lane) {
      EndLetter(v, "-" + lane);
    } else {
      var end := "-" + lane + ".";
      EndLetter(t, end);
      assert |end| == |lane| + 2 && end[|lane|] == lane[|lane| - 1];
      assert t[|t| - |end| + |lane|] == end[|lane|];
    }
  }

  lemma EndLetter(s: string, e: string)
    requires EndsWith(s, e)
    ensures forall i :: 0 <= i < |e| ==> s[|s| - |e| + i] == e[i]
  {
    forall i | 0 <= i < |e| ensures s[|s| - |e| + i] == e[i] {
      assert s[|s| - |e|..][i] == e[i];
    }
  }

  /** A version belongs to at most one channel. */
  lemma ChannelsAreLanes(v: string, c: Channel, d: Channel)
    requires MatchesChannel(v, c) && MatchesChannel(v, d)
    ensures c == d
  {
    if c.Test? || d.Test? { LaneHasDash(v, "test"); LaneEnd(v, "test"); }
    if c.Dev? || d.Dev? { LaneHasDash(v, "dev"); LaneEnd(v, "dev"); }
  }

  function LaneOf(channel: Channel): string
    requires !channel.Stable?
  {
    if channel.Test? then "test" else "dev"
  }

  /** The pattern the file's header documents: the lane right behind X.Y.Z. */
  predicate Documented(v: string, channel: Channel) {
    var pre := SplitPre(v).1;
    && Wellformed(v)
    && if channel.Stable? then pre.None?
       else
         pre.Some? && LaneForm(pre.value, LaneOf(channel))
  }

  lemma Where(main: string, pre: string, k: nat)
    requires k < |main| + 1 + |pre|
    ensures k < |main| ==> (main + "-" + pre)[k] in main
    ensures k > |main| ==> (main + "-" + pre)[k] in pre
  {
  }

  lemma OneDash(main: string, pre: string, p: string, q: string)
    requires main + "-" + pre == p + "-" + q && '-' !in main && '-' !in pre
    ensures p == main && q == pre
  {
    var s := main + "-" + pre;
    assert s[|p|] == '-';
    Where(main, pre, |p|);
    assert s[..|p|] == p && s[..|main|] == main && s[|p| + 1..] == q && s[|main| + 1..] == pre;
  }

  /** The code admits more than its header says, `1.0.0-rc-test` for one: a version it puts on a
      channel is documented there exactly when its pre-release part has no dash of its own. */
  lemma DocumentedIff(v: string, channel: Channel)
    requires MatchesChannel(v, channel)
    ensures Documented(v, channel) <==> SplitPre(v).1.None? || '-' !in SplitPre(v).1.value
  {
    if !channel.Stable? {
      LaneFormOf(v, LaneOf(channel));
    }
  }

  lemma LaneFormOf(v: string, lane: string)
    requires lane == "test" || lane == "dev"
    requires HasLane(v, lane)
    ensures SplitPre(v).1.Some? && (LaneForm(SplitPre(v).1.value, lane) <==> '-' !in SplitPre(v).1.value)
  {
    LaneHasDash(v, lane);
    var (main, pre) := SplitPre(v);
    assert pre.Some?;
    Regroup(main, pre.value);
    LaneFormIff(main, pre.value, lane);
  }

  lemma Regroup(main: string, pre: string)
    ensures main + ("-" + pre) == main + "-" + pre
  {
  }

  lemma LaneFormIff(main: string, pre: string, lane: string)
    requires lane == "test" || lane == "dev"
    requires '-' !in main && HasLane(main + "-" + pre, lane)
    ensures LaneForm(pre, lane) <==> '-' !in pre
  {
    if '-' in pre {
      DocumentedHasNoDash(pre, lane);
    } else {
      OneDashIsDocumented(main, pre, lane);
    }
  }

  predicate LaneForm(pre: string, lane: string) {
    pre == lane || (StartsWith(pre, lane + ".") && AllDigits(pre[|lane| + 1..]))
  }

  lemma DocumentedHasNoDash(pre: string, lane: string)
    requires '-' in pre && (lane == "test" || lane == "dev")
    ensures !LaneForm(pre, lane)
  {
    if pre != lane && StartsWith(pre, lane + ".") {
      assert pre == lane + "." + pre[|lane| + 1..];
    }
  }

  lemma OneDashIsDocumented(main: string, pre: string, lane: string)
    requires HasLane(main + "-" + pre, lane) && '-' !in main && '-' !in pre && '-' !in lane
    ensures LaneForm(pre, lane)
  {
    var v := main + "-" + pre;
    if EndsWith(v, "-" + lane) {
      assert v == v[..|v| - |lane| - 1] + "-" + lane;
      OneDash(main, pre, v[..|v| - |lane| - 1], lane);
    } else {
      var t := TrimDigits(v);
      NumberedLane(v, t, lane);
      OneDash(main, pre, t[..|t| - |lane| - 2], lane + "." + v[|t|..]);
      NumberedForm(lane, v[|t|..]);
    }
  }

  lemma NumberedForm(lane: string, number: string)
    requires AllDigits(number)
    ensures LaneForm(lane + "." + number, lane)
  {
    assert (lane + "." + number)[|lane| + 1..] == number;
  }

  lemma NumberedLane(v: string, t: string, lane: string)
    requires t <= v && EndsWith(t, "-" + lane + ".") && '-' !in lane && forall c :: c in v[|t|..] ==> IsDigit(c)
    ensures v == t[..|t| - |lane| - 2] + "-" + (lane + "." + v[|t|..])
    ensures '-' !in lane + "." + v[|t|..]
  {
    assert v == t + v[|t|..] && t == t[..|t| - |lane| - 2] + ("-" + lane + ".");
  }

  lemma DashedLane()
    ensures MatchesChannel("0.0.0-rc-test", Test) && !Documented("0.0.0-rc-test", Test)
  {
    assert "rc" + "-test" == "rc-test";
    assert SomeTag() + "-" + "rc-test" == "0.0.0-rc-test";
    Dashed("rc");
  }

  /** So is every other text with a dash of its own before the lane. */
  lemma Dashed(text: string)
    requires forall c :: c in text ==> PreChar(c)
    ensures MatchesChannel(SomeTag() + "-" + (text + "-test"), Test)
    ensures !Documented(SomeTag() + "-" + (text + "-test"), Test)
  {
    var main, pre := SomeTag(), text + "-test";
    Wellformed000(pre);
    EndsBehind(main, text);
    assert MatchesChannel(main + "-" + pre, Test);
    NotDocumented(main, pre, |text|);
  }

  lemma NotDocumented(main: string, pre: string, k: nat)
    requires '-' !in main && k < |pre| && pre[k] == '-'
    ensures !Documented(main + "-" + pre, Test)
  {
    SplitAtDash(main, pre);
    DocumentedHasNoDash(pre, "test");
  }

  lemma Wellformed000(pre: string)
    requires pre != "" && forall c :: c in pre ==> PreChar(c)
    ensures Wellformed(SomeTag() + "-" + pre)
  {
    SplitAtDash(SomeTag(), pre);
    assert SplitPre(SomeTag()).0 == SomeTag();
  }

  lemma EndsBehind(main: string, text: string)
    ensures HasLane(main + "-" + (text + "-test"), "test")
  {
    assert main + "-" + (text + "-test") == main + "-" + text + "-test";
    assert "-" + "test" == "-test";
  }

  lemma SplitAtDash(main: string, pre: string)
    requires '-' !in main
    ensures SplitPre(main + "-" + pre) == (main, Some(pre))
  {
    var v := main + "-" + pre;
    assert v[|main|] == '-';
    IndexAtMost(v, '-', |main|);
    Where(main, pre, IndexOf(v, '-'));
    assert v[..|main|] == main && v[|main| + 1..] == pre;
  }

  // ---------------------------------------------------------------------------
  // The resolver
  // ---------------------------------------------------------------------------

  /** An entry of the listing; one without a string tag has none. */
  datatype Entry = NotAnObject | Release(draft: bool, tag: Option<string>)

  datatype Response = FetchFailed | NotFound | NotOk | NotJson | NotArray | Listing(entries: seq<Entry>)

  datatype Resolved = Failed | Latest(version: Option<Tag>)

  predicate Offers(e: Entry, channel: Channel, v: string) {
    e.Release? && !e.draft && e.tag == Some("runtime-" + v) && MatchesChannel(v, channel)
  }

  /** `v` is published on the channel. */
  ghost predicate Offered(entries: seq<Entry>, channel: Channel, v: string) {
    exists e :: e in entries && Offers(e, channel, v)
  }

  ghost predicate Greatest(entries: seq<Entry>, channel: Channel, v: Tag) {
    && Offered(entries, channel, v)
    && forall o: Tag :: Offered(entries, channel, o) ==> !Below(Parsed(v), Parsed(o))
  }

  predicate AtMost(a: string, b: string) {
    VersionCmp(a, b).Num? && VersionCmp(a, b).value <= 0
  }

  // The sort's comparator, `compareVersions(b, a)`.
  predicate NewestFirst(a: Tag, b: Tag) {
    AtMost(b, a)
  }

  lemma NewestFirstTotal()
    ensures Sorting.Total(NewestFirst)
  {
    forall x: Tag, y: Tag ensures NewestFirst(x, y) || NewestFirst(y, x) {
      ComparisonIsTotalPreorder(x, y, x);
    }
    forall x: Tag, y: Tag, z: Tag | NewestFirst(x, y) && NewestFirst(y, z) ensures NewestFirst(x, z) {
      ComparisonIsTotalPreorder(z, y, x);
    }
  }

  function CandidateOf(e: Entry, channel: Channel): (r: Option<Tag>)
    ensures forall v: Tag :: r == Some(v) <==> Offers(e, channel, v)
  {
    if e.Release? && !e.draft && e.tag.Some? then
      var version := StripRuntimeTag(e.tag.value);
      if version.Some? && MatchesChannel(version.value, channel) then version else None
    else None
  }

  function CandidatesOf(entries: seq<Entry>, channel: Channel): seq<Tag> {
    if entries == [] then []
    else
      var version := CandidateOf(entries[|entries| - 1], channel);
      CandidatesOf(entries[..|entries| - 1], channel) + (if version.Some? then [version.value] else [])
  }

  lemma {:induction false} CandidateIffOffered(entries: seq<Entry>, channel: Channel, v: Tag)
    ensures v in CandidatesOf(entries, channel) <==> Offered(entries, channel, v)
  {
    if entries != [] {
      var before, last := entries[..|entries| - 1], entries[|entries| - 1];
      assert entries == before + [last];
      CandidateIffOffered(before, channel, v);
      assert CandidateOf(last, channel) == Some(v) <==> Offers(last, channel, v);
    }
  }

  method Candidates(entries: seq<Entry>, channel: Channel) returns (candidates: seq<Tag>)
    ensures candidates == CandidatesOf(entries, channel)
  {
    candidates := [];
    for i := 0 to |entries|
      invariant candidates == CandidatesOf(entries[..i], channel)
    {
      var entry := entries[i];
      assert entries[..i + 1][..i] == entries[..i];
      if !entry.Release? || entry.draft || entry.tag.None? { continue; }
      var version := StripRuntimeTag(entry.tag.value);
      if version.None? { continue; }
      if !MatchesChannel(version.value, channel) { continue; }
      candidates := candidates + [version.value];
    }
    assert entries[..|entries|] == entries;
  }

  /** A greatest version offered on the channel, unless it is at most the current one. */
  method ResolveLatestVersion(response: Response, channel: Channel, current: string) returns (r: Resolved)
    ensures r.Failed? <==> !response.NotFound? && !response.Listing?
    ensures response.NotFound? ==> r == Latest(None)
    ensures response.Listing? ==>
              if exists v: Tag :: Offered(response.entries, channel, v)
              then exists v: Tag :: Greatest(response.entries, channel, v) && r == Latest(if AtMost(v, current) then None else Some(v))
              else r == Latest(None)
  {
    match response {
      case NotFound => return Latest(None);
      case Listing(entries) =>
        var candidates := Candidates(entries, channel);
        forall v: Tag ensures v in candidates <==> Offered(entries, channel, v) {
          CandidateIffOffered(entries, channel, v);
        }
        if candidates == [] {
          return Latest(None);
        }
        var sorted := Sorting.Sort(candidates, NewestFirst);
        Sorting.SortKeeps(candidates, NewestFirst);
        NewestFirstTotal();
        Sorting.SortSorts(candidates, NewestFirst);
        var newest := sorted[0];
        SortedHead(sorted, entries, channel);
        assert newest in candidates;
        var c := CompareVersions(newest, current);
        if c.Num? && c.value <= 0 {
          return Latest(None);
        }
        return Latest(Some(newest));
      case _ => return Failed;
    }
  }

  lemma SortedHead(sorted: seq<Tag>, entries: seq<Entry>, channel: Channel)
    requires sorted != [] && Sorting.SortedBy(sorted, NewestFirst)
    requires forall v: Tag :: v in sorted <==> Offered(entries, channel, v)
    ensures Greatest(entries, channel, sorted[0])
  {
    assert sorted[0] in sorted;
    forall o: Tag | Offered(entries, channel, o) ensures !Below(Parsed(sorted[0]), Parsed(o)) {
      var i :| 0 <= i < |sorted| && sorted[i] == o;
      BelowConnected(Parsed(o), Parsed(o));
      if i > 0 {
        assert NewestFirst(sorted[0], sorted[i]);
        ComparisonIsPrecedence(o, sorted[0]);
        BelowConnected(Parsed(o), Parsed(sorted[0]));
      }
    }
  }

  /** With an accepted current version: what is returned is above it, and nothing is returned
      exactly when nothing offered is above it. */
  lemma UpdateIffNewer(entries: seq<Entry>, channel: Channel, current: Tag, v: Tag)
    requires Greatest(entries, channel, v)
    ensures !AtMost(v, current) <==> Below(Parsed(current), Parsed(v))
    ensures !AtMost(v, current) <==> exists o: Tag :: Offered(entries, channel, o) && Below(Parsed(current), Parsed(o))
  {
    ComparisonIsPrecedence(v, current);
    if AtMost(v, current) {
      forall o: Tag | Offered(entries, channel, o) ensures !Below(Parsed(current), Parsed(o)) {
        BelowConnected(Parsed(v), Parsed(o));
        BelowConnected(Parsed(current), Parsed(o));
        BelowConnected(Parsed(v), Parsed(current));
        if Below(Parsed(current), Parsed(o)) && Below(Parsed(v), Parsed(current)) {
          BelowTransitive(Parsed(v), Parsed(current), Parsed(o));
        }
      }
    }
  }
}
