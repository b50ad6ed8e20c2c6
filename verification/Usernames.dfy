/**
 User names: validation, derivation from an e-mail address (apps/central/src/usernames.ts) and the
 choice of a free one (apps/central/migrations/001-username.ts, pickUsername).

 `lower` is String.prototype.toLowerCase. All that is used of it is that it leaves a text of
 a-z, 0-9 and _ as it is.
 */
module Usernames {
  import opened Common
  import opened Decimal
  import opened Strings

  const USERNAME_MIN_LENGTH := 3
  const USERNAME_MAX_LENGTH := 20

  const SYSTEM_RESERVED: set<string> := {
    "admin", "administrator", "root", "support", "help", "staff", "moderator", "mod", "system",
    "central", "uncorded", "official", "bot"
  }

  const ROUTING_RESERVED: set<string> := {
    "api", "app", "www", "mail", "email", "assets", "static", "cdn", "auth", "login", "register",
    "signup", "signin", "logout", "settings", "account", "profile", "home", "null", "undefined"
  }

  predicate Reserved(name: string) {
    name in SYSTEM_RESERVED || name in ROUTING_RESERVED
  }

  datatype UsernameResult =
    | Ok(username: string)
    | REQUIRED | TOO_SHORT | TOO_LONG | CHARSET | RESERVED

  predicate NameChar(c: char) {
    'a' <= c <= 'z' || '0' <= c <= '9' || c == '_'
  }

  predicate InCharset(s: string) {
    forall c :: c in s ==> NameChar(c)
  }

  ghost predicate LowerCases(lower: string -> string) {
    forall s :: InCharset(s) ==> lower(s) == s
  }

  function ValidateUsername(input: string, lower: string -> string): UsernameResult {
    var trimmed := Trim(input);
    if trimmed == "" then REQUIRED
    else
      var name := lower(trimmed);
      if |name| < USERNAME_MIN_LENGTH then TOO_SHORT
      else if |name| > USERNAME_MAX_LENGTH then TOO_LONG
      else if !InCharset(name) then CHARSET
      else if Reserved(name) then RESERVED
      else Ok(name)
  }

  /** A canonical name: validation returns it as it is. */
  predicate Canonical(name: string) {
    3 <= |name| <= 20 && InCharset(name) && !Reserved(name)
  }

  lemma CanonicalIff(name: string, lower: string -> string)
    requires LowerCases(lower)
    ensures ValidateUsername(name, lower) == Ok(name) <==> Canonical(name)
  {
    if InCharset(name) && name != "" {
      NothingToTrim(name);
    }
  }

  /** Whatever validation returns is canonical. */
  lemma AcceptedIsCanonical(input: string, lower: string -> string)
    ensures ValidateUsername(input, lower).Ok? ==> Canonical(ValidateUsername(input, lower).username)
  {
  }

  predicate Spaces(s: string) {
    forall c :: c in s ==> IsSpace(c)
  }

  lemma {:induction false} SpacesTrimmed(before: string, name: string, after: string)
    requires Spaces(before) && Spaces(after)
    requires name != "" ==> !IsSpace(name[0]) && !IsSpace(name[|name| - 1])
    ensures Trim(before + name + after) == name
    decreases |before| + |after|
  {
    var s := before + name + after;
    if before != "" {
      assert s[0] == before[0] && s[1..] == before[1..] + name + after;
      SpacesTrimmed(before[1..], name, after);
    } else if name == "" {
      assert s == after;
      OnlySpaces(after);
    } else if after != "" {
      assert s[0] == name[0] && s[|s| - 1] == after[|after| - 1] && s[..|s| - 1] == before + name + after[..|after| - 1];
      SpacesTrimmed(before, name, after[..|after| - 1]);
    } else {
      assert s == name;
    }
  }

  lemma {:induction false} OnlySpaces(s: string)
    requires Spaces(s)
    ensures TrimStart(s) == "" && Trim(s) == ""
  {
    if s != "" {
      OnlySpaces(s[1..]);
    }
  }

  /** Validation ignores surrounding white space and case and reports the first check that fails. */
  lemma ValidationIs(before: string, name: string, after: string, lower: string -> string)
    requires Spaces(before) && Spaces(after)
    requires name != "" ==> !IsSpace(name[0]) && !IsSpace(name[|name| - 1])
    ensures var r, n := ValidateUsername(before + name + after, lower), lower(name);
            && (r.REQUIRED? <==> name == "")
            && (r.TOO_SHORT? <==> name != "" && |n| < 3)
            && (r.TOO_LONG? <==> name != "" && |n| > 20)
            && (r.CHARSET? <==> name != "" && 3 <= |n| <= 20 && !InCharset(n))
            && (r.RESERVED? <==> name != "" && 3 <= |n| <= 20 && InCharset(n) && Reserved(n))
            && (name != "" && Canonical(n) ==> r == Ok(n))
  {
    SpacesTrimmed(before, name, after);
  }

  lemma NothingToTrim(name: string)
    requires InCharset(name)
    ensures Trim(name) == name
  {
    assert name != "" ==> name[0] in name && name[|name| - 1] in name;
  }

  // ---------------------------------------------------------------------------
  // Derivation
  // ---------------------------------------------------------------------------

  /** `replace(/[^a-z0-9_]/g, "_")`. */
  function Sanitize(s: string): (r: string)
    ensures |r| == |s| && InCharset(r)
  {
    if s == "" then "" else [if NameChar(s[0]) then s[0] else '_'] + Sanitize(s[1..])
  }

  /** `replace(/_+/g, "_")`. */
  function Collapse(s: string): (r: string)
    requires InCharset(s)
    ensures InCharset(r)
    ensures forall i :: 0 < i < |r| ==> !(r[i - 1] == '_' && r[i] == '_')
    ensures r != "" ==> s != "" && r[0] == s[0]
  {
    if s == "" then ""
    else
      assert forall c :: c in s[1..] ==> c in s;
      var rest := Collapse(s[1..]);
      if s[0] == '_' && |s| > 1 && s[1] == '_' then rest else [s[0]] + rest
  }

  /** `replace(/^_+|_+$/g, "")`. */
  function TrimUnderscores(s: string): (r: string)
    requires InCharset(s)
    ensures InCharset(r)
    ensures r != "" ==> r[0] != '_' && r[|r| - 1] != '_'
    decreases |s|
  {
    if s == "" then ""
    else if s[0] == '_' then
      assert forall c :: c in s[1..] ==> c in s;
      TrimUnderscores(s[1..])
    else if s[|s| - 1] == '_' then
      assert forall c :: c in s[..|s| - 1] ==> c in s;
      TrimUnderscores(s[..|s| - 1])
    else s
  }

  function DeriveUsernameFromEmail(email: string, lower: string -> string): (r: Option<string>)
    ensures r.Some? ==> 3 <= |r.value| <= 20 && InCharset(r.value) && r.value[0] != '_'
  {
    var local := email[..IndexOf(email, '@')];
    var sanitized := TrimUnderscores(Collapse(Sanitize(lower(local))));
    if |sanitized| < USERNAME_MIN_LENGTH then None
    else
      assert forall c :: c in sanitized[..Min(|sanitized|, 20)] ==> c in sanitized;
      Some(sanitized[..Min(|sanitized|, USERNAME_MAX_LENGTH)])
  }

  // What a name is made of: words of letters and digits, and what is between them.
  predicate WordChar(c: char) {
    'a' <= c <= 'z' || '0' <= c <= '9'
  }

  predicate Word(s: string) {
    s != "" && forall c :: c in s ==> WordChar(c)
  }

  predicate Gap(s: string) {
    forall c :: c in s ==> !WordChar(c)
  }

  datatype Piece = Piece(word: string, gap: string)

  /** Every word but the last is followed by a gap. */
  predicate Pieces(ps: seq<Piece>) {
    forall i :: 0 <= i < |ps| ==> Word(ps[i].word) && Gap(ps[i].gap) && (i < |ps| - 1 ==> ps[i].gap != "")
  }

  function TextOf(ps: seq<Piece>): string {
    if ps == [] then "" else ps[0].word + (ps[0].gap + TextOf(ps[1..]))
  }

  /** The words with one underscore between them. */
  function Joined(ps: seq<Piece>): string {
    if ps == [] then "" else if |ps| == 1 then ps[0].word else ps[0].word + ("_" + Joined(ps[1..]))
  }

  // A gap becomes one underscore.
  function Blank(gap: string): string {
    if gap == "" then "" else "_"
  }

  lemma {:induction false} SanitizeWord(word: string, rest: string)
    requires forall c :: c in word ==> WordChar(c)
    ensures Sanitize(word + rest) == word + Sanitize(rest)
  {
    if word == "" {
      assert word + rest == rest;
    } else {
      SanitizeWord(word[1..], rest);
      assert word[0] in word && (word + rest)[1..] == word[1..] + rest;
      assert word == [word[0]] + word[1..];
    }
  }

  lemma {:induction false} CollapseWord(word: string, rest: string)
    requires InCharset(rest) && InCharset(word + rest) && forall c :: c in word ==> WordChar(c)
    ensures Collapse(word + rest) == word + Collapse(rest)
  {
    if word == "" {
      assert word + rest == rest;
    } else {
      assert word[0] in word && (word + rest)[1..] == word[1..] + rest;
      assert InCharset(word[1..] + rest);
      CollapseWord(word[1..], rest);
      assert word == [word[0]] + word[1..];
    }
  }

  lemma {:induction false} CleanGap(gap: string, rest: string)
    requires Gap(gap) && (rest != "" ==> WordChar(rest[0]))
    ensures Sanitize(gap + rest) != "" ==> Sanitize(gap + rest)[0] == if gap == "" then rest[0] else '_'
    ensures Collapse(Sanitize(gap + rest)) == Blank(gap) + Collapse(Sanitize(rest))
  {
    if gap == "" {
      assert gap + rest == rest;
    } else {
      CleanGap(gap[1..], rest);
      assert gap[0] in gap && (gap + rest)[1..] == gap[1..] + rest;
      var s := Sanitize(gap + rest);
      assert s[0] == '_' && s[1..] == Sanitize(gap[1..] + rest);
    }
  }

  // The gap after the last word.
  function LastGap(ps: seq<Piece>): string {
    if ps == [] then "" else ps[|ps| - 1].gap
  }

  lemma JoinedStep(ps: seq<Piece>)
    requires Pieces(ps) && ps != []
    ensures Joined(ps) + Blank(LastGap(ps)) == ps[0].word + (Blank(ps[0].gap) + (Joined(ps[1..]) + Blank(LastGap(ps[1..]))))
  {
    if |ps| == 1 {
      assert Joined(ps) + Blank(LastGap(ps)) == ps[0].word + (Blank(ps[0].gap) + "");
    } else {
      assert LastGap(ps) == LastGap(ps[1..]) && Blank(ps[0].gap) == "_";
    }
  }

  lemma {:induction false} CollapsedPieces(ps: seq<Piece>)
    requires Pieces(ps)
    ensures TextOf(ps) != "" ==> WordChar(TextOf(ps)[0])
    ensures Collapse(Sanitize(TextOf(ps))) == Joined(ps) + Blank(LastGap(ps))
  {
    if ps != [] {
      var word, gap, rest := ps[0].word, ps[0].gap, ps[1..];
      assert Word(word) && word[0] in word;
      CollapsedPieces(rest);
      CleanGap(gap, TextOf(rest));
      SanitizeWord(word, gap + TextOf(rest));
      CollapseWord(word, Sanitize(gap + TextOf(rest)));
      JoinedStep(ps);
    }
  }

  lemma {:induction false} JoinedEnds(ps: seq<Piece>)
    requires Pieces(ps) && ps != []
    ensures Joined(ps) != "" && Joined(ps)[0] != '_' && Joined(ps)[|Joined(ps)| - 1] != '_'
    ensures InCharset(Joined(ps))
  {
    var word := ps[0].word;
    assert Word(word) && word[0] in word && word[|word| - 1] in word;
    if |ps| > 1 { JoinedEnds(ps[1..]); }
  }

  lemma TrimmedBack(middle: string, back: string)
    requires back in {"", "_"} && InCharset(middle + back) && (middle != "" ==> middle[0] != '_' && middle[|middle| - 1] != '_')
    ensures TrimUnderscores(middle + back) == middle
  {
    var t := middle + back;
    if back == "" {
      assert t == middle;
    } else if middle == "" {
      assert t == "_" && t[1..] == "";
    } else {
      assert t[0] == middle[0] && t[|t| - 1] == '_' && t[..|t| - 1] == middle;
      assert TrimUnderscores(t) == TrimUnderscores(middle);
    }
  }

  lemma TrimmedEnds(front: string, middle: string, back: string)
    requires front in {"", "_"} && back in {"", "_"}
    requires InCharset(front + (middle + back)) && (middle != "" ==> middle[0] != '_' && middle[|middle| - 1] != '_')
    ensures TrimUnderscores(front + (middle + back)) == middle
  {
    var s, t := front + (middle + back), middle + back;
    assert s[|front|..] == t;
    assert forall c :: c in t ==> c in s[|front|..];
    TrimmedBack(middle, back);
    if front == "" {
      assert s == t;
    } else {
      assert s[0] == '_' && s[1..] == t;
    }
  }

  /** The derived name: the words of the lower-cased local part with one underscore between them, cut
      after 20 characters; none when that is shorter than 3. */
  lemma DerivedIs(email: string, lower: string -> string, gap: string, ps: seq<Piece>)
    requires Gap(gap) && Pieces(ps) && lower(email[..IndexOf(email, '@')]) == gap + TextOf(ps)
    ensures var r := DeriveUsernameFromEmail(email, lower);
            if |Joined(ps)| < 3 then r == None
            else r == Some(if |Joined(ps)| <= 20 then Joined(ps) else Joined(ps)[..20])
  {
    CleanedText(gap, ps);
    var local, joined := email[..IndexOf(email, '@')], Joined(ps);
    assert TrimUnderscores(Collapse(Sanitize(lower(local)))) == joined;
    assert joined[..Min(|joined|, 20)] == if |joined| <= 20 then joined else joined[..20];
  }

  lemma CleanedText(gap: string, ps: seq<Piece>)
    requires Gap(gap) && Pieces(ps)
    ensures TrimUnderscores(Collapse(Sanitize(gap + TextOf(ps)))) == Joined(ps)
  {
    CollapsedPieces(ps);
    CleanGap(gap, TextOf(ps));
    if ps != [] { JoinedEnds(ps); }
    TrimmedEnds(Blank(gap), Joined(ps), Blank(LastGap(ps)));
  }

  /** Every text is made of words and gaps. */
  lemma {:induction false} EveryTextHasPieces(s: string)
    ensures exists gap: string, ps: seq<Piece> :: Gap(gap) && Pieces(ps) && s == gap + TextOf(ps)
  {
    if s == "" {
      assert Gap("") && Pieces([]) && s == "" + TextOf([]);
    } else {
      EveryTextHasPieces(s[1..]);
      var gap: string, ps: seq<Piece> :| Gap(gap) && Pieces(ps) && s[1..] == gap + TextOf(ps);
      var c := [s[0]];
      assert s == c + (gap + TextOf(ps));
      if !WordChar(s[0]) {
        assert Gap(c + gap) && s == (c + gap) + TextOf(ps);
      } else {
        var more := WithLetter(c, gap, ps);
        assert Gap("") && s == "" + TextOf(more);
      }
    }
  }

  // A character before the first gap.
  function WithLetter(c: string, gap: string, ps: seq<Piece>): (more: seq<Piece>)
    requires Word(c) && Gap(gap) && Pieces(ps)
    ensures Pieces(more) && TextOf(more) == c + (gap + TextOf(ps))
  {
    if gap == "" && ps != [] then
      var more := [Piece(c + ps[0].word, ps[0].gap)] + ps[1..];
      assert more[1..] == ps[1..] && Word(ps[0].word) && Word(c + ps[0].word);
      assert (c + ps[0].word) + (ps[0].gap + TextOf(ps[1..])) == c + ("" + (ps[0].word + (ps[0].gap + TextOf(ps[1..]))));
      more
    else
      var more := [Piece(c, gap)] + ps;
      assert more[1..] == ps;
      more
  }

  function Min(a: nat, b: nat): nat { if a < b then a else b }

  // ---------------------------------------------------------------------------
  // The choice
  // ---------------------------------------------------------------------------

  function WithoutDashes(s: string): (r: string)
    ensures '-' !in r && forall c :: c in r ==> c in s
  {
    if s == "" then ""
    else if s[0] == '-' then WithoutDashes(s[1..])
    else [s[0]] + WithoutDashes(s[1..])
  }

  /** Account ids are UUIDs: lower-case hexadecimal digits and dashes. */
  predicate IsUuid(id: string) {
    forall c :: c in id ==> c == '-' || '0' <= c <= '9' || 'a' <= c <= 'f'
  }

  /** Where the search starts. */
  function Base(email: string, accountId: string, lower: string -> string): (base: string)
    ensures IsUuid(accountId) ==> Canonical(base)
  {
    var derived := DeriveUsernameFromEmail(email, lower);
    var base := if derived.Some? then derived.value else Fallback(accountId);
    if Reserved(base) then
      assert InCharset(base) ==> InCharset(base[..Min(|base|, 18)]);
      WithOne(base[..Min(|base|, 18)]);
      assert |base| <= 18 ==> base[..|base|] == base;
      if |base| > 18 then base[..18] + "_1" else base + "_1"
    else base
  }

  /** A derived name is taken as it is, with "_1" when it is reserved; without one, the name is "user"
      and the first eight digits of the account's UUID. */
  lemma BaseIs(email: string, accountId: string, lower: string -> string)
    ensures var derived, base := DeriveUsernameFromEmail(email, lower), Base(email, accountId, lower);
            && (derived.Some? ==> base == if Reserved(derived.value) then derived.value + "_1" else derived.value)
            && (derived.None? && |accountId| >= 8 && '-' !in accountId[..8] ==> base == "user" + accountId[..8])
  {
    if |accountId| >= 8 && '-' !in accountId[..8] {
      DashlessFront(accountId, 8);
      var name := "user" + accountId[..8];
      assert name[0] == 'u' && name[1] == 's';
      assert name[..12] == name;
      assert !Reserved(name);
    }
  }

  lemma {:induction false} DashlessFront(id: string, n: nat)
    requires n <= |id| && '-' !in id[..n]
    ensures n <= |WithoutDashes(id)| && WithoutDashes(id)[..n] == id[..n]
  {
    if n > 0 {
      assert id[0] == id[..n][0] && id[1..][..n - 1] == id[..n][1..];
      DashlessFront(id[1..], n - 1);
    }
  }

  lemma WithOne(front: string)
    ensures 1 <= |front| <= 18 && InCharset(front) ==> Canonical(front + "_1")
  {
    assert front + "_" + "1" == front + "_1";
    Underscored(front, "1");
  }

  function Fallback(accountId: string): (base: string)
    ensures IsUuid(accountId) ==> 3 <= |base| <= 20 && InCharset(base)
  {
    var hex := WithoutDashes(accountId);
    var all := "user" + hex[..Min(|hex|, 8)];
    assert IsUuid(accountId) ==> InCharset(hex);
    all[..Min(|all|, 20)]
  }

  lemma Underscored(base: string, digits: string)
    ensures !Reserved(base + "_" + digits)
  {
    assert (base + "_" + digits)[|base|] == '_';
  }

  function Candidate(base: string, i: nat): string
    requires i < 10_000
  {
    var suffix := "_" + ToString(i);
    SuffixLength(i);
    base[..Min(|base|, 20 - |suffix|)] + suffix
  }

  lemma SuffixLength(i: nat)
    requires i < 10_000
    ensures |ToString(i)| <= 4
  {
    assert Pow10(4) == 10 * Pow10(3) && Pow10(3) == 10 * Pow10(2) && Pow10(2) == 10 * Pow10(1) && Pow10(1) == 10 * Pow10(0);
    LengthBound(i, 4);
  }

  /** A candidate is the base and "_" and the number, the base cut where the whole would pass 20. */
  lemma CandidateIs(base: string, i: nat)
    requires i < 10_000
    ensures var c, number := Candidate(base, i), ToString(i);
            && |number| <= 4 && Value(number) == i
            && (|base| + 1 + |number| <= 20 ==> c == base + "_" + number)
            && (|base| + 1 + |number| > 20 ==> |c| == 20 && c == base[..19 - |number|] + "_" + number)
  {
    SuffixLength(i);
    var number := ToString(i);
    if |base| + 1 + |number| <= 20 {
      assert base[..|base|] == base && base + ("_" + number) == base + "_" + number;
    } else {
      assert base[..19 - |number|] + ("_" + number) == base[..19 - |number|] + "_" + number;
    }
  }

  lemma CandidateIsCanonical(base: string, i: nat)
    requires 3 <= |base| && InCharset(base) && i < 10_000
    ensures Canonical(Candidate(base, i))
  {
    SuffixLength(i);
    var front := base[..Min(|base|, 20 - (1 + |ToString(i)|))];
    assert forall c :: c in front ==> c in base;
    assert forall c :: c in ToString(i) ==> NameChar(c);
    assert front + ("_" + ToString(i)) == front + "_" + ToString(i);
    Underscored(front, ToString(i));
  }

  // What follows the last underscore.
  lemma AfterUnderscore(p: string, d: string, q: string, e: string)
    requires p + ("_" + d) == q + ("_" + e) && '_' !in d && '_' !in e
    ensures d == e
  {
    var s := p + ("_" + d);
    assert s[|p|] == '_' && s[|q|] == '_';
    assert |p| == |q|;
    assert s[|p| + 1..] == d && s[|q| + 1..] == e;
  }

  lemma CandidatesDiffer(base: string, i: nat, j: nat)
    requires i < 10_000 && j < 10_000 && Candidate(base, i) == Candidate(base, j)
    ensures i == j
  {
    SuffixLength(i);
    SuffixLength(j);
    AfterUnderscore(base[..Min(|base|, 19 - |ToString(i)|)], ToString(i), base[..Min(|base|, 19 - |ToString(j)|)], ToString(j));
    assert Value(ToString(i)) == i && Value(ToString(j)) == j;
  }

  /** Pigeonhole: when the candidates below `upTo` are all taken, that many names are. */
  lemma {:induction false} TakenIsLarge(base: string, upTo: nat, taken: set<string>)
    requires 2 <= upTo <= 10_000
    requires forall i :: 2 <= i < upTo ==> Candidate(base, i) in taken
    ensures |taken| >= upTo - 2
    decreases upTo
  {
    if upTo > 2 {
      var c := Candidate(base, upTo - 1);
      forall i | 2 <= i < upTo - 1 ensures Candidate(base, i) in taken - {c} {
        if Candidate(base, i) == c {
          CandidatesDiffer(base, i, upTo - 1);
        }
      }
      TakenIsLarge(base, upTo - 1, taken - {c});
    }
  }

  /** The first free candidate. */
  ghost predicate FirstFree(base: string, taken: set<string>, name: string) {
    name !in taken
    && (name == base || exists i :: 2 <= i < 10_000 && FirstFreeAt(base, taken, name, i))
  }

  ghost predicate FirstFreeAt(base: string, taken: set<string>, name: string, i: nat)
    requires i < 10_000
  {
    && base in taken && name == Candidate(base, i)
    && forall j :: 2 <= j < i ==> Candidate(base, j) in taken
  }

  /** Nothing left to choose. */
  ghost predicate AllTaken(base: string, taken: set<string>) {
    base in taken && forall i :: 2 <= i < 10_000 ==> Candidate(base, i) in taken
  }

  /** The shared set of names in use. */
  class Taken {
    var names: set<string>

    constructor ()
      ensures names == {}
    {
      names := {};
    }

    method Add(name: string)
      modifies this
      ensures names == old(names) + {name}
    {
      names := names + {name};
    }

    // The suffix loop.
    method FindSuffixed(base: string) returns (r: Option<string>)
      requires base in names
      ensures r.Some? ==> r.value !in names && exists i :: 2 <= i < 10_000 && FirstFreeAt(base, names, r.value, i)
      ensures r.None? ==> AllTaken(base, names)
    {
      for i := 2 to 10_000
        invariant forall j :: 2 <= j < i ==> Candidate(base, j) in names
      {
        var candidate := Candidate(base, i);
        if candidate !in names && !Reserved(candidate) {
          assert FirstFreeAt(base, names, candidate, i);
          return Some(candidate);
        }
        CandidateNotReserved(base, i);
      }
      return None;
    }

    /** `None` is the error thrown when every candidate is taken. */
    method PickUsername(email: string, accountId: string, lower: string -> string) returns (r: Option<string>)
      modifies this
      ensures r.Some? ==> FirstFree(Base(email, accountId, lower), old(names), r.value) && names == old(names) + {r.value}
      ensures r.None? <==> AllTaken(Base(email, accountId, lower), old(names))
      ensures r.None? ==> names == old(names) && |names| >= 9_998
      ensures r.Some? && IsUuid(accountId) ==> Canonical(r.value)
    {
      var base := Base(email, accountId, lower);
      if base !in names {
        Add(base);
        return Some(base);
      }
      r := FindSuffixed(base);
      if r.None? {
        TakenIsLarge(base, 10_000, names);
        return;
      }
      FirstFreeIsCanonical(base, names, r.value);
      Add(r.value);
    }
  }

  lemma FirstFreeIsCanonical(base: string, taken: set<string>, name: string)
    requires FirstFree(base, taken, name)
    ensures Canonical(base) ==> Canonical(name)
    ensures !AllTaken(base, taken)
  {
    if name != base {
      var i :| 2 <= i < 10_000 && FirstFreeAt(base, taken, name, i);
      if Canonical(base) {
        CandidateIsCanonical(base, i);
      }
    }
  }

  lemma CandidateNotReserved(base: string, i: nat)
    requires i < 10_000
    ensures !Reserved(Candidate(base, i))
  {
    SuffixLength(i);
    var front := base[..Min(|base|, 20 - (1 + |ToString(i)|))];
    assert front + ("_" + ToString(i)) == front + "_" + ToString(i);
    Underscored(front, ToString(i));
  }
}
