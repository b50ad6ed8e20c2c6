/**
 The migration runner (runtime/src/migrations.ts, runMigrations).

 A script and its row in the tracking table are one transaction, so the database is the table and
 the scripts whose effects it holds, in order. Scripts do not touch the tracking table.
 */
module Migrations {
  import opened Common
  import opened Decimal
  import Sorting

  type Name = string
  type Script = string

  datatype Migration = Migration(number: nat, filename: Name)

  /** Scripts in files of a directory. */
  type Files = map<Name, Script>

  datatype Listing = Unlistable | Absent | Names(names: seq<Name>)

  datatype Error =
    | DATABASE_ERROR
    | MIGRATIONS_DIR_ERROR
    | INVALID_MIGRATION_FILENAME(bad: Name)
    | MIGRATION_GAP(at: Name)
    | MIGRATION_READ_FAILED(unread: Name)
    | MIGRATION_FAILED(failed: Name)

  datatype Result = Ok(applied: nat) | Failed(error: Error)

  /** Rows of the tracking table by number, and the scripts applied, oldest first. */
  datatype Db = Db(table: map<nat, Name>, applied: seq<Script>)

  // ---------------------------------------------------------------------------
  // File names
  // ---------------------------------------------------------------------------

  predicate IsLineEnd(c: char) {
    c == '\n' || c == '\r' || c == '\U{2028}' || c == '\U{2029}'
  }

  /** `/^(\d+)_.+\.sql$/` and the number in front. */
  function ParseFilename(filename: Name): Option<nat> {
    var digits := DigitPrefix(filename);
    if 0 < |digits| < |filename| && filename[|digits|] == '_' then
      var rest := filename[|digits| + 1..];
      if |rest| > 4 && EndsWith(rest, ".sql") && forall c :: c in rest[..|rest| - 4] ==> !IsLineEnd(c)
      then Some(Value(digits)) else None
    else None
  }

  /** `filename` is a number in digits, an underscore, some text on one line and the extension. */
  ghost predicate Spells(filename: Name, digits: string, text: string) {
    && AllDigits(digits) && text != ""
    && (forall c :: c in text ==> c != '\n' && c != '\r' && c != '\U{2028}' && c != '\U{2029}')
    && filename == digits + ("_" + (text + ".sql"))
  }

  lemma {:induction false} PrefixBeforeUnderscore(digits: string, rest: string)
    requires forall c :: c in digits ==> IsDigit(c)
    ensures DigitPrefix(digits + ("_" + rest)) == digits
  {
    var s := digits + ("_" + rest);
    if digits == "" {
      assert s[0] == '_';
    } else {
      assert digits == [digits[0]] + digits[1..] && s[1..] == digits[1..] + ("_" + rest) && digits[0] in digits;
      PrefixBeforeUnderscore(digits[1..], rest);
    }
  }

  lemma {:induction false} PrefixIsPrefix(s: string)
    ensures |DigitPrefix(s)| <= |s| && s[..|DigitPrefix(s)|] == DigitPrefix(s)
  {
    if s != "" && IsDigit(s[0]) { PrefixIsPrefix(s[1..]); }
  }

  lemma ParsedIsSpelled(filename: Name)
    requires ParseFilename(filename).Some?
    ensures exists digits, text :: Spells(filename, digits, text) && Value(digits) == ParseFilename(filename).value
  {
    var prefix := DigitPrefix(filename);
    var rest := filename[|prefix| + 1..];
    var text := rest[..|rest| - 4];
    PrefixIsPrefix(filename);
    assert rest == text + ".sql";
    assert filename == prefix + ("_" + rest);
    forall c | c in text ensures c != '\n' && c != '\r' && c != '\U{2028}' && c != '\U{2029}' { assert !IsLineEnd(c); }
    assert Spells(filename, prefix, text);
  }

  lemma SpelledIsParsed(filename: Name, digits: string, text: string)
    requires Spells(filename, digits, text)
    ensures ParseFilename(filename) == Some(Value(digits))
  {
    var rest := text + ".sql";
    PrefixBeforeUnderscore(digits, rest);
    assert filename[|digits| + 1..] == rest;
    assert rest[..|rest| - 4] == text;
  }

  /** The names that parse, and to what: the number their digits spell. Every other name is refused. */
  lemma ParsesIffSpelled(filename: Name, n: nat)
    ensures ParseFilename(filename) == Some(n) <==>
              exists digits, text :: Spells(filename, digits, text) && Value(digits) == n
  {
    if ParseFilename(filename) == Some(n) {
      ParsedIsSpelled(filename);
    }
    if digits, text :| Spells(filename, digits, text) && Value(digits) == n {
      SpelledIsParsed(filename, digits, text);
    }
  }

  predicate AllParse(names: seq<Name>) {
    forall f :: f in names ==> ParseFilename(f).Some?
  }

  function ParseAll(names: seq<Name>): (ms: seq<Migration>)
    requires AllParse(names)
    ensures |ms| == |names|
    ensures forall i :: 0 <= i < |ms| ==> ms[i] == Migration(ParseFilename(names[i]).value, names[i])
  {
    if names == [] then []
    else
      assert forall f :: f in names[..|names| - 1] ==> f in names;
      ParseAll(names[..|names| - 1]) + [Migration(ParseFilename(names[|names| - 1]).value, names[|names| - 1])]
  }

  predicate ByNumber(a: Migration, b: Migration) {
    a.number <= b.number
  }

  function Sorted(names: seq<Name>): seq<Migration>
    requires AllParse(names)
  {
    Sorting.Sort(ParseAll(names), ByNumber)
  }

  predicate Sequential(ms: seq<Migration>) {
    forall i :: 0 <= i < |ms| ==> ms[i].number == i + 1
  }

  /** The listing passes both checks. */
  predicate Accepted(names: seq<Name>) {
    AllParse(names) && Sequential(Sorted(names))
  }

  // ---------------------------------------------------------------------------
  // What is accepted
  // ---------------------------------------------------------------------------

  /** Every number from 1 to the number of files is some file's number. */
  predicate Complete(names: seq<Name>) {
    forall k :: 1 <= k <= |names| ==> exists f :: f in names && ParseFilename(f) == Some(k)
  }

  ghost predicate HasNumber(ms: seq<Migration>, k: nat) {
    exists m :: m in ms && m.number == k
  }

  // A sorted list as long as the range it covers is the range.
  lemma {:induction false} CoversIsSequential(ms: seq<Migration>)
    requires forall i, j :: 0 <= i < j < |ms| ==> ms[i].number <= ms[j].number
    requires forall k :: 1 <= k <= |ms| ==> HasNumber(ms, k)
    ensures Sequential(ms)
  {
    if ms != [] {
      var n, before := |ms|, ms[..|ms| - 1];
      assert HasNumber(ms, n);
      var last :| last in ms && last.number == n;
      assert ms == before + [ms[n - 1]];
      assert ms[n - 1].number >= n;
      forall k | 1 <= k <= |before| ensures HasNumber(before, k) {
        assert HasNumber(ms, k);
        var m :| m in ms && m.number == k;
        assert m in before;
      }
      CoversIsSequential(before);
      forall i | 0 <= i < n - 1 ensures ms[i].number == i + 1 {
        assert ms[i] == before[i];
      }
    }
  }

  lemma SortedMembers(names: seq<Name>)
    requires AllParse(names)
    ensures |Sorted(names)| == |names|
    ensures forall m :: m in Sorted(names) <==> m.filename in names && ParseFilename(m.filename) == Some(m.number)
  {
    Sorting.SortKeeps(ParseAll(names), ByNumber);
  }

  lemma SortedOrder(names: seq<Name>)
    requires AllParse(names)
    ensures forall i, j :: 0 <= i < j < |Sorted(names)| ==> Sorted(names)[i].number <= Sorted(names)[j].number
  {
    Sorting.SortSorts(ParseAll(names), ByNumber);
    forall i, j | 0 <= i < j < |Sorted(names)| ensures Sorted(names)[i].number <= Sorted(names)[j].number {
      assert ByNumber(Sorted(names)[i], Sorted(names)[j]);
    }
  }

  /** Sorting and checking by index accepts exactly the listings whose numbers are 1 to n. */
  lemma AcceptedIff(names: seq<Name>)
    ensures Accepted(names) <==> AllParse(names) && Complete(names)
  {
    if AllParse(names) {
      if Sequential(Sorted(names)) {
        AcceptedIsComplete(names);
      } else if Complete(names) {
        CompleteIsAccepted(names);
      }
    }
  }

  lemma AtPlace(ms: seq<Migration>, k: nat)
    requires Sequential(ms) && 1 <= k <= |ms|
    ensures exists f :: Migration(k, f) in ms
  {
    assert ms[k - 1] == Migration(k, ms[k - 1].filename);
  }

  lemma AcceptedIsComplete(names: seq<Name>)
    requires Accepted(names)
    ensures Complete(names)
  {
    SortedMembers(names);
    forall k | 1 <= k <= |names| ensures exists f :: f in names && ParseFilename(f) == Some(k) {
      AtPlace(Sorted(names), k);
      var f :| Migration(k, f) in Sorted(names);
      assert f in names;
    }
  }

  lemma CompleteIsAccepted(names: seq<Name>)
    requires AllParse(names) && Complete(names)
    ensures Accepted(names)
  {
    var sorted := Sorted(names);
    SortedMembers(names);
    SortedOrder(names);
    forall k | 1 <= k <= |sorted| ensures HasNumber(sorted, k) {
      var f :| f in names && ParseFilename(f) == Some(k);
      assert Migration(k, f) in sorted;
    }
    CoversIsSequential(sorted);
  }

  /** Each number is one file's only. */
  lemma DifferentNumbers(names: seq<Name>)
    requires Accepted(names)
    ensures forall i, j :: 0 <= i < |names| && 0 <= j < |names| && names[i] != names[j]
                           ==> ParseFilename(names[i]) != ParseFilename(names[j])
  {
    forall i, j | 0 <= i < |names| && 0 <= j < |names| && ParseFilename(names[i]) == ParseFilename(names[j])
      ensures names[i] == names[j]
    {
      OneFilePerNumber(names, names[i], ParseFilename(names[i]).value);
      OneFilePerNumber(names, names[j], ParseFilename(names[i]).value);
    }
  }

  /** In an accepted listing the file numbered `k` is the one at place `k`. */
  lemma OneFilePerNumber(names: seq<Name>, f: Name, k: nat)
    requires Accepted(names) && f in names && ParseFilename(f) == Some(k)
    ensures 1 <= k <= |Sorted(names)| && Sorted(names)[k - 1] == Migration(k, f)
  {
    SortedMembers(names);
    assert Migration(k, f) in Sorted(names);
    var i :| 0 <= i < |Sorted(names)| && Sorted(names)[i] == Migration(k, f);
    assert Sorted(names)[i].number == i + 1;
  }

  // ---------------------------------------------------------------------------
  // One run
  // ---------------------------------------------------------------------------

  function Highest(table: map<nat, Name>): (h: nat)
    ensures table == map[] ==> h == 0
    ensures table != map[] ==> h in table
    ensures forall k :: k in table ==> k <= h
  {
    MaxOf(table.Keys)
  }

  ghost predicate IsMax(s: set<nat>, h: nat) {
    (s == {} ==> h == 0) && (s != {} ==> h in s) && forall k :: k in s ==> k <= h
  }

  function MaxOf(s: set<nat>): (h: nat)
    ensures IsMax(s, h)
  {
    MaxExists(s);
    if s == {} then 0
    else
      var h :| h in s && forall k :: k in s ==> k <= h;
      h
  }

  lemma {:induction false} MaxExists(s: set<nat>)
    ensures exists h :: IsMax(s, h)
    decreases |s|
  {
    if s == {} {
      assert IsMax(s, 0);
    } else {
      var k :| k in s;
      MaxExists(s - {k});
      var h :| IsMax(s - {k}, h);
      assert s == s - {k} + {k};
      assert IsMax(s, if h < k then k else h);
    }
  }

  /** Rows and scripts for the files at places `from` to `upTo` of a plan. */
  function Rows(plan: seq<Migration>, from: nat, upTo: nat): map<nat, Name>
    requires from <= upTo <= |plan|
  {
    if from == upTo then map[] else Rows(plan, from, upTo - 1)[plan[upTo - 1].number := plan[upTo - 1].filename]
  }

  function Scripts(plan: seq<Migration>, files: Files, from: nat, upTo: nat): seq<Script>
    requires from <= upTo <= |plan|
    requires forall i :: from <= i < upTo ==> plan[i].filename in files
  {
    if from == upTo then [] else Scripts(plan, files, from, upTo - 1) + [files[plan[upTo - 1].filename]]
  }

  /** Places `from` to `upTo` of the plan were applied in order and nothing else. */
  ghost predicate AppliedRange(before: Db, after: Db, plan: seq<Migration>, files: Files, from: nat, upTo: nat) {
    && from <= upTo <= |plan|
    && (forall i :: from <= i < upTo ==> plan[i].filename in files)
    && after == Db(before.table + Rows(plan, from, upTo), before.applied + Scripts(plan, files, from, upTo))
  }

  function PlanOf(listing: Listing): seq<Migration> {
    if listing.Names? && AllParse(listing.names) then Sorted(listing.names) else []
  }

  /** What one run does: nothing unless the listing is accepted; otherwise the files above the highest
      applied number, in order, all of them or those before the one the error names. */
  ghost predicate Ran(before: Db, listing: Listing, files: Files, after: Db, r: Result) {
    var h := Highest(before.table);
    if r == Failed(DATABASE_ERROR) then after == before
    else if listing.Unlistable? then after == before && r == Failed(MIGRATIONS_DIR_ERROR)
    else if listing.Names? && !Accepted(listing.names) then
      after == before && r.Failed? && Explains(listing.names, r.error)
    else
      var plan := PlanOf(listing);
      if |plan| <= h then after == before && r == Ok(0)
      else PendingApplied(before, after, plan, files, h, r)
  }

  /** All the files from place `h` on, or those before the one the error names. */
  ghost predicate PendingApplied(before: Db, after: Db, plan: seq<Migration>, files: Files, h: nat, r: Result) {
    match r
    case Ok(n) => n == |plan| - h && AppliedRange(before, after, plan, files, h, |plan|)
    case Failed(MIGRATION_READ_FAILED(f)) => StoppedAt(before, after, plan, files, h, f)
    case Failed(MIGRATION_FAILED(f)) => StoppedAt(before, after, plan, files, h, f)
    case _ => false
  }

  /** The error names the first file that breaks a rule: in the order listed for the name's form, in
      the order of numbers for a gap. */
  ghost predicate Explains(names: seq<Name>, e: Error) {
    match e
    case INVALID_MIGRATION_FILENAME(f) => exists i :: 0 <= i < |names| && names[i] == f && FirstInvalid(names, i)
    case MIGRATION_GAP(f) => AllParse(names) && exists i :: 0 <= i < |Sorted(names)| && Sorted(names)[i].filename == f && FirstGap(Sorted(names), i)
    case _ => false
  }

  predicate FirstInvalid(names: seq<Name>, i: nat)
    requires i < |names|
  {
    ParseFilename(names[i]).None? && AllParse(names[..i])
  }

  predicate FirstGap(ms: seq<Migration>, i: nat)
    requires i < |ms|
  {
    ms[i].number != i + 1 && Sequential(ms[..i])
  }

  ghost predicate StoppedAt(before: Db, after: Db, plan: seq<Migration>, files: Files, h: nat, f: Name) {
    exists upTo: nat :: upTo < |plan| && plan[upTo].filename == f && AppliedRange(before, after, plan, files, h, upTo)
  }

  /** The files from place `h` on can be read. */
  predicate AllRead(plan: seq<Migration>, files: Files, h: nat) {
    forall i :: h <= i < |plan| ==> plan[i].filename in files
  }

  /** What is no fault of the database or the disk. */
  predicate Runnable(listing: Listing, files: Files, h: nat) {
    listing.Absent? || (listing.Names? && Accepted(listing.names) && AllRead(Sorted(listing.names), files, h))
  }

  class Database {
    var table: map<nat, Name>
    var applied: seq<Script>
    var calls: nat
    const faults: nat -> bool

    function State(): Db
      reads this
    {
      Db(table, applied)
    }

    constructor (db: Db, faults: nat -> bool)
      ensures State() == db
    {
      table, applied, calls, this.faults := db.table, db.applied, 0, faults;
    }

    /** None of the calls after number `from`, up to number `to`, fails. */
    ghost predicate NoFault(from: nat, to: nat) {
      forall i :: from < i <= to ==> !faults(i)
    }

    method Attempt() returns (ok: bool)
      modifies this`calls
      ensures calls == old(calls) + 1 && (ok <==> !faults(calls))
    {
      calls := calls + 1;
      ok := !faults(calls);
    }

    /** The script and its row, or neither. The number is the table's primary key. */
    method ApplyMigration(sql: Script, number: nat, filename: Name) returns (ok: bool)
      modifies this
      ensures calls == old(calls) + 1 && (ok <==> !faults(calls) && number !in old(table))
      ensures ok ==> table == old(table)[number := filename] && applied == old(applied) + [sql]
      ensures !ok ==> State() == old(State())
    {
      ok := Attempt();
      ok := ok && number !in table;
      if ok {
        table, applied := table[number := filename], applied + [sql];
      }
    }

    method RunMigrations(listing: Listing, files: Files) returns (r: Result)
      modifies this
      ensures Ran(old(State()), listing, files, State(), r)
      ensures calls > old(calls) && (r.Ok? <==> NoFault(old(calls), calls) && Runnable(listing, files, Highest(old(table))))
      ensures r == Failed(DATABASE_ERROR) <==> faults(old(calls) + 1)
    {
      var up := Attempt();   // the WAL pragma and the CREATE TABLE
      if !up { return Failed(DATABASE_ERROR); }
      var highestApplied := Highest(table);
      match listing {
        case Unlistable => return Failed(MIGRATIONS_DIR_ERROR);
        case Absent => return Ok(0);
        case Names(names) =>
          var checked := CheckListing(names);
          match checked {
            case Refused(error) => return Failed(error);
            case Plan(parsed) =>
              if |parsed| <= highestApplied {   // no file is pending
                return Ok(0);
              }
              r := ApplyPending(parsed, files, highestApplied);
          }
      }
    }

    // The files above the highest applied number.
    method ApplyPending(plan: seq<Migration>, files: Files, highestApplied: nat) returns (r: Result)
      requires Sequential(plan) && highestApplied == Highest(table) < |plan|
      modifies this
      ensures PendingApplied(old(State()), State(), plan, files, highestApplied, r)
      ensures calls >= old(calls) && (r.Ok? <==> NoFault(old(calls), calls) && AllRead(plan, files, highestApplied))
      ensures forall f :: r == Failed(MIGRATION_READ_FAILED(f)) ==> f !in files || faults(calls)
      ensures forall f :: r == Failed(MIGRATION_FAILED(f)) ==> f in files && faults(calls)
    {
      ghost var before := State();
      for i := highestApplied to |plan|
        invariant AppliedRange(before, State(), plan, files, highestApplied, i)
        invariant calls >= old(calls) && NoFault(old(calls), calls)
      {
        var failed := ApplyNext(plan, i, files, highestApplied, before);
        if failed.Some? {
          return Failed(failed.value);
        }
      }
      return Ok(|plan| - highestApplied);
    }

    method ApplyNext(plan: seq<Migration>, i: nat, files: Files, ghost from: nat, ghost before: Db) returns (failed: Option<Error>)
      requires Sequential(plan) && i < |plan| && from == Highest(before.table) && AppliedRange(before, State(), plan, files, from, i)
      modifies this
      ensures calls > old(calls) && (failed.None? <==> NoFault(old(calls), calls) && plan[i].filename in files)
      ensures failed.None? ==> AppliedRange(before, State(), plan, files, from, i + 1)
      ensures failed.Some? ==>
                && State() == old(State())
                && (failed == Some(MIGRATION_READ_FAILED(plan[i].filename)) || failed == Some(MIGRATION_FAILED(plan[i].filename)))
                && (failed.value.MIGRATION_READ_FAILED? ==> plan[i].filename !in files || faults(calls))
                && (failed.value.MIGRATION_FAILED? ==> plan[i].filename in files && faults(calls))
    {
      ghost var was := State();
      var migration := plan[i];
      var readable := Attempt();
      if !readable || migration.filename !in files {
        return Some(MIGRATION_READ_FAILED(migration.filename));
      }
      NotYetApplied(before, was, plan, files, from, i);
      var ok := ApplyMigration(files[migration.filename], migration.number, migration.filename);
      if !ok {
        return Some(MIGRATION_FAILED(migration.filename));
      }
      OneMore(before, was, State(), plan, files, from, i);
      return None;
    }
  }

  /** The plan's number `i + 1` is not in the table once the places before `i` are applied. */
  lemma NotYetApplied(before: Db, was: Db, plan: seq<Migration>, files: Files, from: nat, i: nat)
    requires i < |plan| && Sequential(plan) && from == Highest(before.table) && AppliedRange(before, was, plan, files, from, i)
    ensures plan[i].number !in was.table
  {
    RowsNumbers(plan, from, i);
  }

  lemma {:induction false} RowsNumbers(plan: seq<Migration>, from: nat, upTo: nat)
    requires from <= upTo <= |plan| && Sequential(plan)
    ensures forall k :: k in Rows(plan, from, upTo) ==> k <= upTo
  {
    if from < upTo {
      RowsNumbers(plan, from, upTo - 1);
    }
  }

  lemma OneMore(before: Db, was: Db, now: Db, plan: seq<Migration>, files: Files, from: nat, i: nat)
    requires i < |plan| && AppliedRange(before, was, plan, files, from, i) && plan[i].filename in files
    requires now.table == was.table[plan[i].number := plan[i].filename]
    requires now.applied == was.applied + [files[plan[i].filename]]
    ensures AppliedRange(before, now, plan, files, from, i + 1)
  {
  }

  datatype Checked = Plan(plan: seq<Migration>) | Refused(error: Error)

  lemma NoMigration(names: seq<Name>, i: nat)
    requires i < |names| && AllParse(names[..i]) && ParseFilename(names[i]).None?
    ensures !AllParse(names) && Explains(names, INVALID_MIGRATION_FILENAME(names[i]))
  {
    assert names[i] in names && FirstInvalid(names, i);
  }

  // The loop over the names, up to the first that is no migration's.
  method ParseListing(names: seq<Name>) returns (parsed: seq<Migration>, bad: Option<Error>)
    ensures bad.None? ==> AllParse(names) && parsed == ParseAll(names)
    ensures bad.Some? ==> !AllParse(names) && Explains(names, bad.value)
  {
    parsed := [];
    for i := 0 to |names|
      invariant AllParse(names[..i]) && parsed == ParseAll(names[..i])
    {
      var number := ParseFilename(names[i]);
      if number.None? {
        NoMigration(names, i);
        return parsed, Some(INVALID_MIGRATION_FILENAME(names[i]));
      }
      parsed := parsed + [Migration(number.value, names[i])];
    }
    assert names[..|names|] == names;
    bad := None;
  }

  /** The names are parsed, sorted by number and checked by index. */
  method CheckListing(names: seq<Name>) returns (r: Checked)
    ensures r.Plan? <==> Accepted(names)
    ensures r.Plan? ==> r.plan == Sorted(names)
    ensures r.Refused? ==> Explains(names, r.error)
  {
    var parsed, bad := ParseListing(names);
    if bad.Some? {
      return Refused(bad.value);
    }
    parsed := Sorting.Sort(parsed, ByNumber);
    for i := 0 to |parsed|
      invariant forall j :: 0 <= j < i ==> parsed[j].number == j + 1
    {
      if parsed[i].number != i + 1 {
        assert FirstGap(parsed, i);
        return Refused(MIGRATION_GAP(parsed[i].filename));
      }
    }
    return Plan(parsed);
  }
}
