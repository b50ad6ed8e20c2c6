/**
 Runs of the migration runner, each failing wherever it may, over a directory that only grows
 (runtime/src/migrations.ts).

 A file that was listed once keeps its name and its script. Between two runs new files may come, with
 any numbers; the runner accepts a listing only when its numbers are 1 to n.
 */
module MigrationRuns {
  import opened Common
  import opened Migrations

  /** One call: what was listed, what the directory held, what was returned. */
  datatype Attempt = Attempt(listing: Listing, files: Files, r: Result)

  /** The listing, when there is one, names what the directory holds. */
  ghost predicate Honest(a: Attempt) {
    match a.listing
    case Unlistable => true
    case Absent => a.files == map[]
    case Names(names) => forall f :: f in names <==> f in a.files
  }

  ghost predicate Grows(a: Files, b: Files) {
    forall f :: f in a ==> f in b && b[f] == a[f]
  }

  const EMPTY := Db(map[], [])

  /** `db` is what the attempts leave of an empty database. */
  ghost predicate Chain(attempts: seq<Attempt>, db: Db)
    decreases |attempts|
  {
    if attempts == [] then db == EMPTY
    else exists mid :: ChainLast(attempts, mid, db)
  }

  ghost predicate ChainLast(attempts: seq<Attempt>, mid: Db, db: Db)
    requires attempts != []
    decreases |attempts|, 0
  {
    var last, before := attempts[|attempts| - 1], attempts[..|attempts| - 1];
    && Chain(before, mid) && Ran(mid, last.listing, last.files, db, last.r) && Honest(last)
    && Grows(FilesOf(before), last.files)
  }

  function FilesOf(attempts: seq<Attempt>): Files {
    if attempts == [] then map[] else attempts[|attempts| - 1].files
  }

  /** A plan of files of the directory. */
  ghost predicate PlanIn(plan: seq<Migration>, files: Files) {
    forall i :: 0 <= i < |plan| ==> plan[i].number == i + 1 && plan[i].filename in files && ParseFilename(plan[i].filename) == Some(i + 1)
  }

  /** A database that holds exactly the first `m` files of a plan. */
  ghost function FirstOf(plan: seq<Migration>, files: Files, m: nat): Db
    requires PlanIn(plan, files) && m <= |plan|
  {
    Db(Rows(plan, 0, m), Scripts(plan, files, 0, m))
  }

  ghost predicate Tracks(db: Db, plan: seq<Migration>, files: Files, m: nat) {
    PlanIn(plan, files) && m <= |plan| && db == FirstOf(plan, files, m)
  }

  // ---------------------------------------------------------------------------
  // Ranges
  // ---------------------------------------------------------------------------

  lemma {:induction false} RowsAre(plan: seq<Migration>, m: nat)
    requires Sequential(plan) && m <= |plan|
    ensures forall k :: k in Rows(plan, 0, m) <==> 1 <= k <= m
    ensures forall k :: 1 <= k <= m ==> Rows(plan, 0, m)[k] == plan[k - 1].filename
  {
    if m > 0 {
      RowsAre(plan, m - 1);
    }
  }

  lemma {:induction false} ScriptsAre(plan: seq<Migration>, files: Files, m: nat)
    requires m <= |plan| && forall i :: 0 <= i < m ==> plan[i].filename in files
    ensures |Scripts(plan, files, 0, m)| == m
    ensures forall i :: 0 <= i < m ==> Scripts(plan, files, 0, m)[i] == files[plan[i].filename]
  {
    if m > 0 {
      ScriptsAre(plan, files, m - 1);
    }
  }

  lemma HighestOf(plan: seq<Migration>, m: nat)
    requires Sequential(plan) && m <= |plan|
    ensures Highest(Rows(plan, 0, m)) == m
  {
    RowsAre(plan, m);
    var h := Highest(Rows(plan, 0, m));
    if m > 0 {
      assert m in Rows(plan, 0, m);
    } else {
      assert Rows(plan, 0, m) == map[];
    }
  }

  lemma {:induction false} RangesJoin(plan: seq<Migration>, files: Files, m: nat, upTo: nat)
    requires m <= upTo <= |plan| && forall i :: 0 <= i < upTo ==> plan[i].filename in files
    ensures Rows(plan, 0, m) + Rows(plan, m, upTo) == Rows(plan, 0, upTo)
    ensures Scripts(plan, files, 0, m) + Scripts(plan, files, m, upTo) == Scripts(plan, files, 0, upTo)
    decreases upTo - m
  {
    if m < upTo {
      RangesJoin(plan, files, m, upTo - 1);
    }
  }

  // The same places of two plans that agree hold the same files.
  lemma {:induction false} SameRange(p: seq<Migration>, q: seq<Migration>, f: Files, g: Files, m: nat)
    requires m <= |p| && m <= |q| && p[..m] == q[..m]
    requires forall i :: 0 <= i < m ==> p[i].filename in f
    requires Grows(f, g)
    ensures forall i :: 0 <= i < m ==> q[i].filename in g
    ensures Rows(q, 0, m) == Rows(p, 0, m) && Scripts(q, g, 0, m) == Scripts(p, f, 0, m)
  {
    forall i | 0 <= i < m ensures q[i] == p[i] {
      assert p[..m][i] == q[..m][i];
    }
    if m > 0 {
      assert p[..m - 1] == p[..m][..m - 1] && q[..m - 1] == q[..m][..m - 1];
      SameRange(p, q, f, g, m - 1);
    }
  }

  // ---------------------------------------------------------------------------
  // One attempt
  // ---------------------------------------------------------------------------

  /** An accepted listing of a grown directory plans the files planned before in the same places. */
  lemma PlanExtends(plan: seq<Migration>, files: Files, names: seq<Name>, files': Files)
    requires PlanIn(plan, files) && Grows(files, files') && Accepted(names)
    requires forall f :: f in names <==> f in files'
    ensures |plan| <= |Sorted(names)| && Sorted(names)[..|plan|] == plan && PlanIn(Sorted(names), files')
  {
    AcceptedPlan(names, files');
    forall i | 0 <= i < |plan| ensures i < |Sorted(names)| && Sorted(names)[i] == plan[i] {
      SamePlace(plan, files, names, i);
    }
    if plan != [] {
      SamePlace(plan, files, names, |plan| - 1);
    }
  }

  // A file planned before is planned again at its place.
  lemma SamePlace(plan: seq<Migration>, files: Files, names: seq<Name>, i: nat)
    requires PlanIn(plan, files) && i < |plan| && Accepted(names)
    requires forall f :: f in files ==> f in names
    ensures i < |Sorted(names)| && Sorted(names)[i] == plan[i]
  {
    OneFilePerNumber(names, plan[i].filename, i + 1);
  }

  lemma AcceptedPlan(names: seq<Name>, files: Files)
    requires Accepted(names) && forall f :: f in names <==> f in files
    ensures PlanIn(Sorted(names), files)
  {
    var sorted := Sorted(names);
    SortedMembers(names);
    forall i | 0 <= i < |sorted| ensures MemberOf(sorted[i], names) {
      assert sorted[i] in sorted;
    }
  }

  predicate MemberOf(m: Migration, names: seq<Name>) {
    m.filename in names && ParseFilename(m.filename) == Some(m.number)
  }

  lemma FirstFile(plan: seq<Migration>, files: Files)
    requires PlanIn(plan, files)
    ensures plan != [] ==> plan[0].filename in files
  {
  }

  lemma UnchangedTracks(db: Db, plan: seq<Migration>, files: Files, m: nat, files': Files)
    requires Tracks(db, plan, files, m) && Grows(files, files')
    ensures Tracks(db, plan, files', m)
  {
    SameRange(plan, plan, files, files', m);
  }

  lemma RangeTracks(before: Db, after: Db, plan: seq<Migration>, files: Files, m: nat, upTo: nat)
    requires Tracks(before, plan, files, m) && AppliedRange(before, after, plan, files, m, upTo)
    ensures Tracks(after, plan, files, upTo)
  {
    RangesJoin(plan, files, m, upTo);
  }

  /** Whatever comes of an attempt, the database holds the first files of a plan, and all of the
      attempt's own plan when it succeeds. */
  lemma AttemptTracks(before: Db, plan: seq<Migration>, files: Files, m: nat, a: Attempt, after: Db)
    requires Tracks(before, plan, files, m) && Honest(a) && Grows(files, a.files)
    requires Ran(before, a.listing, a.files, after, a.r)
    ensures exists plan', m' :: TracksAfter(a, after, plan', m')
  {
    HighestOf(plan, m);
    UnchangedTracks(before, plan, files, m, a.files);
    if a.listing.Names? && Accepted(a.listing.names) {
      var plan' := Sorted(a.listing.names);
      PlanTracks(before, plan, files, m, a.listing.names, a.files);
      if |plan'| > m && a.r != Failed(DATABASE_ERROR) {
        AppliedUpTo(before, plan', m, a, after);
        var m' :| AppliedRange(before, after, plan', a.files, m, m') && (a.r.Ok? ==> m' == |plan'|);
        RangeTracks(before, after, plan', a.files, m, m');
        assert TracksAfter(a, after, plan', m');
      } else {
        assert TracksAfter(a, after, plan', m);
      }
    } else {
      if a.listing.Absent? { FirstFile(plan, a.files); }
      assert TracksAfter(a, after, plan, m);
    }
  }

  ghost predicate TracksAfter(a: Attempt, after: Db, plan: seq<Migration>, m: nat) {
    Tracks(after, plan, a.files, m) && (a.r.Ok? ==> plan == PlanOf(a.listing) && m == |plan|)
  }

  lemma PlanTracks(db: Db, plan: seq<Migration>, files: Files, m: nat, names: seq<Name>, files': Files)
    requires Tracks(db, plan, files, m) && Grows(files, files') && Accepted(names)
    requires forall f :: f in names <==> f in files'
    ensures Tracks(db, Sorted(names), files', m)
  {
    var plan' := Sorted(names);
    PlanExtends(plan, files, names, files');
    assert plan'[..m] == plan[..m];
    SameRange(plan, plan', files, files', m);
  }

  lemma AppliedUpTo(before: Db, plan: seq<Migration>, h: nat, a: Attempt, after: Db)
    requires a.listing.Names? && Accepted(a.listing.names) && plan == Sorted(a.listing.names)
    requires h == Highest(before.table) < |plan| && a.r != Failed(DATABASE_ERROR)
    requires Ran(before, a.listing, a.files, after, a.r)
    ensures exists upTo: nat :: AppliedRange(before, after, plan, a.files, h, upTo) && (a.r.Ok? ==> upTo == |plan|)
  {
    if a.r.Ok? {
      assert AppliedRange(before, after, plan, a.files, h, |plan|);
    }
  }

  // ---------------------------------------------------------------------------
  // Runs
  // ---------------------------------------------------------------------------

  ghost predicate Tracked(attempts: seq<Attempt>, db: Db, plan: seq<Migration>, m: nat) {
    if attempts == [] then db == EMPTY && plan == [] && m == 0
    else TracksAfter(attempts[|attempts| - 1], db, plan, m)
  }

  lemma {:induction false} ChainTracks(attempts: seq<Attempt>, db: Db)
    requires Chain(attempts, db)
    ensures exists plan, m :: Tracked(attempts, db, plan, m)
    decreases |attempts|
  {
    if attempts == [] {
      assert Tracked(attempts, db, [], 0);
    } else {
      var before, last := attempts[..|attempts| - 1], attempts[|attempts| - 1];
      var mid :| ChainLast(attempts, mid, db);
      ChainTracks(before, mid);
      var plan0, m0 :| Tracked(before, mid, plan0, m0);
      AttemptTracks(mid, plan0, FilesOf(before), m0, last, db);
      var plan, m :| TracksAfter(last, db, plan, m);
      assert Tracked(attempts, db, plan, m);
    }
  }

  /** After any attempts, the tracking table is 1 to m, and exactly those scripts have been applied,
      each once and in order. */
  lemma AppliedOnceInOrder(attempts: seq<Attempt>, db: Db, k: nat)
    requires Chain(attempts, db)
    ensures k in db.table <==> 1 <= k <= |db.applied|
    ensures k in db.table ==>
              && ParseFilename(db.table[k]) == Some(k) && db.table[k] in FilesOf(attempts)
              && db.applied[k - 1] == FilesOf(attempts)[db.table[k]]
  {
    ChainTracks(attempts, db);
    var plan, m :| Tracked(attempts, db, plan, m);
    TracksTells(db, plan, FilesOf(attempts), m, k);
  }

  lemma TracksTells(db: Db, plan: seq<Migration>, files: Files, m: nat, k: nat)
    requires Tracks(db, plan, files, m)
    ensures k in db.table <==> 1 <= k <= |db.applied|
    ensures k in db.table ==>
              && ParseFilename(db.table[k]) == Some(k) && db.table[k] in files
              && db.applied[k - 1] == files[db.table[k]]
  {
    RowsAre(plan, m);
    ScriptsAre(plan, files, m);
    if k in db.table {
      assert db.table[k] == plan[k - 1].filename;
    }
  }

  /** Any failures followed by a success leave what one clean run over the last directory leaves. */
  lemma FailuresThenSuccess(attempts: seq<Attempt>, db: Db, clean: Db, n: nat)
    requires Chain(attempts, db) && attempts != [] && attempts[|attempts| - 1].r.Ok?
    requires Ran(EMPTY, attempts[|attempts| - 1].listing, attempts[|attempts| - 1].files, clean, Ok(n))
    ensures db == clean
  {
    var last := attempts[|attempts| - 1];
    ChainTracks(attempts, db);
    assert Honest(last) by { var mid :| ChainLast(attempts, mid, db); }
    CleanRun(last.(r := Ok(n)), clean);
  }

  lemma CleanRun(a: Attempt, clean: Db)
    requires Honest(a) && a.r.Ok? && Ran(EMPTY, a.listing, a.files, clean, a.r)
    ensures Tracks(clean, PlanOf(a.listing), a.files, |PlanOf(a.listing)|)
  {
    assert Tracks(EMPTY, [], map[], 0);
    AttemptTracks(EMPTY, [], map[], 0, a, clean);
  }
}
