/**
 Listing and rotating pre-update backups (apps/desktop/src/runtime-backup.ts, listPreUpdateBackups
 and rotateBackups).

 The removal of each backup may fail on its own. A failed one may leave any part of its directory, is
 not reported and does not stop the others.
 */
module BackupRotation {
  import opened Common
  import opened Sorting
  import opened FileTree
  import opened RuntimeBackup
  import Names = BackupNames

  datatype Backup = Backup(name: Name, createdAt: int)

  predicate IsBackup(name: Name, n: Node) {
    n.Dir? && !EndsWith(name, ".partial") && Names.ParseBackupIso(name).Some?
  }

  function Created(name: Name): int
    requires Names.ParseBackupIso(name).Some?
  {
    Names.ParseBackupIso(name).value
  }

  /** `(a, b) => b.createdAt - a.createdAt`. */
  function NewestFirst(): (Backup, Backup) -> bool {
    (a: Backup, b: Backup) => b.createdAt <= a.createdAt
  }

  ghost predicate DistinctNames(bs: seq<Backup>) {
    forall i, j :: 0 <= i < j < |bs| ==> bs[i].name != bs[j].name
  }

  /** Exactly the finished backups among the entries, each once, newest first. */
  ghost predicate IsListing(entries: map<Name, Node>, bs: seq<Backup>) {
    && (forall b :: b in bs ==> b.name in entries && IsBackup(b.name, entries[b.name]) && b.createdAt == Created(b.name))
    && (forall k :: k in entries && IsBackup(k, entries[k]) ==> Backup(k, Created(k)) in bs)
    && DistinctNames(bs)
    && SortedBy(bs, NewestFirst())
  }

  lemma SortedListing(entries: map<Name, Node>, out: seq<Backup>)
    requires forall b :: b in out ==> b.name in entries && IsBackup(b.name, entries[b.name]) && b.createdAt == Created(b.name)
    requires forall k :: k in entries && IsBackup(k, entries[k]) ==> Backup(k, Created(k)) in out
    requires DistinctNames(out)
    ensures IsListing(entries, Sort(out, NewestFirst()))
  {
    SortKeeps(out, NewestFirst());
    SortSorts(out, NewestFirst());
    SortedDistinct(out);
  }

  lemma SortedDistinct(out: seq<Backup>)
    requires forall b :: b in out ==> Names.ParseBackupIso(b.name) == Some(b.createdAt)
    requires DistinctNames(out)
    ensures DistinctNames(Sort(out, NewestFirst()))
  {
    var bs := Sort(out, NewestFirst());
    SortKeeps(out, NewestFirst());
    if i, j :| 0 <= i < j < |bs| && bs[i].name == bs[j].name {
      assert bs[i] in bs && bs[j] in bs;
      assert bs[i] == bs[j];
      Twice(bs, i, j);
      FoundTwice(out, bs[i]);
    }
  }

  lemma Twice(bs: seq<Backup>, i: nat, j: nat)
    requires i < j < |bs| && bs[i] == bs[j]
    ensures multiset(bs)[bs[i]] >= 2
  {
    assert bs == bs[..i] + [bs[i]] + bs[i + 1..j] + [bs[j]] + bs[j + 1..];
  }

  lemma {:induction false} FoundTwice(bs: seq<Backup>, b: Backup)
    requires multiset(bs)[b] >= 2
    ensures exists k, l :: 0 <= k < l < |bs| && bs[k] == b == bs[l]
    decreases |bs|
  {
    var before, last := bs[..|bs| - 1], bs[|bs| - 1];
    assert bs == before + [last];
    if last == b {
      assert b in multiset(before);
      var k :| 0 <= k < |before| && before[k] == b;
      assert bs[k] == b == bs[|bs| - 1];
    } else {
      FoundTwice(before, b);
      var k, l :| 0 <= k < l < |before| && before[k] == b == before[l];
      assert bs[k] == b == bs[l];
    }
  }

  /** `None` where the source throws. */
  method ListPreUpdateBackups(v: Volume) returns (r: Option<seq<Backup>>)
    modifies v`calls
    ensures v.calls == old(v.calls) + (if Exists(v.root, BACKUPS_ROOT) then 1 else 0)
    ensures r.None? <==> Exists(v.root, BACKUPS_ROOT) && (!IsDir(v.root, BACKUPS_ROOT) || v.faults(v.calls))
    ensures r.Some? ==> IsListing(BackupEntries(v.root), r.value)
  {
    if !Exists(v.root, BACKUPS_ROOT) {
      return Some([]);
    }
    var ok, names := v.ReadDir(BACKUPS_ROOT);
    if !ok {
      return None;
    }
    var entries := BackupEntries(v.root);
    var out: seq<Backup> := [];
    while names != {}
      invariant names <= entries.Keys
      invariant forall b :: b in out ==> b.name in entries && IsBackup(b.name, entries[b.name]) && b.createdAt == Created(b.name)
      invariant forall b :: b in out ==> b.name !in names
      invariant forall k :: k in entries && k !in names && IsBackup(k, entries[k]) ==> Backup(k, Created(k)) in out
      invariant DistinctNames(out)
      decreases names
    {
      var name :| name in names;
      names := names - {name};
      if entries[name].Dir? && !EndsWith(name, ".partial") {
        var epoch := Names.ParseBackupIso(name);
        if epoch.Some? {
          out := out + [Backup(name, epoch.value)];
        }
      }
    }
    SortedListing(entries, out);
    return Some(Sort(out, NewestFirst()));
  }

  // ---------------------------------------------------------------------------
  // Rotation
  // ---------------------------------------------------------------------------

  /** The entries of config/backups while the stale backups numbered below `i` were removed, or
      their removal failed. */
  ghost predicate Rotating(before: map<Name, Node>, after: map<Name, Node>, stale: seq<Backup>, i: nat, removed: seq<Name>) {
    && i <= |stale|
    && (forall k :: k in removed ==> exists j :: 0 <= j < i && stale[j].name == k)
    && (forall k :: k in removed ==> k !in after)
    && (forall k :: k in before && k !in removed ==> k in after && (before[k].Dir? <==> after[k].Dir?))
    && (forall k :: k in after ==> k in before)
    && (forall k :: k in after && (forall j :: 0 <= j < i ==> stale[j].name != k) ==> after[k] == before[k])
  }

  // One failed removal, seen from the entries.
  lemma FailedRemoval(root0: Node, b: map<Name, Node>, after: Node, k: Name) returns (b': map<Name, Node>)
    requires Interrupted(WithBackups(root0, b), after, BACKUPS_ROOT + [k])
    ensures after == WithBackups(root0, b')
    ensures b' == b || exists rest: Node :: k in b && (b[k].Dir? <==> rest.Dir?) && b' == b[k := rest]
  {
    if after == WithBackups(root0, b) {
      return b;
    }
    var rest :| InterruptedAs(WithBackups(root0, b), after, BACKUPS_ROOT + [k], rest);
    LookupPut(root0, BACKUPS_ROOT, Dir(b));
    LookupAppend(WithBackups(root0, b), BACKUPS_ROOT, [k]);
    Top(Dir(b), k, rest);
    PutInto(root0, BACKUPS_ROOT, b, k, rest);
    b' := b[k := rest];
    assert k in b && (b[k].Dir? <==> rest.Dir?);
  }

  /** The names whose removal did not fail, the calls being those after number `n`. */
  ghost function Removed(stale: seq<Backup>, faults: nat -> bool, n: nat): seq<Name> {
    if stale == [] then []
    else Removed(stale[..|stale| - 1], faults, n) + (if faults(n + |stale|) then [] else [stale[|stale| - 1].name])
  }

  lemma {:induction false} RemovedAll(stale: seq<Backup>, faults: nat -> bool, n: nat, b: Backup)
    requires b in stale && forall i :: n < i <= n + |stale| ==> !faults(i)
    ensures b.name in Removed(stale, faults, n)
  {
    var before, last := stale[..|stale| - 1], stale[|stale| - 1];
    assert stale == before + [last];
    assert !faults(n + |stale|);
    if b != last {
      RemovedAll(before, faults, n, b);
    }
  }

  method RemoveOne(v: Volume, name: Name, ghost root0: Node, ghost b: map<Name, Node>) returns (ok: bool, ghost b': map<Name, Node>)
    requires v.root == WithBackups(root0, b)
    modifies v
    ensures v.calls == old(v.calls) + 1 && (ok <==> !v.faults(v.calls))
    ensures v.root == WithBackups(root0, b')
    ensures if ok then b' == b - {name}
            else b' == b || exists rest: Node :: name in b && (b[name].Dir? <==> rest.Dir?) && b' == b[name := rest]
  {
    ok := v.Rm(BACKUPS_ROOT + [name]);
    if ok {
      RemoveInto(root0, BACKUPS_ROOT, b, name);
      b' := b - {name};
    } else {
      b' := FailedRemoval(root0, b, v.root, name);
    }
  }

  lemma RotatingStep(b0: map<Name, Node>, b: map<Name, Node>, b': map<Name, Node>, stale: seq<Backup>, i: nat, removed: seq<Name>, removed': seq<Name>, ok: bool)
    requires i < |stale| && Rotating(b0, b, stale, i, removed)
    requires var name := stale[i].name;
             if ok then b' == b - {name} && removed' == removed + [name]
             else
               && removed' == removed
               && (b' == b || exists rest: Node :: name in b && (b[name].Dir? <==> rest.Dir?) && b' == b[name := rest])
    ensures Rotating(b0, b', stale, i + 1, removed')
  {
    forall k | k in removed' ensures exists j :: 0 <= j < i + 1 && stale[j].name == k {
      if k in removed {
        var j :| 0 <= j < i && stale[j].name == k;
        assert stale[j].name == k;
      } else {
        assert stale[i].name == k;
      }
    }
  }

  method RemoveStale(v: Volume, stale: seq<Backup>) returns (removed: seq<Name>)
    requires IsDir(v.root, BACKUPS_ROOT)
    modifies v
    ensures IsDir(v.root, BACKUPS_ROOT)
    ensures v.calls == old(v.calls) + |stale| && removed == Removed(stale, v.faults, old(v.calls))
    ensures v.root == WithBackups(old(v.root), BackupEntries(v.root))
    ensures Rotating(BackupEntries(old(v.root)), BackupEntries(v.root), stale, |stale|, removed)
  {
    ghost var root0, b0 := v.root, BackupEntries(v.root);
    ghost var b := b0;
    PutSame(root0, BACKUPS_ROOT);
    removed := [];
    for i := 0 to |stale|
      invariant v.root == WithBackups(root0, b)
      invariant Rotating(b0, b, stale, i, removed)
      invariant v.calls == old(v.calls) + i && removed == Removed(stale[..i], v.faults, old(v.calls))
    {
      assert stale[..i + 1][..i] == stale[..i];
      ghost var was, reported := b, removed;
      var ok;
      ok, b := RemoveOne(v, stale[i].name, root0, b);
      if ok {
        removed := removed + [stale[i].name];
      }
      RotatingStep(b0, was, b, stale, i, reported, removed, ok);
    }
    assert stale[..|stale|] == stale;
    LookupPut(root0, BACKUPS_ROOT, Dir(b));
  }

  function Drop(bs: seq<Backup>, keep: nat): seq<Backup> {
    if keep <= |bs| then bs[keep..] else []
  }

  function Keep(bs: seq<Backup>, keep: nat): seq<Backup> {
    if keep <= |bs| then bs[..keep] else bs
  }

  /** `None` where the source throws; otherwise the names removed. */
  method RotateBackups(v: Volume, keep: int) returns (r: Option<seq<Name>>)
    modifies v
    ensures r.None? <==>
              keep < 0 || (Exists(old(v.root), BACKUPS_ROOT) && (!IsDir(old(v.root), BACKUPS_ROOT) || v.faults(old(v.calls) + 1)))
    ensures r.None? ==> v.root == old(v.root)
    ensures r.Some? ==>
              var n := old(v.calls) + (if Exists(old(v.root), BACKUPS_ROOT) then 1 else 0);
              exists all :: Rotated(BackupEntries(old(v.root)), BackupEntries(v.root), all, keep, r.value, v.faults, n)
  {
    if keep < 0 {
      return None;
    }
    var all := ListPreUpdateBackups(v);
    if all.None? {
      return None;
    }
    var removed := RemoveOld(v, all.value, keep);
    return Some(removed);
  }

  method RemoveOld(v: Volume, all: seq<Backup>, keep: nat) returns (removed: seq<Name>)
    requires IsListing(BackupEntries(v.root), all)
    modifies v
    ensures Rotated(BackupEntries(old(v.root)), BackupEntries(v.root), all, keep, removed, v.faults, old(v.calls))
  {
    var stale := Drop(all, keep);
    ghost var before, n := BackupEntries(v.root), v.calls;
    if stale == [] {
      NothingRotated(before, all, keep, v.faults, n);
      return [];
    }
    assert stale[0] in all;
    removed := RemoveStale(v, stale);
  }

  /** What a rotation of the backups `all` leaves and reports, the calls being those after number `n`. */
  ghost predicate Rotated(before: map<Name, Node>, after: map<Name, Node>, all: seq<Backup>, keep: nat, removed: seq<Name>, faults: nat -> bool, n: nat) {
    && IsListing(before, all)
    && Rotating(before, after, Drop(all, keep), |Drop(all, keep)|, removed)
    && removed == Removed(Drop(all, keep), faults, n)
  }

  lemma NothingRotated(before: map<Name, Node>, all: seq<Backup>, keep: nat, faults: nat -> bool, n: nat)
    requires IsListing(before, all) && Drop(all, keep) == []
    ensures Rotated(before, before, all, keep, [], faults, n)
  {
  }

  /** When no removal fails, exactly the `keep` newest backups are left. */
  lemma QuietRotation(before: map<Name, Node>, after: map<Name, Node>, all: seq<Backup>, keep: nat, removed: seq<Name>, faults: nat -> bool, n: nat)
    requires Rotated(before, after, all, keep, removed, faults, n)
    requires forall i :: n < i <= n + |Drop(all, keep)| ==> !faults(i)
    ensures IsListing(after, Keep(all, keep))
  {
    forall b | b in Drop(all, keep) ensures b.name in removed {
      RemovedAll(Drop(all, keep), faults, n, b);
    }
    KeepsTheNewest(before, after, all, keep, removed);
  }

  lemma KeptAndDropped(all: seq<Backup>, keep: nat)
    requires DistinctNames(all) && SortedBy(all, NewestFirst())
    ensures DistinctNames(Keep(all, keep)) && SortedBy(Keep(all, keep), NewestFirst())
    ensures forall kept, gone :: kept in Keep(all, keep) && gone in Drop(all, keep) ==> gone.createdAt <= kept.createdAt
    ensures forall b :: b in all <==> b in Keep(all, keep) || b in Drop(all, keep)
  {
    var kept, stale := Keep(all, keep), Drop(all, keep);
    assert all == kept + stale;
    forall i, j | 0 <= i < j < |kept| ensures kept[i].name != kept[j].name && NewestFirst()(kept[i], kept[j]) {
      assert all[i] == kept[i] && all[j] == kept[j];
    }
    forall a, b | a in kept && b in stale ensures b.createdAt <= a.createdAt {
      var i :| 0 <= i < |kept| && kept[i] == a;
      var j :| 0 <= j < |stale| && stale[j] == b;
      assert all[i] == a && all[|kept| + j] == b && NewestFirst()(all[i], all[|kept| + j]);
    }
  }

  /** When no removal failed, exactly the `keep` newest backups are left. */
  lemma KeepsTheNewest(before: map<Name, Node>, after: map<Name, Node>, all: seq<Backup>, keep: nat, removed: seq<Name>)
    requires IsListing(before, all)
    requires Rotating(before, after, Drop(all, keep), |Drop(all, keep)|, removed)
    requires forall b :: b in Drop(all, keep) ==> b.name in removed
    ensures IsListing(after, Keep(all, keep))
    ensures forall kept, gone :: kept in Keep(all, keep) && gone in Drop(all, keep) ==> gone.createdAt <= kept.createdAt
  {
    KeptAndDropped(all, keep);
    forall b | b in Keep(all, keep)
      ensures b.name in after && IsBackup(b.name, after[b.name]) && b.createdAt == Created(b.name)
    {
      assert b in all;
    }
    forall k | k in after && IsBackup(k, after[k]) ensures Backup(k, Created(k)) in Keep(all, keep) {
      assert k in before && IsBackup(k, before[k]);
      assert Backup(k, Created(k)) in all;
    }
  }

  /** Whatever fails, the backups listed afterwards are those listed before less the ones reported. */
  lemma ReportedAreGone(before: map<Name, Node>, after: map<Name, Node>, all: seq<Backup>, keep: nat, removed: seq<Name>)
    requires IsListing(before, all)
    requires Rotating(before, after, Drop(all, keep), |Drop(all, keep)|, removed)
    ensures forall k :: k in after && IsBackup(k, after[k]) <==> k in before && IsBackup(k, before[k]) && k !in removed
  {
  }
}
