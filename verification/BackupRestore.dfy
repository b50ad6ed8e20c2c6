/** Restoring a pre-update snapshot (apps/desktop/src/runtime-backup.ts, restorePreUpdateBackup). */
module BackupRestore {
  // The live trees are stashed, the snapshot is copied into place, the backups move over, and the
  // stashes go; a failed step rolls back.

  import opened Common
  import opened FileTree
  import opened BackupCopy
  import opened RuntimeBackup

  type Entries = map<Name, Node>

  /** The steps that can throw, in order. */
  datatype Stage =
    | StashData | StashConfig | CopyData | CopyConfig | MoveBackups | DropDataStash | DropConfigStash

  datatype Outcome = Restored | Refused | Failed(at: Stage, rolledBack: bool)

  /** The names of one restore: the two stashes, and the snapshot inside config/. */
  datatype Job = Job(dataStash: Name, configStash: Name, rel: Path)

  ghost predicate Started(root: Node, job: Job) {
    && root.Dir?
    && job.dataStash !in {DATA, CONFIG} && job.configStash !in {DATA, CONFIG} && job.dataStash != job.configStash
    && CONFIG in root.children
    && Exists(root.children[CONFIG], job.rel + [DATA]) && Exists(root.children[CONFIG], job.rel + [CONFIG])
  }

  /** Started with unused stash names. */
  ghost predicate Ready(root: Node, job: Job) {
    Started(root, job) && job.dataStash !in root.children && job.configStash !in root.children
  }

  /** The rename of `live` cannot replace what has the name of its stash: only a directory can
      replace an empty one. */
  predicate StashTaken(ch: Entries, live: Name, stash: Name) {
    live in ch && stash in ch && !(ch[stash] == EMPTY && ch[live].Dir?)
  }

  /** The entries as the steps after the stashing see them. A stash name that was in use is either
      replaced or, without a live data/, taken for its stash. */
  function Seen(ch: Entries, job: Job): Entries {
    var rest := ch - {job.dataStash, job.configStash};
    if DATA !in ch && job.dataStash in ch then rest[DATA := ch[job.dataStash]] else rest
  }

  lemma SeenReady(ch: Entries, job: Job)
    requires Started(Dir(ch), job)
    ensures Ready(Dir(Seen(ch, job)), job) && Seen(ch, job)[CONFIG] == ch[CONFIG]
    ensures Seen(ch, job) == ch <==> job.dataStash !in ch && job.configStash !in ch
  {
    if job.dataStash !in ch && job.configStash !in ch {
      assert ch - {job.dataStash, job.configStash} == ch;
    }
  }

  // ---------------------------------------------------------------------------
  // What each step leaves, over the top-level entries of the volume
  // ---------------------------------------------------------------------------

  function DataStashed(ch: Entries, job: Job): Entries {
    if DATA in ch then (ch - {DATA})[job.dataStash := ch[DATA]] else ch
  }

  function Stashed(ch: Entries, job: Job): Entries
    requires CONFIG in ch
  {
    (DataStashed(ch, job) - {CONFIG})[job.configStash := ch[CONFIG]]
  }

  function SnapData(ch: Entries, job: Job): Node
    requires CONFIG in ch && Exists(ch[CONFIG], job.rel + [DATA])
  {
    Lookup(ch[CONFIG], job.rel + [DATA]).value
  }

  function SnapConfig(ch: Entries, job: Job): Node
    requires CONFIG in ch && Exists(ch[CONFIG], job.rel + [CONFIG])
  {
    Lookup(ch[CONFIG], job.rel + [CONFIG]).value
  }

  function HasBackups(config: Node): bool {
    config.Dir? && BACKUPS_SUBDIR in config.children
  }

  /** The restored config/: the snapshot's, with the current backups subtree. */
  function RestoredConfig(ch: Entries, job: Job): Node
    requires CONFIG in ch && Exists(ch[CONFIG], job.rel + [CONFIG])
  {
    var c := Clean(SnapConfig(ch, job));
    if HasBackups(ch[CONFIG]) && c.Dir? then Dir(c.children[BACKUPS_SUBDIR := ch[CONFIG].children[BACKUPS_SUBDIR]]) else c
  }

  function Materialized(ch: Entries, job: Job): Entries
    requires CONFIG in ch && Exists(ch[CONFIG], job.rel + [DATA]) && Exists(ch[CONFIG], job.rel + [CONFIG])
  {
    Stashed(ch, job)[DATA := Clean(SnapData(ch, job))][CONFIG := Clean(SnapConfig(ch, job))]
  }

  /** After the backups moved: what remains of the old config/ is in its stash. */
  function Moved(ch: Entries, job: Job): Entries
    requires CONFIG in ch && Exists(ch[CONFIG], job.rel + [DATA]) && Exists(ch[CONFIG], job.rel + [CONFIG])
  {
    Materialized(ch, job)[CONFIG := RestoredConfig(ch, job)][job.configStash := Dropping(ch[CONFIG], BACKUPS_SUBDIR)]
  }

  /** The entries after the step `at` threw, before the rollback. */
  ghost predicate Broken(at: Stage, ch: Entries, now: Entries, job: Job)
    requires CONFIG in ch && Exists(ch[CONFIG], job.rel + [DATA]) && Exists(ch[CONFIG], job.rel + [CONFIG])
  {
    match at
    case StashData => now == ch
    case StashConfig => now == DataStashed(ch, job)
    case CopyData => now - {DATA} == Stashed(ch, job)
    case CopyConfig => now - {DATA, CONFIG} == Stashed(ch, job)
    case MoveBackups => now - {DATA, CONFIG} == Stashed(ch, job)
    case DropDataStash =>
      && now - {job.dataStash} == Moved(ch, job) - {job.dataStash}
      && (job.dataStash in now <==> DATA in ch)
      && (DATA in ch ==> Leftover(now[job.dataStash], ch[DATA]))
    case DropConfigStash =>
      && now - {job.configStash} == Moved(ch, job) - {job.dataStash, job.configStash}
      && job.configStash in now && Leftover(now[job.configStash], Dropping(ch[CONFIG], BACKUPS_SUBDIR))
  }

  /** The same for any stash names. */
  ghost predicate Failure(at: Stage, ch: Entries, now: Entries, job: Job)
    requires Started(Dir(ch), job)
  {
    SeenReady(ch, job);
    match at
    case StashData => now == ch
    case StashConfig => now == DataStashed(ch, job)
    case _ => Broken(at, Seen(ch, job), now, job)
  }

  /** What the catch block makes of the entries when none of its own steps fails. */
  function RolledBack(now: Entries, job: Job): Entries {
    var base := now - {DATA, CONFIG, job.dataStash, job.configStash};
    var withData := if job.dataStash in now then base[DATA := now[job.dataStash]] else base;
    if job.configStash in now then withData[CONFIG := now[job.configStash]] else withData
  }

  // ---------------------------------------------------------------------------
  // What the rollback achieves
  // ---------------------------------------------------------------------------

  /** A failure of a copy or of the backups move is undone exactly. */
  lemma RollbackIsExact(at: Stage, ch: Entries, now: Entries, job: Job)
    requires Ready(Dir(ch), job) && Broken(at, ch, now, job)
    requires at.CopyData? || at.CopyConfig? || at.MoveBackups?
    ensures RolledBack(now, job) == ch
  {
    var s := Stashed(ch, job);
    forall k | k !in {DATA, CONFIG}
      ensures (k in now <==> k in s) && (k in now ==> now[k] == s[k])
    {
      assert k in now - {DATA, CONFIG} <==> k in now;
      assert k in now - {DATA} <==> k in now;
    }
    assert DATA !in s && CONFIG !in s;
  }

  /** A failed stash rename costs the trees that were not stashed yet: what had the name of their
      stash, if anything, takes their place. */
  lemma RollbackAfterStashFailure(at: Stage, ch: Entries, now: Entries, job: Job)
    requires Started(Dir(ch), job) && Failure(at, ch, now, job)
    requires at.StashData? || at.StashConfig?
    ensures var back := RolledBack(now, job);
            && back - {DATA, CONFIG} == ch - {DATA, CONFIG, job.dataStash, job.configStash}
            && (CONFIG in back <==> job.configStash in ch) && (CONFIG in back ==> back[CONFIG] == ch[job.configStash])
            && (at.StashData? ==>
                  (DATA in back <==> job.dataStash in ch) && (DATA in back ==> back[DATA] == ch[job.dataStash]))
            && (at.StashConfig? ==>
                  (DATA in back <==> DATA in ch || job.dataStash in ch) && (DATA in ch ==> back[DATA] == ch[DATA]))
  {
  }

  /** A failed stash removal costs the backups subtree, and what the removal had deleted. */
  lemma RollbackAfterDropFailure(at: Stage, ch: Entries, now: Entries, job: Job)
    requires Ready(Dir(ch), job) && Broken(at, ch, now, job)
    requires at.DropDataStash? || at.DropConfigStash?
    ensures var back := RolledBack(now, job);
            && back - {DATA, CONFIG} == ch - {DATA, CONFIG}
            && CONFIG in back
            && (at.DropDataStash? ==>
                  && back[CONFIG] == Dropping(ch[CONFIG], BACKUPS_SUBDIR)
                  && (DATA in back <==> DATA in ch) && (DATA in ch ==> Leftover(back[DATA], ch[DATA])))
            && (at.DropConfigStash? ==>
                  DATA !in back && Leftover(back[CONFIG], Dropping(ch[CONFIG], BACKUPS_SUBDIR)))
  {
    var m := Moved(ch, job);
    forall k | k !in {job.dataStash, job.configStash}
      ensures (k in now <==> k in m) && (k in now ==> now[k] == m[k])
    {
      assert k in now - {job.dataStash} <==> k in now;
      assert k in now - {job.configStash} <==> k in now;
    }
    if at.DropDataStash? {
      assert job.configStash in now - {job.dataStash};
    } else {
      assert job.dataStash !in now - {job.configStash};
    }
    forall k ensures k in RolledBack(now, job) - {DATA, CONFIG} <==> k in ch - {DATA, CONFIG} {}
  }

  lemma FreshRollbackExactIff(at: Stage, ch: Entries, now: Entries, job: Job)
    requires Ready(Dir(ch), job) && Broken(at, ch, now, job) && HasBackups(ch[CONFIG])
    ensures RolledBack(now, job) == ch <==> at.CopyData? || at.CopyConfig? || at.MoveBackups?
  {
    if at.CopyData? || at.CopyConfig? || at.MoveBackups? {
      RollbackIsExact(at, ch, now, job);
    } else if at.StashData? || at.StashConfig? {
      RollbackAfterStashFailure(at, ch, now, job);
    } else {
      RollbackAfterDropFailure(at, ch, now, job);
      assert BACKUPS_SUBDIR !in Dropping(ch[CONFIG], BACKUPS_SUBDIR).children;
    }
  }

  /** For a snapshot under config/backups: the rollback returns the volume to what it was if and
      only if the step that failed lies after both stash renames and not after the backups move, and
      nothing had the name of a stash. */
  lemma RollbackExactIff(at: Stage, ch: Entries, now: Entries, job: Job)
    requires Started(Dir(ch), job) && Failure(at, ch, now, job) && HasBackups(ch[CONFIG])
    ensures RolledBack(now, job) == ch <==>
              (at.CopyData? || at.CopyConfig? || at.MoveBackups?) && job.dataStash !in ch && job.configStash !in ch
  {
    SeenReady(ch, job);
    var back := RolledBack(now, job);
    assert job.dataStash !in back && job.configStash !in back;
    if at.StashData? || at.StashConfig? {
      RollbackAfterStashFailure(at, ch, now, job);
    } else {
      FreshRollbackExactIff(at, Seen(ch, job), now, job);
    }
  }

  // ---------------------------------------------------------------------------
  // The steps
  // ---------------------------------------------------------------------------

  /** What is no fault of the filesystem: a restore can be made unless a stash name is taken, a part of
      the snapshot is no directory, or the snapshot's config/ has backups of its own. */
  predicate CanRestore(ch: Entries, job: Job)
    requires CONFIG in ch && Exists(ch[CONFIG], job.rel + [DATA]) && Exists(ch[CONFIG], job.rel + [CONFIG])
  {
    && !StashTaken(ch, DATA, job.dataStash) && !StashTaken(ch, CONFIG, job.configStash)
    && SnapData(ch, job).Dir? && SnapConfig(ch, job).Dir? && CanMove(ch, job)
  }

  predicate CanMove(ch: Entries, job: Job)
    requires CONFIG in ch && Exists(ch[CONFIG], job.rel + [CONFIG])
  {
    var copy := Clean(SnapConfig(ch, job));
    HasBackups(ch[CONFIG]) && HasBackups(copy) ==>
      copy.children[BACKUPS_SUBDIR] == EMPTY && ch[CONFIG].children[BACKUPS_SUBDIR].Dir?
  }

  lemma CanRenameTop(root: Node, a: Name, b: Name)
    requires root.Dir? && a != b
    ensures CanRename(root, [a], [b]) <==> a in root.children && !StashTaken(root.children, a, b)
  {
    Top(root, a, EMPTY);
    Top(root, b, EMPTY);
    assert [b][..0] == [];
    assert [a][0] != [b][0];
  }

  lemma RenameTop(root: Node, a: Name, b: Name)
    requires root.Dir? && CanRename(root, [a], [b])
    ensures a in root.children && Renamed(root, [a], [b]) == Dir((root.children - {a})[b := root.children[a]])
  {
    Top(root, a, EMPTY);
    Top(Remove(root, [a]), b, root.children[a]);
  }

  lemma BothStashed(ch: Entries, job: Job)
    requires Started(Dir(ch), job)
    ensures (DataStashed(ch, job) - {CONFIG})[job.configStash := ch[CONFIG]] == Stashed(Seen(ch, job), job)
  {
  }

  method StashLive(v: Volume, job: Job) returns (failedAt: Option<Stage>)
    requires Started(v.root, job)
    modifies v
    ensures v.root.Dir? && v.calls >= old(v.calls)
    ensures failedAt == None <==>
              && v.NoFault(old(v.calls), v.calls)
              && !StashTaken(old(v.root).children, DATA, job.dataStash) && !StashTaken(old(v.root).children, CONFIG, job.configStash)
    ensures failedAt == None ==> v.root.children == Stashed(Seen(old(v.root).children, job), job)
    ensures failedAt.Some? ==>
              (failedAt.value.StashData? || failedAt.value.StashConfig?)
              && Failure(failedAt.value, old(v.root).children, v.root.children, job)
    ensures StashTaken(old(v.root).children, DATA, job.dataStash) ==> failedAt == Some(StashData)
    ensures StashTaken(old(v.root).children, CONFIG, job.configStash) ==> failedAt != None
  {
    ghost var ch := v.root.children;
    SeenReady(ch, job);
    Top(v.root, DATA, EMPTY);
    Top(v.root, job.dataStash, EMPTY);
    if Exists(v.root, [DATA]) {
      ghost var before := v.root;
      CanRenameTop(v.root, DATA, job.dataStash);
      var ok := v.Rename([DATA], [job.dataStash]);
      if !ok { return Some(StashData); }
      RenameTop(before, DATA, job.dataStash);
    }
    assert v.root.children == DataStashed(ch, job);
    Top(v.root, CONFIG, EMPTY);
    Top(v.root, job.configStash, EMPTY);
    ghost var mid := v.root;
    CanRenameTop(v.root, CONFIG, job.configStash);
    // config/ holds the snapshot, so the source's test that it exists always succeeds.
    var ok := v.Rename([CONFIG], [job.configStash]);
    if !ok { return Some(StashConfig); }
    RenameTop(mid, CONFIG, job.configStash);
    BothStashed(ch, job);
    return None;
  }

  /** Where the snapshot is once config/ is stashed. */
  lemma SnapshotInStash(ch: Entries, now: Entries, job: Job, part: Name)
    requires Ready(Dir(ch), job) && part in {DATA, CONFIG}
    requires job.configStash in now && now[job.configStash] == ch[CONFIG]
    ensures Lookup(Dir(now), [job.configStash] + job.rel + [part]) == Lookup(ch[CONFIG], job.rel + [part])
  {
    assert [job.configStash] + job.rel + [part] == [job.configStash] + (job.rel + [part]);
    LookupAppend(Dir(now), [job.configStash], job.rel + [part]);
    Top(Dir(now), job.configStash, EMPTY);
  }

  method CopyTop(v: Volume, src: Path, k: Name, ghost tree: Node) returns (ok: bool)
    requires v.root.Dir? && k !in v.root.children && Lookup(v.root, src) == Some(tree) && src != [] && src[0] != k
    modifies v
    ensures v.root.Dir? && v.calls >= old(v.calls)
    ensures ok <==> v.NoFault(old(v.calls), v.calls) && tree.Dir?
    ensures ok ==> v.root.children == old(v.root).children[k := Clean(tree)]
    ensures !ok ==> v.root.children - {k} == old(v.root).children
  {
    Top(v.root, k, EMPTY);
    assert [k][..0] == [];
    ok := CopyDirExcluding(v, src, [k], None, tree);
    if ok {
      Top(old(v.root), k, Clean(tree));
    } else if v.root != old(v.root) {
      ghost var n :| v.root == Put(old(v.root), [k], n);
      Top(old(v.root), k, n);
    } else {
      assert v.root.children - {k} == v.root.children;
    }
  }

  method Materialize(v: Volume, job: Job, ghost ch: Entries) returns (failedAt: Option<Stage>)
    requires Ready(Dir(ch), job) && v.root == Dir(Stashed(ch, job))
    modifies v
    ensures v.root.Dir? && v.calls >= old(v.calls)
    ensures failedAt == None <==> v.NoFault(old(v.calls), v.calls) && SnapData(ch, job).Dir? && SnapConfig(ch, job).Dir?
    ensures failedAt == None ==> Clean(SnapConfig(ch, job)).Dir? && v.root.children == Materialized(ch, job)
    ensures failedAt.Some? ==>
              (failedAt.value.CopyData? || failedAt.value.CopyConfig?)
              && Broken(failedAt.value, ch, v.root.children, job)
  {
    SnapshotInStash(ch, v.root.children, job, DATA);
    var ok := CopyTop(v, [job.configStash] + job.rel + [DATA], DATA, SnapData(ch, job));
    if !ok { return Some(CopyData); }
    SnapshotInStash(ch, v.root.children, job, CONFIG);
    ghost var mid := v.root.children;
    ok := CopyTop(v, [job.configStash] + job.rel + [CONFIG], CONFIG, SnapConfig(ch, job));
    if !ok {
      assert v.root.children - {DATA, CONFIG} == (v.root.children - {CONFIG}) - {DATA};
      return Some(CopyConfig);
    }
    return None;
  }

  lemma MoveResult(ch: Entries, job: Job)
    requires Ready(Dir(ch), job) && Clean(SnapConfig(ch, job)).Dir? && HasBackups(ch[CONFIG])
    requires CanRename(Dir(Materialized(ch, job)), [job.configStash, BACKUPS_SUBDIR], BACKUPS_ROOT)
    ensures Renamed(Dir(Materialized(ch, job)), [job.configStash, BACKUPS_SUBDIR], BACKUPS_ROOT) == Dir(Moved(ch, job))
  {
    var m, cs := Materialized(ch, job), job.configStash;
    var src := [cs, BACKUPS_SUBDIR];
    assert src[1..] == [BACKUPS_SUBDIR] && BACKUPS_ROOT[1..] == [BACKUPS_SUBDIR];
    Top(ch[CONFIG], BACKUPS_SUBDIR, EMPTY);
    var removed := m[cs := Dropping(ch[CONFIG], BACKUPS_SUBDIR)];
    assert Remove(Dir(m), src) == Dir(removed);
    assert Lookup(Dir(m), src) == Lookup(ch[CONFIG], [BACKUPS_SUBDIR]);
    Top(Clean(SnapConfig(ch, job)), BACKUPS_SUBDIR, ch[CONFIG].children[BACKUPS_SUBDIR]);
    assert Put(Dir(removed), BACKUPS_ROOT, ch[CONFIG].children[BACKUPS_SUBDIR]) == Dir(removed[CONFIG := RestoredConfig(ch, job)]);
    assert removed[CONFIG := RestoredConfig(ch, job)] == Moved(ch, job);
  }

  lemma CanMoveIff(ch: Entries, job: Job)
    requires Ready(Dir(ch), job) && Clean(SnapConfig(ch, job)).Dir? && HasBackups(ch[CONFIG])
    ensures CanRename(Dir(Materialized(ch, job)), [job.configStash, BACKUPS_SUBDIR], BACKUPS_ROOT) <==> CanMove(ch, job)
  {
    var m, cs := Dir(Materialized(ch, job)), job.configStash;
    var src := [cs, BACKUPS_SUBDIR];
    assert src[1..] == [BACKUPS_SUBDIR] && BACKUPS_ROOT[1..] == [BACKUPS_SUBDIR];
    Top(ch[CONFIG], BACKUPS_SUBDIR, EMPTY);
    Top(Clean(SnapConfig(ch, job)), BACKUPS_SUBDIR, EMPTY);
    assert Lookup(m, src) == Lookup(ch[CONFIG], [BACKUPS_SUBDIR]);
    assert Lookup(m, BACKUPS_ROOT) == Lookup(Clean(SnapConfig(ch, job)), [BACKUPS_SUBDIR]);
    assert BACKUPS_ROOT[..1] == [CONFIG];
    Top(m, CONFIG, EMPTY);
    assert src[0] != BACKUPS_ROOT[0];
  }

  method MoveBackupsOver(v: Volume, job: Job, ghost ch: Entries) returns (ok: bool)
    requires Ready(Dir(ch), job) && Clean(SnapConfig(ch, job)).Dir? && v.root == Dir(Materialized(ch, job))
    modifies v
    ensures v.root.Dir? && v.calls >= old(v.calls)
    ensures ok <==> v.NoFault(old(v.calls), v.calls) && CanMove(ch, job)
    ensures ok ==> v.root.children == Moved(ch, job)
    ensures !ok ==> Broken(MoveBackups, ch, v.root.children, job)
  {
    var stashedBackupsRoot := [job.configStash, BACKUPS_SUBDIR];
    assert stashedBackupsRoot[1..] == [BACKUPS_SUBDIR];
    Top(ch[CONFIG], BACKUPS_SUBDIR, EMPTY);
    assert Lookup(v.root, stashedBackupsRoot) == Lookup(ch[CONFIG], [BACKUPS_SUBDIR]);
    if Exists(v.root, stashedBackupsRoot) {
      CanMoveIff(ch, job);
      ok := v.Rename(stashedBackupsRoot, BACKUPS_ROOT);
      if ok {
        MoveResult(ch, job);
      }
    } else {
      ok := true;
      assert Dropping(ch[CONFIG], BACKUPS_SUBDIR) == ch[CONFIG];
      assert Moved(ch, job) == Materialized(ch, job);
    }
    if !ok {
      assert v.root.children - {DATA, CONFIG} == Stashed(ch, job);
    }
  }

  lemma DropInterrupted(before: Node, after: Node, k: Name)
    requires before.Dir? && Interrupted(before, after, [k])
    ensures after.Dir? && after.children - {k} == before.children - {k}
    ensures k in after.children <==> k in before.children
    ensures k in before.children ==> Leftover(after.children[k], before.children[k])
  {
    Top(before, k, EMPTY);
    if after == before {
      if k in before.children { LeftoverSelf(before.children[k]); }
    } else {
      var rest :| InterruptedAs(before, after, [k], rest);
      Top(before, k, rest);
    }
  }

  lemma NoStashes(ch: Entries, job: Job)
    requires Ready(Dir(ch), job)
    ensures (Moved(ch, job) - {job.dataStash}) - {job.configStash}
            == ch[DATA := Clean(SnapData(ch, job))][CONFIG := RestoredConfig(ch, job)]
  {
  }

  method DropStashes(v: Volume, job: Job, ghost ch: Entries) returns (failedAt: Option<Stage>)
    requires Ready(Dir(ch), job) && v.root == Dir(Moved(ch, job))
    modifies v
    ensures v.root.Dir? && v.calls >= old(v.calls)
    ensures failedAt == None <==> v.NoFault(old(v.calls), v.calls)
    ensures failedAt == Some(DropDataStash) <==> v.faults(old(v.calls) + 1)
    ensures failedAt == None ==>
              v.root.children == ch[DATA := Clean(SnapData(ch, job))][CONFIG := RestoredConfig(ch, job)]
    ensures failedAt.Some? ==>
              (failedAt.value.DropDataStash? || failedAt.value.DropConfigStash?)
              && Broken(failedAt.value, ch, v.root.children, job)
  {
    ghost var m := Moved(ch, job);
    var ok := v.Rm([job.dataStash]);
    if !ok {
      DropInterrupted(Dir(m), v.root, job.dataStash);
      return Some(DropDataStash);
    }
    Top(Dir(m), job.dataStash, EMPTY);
    assert v.root.children == m - {job.dataStash};
    ghost var mid := v.root;
    ok := v.Rm([job.configStash]);
    if !ok {
      DropInterrupted(mid, v.root, job.configStash);
      assert (m - {job.dataStash}) - {job.configStash} == m - {job.dataStash, job.configStash};
      return Some(DropConfigStash);
    }
    Top(mid, job.configStash, EMPTY);
    NoStashes(ch, job);
    return None;
  }

  // The catch block.
  method RollBack(v: Volume, job: Job) returns (ok: bool)
    requires v.root.Dir? && job.dataStash !in {DATA, CONFIG} && job.configStash !in {DATA, CONFIG} && job.dataStash != job.configStash
    modifies v
    ensures v.calls >= old(v.calls)
    ensures ok <==> v.NoFault(old(v.calls), v.calls)
    ensures !ok ==> v.faults(v.calls)
    ensures ok ==> v.root == Dir(RolledBack(old(v.root).children, job))
  {
    ghost var now := v.root.children;
    ok := Discard(v, DATA);
    if !ok { return; }
    ok := Discard(v, CONFIG);
    if !ok { return; }
    ok := PutBack(v, job.dataStash, DATA);
    if !ok { return; }
    ok := PutBack(v, job.configStash, CONFIG);
    if !ok { return; }
    assert (now - {DATA}) - {CONFIG} == now - {DATA, CONFIG};
    BackInPlace(now, job);
  }

  method Discard(v: Volume, k: Name) returns (ok: bool)
    requires v.root.Dir?
    modifies v
    ensures v.calls >= old(v.calls) && (ok <==> v.NoFault(old(v.calls), v.calls)) && (!ok ==> v.faults(v.calls))
    ensures ok ==> v.root == Dir(old(v.root).children - {k})
  {
    Top(v.root, k, EMPTY);
    if Exists(v.root, [k]) {
      ok := v.Rm([k]);
    } else {
      ok := true;
      assert v.root.children - {k} == v.root.children;
    }
  }

  method PutBack(v: Volume, stash: Name, live: Name) returns (ok: bool)
    requires v.root.Dir? && live !in v.root.children && stash != live
    modifies v
    ensures v.calls >= old(v.calls) && (ok <==> v.NoFault(old(v.calls), v.calls)) && (!ok ==> v.faults(v.calls))
    ensures ok ==> v.root == Dir(InPlace(old(v.root).children, stash, live))
  {
    Top(v.root, stash, EMPTY);
    if Exists(v.root, [stash]) {
      ghost var before := v.root;
      CanRenameTop(before, stash, live);
      ok := v.Rename([stash], [live]);
      if ok { RenameTop(before, stash, live); }
    } else {
      ok := true;
    }
  }

  ghost function InPlace(ch: Entries, stash: Name, live: Name): Entries {
    if stash in ch then (ch - {stash})[live := ch[stash]] else ch
  }

  lemma BackInPlace(now: Entries, job: Job)
    requires job.dataStash !in {DATA, CONFIG} && job.configStash !in {DATA, CONFIG} && job.dataStash != job.configStash
    ensures InPlace(InPlace(now - {DATA, CONFIG}, job.dataStash, DATA), job.configStash, CONFIG) == RolledBack(now, job)
  {
  }

  method TryRestore(v: Volume, job: Job) returns (failedAt: Option<Stage>)
    requires Started(v.root, job)
    modifies v
    ensures v.root.Dir? && v.calls >= old(v.calls)
    ensures failedAt == None <==> v.NoFault(old(v.calls), v.calls) && CanRestore(old(v.root).children, job)
    ensures failedAt == None ==> v.root.children == AfterRestore(old(v.root).children, job)
    ensures failedAt.Some? ==> Failure(failedAt.value, old(v.root).children, v.root.children, job)
    ensures StashTaken(old(v.root).children, DATA, job.dataStash) ==> failedAt == Some(StashData)
    ensures StashTaken(old(v.root).children, CONFIG, job.configStash) ==> failedAt == Some(StashData) || failedAt == Some(StashConfig)
  {
    ghost var seen := Seen(v.root.children, job);
    SeenReady(v.root.children, job);
    failedAt := StashLive(v, job);
    if failedAt.Some? { return; }
    failedAt := Materialize(v, job, seen);
    if failedAt.Some? { return; }
    var ok := MoveBackupsOver(v, job, seen);
    if !ok { return Some(MoveBackups); }
    failedAt := DropStashes(v, job, seen);
  }

  /** The entries after a restore: the snapshot's trees with the current backups, and no stashes. */
  function AfterRestore(ch: Entries, job: Job): Entries
    requires CONFIG in ch && Exists(ch[CONFIG], job.rel + [DATA]) && Exists(ch[CONFIG], job.rel + [CONFIG])
  {
    (ch - {job.dataStash, job.configStash})[DATA := Clean(SnapData(ch, job))][CONFIG := RestoredConfig(ch, job)]
  }

  /** `backupDir` as given by the caller; `stamp` makes the stash names. */
  method RestorePreUpdateBackup(v: Volume, backupDir: Path, stamp: string) returns (r: Outcome)
    requires v.root.Dir?
    modifies v
    ensures r.Refused? <==> !Acceptable(old(v.root), backupDir)
    ensures r.Refused? ==> v.root == old(v.root)
    ensures !r.Refused? ==> Started(old(v.root), JobOf(backupDir, stamp))
    ensures !r.Refused? ==>
              (r.Restored? <==> v.NoFault(old(v.calls), v.calls) && CanRestore(old(v.root).children, JobOf(backupDir, stamp)))
    ensures r.Failed? && !r.rolledBack ==> v.faults(v.calls)
    ensures r.Restored? ==> v.root == Dir(AfterRestore(old(v.root).children, JobOf(backupDir, stamp)))
    ensures r.Failed? && r.rolledBack ==>
              exists now :: Failure(r.at, old(v.root).children, now, JobOf(backupDir, stamp))
                            && v.root == Dir(RolledBack(now, JobOf(backupDir, stamp)))
    ensures r.Failed? && r.rolledBack && HasBackups(old(v.root).children[CONFIG]) ==>
              var ch, job := old(v.root).children, JobOf(backupDir, stamp);
              v.root == old(v.root) <==>
                (r.at.CopyData? || r.at.CopyConfig? || r.at.MoveBackups?) && job.dataStash !in ch && job.configStash !in ch
    // A name of a stash that is in use, and not by an empty directory, fails the restore there.
    ensures !r.Refused? ==>
              var ch, job := old(v.root).children, JobOf(backupDir, stamp);
              && (StashTaken(ch, DATA, job.dataStash) ==> r.Failed? && r.at == StashData)
              && (StashTaken(ch, CONFIG, job.configStash) ==> r.Failed? && (r.at == StashData || r.at == StashConfig))
  {
    if !Exists(v.root, backupDir + [DATA]) || !Exists(v.root, backupDir + [CONFIG]) {
      return Refused;
    }
    if !([CONFIG] <= backupDir) || (|backupDir| > 1 && ".." <= backupDir[1]) {
      return Refused;
    }
    var job := JobOf(backupDir, stamp);
    StashNames(stamp);
    JobReady(v.root, backupDir, stamp);
    ghost var ch := v.root.children;
    var failedAt := TryRestore(v, job);
    if failedAt == None {
      return Restored;
    }
    ghost var now := v.root.children;
    var ok := RollBack(v, job);
    if ok && HasBackups(ch[CONFIG]) {
      RollbackExactIff(failedAt.value, ch, now, job);
    }
    return Failed(failedAt.value, ok);
  }

  /** The snapshot is complete and lies inside config/. */
  predicate Acceptable(root: Node, backupDir: Path) {
    && Exists(root, backupDir + [DATA]) && Exists(root, backupDir + [CONFIG])
    && [CONFIG] <= backupDir && !(|backupDir| > 1 && ".." <= backupDir[1])
  }

  function JobOf(backupDir: Path, stamp: string): Job {
    Job(DATA + ".restore-stash-" + stamp, CONFIG + ".restore-stash-" + stamp, if backupDir == [] then [] else backupDir[1..])
  }

  lemma StashNames(stamp: string)
    ensures DATA + ".restore-stash-" + stamp !in {DATA, CONFIG}
    ensures CONFIG + ".restore-stash-" + stamp !in {DATA, CONFIG}
    ensures DATA + ".restore-stash-" + stamp != CONFIG + ".restore-stash-" + stamp
  {
    assert (DATA + ".restore-stash-" + stamp)[0] == 'd' && (CONFIG + ".restore-stash-" + stamp)[0] == 'c';
    assert |DATA + ".restore-stash-" + stamp| > 4 && |CONFIG + ".restore-stash-" + stamp| > 6;
  }

  lemma JobReady(root: Node, backupDir: Path, stamp: string)
    requires root.Dir? && Acceptable(root, backupDir)
    ensures Started(root, JobOf(backupDir, stamp))
  {
    StashNames(stamp);
    var rel := backupDir[1..];
    assert backupDir == [CONFIG] + rel;
    Top(root, CONFIG, EMPTY);
    forall part | part in {DATA, CONFIG}
      ensures CONFIG in root.children && Exists(root.children[CONFIG], rel + [part])
    {
      assert backupDir + [part] == [CONFIG] + (rel + [part]);
      LookupAppend(root, [CONFIG], rel + [part]);
    }
  }

  /** What a restore leaves, whatever the snapshot: copies of its data/ and config/, the current backups
      in the latter, no stash, and everything beside them as it was. */
  lemma RestoredTrees(root: Node, backupDir: Path, stamp: string)
    requires root.Dir? && Acceptable(root, backupDir) && Started(root, JobOf(backupDir, stamp))
    ensures var after := AfterRestore(root.children, JobOf(backupDir, stamp));
            && after.Keys == root.children.Keys - {"data.restore-stash-" + stamp, "config.restore-stash-" + stamp} + {"data", "config"}
            && after["data"] == Clean(Lookup(root, backupDir + ["data"]).value)
            && after["config"] == ConfigOf(Lookup(root, backupDir + ["config"]).value, Lookup(root, ["config", "backups"]))
            && forall k :: k in after && k != "data" && k != "config" ==> after[k] == root.children[k]
  {
    var ch, job := root.children, JobOf(backupDir, stamp);
    JobNames(backupDir, stamp);
    InSnapshot(root, backupDir, DATA);
    ConfigTree(root, backupDir, stamp);
    Replaced(ch, {job.dataStash, job.configStash}, DATA, CONFIG, Clean(SnapData(ch, job)), RestoredConfig(ch, job));
  }

  lemma Replaced(ch: Entries, out: set<Name>, a: Name, b: Name, x: Node, y: Node)
    requires a != b
    ensures var after := (ch - out)[a := x][b := y];
            && after.Keys == ch.Keys - out + {a, b} && after[a] == x && after[b] == y
            && forall k :: k in after && k != a && k != b ==> after[k] == ch[k]
  {
  }

  /** A copy of the snapshot's config/ with the backups of the live one, where there are any. */
  function ConfigOf(saved: Node, backups: Option<Node>): Node {
    var copy := Clean(saved);
    if backups.Some? && copy.Dir? then Dir(copy.children["backups" := backups.value]) else copy
  }

  lemma JobNames(backupDir: Path, stamp: string)
    ensures var job := JobOf(backupDir, stamp);
            job.dataStash == "data.restore-stash-" + stamp && job.configStash == "config.restore-stash-" + stamp
  {
  }

  lemma ConfigTree(root: Node, backupDir: Path, stamp: string)
    requires root.Dir? && Acceptable(root, backupDir) && Started(root, JobOf(backupDir, stamp))
    ensures RestoredConfig(root.children, JobOf(backupDir, stamp))
            == ConfigOf(Lookup(root, backupDir + ["config"]).value, Lookup(root, ["config", "backups"]))
  {
    InSnapshot(root, backupDir, CONFIG);
    var config := root.children[CONFIG];
    Top(root, CONFIG, EMPTY);
    LookupAppend(root, [CONFIG], [BACKUPS_SUBDIR]);
    assert [CONFIG] + [BACKUPS_SUBDIR] == ["config", "backups"];
    if config.Dir? {
      Top(config, BACKUPS_SUBDIR, EMPTY);
    }
  }

  lemma InSnapshot(root: Node, backupDir: Path, part: Name)
    requires root.Dir? && [CONFIG] <= backupDir && CONFIG in root.children
    ensures Lookup(root, backupDir + [part]) == Lookup(root.children[CONFIG], backupDir[1..] + [part])
  {
    assert backupDir + [part] == [CONFIG] + (backupDir[1..] + [part]);
    Top(root, CONFIG, EMPTY);
    LookupAppend(root, [CONFIG], backupDir[1..] + [part]);
  }

  // ---------------------------------------------------------------------------
  // Round trip
  // ---------------------------------------------------------------------------

  lemma {:induction false} CleanTwice(n: Node)
    ensures Clean(Clean(n)) == Clean(n)
    decreases n
  {
    if n.Dir? {
      var c := Clean(n);
      forall k | k in c.children ensures Clean(c.children[k]) == c.children[k] && !c.children[k].Special? {
        CleanTwice(n.children[k]);
      }
    }
  }

  lemma SnapshotIsThere(now: Node, iso: string, stamp: string)
    requires now.Dir? && IsDir(now, BACKUPS_ROOT) && FinalName(iso) in BackupEntries(now)
    requires var snap := BackupEntries(now)[FinalName(iso)]; snap.Dir? && DATA in snap.children && CONFIG in snap.children
    ensures var backupDir := BACKUPS_ROOT + [FinalName(iso)];
            var job, snap := JobOf(backupDir, stamp), BackupEntries(now)[FinalName(iso)];
            && Acceptable(now, backupDir)
            && CONFIG in now.children && HasBackups(now.children[CONFIG])
            && now.children[CONFIG].children[BACKUPS_SUBDIR] == Dir(BackupEntries(now))
            && forall part :: part in {DATA, CONFIG} ==> Lookup(now.children[CONFIG], job.rel + [part]) == Some(snap.children[part])
  {
    var backupDir, rel := BACKUPS_ROOT + [FinalName(iso)], [BACKUPS_SUBDIR, FinalName(iso)];
    assert backupDir[1..] == rel;
    assert backupDir[1] == BACKUPS_SUBDIR && BACKUPS_SUBDIR[0] == 'b';
    Top(now, CONFIG, EMPTY);
    LookupAppend(now, [CONFIG], [BACKUPS_SUBDIR]);
    assert [CONFIG] + [BACKUPS_SUBDIR] == BACKUPS_ROOT;
    var config := now.children[CONFIG];
    Top(config, BACKUPS_SUBDIR, EMPTY);
    var snap := BackupEntries(now)[FinalName(iso)];
    forall part | part in {DATA, CONFIG}
      ensures Lookup(now, backupDir + [part]) == Some(snap.children[part])
      ensures Lookup(config, rel + [part]) == Some(snap.children[part])
    {
      assert backupDir + [part] == BACKUPS_ROOT + [FinalName(iso), part];
      LookupAppend(now, BACKUPS_ROOT, [FinalName(iso), part]);
      assert rel + [part] == [BACKUPS_SUBDIR] + [FinalName(iso), part];
      LookupAppend(config, [BACKUPS_SUBDIR], [FinalName(iso), part]);
      assert [FinalName(iso), part][1..] == [part];
      Top(snap, part, EMPTY);
    }
  }

  /** Copying a snapshot back changes nothing in it. */
  lemma SnapshotCopiesBack(was: Node)
    requires was.Dir?
    ensures Clean(SnapshotOf(was).children[DATA]) == SnapshotOf(was).children[DATA]
    ensures Clean(SnapshotOf(was).children[CONFIG]) == SnapshotOf(was).children[CONFIG]
  {
    if Exists(was, [DATA]) { CleanTwice(Lookup(was, [DATA]).value); }
    if Exists(was, [CONFIG]) { CleanTwice(Dropping(Lookup(was, [CONFIG]).value, BACKUPS_SUBDIR)); }
  }

  /** A snapshot of `was`, restored at any later state `now` that still has it: data/ and config/
      less its backups come back as they were, and the backups stay as they are now. */
  lemma CreateThenRestore(was: Node, now: Node, iso: string, stamp: string)
    requires was.Dir? && now.Dir? && IsDir(now, BACKUPS_ROOT)
    requires FinalName(iso) in BackupEntries(now) && BackupEntries(now)[FinalName(iso)] == SnapshotOf(was)
    requires SnapshotOf(was).children[CONFIG].Dir?
    ensures Acceptable(now, BACKUPS_ROOT + [FinalName(iso)])
    ensures var job := JobOf(BACKUPS_ROOT + [FinalName(iso)], stamp);
            && CONFIG in now.children
            && Exists(now.children[CONFIG], job.rel + [DATA]) && Exists(now.children[CONFIG], job.rel + [CONFIG])
            && Clean(SnapData(now.children, job)) == SnapshotOf(was).children[DATA]
            && RestoredConfig(now.children, job)
               == Dir(SnapshotOf(was).children[CONFIG].children[BACKUPS_SUBDIR := Dir(BackupEntries(now))])
  {
    var snap := SnapshotOf(was);
    SnapshotIsThere(now, iso, stamp);
    SnapshotCopiesBack(was);
    var job := JobOf(BACKUPS_ROOT + [FinalName(iso)], stamp);
    assert SnapData(now.children, job) == snap.children[DATA];
    assert SnapConfig(now.children, job) == snap.children[CONFIG];
  }

  /** Without sockets, fifos or devices the snapshot is the trees themselves. */
  lemma SnapshotIsWhole(was: Node)
    requires was.Dir? && Plain(was) && (CONFIG in was.children ==> was.children[CONFIG].Dir?)
    ensures SnapshotOf(was).children[DATA] == if DATA in was.children then was.children[DATA] else EMPTY
    ensures SnapshotOf(was).children[CONFIG] == if CONFIG in was.children then Dropping(was.children[CONFIG], BACKUPS_SUBDIR) else EMPTY
  {
    Top(was, DATA, EMPTY);
    Top(was, CONFIG, EMPTY);
    if DATA in was.children { CleanPlain(was.children[DATA]); }
    if CONFIG in was.children { CleanPlain(Dropping(was.children[CONFIG], BACKUPS_SUBDIR)); }
  }
}
