/**
 Pre-update snapshots of a server volume (apps/desktop/src/runtime-backup.ts): creating one under
 config/backups, and restoring data/ and config/ from one, with rollback when a step fails.

 Every filesystem call may fail. Paths are relative to the volume.
 */
module RuntimeBackup {
  import opened Common
  import opened FileTree
  import opened BackupCopy
  import Names = BackupNames

  const DATA: Name := "data"
  const CONFIG: Name := "config"
  const BACKUPS_SUBDIR: Name := "backups"
  const BACKUPS_ROOT: Path := [CONFIG, BACKUPS_SUBDIR]

  function FinalName(iso: string): Name { iso + Names.PRE_UPDATE_SUFFIX }
  function PartialName(iso: string): Name { FinalName(iso) + ".partial" }

  // ---------------------------------------------------------------------------
  // Create
  // ---------------------------------------------------------------------------

  /** The entries of config/backups, none when it does not exist. */
  function BackupEntries(root: Node): map<Name, Node> {
    if IsDir(root, BACKUPS_ROOT) then Lookup(root, BACKUPS_ROOT).value.children else map[]
  }

  /** The snapshot of a volume: data/ (empty when missing) and config/ less its backups. */
  function SnapshotOf(root: Node): Node {
    Dir(map[DATA := if Exists(root, [DATA]) then Clean(Lookup(root, [DATA]).value) else EMPTY,
            CONFIG := if Exists(root, [CONFIG]) then Clean(Dropping(Lookup(root, [CONFIG]).value, BACKUPS_SUBDIR)) else EMPTY])
  }

  /** A snapshot, path by path: what is in data/ and in config/, but not in config/backups, except
      sockets, fifos and devices. */
  lemma SnapshotPaths(root: Node, part: Name, p: Path)
    requires part in {"data", "config"} && Exists(root, [part]) && (part == "config" && p != [] ==> p[0] != "backups")
    ensures Lookup(SnapshotOf(root), [part] + p).Some? <==>
              Lookup(root, [part] + p).Some? && !SpecialOnWay(Lookup(root, [part]).value, p)
    ensures var copy, was := Lookup(SnapshotOf(root), [part] + p), Lookup(root, [part] + p);
            copy.Some? ==> if was.value.Dir? then copy.value.Dir? else copy == was
  {
    assert ([part] + p)[1..] == p;
    var live := Lookup(root, [part]).value;
    LookupAppend(root, [part], p);
    var copied := if part == CONFIG then Dropping(live, BACKUPS_SUBDIR) else live;
    CopiedPaths(copied, p);
    if part == CONFIG { DroppedPaths(live, BACKUPS_SUBDIR, p); }
    assert Lookup(SnapshotOf(root), [part] + p) == Lookup(Clean(copied), p);
    assert Lookup(root, [part] + p) == Lookup(live, p);
  }

  lemma SnapshotHasNoBackups(root: Node, p: Path)
    ensures !Exists(SnapshotOf(root), ["config", "backups"] + p)
  {
    var rest := [BACKUPS_SUBDIR] + p;
    assert [CONFIG, BACKUPS_SUBDIR] + p == [CONFIG] + rest && ([CONFIG] + rest)[1..] == rest;
    var copied := if Exists(root, [CONFIG]) then Dropping(Lookup(root, [CONFIG]).value, BACKUPS_SUBDIR) else EMPTY;
    assert Lookup(SnapshotOf(root), [CONFIG] + rest) == Lookup(SnapshotOf(root).children[CONFIG], rest);
    assert Lookup(copied, rest) == None;
    CopiedPaths(copied, rest);
  }

  // Away from the dropped entry nothing is different.
  lemma DroppedPaths(n: Node, k: Name, p: Path)
    requires p != [] ==> p[0] != k
    ensures p != [] ==> Lookup(Dropping(n, k), p) == Lookup(n, p)
    ensures SpecialOnWay(Dropping(n, k), p) <==> SpecialOnWay(n, p)
    ensures Dropping(n, k).Dir? <==> n.Dir?
    ensures !n.Dir? ==> Dropping(n, k) == n
  {
    forall i | 0 < i <= |p| ensures Lookup(Dropping(n, k), p[..i]) == Lookup(n, p[..i]) {
      assert p[..i][0] == p[0];
    }
    if p != [] { assert p[..|p|] == p; }
    if i :| 0 < i <= |p| && Lookup(n, p[..i]) == Some(Special) {
      assert Lookup(Dropping(n, k), p[..i]) == Some(Special);
    }
  }

  function WithBackups(root: Node, entries: map<Name, Node>): Node {
    Put(root, BACKUPS_ROOT, Dir(entries))
  }

  lemma {:induction false} PutSame(root: Node, p: Path)
    requires Exists(root, p)
    ensures Put(root, p, Lookup(root, p).value) == root
    decreases |p|
  {
    if p != [] {
      PutSame(root.children[p[0]], p[1..]);
      assert root.children[p[0] := root.children[p[0]]] == root.children;
    }
  }

  lemma {:induction false} RemoveInto(root: Node, p: Path, ch: map<Name, Node>, k: Name)
    ensures Remove(Put(root, p, Dir(ch)), p + [k]) == Put(root, p, Dir(ch - {k}))
    decreases |p|
  {
    if p == [] {
      assert [] + [k] == [k];
      assert k !in ch ==> ch - {k} == ch;
    } else {
      assert (p + [k])[1..] == p[1..] + [k];
      var rc := if root.Dir? then root.children else map[];
      var child := if p[0] in rc then rc[p[0]] else EMPTY;
      RemoveInto(child, p[1..], ch, k);
      var once := Put(root, p, Dir(ch));
      assert once.children == rc[p[0] := Put(child, p[1..], Dir(ch))];
      assert once.children[p[0] := Put(child, p[1..], Dir(ch - {k}))] == rc[p[0] := Put(child, p[1..], Dir(ch - {k}))];
    }
  }

  lemma PutDeep(root: Node, b: map<Name, Node>, name: Name, ch: map<Name, Node>, k: Name, n: Node)
    requires name in b ==> b[name] == Dir(ch)
    requires name !in b ==> ch == map[]
    ensures Put(WithBackups(root, b), BACKUPS_ROOT + [name, k], n) == WithBackups(root, b[name := Dir(ch[k := n])])
  {
    assert [name, k][1..] == [k] && [k][1..] == [];
    var child := if name in b then b[name] else EMPTY;
    Top(child, k, n);
    assert Put(Dir(b), [name, k], n) == Dir(b[name := Put(child, [k], n)]);
    PutBelow(root, BACKUPS_ROOT, Dir(b), [name, k], n);
  }

  lemma {:induction false} PutBelow(root: Node, p: Path, a: Node, q: Path, n: Node)
    ensures Put(Put(root, p, a), p + q, n) == Put(root, p, Put(a, q, n))
    decreases |p|
  {
    if p == [] {
      assert p + q == q;
    } else {
      assert (p + q)[1..] == p[1..] + q;
      var rc := if root.Dir? then root.children else map[];
      var child := if p[0] in rc then rc[p[0]] else EMPTY;
      PutBelow(child, p[1..], a, q, n);
      var once := Put(root, p, a);
      assert once.children == rc[p[0] := Put(child, p[1..], a)];
      assert once.children[p[0] := Put(child, p[1..], Put(a, q, n))] == rc[p[0] := Put(child, p[1..], Put(a, q, n))];
    }
  }

  /** A volume whose backups changed looks the same everywhere else. */
  lemma WithBackupsView(root: Node, b: map<Name, Node>)
    requires root.Dir? && !Blocked(root, BACKUPS_ROOT)
    ensures IsDir(WithBackups(root, b), BACKUPS_ROOT) && BackupEntries(WithBackups(root, b)) == b
    ensures Lookup(WithBackups(root, b), [DATA]) == Lookup(root, [DATA])
    ensures IsDir(WithBackups(root, b), [CONFIG])
    ensures Clean(Dropping(Lookup(WithBackups(root, b), [CONFIG]).value, BACKUPS_SUBDIR)) == SnapshotOf(root).children[CONFIG]
  {
    LookupPut(root, BACKUPS_ROOT, Dir(b));
    LookupPutApart(root, BACKUPS_ROOT, Dir(b), [DATA]);
    ConfigView(root, b);
  }

  lemma ConfigView(root: Node, b: map<Name, Node>)
    requires root.Dir? && !Blocked(root, BACKUPS_ROOT)
    ensures var c := if CONFIG in root.children then root.children[CONFIG] else EMPTY;
            && c.Dir?
            && Lookup(WithBackups(root, b), [CONFIG]) == Some(Dir(c.children[BACKUPS_SUBDIR := Dir(b)]))
            && Dropping(Dir(c.children[BACKUPS_SUBDIR := Dir(b)]), BACKUPS_SUBDIR) == Dropping(c, BACKUPS_SUBDIR)
    ensures CONFIG in root.children <==> Exists(root, [CONFIG])
    ensures CONFIG in root.children ==> Lookup(root, [CONFIG]) == Some(root.children[CONFIG])
    ensures Dropping(EMPTY, BACKUPS_SUBDIR) == EMPTY && Clean(EMPTY) == EMPTY
  {
    var c := if CONFIG in root.children then root.children[CONFIG] else EMPTY;
    assert BACKUPS_ROOT[1..] == [BACKUPS_SUBDIR] && BACKUPS_ROOT[..1] == [CONFIG];
    Top(root, CONFIG, EMPTY);
    assert Exists(root, BACKUPS_ROOT[..1]) ==> IsDir(root, BACKUPS_ROOT[..1]);
    Top(c, BACKUPS_SUBDIR, Dir(b));
    Top(WithBackups(root, b), CONFIG, EMPTY);
  }

  /** A failed create may leave a partial directory, an empty config/ or config/backups, but nothing
      else. */
  ghost predicate OnlyPartial(before: Node, after: Node, iso: string) {
    || after == before
    || (!Exists(before, [CONFIG]) && after == Put(before, [CONFIG], EMPTY))
    || exists b: map<Name, Node> :: b - {PartialName(iso)} == BackupEntries(before) - {PartialName(iso)} && after == WithBackups(before, b)
  }

  lemma HalfBackups(before: Node, after: Node)
    requires Halfway(before, after, BACKUPS_ROOT)
    ensures after == before || (!Exists(before, [CONFIG]) && after == Put(before, [CONFIG], EMPTY))
  {
    if after != before {
      var i: nat :| HalfwayTo(before, after, BACKUPS_ROOT, i);
      assert BACKUPS_ROOT[..i] == [CONFIG];
    }
  }

  /** What is no fault of the filesystem: a backup can be made unless something is in the way of
      config/backups, data/ is no directory, or the backup's name is taken. */
  predicate CanBackUp(root: Node, iso: string) {
    && CanMkdir(root, BACKUPS_ROOT)
    && (Exists(root, [DATA]) ==> IsDir(root, [DATA]))
    && (iso + "-pre-update" in BackupEntries(root) ==> BackupEntries(root)[iso + "-pre-update"] == EMPTY)
  }

  method CreatePreUpdateBackup(v: Volume, iso: string) returns (ok: bool)
    requires v.root.Dir?
    modifies v
    ensures ok <==> v.NoFault(old(v.calls), v.calls) && CanBackUp(old(v.root), iso)
    ensures ok ==>
              v.root == WithBackups(old(v.root),
                             (BackupEntries(old(v.root)) - {iso + "-pre-update.partial"})[iso + "-pre-update" := SnapshotOf(old(v.root))])
    ensures !ok ==> OnlyPartial(old(v.root), v.root, iso)
    // One failing call, the cleanup not counted, leaves nothing partial behind.
    ensures !ok && v.FewFaults(old(v.calls), v.calls, CanBackUp(old(v.root), iso)) ==>
              !Exists(v.root, BACKUPS_ROOT + [iso + "-pre-update.partial"])
  {
    assert PartialName(iso) == iso + "-pre-update.partial";
    ghost var root0 := v.root;
    ok := v.Mkdir(BACKUPS_ROOT);
    if !ok {
      HalfBackups(root0, v.root);
      var _ := CleanPartial(v, root0, iso);
      return false;
    }
    ghost var b0 := BackupEntries(root0);
    if IsDir(root0, BACKUPS_ROOT) { PutSame(root0, BACKUPS_ROOT); }
    assert v.root == WithBackups(root0, b0);
    assert b0 - {PartialName(iso)} == BackupEntries(root0) - {PartialName(iso)};
    ok := v.Rm(BACKUPS_ROOT + [PartialName(iso)]);
    if !ok {
      InterruptedPartial(root0, v.root, b0, iso);
      var _ := CleanPartial(v, root0, iso);
      return false;
    }
    RemoveInto(root0, BACKUPS_ROOT, b0, PartialName(iso));
    ok := FillPartial(v, root0, iso);
    if ok {
      ok := PublishPartial(v, root0, iso);
    }
    if !ok {
      var _ := CleanPartial(v, root0, iso);
    }
  }

  // The catch block.
  method CleanPartial(v: Volume, ghost root0: Node, iso: string) returns (ok: bool)
    requires root0.Dir? && OnlyPartial(root0, v.root, iso)
    modifies v
    ensures v.calls == old(v.calls) + 1 && (ok <==> !v.faults(v.calls))
    ensures ok ==> !Exists(v.root, BACKUPS_ROOT + [PartialName(iso)])
    ensures OnlyPartial(root0, v.root, iso)
  {
    ghost var before := v.root;
    ok := v.Rm(BACKUPS_ROOT + [PartialName(iso)]);
    RemovedIsGone(before, BACKUPS_ROOT + [PartialName(iso)]);
    if before == root0 {
      RootAsBackups(root0, before, v.root, iso, ok);
    } else if !Exists(root0, [CONFIG]) && before == Put(root0, [CONFIG], EMPTY) {
      NothingInConfig(root0, iso);
      RemoveMissing(before, BACKUPS_ROOT + [PartialName(iso)]);
    } else {
      ghost var b: map<Name, Node> :| b - {PartialName(iso)} == BackupEntries(root0) - {PartialName(iso)} && before == WithBackups(root0, b);
      if ok {
        RemoveInto(root0, BACKUPS_ROOT, b, PartialName(iso));
        assert (b - {PartialName(iso)}) - {PartialName(iso)} == b - {PartialName(iso)};
      } else {
        InterruptedPartial(root0, v.root, b, iso);
      }
    }
  }

  lemma {:induction false} RemovedIsGone(root: Node, p: Path)
    requires p != []
    ensures !Exists(Remove(root, p), p)
    decreases |p|
  {
    if |p| > 1 && root.Dir? && p[0] in root.children {
      RemovedIsGone(root.children[p[0]], p[1..]);
    }
  }

  lemma NothingInConfig(root: Node, iso: string)
    ensures !Exists(Put(root, [CONFIG], EMPTY), BACKUPS_ROOT + [PartialName(iso)])
  {
    var p := [BACKUPS_SUBDIR, PartialName(iso)];
    LookupPut(root, [CONFIG], EMPTY);
    assert BACKUPS_ROOT + [PartialName(iso)] == [CONFIG] + p;
    LookupAppend(Put(root, [CONFIG], EMPTY), [CONFIG], p);
  }

  lemma InterruptedPartial(root0: Node, after: Node, b: map<Name, Node>, iso: string)
    requires b - {PartialName(iso)} == BackupEntries(root0) - {PartialName(iso)}
    requires Interrupted(WithBackups(root0, b), after, BACKUPS_ROOT + [PartialName(iso)])
    ensures OnlyPartial(root0, after, iso)
  {
    if after != WithBackups(root0, b) {
      var rest :| InterruptedAs(WithBackups(root0, b), after, BACKUPS_ROOT + [PartialName(iso)], rest);
      PutInto(root0, BACKUPS_ROOT, b, PartialName(iso), rest);
      assert b[PartialName(iso) := rest] - {PartialName(iso)} == b - {PartialName(iso)};
    }
  }

  lemma RootAsBackups(root0: Node, before: Node, after: Node, iso: string, ok: bool)
    requires before == root0
    requires ok ==> after == Remove(before, BACKUPS_ROOT + [PartialName(iso)])
    requires !ok ==> Interrupted(before, after, BACKUPS_ROOT + [PartialName(iso)])
    ensures OnlyPartial(root0, after, iso)
  {
    var b := BackupEntries(root0);
    if IsDir(root0, BACKUPS_ROOT) {
      PutSame(root0, BACKUPS_ROOT);
      if ok {
        RemoveInto(root0, BACKUPS_ROOT, b, PartialName(iso));
        assert (b - {PartialName(iso)}) - {PartialName(iso)} == b - {PartialName(iso)};
      } else {
        InterruptedPartial(root0, after, b, iso);
      }
    } else {
      LookupAppend(root0, BACKUPS_ROOT, [PartialName(iso)]);
      assert !Exists(root0, BACKUPS_ROOT + [PartialName(iso)]);
      RemoveMissing(root0, BACKUPS_ROOT + [PartialName(iso)]);
    }
  }

  lemma {:induction false} RemoveMissing(root: Node, p: Path)
    requires p != [] && !Exists(root, p)
    ensures Remove(root, p) == root
    decreases |p|
  {
    if root.Dir? && p[0] in root.children && |p| > 1 {
      RemoveMissing(root.children[p[0]], p[1..]);
      assert root.children[p[0] := root.children[p[0]]] == root.children;
    }
  }

  // What the partial directory holds after the two copies.
  ghost predicate Filled(root0: Node, root: Node, iso: string) {
    root == WithBackups(root0, (BackupEntries(root0) - {PartialName(iso)})[PartialName(iso) := SnapshotOf(root0)])
  }

  // The partial directory, without what it was made for.
  lemma HalfPartial(root0: Node, mid: Node, after: Node, b: map<Name, Node>, iso: string, k: Name)
    requires mid == WithBackups(root0, b) && after != mid && Halfway(mid, after, BACKUPS_ROOT + [PartialName(iso), k])
    ensures after == Put(mid, BACKUPS_ROOT + [PartialName(iso)], EMPTY)
  {
    var p := BACKUPS_ROOT + [PartialName(iso), k];
    var i: nat :| HalfwayTo(mid, after, p, i);
    LookupPut(root0, BACKUPS_ROOT, Dir(b));
    if i <= 2 {
      assert BACKUPS_ROOT == p[..i] + BACKUPS_ROOT[i..];
      LookupAppend(mid, p[..i], BACKUPS_ROOT[i..]);
      assert false;
    }
    assert p[..i] == BACKUPS_ROOT + [PartialName(iso)];
  }

  lemma CopyFailed(root0: Node, mid: Node, after: Node, b: map<Name, Node>, ch: map<Name, Node>, iso: string, k: Name)
    requires mid == WithBackups(root0, b) && b - {PartialName(iso)} == BackupEntries(root0) - {PartialName(iso)}
    requires PartialName(iso) in b ==> b[PartialName(iso)] == Dir(ch)
    requires PartialName(iso) !in b ==> ch == map[]
    requires OnlyAt(mid, after, BACKUPS_ROOT + [PartialName(iso), k]) || Halfway(mid, after, BACKUPS_ROOT + [PartialName(iso), k])
    ensures OnlyPartial(root0, after, iso)
  {
    if after != mid && Halfway(mid, after, BACKUPS_ROOT + [PartialName(iso), k]) {
      HalfPartial(root0, mid, after, b, iso, k);
      PutInto(root0, BACKUPS_ROOT, b, PartialName(iso), EMPTY);
      assert b[PartialName(iso) := EMPTY] - {PartialName(iso)} == b - {PartialName(iso)};
    } else if after != mid {
      var n :| after == Put(mid, BACKUPS_ROOT + [PartialName(iso), k], n);
      PutDeep(root0, b, PartialName(iso), ch, k, n);
      var b' := b[PartialName(iso) := Dir(ch[k := n])];
      assert b' - {PartialName(iso)} == b - {PartialName(iso)};
    }
  }

  /** Nothing is at the place of the next copy. */
  lemma PartialChildAbsent(root0: Node, b: map<Name, Node>, ch: map<Name, Node>, iso: string, k: Name)
    requires PartialName(iso) in b ==> b[PartialName(iso)] == Dir(ch)
    requires PartialName(iso) !in b ==> ch == map[]
    requires k !in ch
    ensures !Exists(WithBackups(root0, b), BACKUPS_ROOT + [PartialName(iso), k])
  {
    var p, q := BACKUPS_ROOT, [PartialName(iso), k];
    LookupPut(root0, p, Dir(b));
    LookupAppend(WithBackups(root0, b), p, q);
    assert q[1..] == [k];
  }

  /** Nor is anything in its way. */
  lemma PartialNotBlocked(root0: Node, b: map<Name, Node>, ch: map<Name, Node>, iso: string, k: Name)
    requires PartialName(iso) in b ==> b[PartialName(iso)] == Dir(ch)
    ensures !Blocked(WithBackups(root0, b), BACKUPS_ROOT + [PartialName(iso), k])
  {
    var root, partial := WithBackups(root0, b), BACKUPS_ROOT + [PartialName(iso)];
    var p := BACKUPS_ROOT + [PartialName(iso), k];
    NotBlockedBelow(root0, BACKUPS_ROOT, Dir(b), PartialName(iso));
    LookupPut(root0, BACKUPS_ROOT, Dir(b));
    LookupAppend(root, BACKUPS_ROOT, [PartialName(iso)]);
    Top(Dir(b), PartialName(iso), EMPTY);
    forall i | 0 <= i < |p| && Exists(root, p[..i]) ensures IsDir(root, p[..i]) {
      if i < |partial| {
        assert p[..i] == partial[..i];
      } else {
        assert p[..i] == partial;
      }
    }
  }

  /** The full snapshot can take its name unless that is in use, other than by an empty directory. */
  lemma CanPublish(root0: Node, full: map<Name, Node>, iso: string)
    requires PartialName(iso) in full && full[PartialName(iso)].Dir?
    ensures CanRename(WithBackups(root0, full), BACKUPS_ROOT + [PartialName(iso)], BACKUPS_ROOT + [FinalName(iso)])
            <==> (FinalName(iso) in full ==> full[FinalName(iso)] == EMPTY)
  {
    var src, dst := BACKUPS_ROOT + [PartialName(iso)], BACKUPS_ROOT + [FinalName(iso)];
    LookupPut(root0, BACKUPS_ROOT, Dir(full));
    forall k ensures Lookup(WithBackups(root0, full), BACKUPS_ROOT + [k]) == if k in full then Some(full[k]) else None {
      LookupAppend(WithBackups(root0, full), BACKUPS_ROOT, [k]);
      Top(Dir(full), k, EMPTY);
    }
    assert dst[..|dst| - 1] == BACKUPS_ROOT;
    assert |PartialName(iso)| > |FinalName(iso)|;
    assert src[2] != dst[2];
  }

  method FillPartial(v: Volume, ghost root0: Node, iso: string) returns (ok: bool)
    requires root0.Dir? && !Blocked(root0, BACKUPS_ROOT)
    requires v.root == WithBackups(root0, BackupEntries(root0) - {PartialName(iso)})
    modifies v
    ensures v.calls >= old(v.calls) && (ok <==> v.NoFault(old(v.calls), v.calls) && (Exists(root0, [DATA]) ==> IsDir(root0, [DATA])))
    ensures ok ==> Filled(root0, v.root, iso)
    ensures !ok ==> OnlyPartial(root0, v.root, iso)
  {
    ok := FillData(v, root0, iso);
    if ok {
      ok := FillConfig(v, root0, iso);
    }
  }

  // The entries of config/backups once data/ is copied.
  ghost function DataCopied(root0: Node, iso: string): map<Name, Node> {
    (BackupEntries(root0) - {PartialName(iso)})[PartialName(iso) := Dir(map[DATA := SnapshotOf(root0).children[DATA]])]
  }

  method FillData(v: Volume, ghost root0: Node, iso: string) returns (ok: bool)
    requires root0.Dir? && !Blocked(root0, BACKUPS_ROOT)
    requires v.root == WithBackups(root0, BackupEntries(root0) - {PartialName(iso)})
    modifies v
    ensures v.calls >= old(v.calls) && (ok <==> v.NoFault(old(v.calls), v.calls) && (Exists(root0, [DATA]) ==> IsDir(root0, [DATA])))
    ensures ok ==> v.root == WithBackups(root0, DataCopied(root0, iso))
    ensures !ok ==> OnlyPartial(root0, v.root, iso)
  {
    ghost var b := BackupEntries(root0) - {PartialName(iso)};
    ghost var mid := v.root;
    var dst := BACKUPS_ROOT + [PartialName(iso), DATA];
    WithBackupsView(root0, b);
    PartialChildAbsent(root0, b, map[], iso, DATA);
    PartialNotBlocked(root0, b, map[], iso, DATA);
    assert b - {PartialName(iso)} == b;
    assert [DATA][0] != dst[0];
    if Exists(v.root, [DATA]) {
      ok := CopyDirExcluding(v, [DATA], dst, None, Lookup(v.root, [DATA]).value);
    } else {
      ok := v.Mkdir(dst);
    }
    if ok {
      PutDeep(root0, b, PartialName(iso), map[], DATA, SnapshotOf(root0).children[DATA]);
    } else {
      CopyFailed(root0, mid, v.root, b, map[], iso, DATA);
    }
  }

  method FillConfig(v: Volume, ghost root0: Node, iso: string) returns (ok: bool)
    requires root0.Dir? && !Blocked(root0, BACKUPS_ROOT)
    requires v.root == WithBackups(root0, DataCopied(root0, iso))
    modifies v
    ensures v.calls >= old(v.calls) && (ok <==> v.NoFault(old(v.calls), v.calls))
    ensures ok ==> Filled(root0, v.root, iso)
    ensures !ok ==> OnlyPartial(root0, v.root, iso)
  {
    ghost var b := DataCopied(root0, iso);
    ghost var ch := map[DATA := SnapshotOf(root0).children[DATA]];
    ghost var mid := v.root;
    var dst := BACKUPS_ROOT + [PartialName(iso), CONFIG];
    WithBackupsView(root0, b);
    PartialChildAbsent(root0, b, ch, iso, CONFIG);
    PartialNotBlocked(root0, b, ch, iso, CONFIG);
    assert b - {PartialName(iso)} == BackupEntries(root0) - {PartialName(iso)};
    assert Excludes([CONFIG], Some(BACKUPS_ROOT)) && BACKUPS_ROOT <= dst;
    // The source's branch for a missing config/ is dead: making config/backups has created it.
    ok := CopyDirExcluding(v, [CONFIG], dst, Some(BACKUPS_ROOT), Lookup(v.root, [CONFIG]).value);
    if ok {
      assert BACKUPS_ROOT[|[CONFIG]|] == BACKUPS_SUBDIR;
      assert v.root == Put(mid, dst, SnapshotOf(root0).children[CONFIG]);
      PutDeep(root0, b, PartialName(iso), ch, CONFIG, SnapshotOf(root0).children[CONFIG]);
      assert Dir(ch[CONFIG := SnapshotOf(root0).children[CONFIG]]) == SnapshotOf(root0);
      assert b[PartialName(iso) := SnapshotOf(root0)]
          == (BackupEntries(root0) - {PartialName(iso)})[PartialName(iso) := SnapshotOf(root0)];
    } else {
      CopyFailed(root0, mid, v.root, b, ch, iso, CONFIG);
    }
  }

  method PublishPartial(v: Volume, ghost root0: Node, iso: string) returns (ok: bool)
    requires root0.Dir? && Filled(root0, v.root, iso)
    modifies v
    ensures v.calls >= old(v.calls)
    ensures ok <==> v.NoFault(old(v.calls), v.calls)
                    && (FinalName(iso) in BackupEntries(root0) ==> BackupEntries(root0)[FinalName(iso)] == EMPTY)
    ensures ok ==> v.root == WithBackups(root0,
                               (BackupEntries(root0) - {PartialName(iso)})[FinalName(iso) := SnapshotOf(root0)])
    ensures !ok ==> OnlyPartial(root0, v.root, iso)
  {
    ghost var b := BackupEntries(root0) - {PartialName(iso)};
    ghost var full := b[PartialName(iso) := SnapshotOf(root0)];
    var src, dst := BACKUPS_ROOT + [PartialName(iso)], BACKUPS_ROOT + [FinalName(iso)];
    CanPublish(root0, full, iso);
    ok := v.Rename(src, dst);
    if ok {
      LookupPut(root0, BACKUPS_ROOT, Dir(full));
      LookupAppend(WithBackups(root0, full), BACKUPS_ROOT, [PartialName(iso)]);
      assert [PartialName(iso)][1..] == [];
      RemoveInto(root0, BACKUPS_ROOT, full, PartialName(iso));
      assert full - {PartialName(iso)} == b;
      PutInto(root0, BACKUPS_ROOT, b, FinalName(iso), SnapshotOf(root0));
    } else {
      assert full - {PartialName(iso)} == BackupEntries(root0) - {PartialName(iso)};
    }
  }
}
