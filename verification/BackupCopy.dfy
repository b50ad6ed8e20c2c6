/**
 The recursive copy behind pre-update snapshots (apps/desktop/src/runtime-backup.ts,
 copyDirExcluding).
 */
module BackupCopy {
  import opened Common
  import opened FileTree

  /** The excluded path is a child of `src`. */
  predicate Excludes(src: Path, exclude: Option<Path>) {
    exclude.Some? && |exclude.value| == |src| + 1 && src <= exclude.value
  }

  /** What a copy of the directory at `src` contains. */
  function CopyOf(tree: Node, src: Path, exclude: Option<Path>): Node {
    if Excludes(src, exclude) then Clean(Dropping(tree, exclude.value[|src|])) else Clean(tree)
  }

  /** The copy never writes into what it still has to read: the destination lies elsewhere, or
      inside the excluded child. */
  predicate Disjoint(src: Path, dst: Path, exclude: Option<Path>) {
    Apart(src, dst) || (Excludes(src, exclude) && exclude.value <= dst)
  }

  lemma ChildDisjoint(src: Path, dst: Path, exclude: Option<Path>, k: Name)
    requires Disjoint(src, dst, exclude) && exclude != Some(src + [k])
    ensures Apart(dst, src + [k]) && Apart(src + [k], dst + [k])
  {
    if Apart(src, dst) {
      ApartAt(src, dst);
      var i :| 0 <= i < |src| && i < |dst| && src[i] != dst[i];
      assert (src + [k])[i] != dst[i] && (src + [k])[i] != (dst + [k])[i];
    } else {
      assert exclude.value == src + [exclude.value[|src|]];
      assert dst[|src|] == exclude.value[|src|] && (dst + [k])[|src|] != (src + [k])[|src|];
    }
  }

  lemma ChildNotExcluding(src: Path, exclude: Option<Path>, k: Name)
    requires exclude.None? || Excludes(src, exclude) || Apart(src, exclude.value)
    requires exclude != Some(src + [k])
    ensures exclude.None? || Apart(src + [k], exclude.value)
  {
    if Excludes(src, exclude) {
      assert exclude.value == src + [exclude.value[|src|]];
      assert (src + [k])[|src|] == k != exclude.value[|src|];
    } else if exclude.Some? {
      ApartAt(src, exclude.value);
      var i :| 0 <= i < |src| && i < |exclude.value| && src[i] != exclude.value[i];
      assert (src + [k])[i] != exclude.value[i];
    }
  }

  // What has been copied once only `left` remains.
  function CopiedSoFar(tree: Node, src: Path, exclude: Option<Path>, left: set<Name>): map<Name, Node>
    requires tree.Dir?
  {
    map k | k in tree.children && k !in left && exclude != Some(src + [k]) && !tree.children[k].Special? :: Clean(tree.children[k])
  }

  lemma CopiedAll(tree: Node, src: Path, exclude: Option<Path>)
    requires tree.Dir?
    ensures Dir(CopiedSoFar(tree, src, exclude, {})) == CopyOf(tree, src, exclude)
  {
    var done, whole := CopiedSoFar(tree, src, exclude, {}), CopyOf(tree, src, exclude).children;
    forall k | k in tree.children
      ensures (exclude == Some(src + [k])) <==> (Excludes(src, exclude) && exclude.value[|src|] == k)
    {
      if Excludes(src, exclude) {
        assert exclude.value == src + [exclude.value[|src|]];
      }
    }
    assert done == whole;
  }

  /** One entry: its copy is absent, its source is still what it was. */
  lemma EntryReady(root0: Node, root: Node, src: Path, dst: Path, exclude: Option<Path>, tree: Node, left: set<Name>, k: Name)
    requires tree.Dir? && Lookup(root0, src) == Some(tree) && k in tree.children && k in left
    requires root == Put(root0, dst, Dir(CopiedSoFar(tree, src, exclude, left)))
    requires Disjoint(src, dst, exclude) && exclude != Some(src + [k])
    ensures Lookup(root, src + [k]) == Some(tree.children[k])
    ensures !Exists(root, dst + [k])
  {
    ChildDisjoint(src, dst, exclude, k);
    LookupPutApart(root0, dst, Dir(CopiedSoFar(tree, src, exclude, left)), src + [k]);
    LookupAppend(root0, src, [k]);
    LookupPut(root0, dst, Dir(CopiedSoFar(tree, src, exclude, left)));
    LookupAppend(root, dst, [k]);
    assert [k][1..] == [];
  }

  lemma EntryCopied(root0: Node, root: Node, src: Path, dst: Path, exclude: Option<Path>, tree: Node, left: set<Name>, k: Name)
    requires tree.Dir? && k in tree.children && k in left && exclude != Some(src + [k]) && !tree.children[k].Special?
    requires root == Put(Put(root0, dst, Dir(CopiedSoFar(tree, src, exclude, left))), dst + [k], Clean(tree.children[k]))
    ensures root == Put(root0, dst, Dir(CopiedSoFar(tree, src, exclude, left - {k})))
  {
    var done := CopiedSoFar(tree, src, exclude, left);
    PutInto(root0, dst, done, k, Clean(tree.children[k]));
    assert done[k := Clean(tree.children[k])] == CopiedSoFar(tree, src, exclude, left - {k});
  }

  // A mkdir below a directory that is there makes all of its path or nothing.
  lemma ParentThere(mid: Node, root: Node, root0: Node, dst: Path, done: map<Name, Node>, k: Name)
    requires mid == Put(root0, dst, Dir(done)) && Halfway(mid, root, dst + [k])
    ensures root == mid
  {
    if root != mid {
      var i: nat :| HalfwayTo(mid, root, dst + [k], i);
      LookupPut(root0, dst, Dir(done));
      assert dst == (dst + [k])[..i] + dst[i..];
      LookupAppend(mid, (dst + [k])[..i], dst[i..]);
      assert false;
    }
  }

  lemma EntryFailed(root0: Node, mid: Node, root: Node, dst: Path, done: map<Name, Node>, k: Name)
    requires mid == Put(root0, dst, Dir(done)) && (OnlyAt(mid, root, dst + [k]) || Halfway(mid, root, dst + [k]))
    ensures OnlyAt(root0, root, dst)
  {
    if Halfway(mid, root, dst + [k]) {
      ParentThere(mid, root, root0, dst, done, k);
    }
    if root != mid {
      var n :| root == Put(mid, dst + [k], n);
      PutInto(root0, dst, done, k, n);
    }
  }

  // Nothing is in the way of an entry of a directory that was just put.
  lemma NotBlockedBelow(root0: Node, dst: Path, n: Node, k: Name)
    requires n.Dir?
    ensures !Blocked(Put(root0, dst, n), dst + [k])
  {
    var root, p := Put(root0, dst, n), dst + [k];
    LookupPut(root0, dst, n);
    forall i | 0 <= i < |p| && Exists(root, p[..i]) ensures IsDir(root, p[..i]) {
      assert dst == p[..i] + dst[i..];
      LookupAppend(root, p[..i], dst[i..]);
    }
  }

  /** Making the destination leaves the source a directory. */
  lemma StillDir(root0: Node, src: Path, dst: Path, exclude: Option<Path>, tree: Node)
    requires Lookup(root0, src) == Some(tree) && tree.Dir? && !Exists(root0, dst) && Disjoint(src, dst, exclude)
    ensures IsDir(Put(root0, dst, EMPTY), src)
  {
    if Apart(src, dst) {
      LookupPutApart(root0, dst, EMPTY, src);
    } else {
      assert dst == src + dst[|src|..];
      LookupPutAbove(root0, src, dst[|src|..], EMPTY);
    }
  }

  /** `tree` is what `src` names; the copy of a subdirectory is of a smaller tree, which is why it
      ends although the destination may lie inside the source. */
  method CopyDirExcluding(v: Volume, src: Path, dst: Path, exclude: Option<Path>, ghost tree: Node) returns (ok: bool)
    requires Lookup(v.root, src) == Some(tree) && !Exists(v.root, dst)
    requires Disjoint(src, dst, exclude)
    requires exclude.None? || Excludes(src, exclude) || Apart(src, exclude.value)
    modifies v
    ensures v.calls >= old(v.calls)
    ensures ok <==> v.NoFault(old(v.calls), v.calls) && tree.Dir? && !Blocked(old(v.root), dst)
    ensures ok ==> v.root == Put(old(v.root), dst, CopyOf(tree, src, exclude))
    ensures !ok ==> OnlyAt(old(v.root), v.root, dst) || Halfway(old(v.root), v.root, dst)
    decreases tree, 1
  {
    ghost var root0 := v.root;
    ok := v.Mkdir(dst);
    if !ok { return; }
    if tree.Dir? { StillDir(root0, src, dst, exclude, tree); }
    var names;
    ok, names := v.ReadDir(src);
    if !ok { return; }
    NamesRead(root0, src, dst, exclude, tree);
    ghost var calls0 := old(v.calls);
    var left := names;
    assert CopiedSoFar(tree, src, exclude, left) == map[];
    while left != {}
      invariant forall k :: k in left ==> k in tree.children || exclude == Some(src + [k])
      invariant v.root == Put(root0, dst, Dir(CopiedSoFar(tree, src, exclude, left)))
      invariant v.calls >= calls0 && v.NoFault(calls0, v.calls)
      decreases left
    {
      var name :| name in left;
      if exclude == Some(src + [name]) {
        assert CopiedSoFar(tree, src, exclude, left - {name}) == CopiedSoFar(tree, src, exclude, left);
        left := left - {name};
        continue;
      }
      ok := CopyEntry(v, src, dst, exclude, name, root0, tree, left);
      if !ok { return; }
      left := left - {name};
    }
    CopiedAll(tree, src, exclude);
  }

  // One entry that is not excluded.
  method CopyEntry(v: Volume, src: Path, dst: Path, exclude: Option<Path>, name: Name, ghost root0: Node, ghost tree: Node, ghost left: set<Name>)
    returns (ok: bool)
    requires tree.Dir? && Lookup(root0, src) == Some(tree) && !Exists(root0, dst) && Disjoint(src, dst, exclude)
    requires exclude.None? || Excludes(src, exclude) || Apart(src, exclude.value)
    requires name in tree.children && name in left && exclude != Some(src + [name])
    requires v.root == Put(root0, dst, Dir(CopiedSoFar(tree, src, exclude, left)))
    modifies v
    ensures v.calls >= old(v.calls) && (ok <==> v.NoFault(old(v.calls), v.calls))
    ensures ok ==> v.root == Put(root0, dst, Dir(CopiedSoFar(tree, src, exclude, left - {name})))
    ensures !ok ==> OnlyAt(root0, v.root, dst)
    decreases tree, 0
  {
    ghost var mid := v.root;
    var srcChild, dstChild := src + [name], dst + [name];
    EntryReady(root0, v.root, src, dst, exclude, tree, left, name);
    var entry := Lookup(v.root, srcChild).value;
    if entry.Special? {
      assert CopiedSoFar(tree, src, exclude, left - {name}) == CopiedSoFar(tree, src, exclude, left);
      return true;
    }
    if entry.Dir? {
      ChildDisjoint(src, dst, exclude, name);
      ChildNotExcluding(src, exclude, name);
      NotBlockedBelow(root0, dst, Dir(CopiedSoFar(tree, src, exclude, left)), name);
      ok := CopyDirExcluding(v, srcChild, dstChild, exclude, tree.children[name]);
    } else {
      ok := v.Write(dstChild, entry);
    }
    if ok {
      EntryCopied(root0, v.root, src, dst, exclude, tree, left, name);
    } else {
      EntryFailed(root0, mid, v.root, dst, CopiedSoFar(tree, src, exclude, left), name);
    }
  }

  /** Making the destination directory adds at most the excluded entry to the source. */
  lemma NamesRead(root0: Node, src: Path, dst: Path, exclude: Option<Path>, tree: Node)
    requires Lookup(root0, src) == Some(tree) && !Exists(root0, dst) && !Blocked(root0, dst) && Disjoint(src, dst, exclude)
    requires IsDir(Put(root0, dst, EMPTY), src)
    ensures tree.Dir?
    ensures var names := Lookup(Put(root0, dst, EMPTY), src).value.children.Keys;
            && tree.children.Keys <= names
            && forall k :: k in names ==> k in tree.children || exclude == Some(src + [k])
  {
    if Apart(src, dst) {
      LookupPutApart(root0, dst, EMPTY, src);
    } else {
      var q := dst[|src|..];
      assert dst == src + q && q[0] == exclude.value[|src|];
      assert dst[..|src|] == src;
      assert IsDir(root0, dst[..|src|]);
      assert exclude.value == src + [q[0]];
      LookupPutAbove(root0, src, q, EMPTY);
    }
  }
}
