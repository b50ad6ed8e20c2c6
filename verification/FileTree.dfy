/**
 A directory tree as a value, the paths into it, and a volume whose filesystem calls may fail.
 */
module FileTree {
  import opened Common

  type Name = string
  type Path = seq<Name>

  /** `Special` stands for sockets, fifos and devices. */
  datatype Node =
    | File(content: string)
    | Link(target: string)
    | Special
    | Dir(children: map<Name, Node>)

  const EMPTY: Node := Dir(map[])

  function Lookup(root: Node, p: Path): Option<Node> {
    if p == [] then Some(root)
    else if root.Dir? && p[0] in root.children then Lookup(root.children[p[0]], p[1..])
    else None
  }

  predicate Exists(root: Node, p: Path) {
    Lookup(root, p).Some?
  }

  predicate IsDir(root: Node, p: Path) {
    Lookup(root, p).Some? && Lookup(root, p).value.Dir?
  }

  /** The tree with `n` at `p`, directories on the way created where there is none. */
  function Put(root: Node, p: Path, n: Node): Node
    decreases |p|
  {
    if p == [] then n
    else
      var ch := if root.Dir? then root.children else map[];
      Dir(ch[p[0] := Put(if p[0] in ch then ch[p[0]] else EMPTY, p[1..], n)])
  }

  function Remove(root: Node, p: Path): Node
    requires p != []
    decreases |p|
  {
    if !root.Dir? || p[0] !in root.children then root
    else if |p| == 1 then Dir(root.children - {p[0]})
    else Dir(root.children[p[0] := Remove(root.children[p[0]], p[1..])])
  }

  /** Neither path leads into what the other names. */
  predicate Apart(p: Path, q: Path) {
    !(p <= q) && !(q <= p)
  }

  // ---------------------------------------------------------------------------
  // Laws
  // ---------------------------------------------------------------------------

  lemma {:induction false} LookupPut(root: Node, p: Path, n: Node)
    ensures Lookup(Put(root, p, n), p) == Some(n)
    decreases |p|
  {
    if p != [] {
      var ch := if root.Dir? then root.children else map[];
      LookupPut(if p[0] in ch then ch[p[0]] else EMPTY, p[1..], n);
    }
  }

  lemma {:induction false} LookupPutApart(root: Node, p: Path, n: Node, q: Path)
    requires Apart(p, q)
    ensures Lookup(Put(root, p, n), q) == Lookup(root, q)
    decreases |p|
  {
    if p[0] == q[0] {
      var ch := if root.Dir? then root.children else map[];
      assert p == [p[0]] + p[1..] && q == [q[0]] + q[1..];
      LookupPutApart(if p[0] in ch then ch[p[0]] else EMPTY, p[1..], n, q[1..]);
    }
  }

  lemma {:induction false} LookupPutAbove(root: Node, p: Path, q: Path, n: Node)
    requires Exists(root, p)
    ensures Lookup(Put(root, p + q, n), p) == Some(Put(Lookup(root, p).value, q, n))
    decreases |p|
  {
    if p == [] {
      assert p + q == q;
    } else {
      assert (p + q)[1..] == p[1..] + q;
      LookupPutAbove(root.children[p[0]], p[1..], q, n);
    }
  }

  /** Two paths are apart when they part at some common index. */
  lemma ApartAt(p: Path, q: Path)
    requires Apart(p, q)
    ensures exists i :: 0 <= i < |p| && i < |q| && p[i] != q[i]
  {
    var n := if |p| <= |q| then |p| else |q|;
    assert p[..n] != q[..n];
  }

  lemma {:induction false} LookupAppend(root: Node, p: Path, q: Path)
    ensures Lookup(root, p + q) == match Lookup(root, p) case None => None case Some(n) => Lookup(n, q)
    decreases |p|
  {
    if p == [] {
      assert p + q == q;
    } else {
      assert (p + q)[1..] == p[1..] + q;
      if root.Dir? && p[0] in root.children {
        LookupAppend(root.children[p[0]], p[1..], q);
      }
    }
  }

  /** A write below a directory just written is a write of that directory. */
  lemma {:induction false} PutInto(root: Node, p: Path, ch: map<Name, Node>, k: Name, n: Node)
    ensures Put(Put(root, p, Dir(ch)), p + [k], n) == Put(root, p, Dir(ch[k := n]))
    decreases |p|
  {
    if p == [] {
      assert [] + [k] == [k] && [k][1..] == [];
    } else {
      assert (p + [k])[1..] == p[1..] + [k];
      var rc := if root.Dir? then root.children else map[];
      PutInto(if p[0] in rc then rc[p[0]] else EMPTY, p[1..], ch, k, n);
    }
  }

  lemma {:induction false} PutTwice(root: Node, p: Path, a: Node, b: Node)
    ensures Put(Put(root, p, a), p, b) == Put(root, p, b)
    decreases |p|
  {
    if p != [] {
      var ch := if root.Dir? then root.children else map[];
      var child := if p[0] in ch then ch[p[0]] else EMPTY;
      PutTwice(child, p[1..], a, b);
      var once := Put(root, p, a);
      assert once.children == ch[p[0] := Put(child, p[1..], a)];
      assert Put(once, p, b) == Dir(once.children[p[0] := Put(Put(child, p[1..], a), p[1..], b)]);
      assert once.children[p[0] := Put(child, p[1..], b)] == ch[p[0] := Put(child, p[1..], b)];
    }
  }

  lemma Top(root: Node, k: Name, n: Node)
    requires root.Dir?
    ensures Put(root, [k], n) == Dir(root.children[k := n])
    ensures Remove(root, [k]) == Dir(root.children - {k})
    ensures Lookup(root, [k]) == if k in root.children then Some(root.children[k]) else None
  {
    assert [k][1..] == [];
    assert k !in root.children ==> root.children - {k} == root.children;
  }

  // ---------------------------------------------------------------------------
  // Copies and leftovers
  // ---------------------------------------------------------------------------

  /** What a copy keeps: directories, files and links, all the way down. */
  function Clean(n: Node): Node {
    match n
    case Dir(ch) => Dir(map k | k in ch && !ch[k].Special? :: Clean(ch[k]))
    case _ => n
  }

  ghost predicate SpecialOnWay(n: Node, p: Path) {
    exists i :: 0 < i <= |p| && Lookup(n, p[..i]) == Some(Special)
  }

  lemma SpecialOnWayStep(n: Node, p: Path)
    requires p != [] && n.Dir? && p[0] in n.children
    ensures SpecialOnWay(n, p) <==> n.children[p[0]].Special? || SpecialOnWay(n.children[p[0]], p[1..])
  {
    var child, rest := n.children[p[0]], p[1..];
    assert p[..1] == [p[0]] && [p[0]][1..] == [];
    assert Lookup(n, p[..1]) == Some(child);
    forall i | 0 < i <= |p| ensures Lookup(n, p[..i]) == Lookup(child, rest[..i - 1]) {
      assert p[..i][1..] == rest[..i - 1];
    }
    if j :| 0 < j <= |rest| && Lookup(child, rest[..j]) == Some(Special) {
      assert Lookup(n, p[..j + 1]) == Some(Special);
    }
    if i :| 0 < i <= |p| && Lookup(n, p[..i]) == Some(Special) {
      assert Lookup(child, rest[..i - 1]) == Some(Special);
      assert rest[..0] == [];
    }
  }

  /** A copy, path by path: all but sockets, fifos and devices, each file and link as it is. */
  lemma {:induction false} CopiedPaths(n: Node, p: Path)
    ensures Lookup(Clean(n), p).Some? <==> Lookup(n, p).Some? && !SpecialOnWay(n, p)
    ensures Lookup(Clean(n), p).Some? ==>
              if Lookup(n, p).value.Dir? then Lookup(Clean(n), p).value.Dir? else Lookup(Clean(n), p) == Lookup(n, p)
    decreases |p|
  {
    if p != [] && n.Dir? && p[0] in n.children {
      SpecialOnWayStep(n, p);
      CopiedPaths(n.children[p[0]], p[1..]);
    }
  }

  function Dropping(n: Node, k: Name): Node {
    match n
    case Dir(ch) => Dir(ch - {k})
    case _ => n
  }

  /** A tree without sockets, fifos or devices. */
  predicate Plain(n: Node) {
    match n
    case Special => false
    case Dir(ch) => forall k :: k in ch ==> Plain(ch[k])
    case _ => true
  }

  lemma {:induction false} CleanPlain(n: Node)
    requires Plain(n)
    ensures Clean(n) == n
    decreases n
  {
    if n.Dir? {
      forall k | k in n.children ensures Clean(n.children[k]) == n.children[k] && !n.children[k].Special? {
        CleanPlain(n.children[k]);
      }
    }
  }

  /** What an interrupted recursive removal may leave: some entries are gone. */
  predicate Leftover(rest: Node, n: Node) {
    match n
    case Dir(ch) => rest.Dir? && forall k :: k in rest.children ==> k in ch && Leftover(rest.children[k], ch[k])
    case _ => rest == n
  }

  lemma {:induction false} LeftoverSelf(n: Node)
    ensures Leftover(n, n)
    decreases n
  {
    if n.Dir? {
      forall k | k in n.children ensures Leftover(n.children[k], n.children[k]) { LeftoverSelf(n.children[k]); }
    }
  }

  /** The two trees differ at most in what `p` names. */
  ghost predicate OnlyAt(before: Node, after: Node, p: Path) {
    after == before || exists n :: after == Put(before, p, n)
  }

  /** What a failed recursive mkdir of `p` may have done: only some of the directories on the way. */
  ghost predicate Halfway(before: Node, after: Node, p: Path) {
    after == before || exists i: nat :: HalfwayTo(before, after, p, i)
  }

  ghost predicate HalfwayTo(before: Node, after: Node, p: Path, i: nat) {
    0 < i < |p| && !Exists(before, p[..i]) && !Blocked(before, p) && after == Put(before, p[..i], EMPTY)
  }

  /** What a failed removal of `p` may have done. */
  ghost predicate Interrupted(before: Node, after: Node, p: Path) {
    after == before || exists rest :: InterruptedAs(before, after, p, rest)
  }

  ghost predicate InterruptedAs(before: Node, after: Node, p: Path, rest: Node) {
    Exists(before, p) && Leftover(rest, Lookup(before, p).value) && after == Put(before, p, rest)
  }

  // ---------------------------------------------------------------------------
  // A volume
  // ---------------------------------------------------------------------------

  predicate CanRename(root: Node, src: Path, dst: Path) {
    && src != [] && dst != [] && Apart(src, dst)
    && Exists(root, src) && IsDir(root, dst[..|dst| - 1])
    && (Exists(root, dst) ==> Lookup(root, dst).value == EMPTY && IsDir(root, src))
  }

  function Renamed(root: Node, src: Path, dst: Path): Node
    requires CanRename(root, src, dst)
  {
    Put(Remove(root, src), dst, Lookup(root, src).value)
  }

  /** The filesystem under one server's volume path. Call number `i` fails when `faults(i)`; an
      interrupted removal leaves what `leftover` says, an interrupted mkdir has made the first
      `reach` directories of its path. */
  class Volume {
    var root: Node
    var calls: nat
    const faults: nat -> bool
    const leftover: (nat, Node) -> Node
    const reach: nat -> nat

    constructor (root: Node, faults: nat -> bool, leftover: (nat, Node) -> Node, reach: nat -> nat)
      ensures this.root == root
    {
      this.root, this.faults, this.leftover, this.reach, this.calls := root, faults, leftover, reach, 0;
    }

    /** None of the calls after number `from`, up to number `to`, fails. */
    ghost predicate NoFault(from: nat, to: nat) {
      forall i :: from < i <= to ==> !faults(i)
    }

    /** At most one of these calls fails, or none. */
    ghost predicate FewFaults(from: nat, to: nat, one: bool) {
      if one then forall i, j :: from < i < j <= to && faults(i) ==> !faults(j) else NoFault(from, to)
    }

    /** `mkdir` with `recursive`. */
    method Mkdir(p: Path) returns (ok: bool)
      modifies this
      ensures calls == old(calls) + 1
      ensures ok <==> !faults(calls) && CanMkdir(old(root), p)
      ensures !ok ==> Halfway(old(root), root, p)
      ensures ok ==> !Blocked(old(root), p)
      ensures ok && IsDir(old(root), p) ==> root == old(root)
      ensures ok && !IsDir(old(root), p) ==> !Exists(old(root), p) && root == Put(old(root), p, EMPTY)
    {
      calls := calls + 1;
      if !CanMkdir(root, p) {
        return false;
      }
      if faults(calls) {
        var i := reach(calls);
        if 0 < i < |p| && !Exists(root, p[..i]) {
          root := Put(root, p[..i], EMPTY);
          assert HalfwayTo(old(root), root, p, i);
        }
        return false;
      }
      if !Exists(root, p) {
        root := Put(root, p, EMPTY);
      }
      return true;
    }

    method Rename(src: Path, dst: Path) returns (ok: bool)
      modifies this
      ensures calls == old(calls) + 1
      ensures ok <==> !faults(calls) && CanRename(old(root), src, dst)
      ensures ok ==> root == Renamed(old(root), src, dst)
      ensures !ok ==> root == old(root)
    {
      calls := calls + 1;
      if faults(calls) || !CanRename(root, src, dst) {
        return false;
      }
      root := Renamed(root, src, dst);
      return true;
    }

    /** `rm` with `recursive` and `force`: a missing path is no error. */
    method Rm(p: Path) returns (ok: bool)
      requires p != []
      modifies this
      ensures calls == old(calls) + 1 && (ok <==> !faults(calls))
      ensures ok ==> root == Remove(old(root), p)
      ensures !ok ==> Interrupted(old(root), root, p)
    {
      calls := calls + 1;
      if faults(calls) {
        if Exists(root, p) {
          var n := Lookup(root, p).value;
          var rest := leftover(calls, n);
          if Leftover(rest, n) {
            root := Put(root, p, rest);
            assert InterruptedAs(old(root), root, p, rest);
          }
        }
        return false;
      }
      root := Remove(root, p);
      return true;
    }

    method ReadDir(p: Path) returns (ok: bool, names: set<Name>)
      modifies this`calls
      ensures calls == old(calls) + 1
      ensures ok <==> !faults(calls) && IsDir(root, p)
      ensures ok ==> names == Lookup(root, p).value.children.Keys
    {
      calls := calls + 1;
      names := {};
      if faults(calls) || !IsDir(root, p) {
        return false, names;
      }
      return true, Lookup(root, p).value.children.Keys;
    }

    /** Create a file or link; an interrupted copy of a file leaves a part of it. */
    method Write(p: Path, n: Node) returns (ok: bool)
      modifies this
      ensures calls == old(calls) + 1 && (ok <==> !faults(calls))
      ensures ok ==> root == Put(old(root), p, n)
      ensures !ok ==> root == old(root) || root == Put(old(root), p, File(""))
    {
      calls := calls + 1;
      if faults(calls) {
        if n.File? {
          root := Put(root, p, File(""));
        }
        return false;
      }
      root := Put(root, p, n);
      return true;
    }
  }

  predicate CanMkdir(root: Node, p: Path) {
    !Blocked(root, p) && (Exists(root, p) ==> IsDir(root, p))
  }

  /** Something on the way to `p` is not a directory. */
  predicate Blocked(root: Node, p: Path) {
    exists i :: 0 <= i < |p| && Exists(root, p[..i]) && !IsDir(root, p[..i])
  }
}
