/**
 Which files of a dev plugin are shipped, and the size scan before a deploy
 (apps/desktop/src/plugin-dev-deploy.ts, the copy filter and measureCopyBytes).
 */
module DeployCopy {
  import opened Common
  import opened FileTree

  const COPY_EXCLUDE: set<Name> := {".git", ".uncorded-dev.json", "PROMPT.md", "AGENTS.md", "CLAUDE.md"}

  const DEPLOY_MAX_BYTES: nat := 512 * 1024 * 1024

  /** The rule for one entry below the plugin folder. */
  predicate Ships(name: Name, n: Node) {
    && name !in COPY_EXCLUDE
    && !EndsWith(name, ".db") && !EndsWith(name, ".db-wal") && !EndsWith(name, ".db-shm")
    && !n.Link?
  }

  /** The tree a copy ships; the folder itself is not filtered. */
  function Shipped(n: Node): Node {
    match n
    case Dir(ch) => Dir(map k | k in ch && Ships(k, ch[k]) :: Shipped(ch[k]))
    case _ => n
  }

  /** A name of the plugin's own files: not the desktop's or an agent's, and no database. */
  predicate OwnName(name: Name) {
    && name != ".git" && name != ".uncorded-dev.json" && name != "PROMPT.md" && name != "AGENTS.md" && name != "CLAUDE.md"
    && !(|name| >= 3 && name[|name| - 3..] == ".db")
    && !(|name| >= 7 && (name[|name| - 7..] == ".db-wal" || name[|name| - 7..] == ".db-shm"))
  }

  ghost predicate IsLink(n: Node, p: Path) {
    Lookup(n, p).Some? && Lookup(n, p).value.Link?
  }

  /** Only names of the plugin's own on the way, and no link at it or on the way. */
  ghost predicate OwnPath(n: Node, p: Path) {
    (forall i :: 0 <= i < |p| ==> OwnName(p[i])) && forall i :: 0 < i <= |p| ==> !IsLink(n, p[..i])
  }

  lemma OwnPathStep(n: Node, p: Path)
    requires p != [] && n.Dir? && p[0] in n.children
    ensures OwnPath(n, p) <==> OwnName(p[0]) && !n.children[p[0]].Link? && OwnPath(n.children[p[0]], p[1..])
  {
    var child, rest := n.children[p[0]], p[1..];
    assert p[..1] == [p[0]] && [p[0]][1..] == [];
    assert Lookup(n, p[..1]) == Some(child);
    assert forall i :: 0 <= i < |rest| ==> rest[i] == p[i + 1];
    forall i | 0 < i <= |p| ensures IsLink(n, p[..i]) <==> IsLink(child, rest[..i - 1]) {
      assert p[..i][1..] == rest[..i - 1];
    }
    assert forall i :: 0 < i < |p| ==> p[i] == rest[i - 1];
    if OwnPath(n, p) {
      forall i | 0 < i <= |rest| ensures !IsLink(child, rest[..i]) { assert !IsLink(n, p[..i + 1]); }
      assert !IsLink(n, p[..1]);
    }
  }

  /** What is shipped, path by path: everything at a path of own names without links, each file as it
      is. The plugin's folder itself may have any name. */
  lemma {:induction false} ShippedPaths(n: Node, p: Path)
    ensures Lookup(Shipped(n), p).Some? <==> Lookup(n, p).Some? && OwnPath(n, p)
    ensures Lookup(Shipped(n), p).Some? ==>
              if Lookup(n, p).value.Dir? then Lookup(Shipped(n), p).value.Dir? else Lookup(Shipped(n), p) == Lookup(n, p)
    decreases |p|
  {
    if p != [] && n.Dir? && p[0] in n.children {
      OwnPathStep(n, p);
      ShippedPaths(n.children[p[0]], p[1..]);
      assert Ships(p[0], n.children[p[0]]) <==> OwnName(p[0]) && !n.children[p[0]].Link?;
    }
  }

  // ---------------------------------------------------------------------------
  // Totals over a tree
  // ---------------------------------------------------------------------------

  /** What a total adds up: the bytes of the files, or the nodes. */
  datatype What = Bytes | Nodes

  function Own(n: Node, what: What): nat {
    if what.Nodes? then 1 else if n.File? then |n.content| else 0
  }

  ghost function Total(n: Node, what: What): nat
    decreases n, if n.Dir? then |n.children.Keys| + 1 else 0
  {
    Own(n, what) + (if n.Dir? then TotalOf(n, n.children.Keys, what) else 0)
  }

  ghost function TotalOf(n: Node, names: set<Name>, what: What): nat
    requires n.Dir? && names <= n.children.Keys
    decreases n, |names|
  {
    if names == {} then 0
    else var k :| k in names; Total(n.children[k], what) + TotalOf(n, names - {k}, what)
  }

  /** The total does not depend on the order of the entries. */
  lemma {:induction false} TotalLess(n: Node, names: set<Name>, k: Name, what: What)
    requires n.Dir? && names <= n.children.Keys && k in names
    ensures TotalOf(n, names, what) == Total(n.children[k], what) + TotalOf(n, names - {k}, what)
    decreases |names|
  {
    var j :| j in names && TotalOf(n, names, what) == Total(n.children[j], what) + TotalOf(n, names - {j}, what);
    if j != k {
      TotalLess(n, names - {j}, k, what);
      TotalLess(n, names - {k}, j, what);
      assert names - {j} - {k} == names - {k} - {j};
    }
  }

  lemma {:induction false} SameChildren(a: Node, b: Node, names: set<Name>, what: What)
    requires a.Dir? && b.Dir? && names <= a.children.Keys && names <= b.children.Keys
    requires forall k :: k in names ==> a.children[k] == b.children[k]
    ensures TotalOf(a, names, what) == TotalOf(b, names, what)
    decreases |names|
  {
    if names != {} {
      var k :| k in names;
      TotalLess(a, names, k, what);
      TotalLess(b, names, k, what);
      SameChildren(a, b, names - {k}, what);
    }
  }

  /** A file anywhere in a tree adds its own length to the bytes, and nothing else. */
  lemma {:induction false} FileAddsItsLength(n: Node, p: Path, content: string)
    requires Lookup(n, p).Some? && Lookup(n, p).value.File?
    ensures Total(Put(n, p, File(content)), Bytes) - |content| == Total(n, Bytes) - |Lookup(n, p).value.content|
    decreases |p|
  {
    if p != [] {
      var k, after := p[0], Put(n, p, File(content));
      FileAddsItsLength(n.children[k], p[1..], content);
      assert after.children.Keys == n.children.Keys;
      TotalLess(n, n.children.Keys, k, Bytes);
      TotalLess(after, n.children.Keys, k, Bytes);
      SameChildren(n, after, n.children.Keys - {k}, Bytes);
    }
  }

  lemma {:induction false} NoFileNoBytes(n: Node)
    requires forall p :: Lookup(n, p).Some? ==> !Lookup(n, p).value.File?
    ensures Total(n, Bytes) == 0
    decreases n, if n.Dir? then |n.children.Keys| + 1 else 0
  {
    assert Lookup(n, []) == Some(n);
    if n.Dir? { NoFileBelow(n, n.children.Keys); }
  }

  lemma {:induction false} NoFileBelow(n: Node, names: set<Name>)
    requires n.Dir? && names <= n.children.Keys
    requires forall p :: Lookup(n, p).Some? ==> !Lookup(n, p).value.File?
    ensures TotalOf(n, names, Bytes) == 0
    decreases n, |names|
  {
    if names != {} {
      var k :| k in names;
      TotalLess(n, names, k, Bytes);
      forall p | Lookup(n.children[k], p).Some? ensures !Lookup(n.children[k], p).value.File? {
        assert ([k] + p)[1..] == p && Lookup(n, [k] + p) == Lookup(n.children[k], p);
      }
      NoFileNoBytes(n.children[k]);
      NoFileBelow(n, names - {k});
    }
  }

  // ---------------------------------------------------------------------------
  // The scan
  // ---------------------------------------------------------------------------

  /** What a scan sees: what ships, less what is in directories that cannot be listed. */
  function Scanned(n: Node, unreadable: Node -> bool): Node {
    match n
    case Dir(ch) => if unreadable(n) then EMPTY else Dir(map k | k in ch && Ships(k, ch[k]) :: Scanned(ch[k], unreadable))
    case _ => n
  }

  /** Every directory on the way can be listed. */
  ghost predicate Listed(n: Node, p: Path, unreadable: Node -> bool) {
    forall i :: 0 <= i < |p| && IsDir(n, p[..i]) ==> !unreadable(Lookup(n, p[..i]).value)
  }

  lemma ListedStep(n: Node, p: Path, unreadable: Node -> bool)
    requires p != [] && n.Dir? && p[0] in n.children
    ensures Listed(n, p, unreadable) <==> !unreadable(n) && Listed(n.children[p[0]], p[1..], unreadable)
  {
    var child, rest := n.children[p[0]], p[1..];
    assert p[..0] == [];
    forall i | 0 < i < |p| ensures Lookup(n, p[..i]) == Lookup(child, rest[..i - 1]) {
      assert p[..i][1..] == rest[..i - 1];
    }
    if Listed(n, p, unreadable) {
      forall i | 0 <= i < |rest| && IsDir(child, rest[..i]) ensures !unreadable(Lookup(child, rest[..i]).value) {
        assert IsDir(n, p[..i + 1]);
      }
      assert IsDir(n, p[..0]);
    }
  }

  /** Path by path: what ships and lies in no directory that cannot be listed. */
  lemma {:induction false} ScannedPaths(n: Node, p: Path, unreadable: Node -> bool)
    ensures Lookup(Scanned(n, unreadable), p).Some? <==> Lookup(Shipped(n), p).Some? && Listed(n, p, unreadable)
    ensures Lookup(Scanned(n, unreadable), p).Some? ==>
              if Lookup(Shipped(n), p).value.Dir? then Lookup(Scanned(n, unreadable), p).value.Dir?
              else Lookup(Scanned(n, unreadable), p) == Lookup(Shipped(n), p)
    decreases |p|
  {
    if p != [] && n.Dir? && p[0] in n.children {
      ListedStep(n, p, unreadable);
      ScannedPaths(n.children[p[0]], p[1..], unreadable);
    }
  }

  lemma {:induction false} AllListed(n: Node, unreadable: Node -> bool)
    requires forall d :: !unreadable(d)
    ensures Scanned(n, unreadable) == Shipped(n)
    decreases n
  {
    if n.Dir? {
      forall k | k in n.children ensures Scanned(n.children[k], unreadable) == Shipped(n.children[k]) {
        AllListed(n.children[k], unreadable);
      }
    }
  }

  ghost function StackTotal(stack: seq<Node>, unreadable: Node -> bool, what: What): nat {
    if stack == [] then 0
    else StackTotal(stack[..|stack| - 1], unreadable, what) + Total(Scanned(stack[|stack| - 1], unreadable), what)
  }

  // What is left of the directory being read, by shipped entries.
  ghost function Rest(current: Node, left: set<Name>, unreadable: Node -> bool, what: What): nat
    requires current.Dir?
  {
    TotalOf(Scanned(current, unreadable), Scanned(current, unreadable).children.Keys * left, what)
  }

  /** Reading one entry takes exactly that entry off the rest. */
  lemma RestStep(current: Node, left: set<Name>, k: Name, unreadable: Node -> bool, what: What)
    requires current.Dir? && !unreadable(current) && k in left && k in current.children
    ensures Rest(current, left, unreadable, what) ==
            (if Ships(k, current.children[k]) then Total(Scanned(current.children[k], unreadable), what) else 0)
            + Rest(current, left - {k}, unreadable, what)
  {
    var s := Scanned(current, unreadable);
    if Ships(k, current.children[k]) {
      TotalLess(s, s.children.Keys * left, k, what);
      assert s.children.Keys * left - {k} == s.children.Keys * (left - {k});
    } else {
      assert s.children.Keys * left == s.children.Keys * (left - {k});
    }
  }

  lemma RestAll(current: Node, unreadable: Node -> bool, what: What)
    requires current.Dir?
    ensures Total(Scanned(current, unreadable), what) == Own(current, what) + Rest(current, current.children.Keys, unreadable, what)
    ensures Rest(current, {}, unreadable, what) == 0
    ensures unreadable(current) ==> Rest(current, current.children.Keys, unreadable, what) == 0
  {
    var s := Scanned(current, unreadable);
    assert s.children.Keys * current.children.Keys == s.children.Keys;
    assert s.children.Keys * {} == {};
  }

  /** `unreadable` tells which directories fail to list; the scan passes over them. Over budget if and
      only if the files it sees total more than the budget, and otherwise that total. */
  method MeasureCopyBytes(dir: Node, budget: nat, unreadable: Node -> bool) returns (bytes: nat, overBudget: bool)
    requires dir.Dir?
    ensures overBudget <==> Total(Scanned(dir, unreadable), Bytes) > budget
    ensures if overBudget then budget < bytes <= Total(Scanned(dir, unreadable), Bytes) else bytes == Total(Scanned(dir, unreadable), Bytes)
  {
    ghost var total := Total(Scanned(dir, unreadable), Bytes);
    bytes := 0;
    var stack := [dir];
    assert [] + [dir] == [dir];
    while stack != []
      invariant forall d :: d in stack ==> d.Dir?
      invariant bytes <= budget
      invariant bytes + StackTotal(stack, unreadable, Bytes) == total
      decreases StackTotal(stack, unreadable, Nodes)
    {
      var current := stack[|stack| - 1];
      ghost var before := stack;
      stack := stack[..|stack| - 1];
      RestAll(current, unreadable, Bytes);
      RestAll(current, unreadable, Nodes);
      if unreadable(current) {
        continue;
      }
      var names := current.children.Keys;
      while names != {}
        invariant names <= current.children.Keys
        invariant forall d :: d in stack ==> d.Dir?
        invariant bytes <= budget
        invariant bytes + StackTotal(stack, unreadable, Bytes) + Rest(current, names, unreadable, Bytes) == total
        invariant StackTotal(stack, unreadable, Nodes) + Rest(current, names, unreadable, Nodes) < StackTotal(before, unreadable, Nodes)
        decreases names
      {
        var name :| name in names;
        RestStep(current, names, name, unreadable, Bytes);
        RestStep(current, names, name, unreadable, Nodes);
        names := names - {name};
        var entry := current.children[name];
        if !Ships(name, entry) {
          continue;
        }
        if entry.Dir? {
          stack := stack + [entry];
        } else {
          bytes := bytes + (if entry.File? then |entry.content| else 0);
          if bytes > budget {
            return bytes, true;
          }
        }
      }
    }
    return bytes, false;
  }
}
