/** Kahn's algorithm over plugin dependencies (runtime/src/resolver.ts, topologicalSort). */
module TopologicalSort {
  // A graph lists the slugs in the insertion order of the source's Map and, for each, the slugs it
  // depends on; a dependency may be listed more than once.

  datatype Graph = Graph(slugs: seq<string>, deps: map<string, seq<string>>)

  datatype TopoResult = Sorted(order: seq<string>) | Cyclic(cycle: seq<string>)

  ghost predicate Distinct(xs: seq<string>) {
    forall i, j :: 0 <= i < j < |xs| ==> xs[i] != xs[j]
  }

  function Elements(xs: seq<string>): set<string> {
    set x | x in xs
  }

  /** Every dependency is itself a node. */
  ghost predicate WellFormed(g: Graph) {
    && Distinct(g.slugs)
    && g.deps.Keys == Elements(g.slugs)
    && forall s, i :: s in g.deps && 0 <= i < |g.deps[s]| ==> g.deps[s][i] in g.deps
  }

  // ---------------------------------------------------------------------------
  // Paths and cycles
  // ---------------------------------------------------------------------------

  ghost predicate IsPath(deps: map<string, seq<string>>, p: seq<string>) {
    && p != []
    && (|p| > 1 ==> p[0] in deps && p[1] in deps[p[0]] && IsPath(deps, p[1..]))
  }

  ghost predicate IsCycle(deps: map<string, seq<string>>, p: seq<string>) {
    IsPath(deps, p) && |p| > 1 && p[0] == p[|p| - 1]
  }

  ghost predicate Acyclic(deps: map<string, seq<string>>) {
    !exists c :: IsCycle(deps, c)
  }

  lemma {:induction false} PathTake(deps: map<string, seq<string>>, p: seq<string>, n: nat)
    requires IsPath(deps, p) && 0 < n <= |p|
    ensures IsPath(deps, p[..n])
    decreases |p|
  {
    if n > 1 {
      PathTake(deps, p[1..], n - 1);
      assert p[..n][1..] == p[1..][..n - 1];
    }
  }

  lemma {:induction false} PathDrop(deps: map<string, seq<string>>, p: seq<string>, n: nat)
    requires IsPath(deps, p) && n < |p|
    ensures IsPath(deps, p[n..])
    decreases |p|
  {
    if n > 0 {
      PathDrop(deps, p[1..], n - 1);
      assert p[n..] == p[1..][n - 1..];
    } else {
      assert p[0..] == p;
    }
  }

  /** Following dependencies from `s` can run into a cycle. */
  ghost predicate ReachesCycle(deps: map<string, seq<string>>, s: string) {
    exists p, c :: IsPath(deps, p) && p[0] == s && IsCycle(deps, c) && c[0] == p[|p| - 1]
  }

  ghost predicate Before(xs: seq<string>, x: string, y: string) {
    exists i, j :: 0 <= i < j < |xs| && xs[i] == x && xs[j] == y
  }

  /** The nodes from which a cycle can be reached, in the insertion order of the graph. */
  ghost predicate CycleReport(g: Graph, report: seq<string>) {
    && (forall s :: s in report <==> s in g.deps && ReachesCycle(g.deps, s))
    && (forall i, j :: 0 <= i < j < |report| ==> Before(g.slugs, report[i], report[j]))
  }

  /** `s` is the first of the slugs from which a cycle can be reached. */
  ghost predicate FirstOnCycle(slugs: seq<string>, deps: map<string, seq<string>>, s: string) {
    exists i: nat :: FirstAt(slugs, deps, s, i)
  }

  ghost predicate FirstAt(slugs: seq<string>, deps: map<string, seq<string>>, s: string, i: nat) {
    i < |slugs| && slugs[i] == s && ReachesCycle(deps, s) && forall j :: 0 <= j < i ==> !ReachesCycle(deps, slugs[j])
  }

  /** So the report starts with the first such node. */
  lemma ReportStartsFirst(g: Graph, report: seq<string>)
    requires WellFormed(g) && CycleReport(g, report) && report != []
    ensures FirstOnCycle(g.slugs, g.deps, report[0])
  {
    var first := report[0];
    assert first in Elements(g.slugs);
    var i: nat :| i < |g.slugs| && g.slugs[i] == first;
    forall j | 0 <= j < i ensures !ReachesCycle(g.deps, g.slugs[j]) {
      assert g.slugs[j] in Elements(g.slugs);
    }
    assert FirstAt(g.slugs, g.deps, first, i);
  }

  /** A permutation of the nodes with every dependency before its dependents. */
  ghost predicate DependencyOrder(g: Graph, order: seq<string>) {
    && Distinct(order) && Elements(order) == Elements(g.slugs)
    && DepsFirst(g.deps, order)
  }

  ghost predicate DepsFirst(deps: map<string, seq<string>>, order: seq<string>) {
    order == [] ||
    var before, last := order[..|order| - 1], order[|order| - 1];
    last in deps && (forall d :: d in deps[last] ==> d in before) && DepsFirst(deps, before)
  }

  lemma {:induction false} DependencyIndex(deps: map<string, seq<string>>, order: seq<string>, i: nat, d: string) returns (k: nat)
    requires DepsFirst(deps, order) && i < |order| && order[i] in deps && d in deps[order[i]]
    ensures k < i && order[k] == d
    decreases |order|
  {
    var before := order[..|order| - 1];
    if i == |order| - 1 {
      assert d in before;
      k :| 0 <= k < |before| && before[k] == d;
    } else {
      k := DependencyIndex(deps, before, i, d);
    }
  }

  // ---------------------------------------------------------------------------
  // Counting
  // ---------------------------------------------------------------------------

  function Occurrences(xs: seq<string>, x: string): nat {
    if xs == [] then 0 else Occurrences(xs[..|xs| - 1], x) + (if xs[|xs| - 1] == x then 1 else 0)
  }

  /** How many entries of `xs` are not in `done`. */
  function Missing(xs: seq<string>, done: set<string>): nat {
    if xs == [] then 0 else Missing(xs[..|xs| - 1], done) + (if xs[|xs| - 1] in done then 0 else 1)
  }

  lemma {:induction false} MissingNone(xs: seq<string>, done: set<string>)
    ensures Missing(xs, done) == 0 <==> forall x :: x in xs ==> x in done
  {
    if xs != [] {
      MissingNone(xs[..|xs| - 1], done);
      assert xs == xs[..|xs| - 1] + [xs[|xs| - 1]];
    }
  }

  lemma {:induction false} MissingLess(xs: seq<string>, done: set<string>, x: string)
    requires x !in done
    ensures Missing(xs, done + {x}) == Missing(xs, done) - Occurrences(xs, x)
  {
    if xs != [] { MissingLess(xs[..|xs| - 1], done, x); }
  }

  lemma {:induction false} MissingAll(xs: seq<string>)
    ensures Missing(xs, {}) == |xs|
  {
    if xs != [] { MissingAll(xs[..|xs| - 1]); }
  }

  lemma OccurrencesStep(xs: seq<string>, j: nat, x: string)
    requires j < |xs|
    ensures Occurrences(xs[..j + 1], x) == Occurrences(xs[..j], x) + (if xs[j] == x then 1 else 0)
  {
    assert xs[..j + 1][..j] == xs[..j];
  }

  lemma {:induction false} OccurrencesPrefix(xs: seq<string>, j: nat, x: string)
    requires j <= |xs|
    ensures Occurrences(xs[..j], x) <= Occurrences(xs, x)
    decreases |xs| - j
  {
    if j < |xs| {
      OccurrencesStep(xs, j, x);
      OccurrencesPrefix(xs, j + 1, x);
    } else {
      assert xs[..j] == xs;
    }
  }

  // ---------------------------------------------------------------------------
  // The algorithm
  // ---------------------------------------------------------------------------

  /** `reverse[d]` lists every slug as often as it lists `d` among its dependencies. */
  ghost predicate Reverses(g: Graph, reverse: map<string, seq<string>>) {
    && reverse.Keys == g.deps.Keys
    && (forall d, s :: d in reverse && s in reverse[d] ==> s in g.deps)
    && (forall d, s :: d in g.deps && s in g.deps ==> Occurrences(reverse[d], s) == Occurrences(g.deps[s], d))
  }

  /** What `d` collects from the first `i` slugs and the first `j` dependencies of the next one. */
  function Collected(g: Graph, d: string, i: nat, j: nat): seq<string>
    requires i <= |g.slugs| && forall s :: s in g.slugs ==> s in g.deps
    requires i < |g.slugs| ==> j <= |g.deps[g.slugs[i]]|
    requires i == |g.slugs| ==> j == 0
    decreases i, j
  {
    if j > 0 then
      Collected(g, d, i, j - 1) + (if g.deps[g.slugs[i]][j - 1] == d then [g.slugs[i]] else [])
    else if i > 0 then Collected(g, d, i - 1, |g.deps[g.slugs[i - 1]]|)
    else []
  }

  /** Slug number `k` is collected by `d` once for each entry of `d` among its dependencies. */
  lemma {:induction false} CollectedCounts(g: Graph, d: string, i: nat, j: nat, k: nat)
    requires WellFormed(g) && i <= |g.slugs| && k < |g.slugs|
    requires i < |g.slugs| ==> j <= |g.deps[g.slugs[i]]|
    requires i == |g.slugs| ==> j == 0
    ensures Occurrences(Collected(g, d, i, j), g.slugs[k]) ==
              if k < i then Occurrences(g.deps[g.slugs[k]], d)
              else if k == i then Occurrences(g.deps[g.slugs[k]][..j], d)
              else 0
    decreases i, j
  {
    if j > 0 {
      CollectedCounts(g, d, i, j - 1, k);
      CollectedOne(Collected(g, d, i, j - 1), g.deps[g.slugs[i]], j, g.slugs[i], d, g.slugs[k]);
      assert k != i ==> g.slugs[k] != g.slugs[i];
    } else if i > 0 {
      var all := g.deps[g.slugs[i - 1]];
      CollectedCounts(g, d, i - 1, |all|, k);
      assert all[..|all|] == all;
    }
  }

  // One dependency of `slug`, collected for `d` when it is `d`.
  lemma CollectedOne(before: seq<string>, deps: seq<string>, j: nat, slug: string, d: string, x: string)
    requires 0 < j <= |deps|
    ensures Occurrences(before + (if deps[j - 1] == d then [slug] else []), x)
         == Occurrences(before, x) + (if x == slug && deps[j - 1] == d then 1 else 0)
    ensures Occurrences(deps[..j], d) == Occurrences(deps[..j - 1], d) + (if deps[j - 1] == d then 1 else 0)
  {
    OccurrencesStep(deps, j - 1, d);
    assert before + [] == before;
  }

  lemma {:induction false} CollectedAreNodes(g: Graph, d: string, i: nat, j: nat)
    requires WellFormed(g) && i <= |g.slugs|
    requires i < |g.slugs| ==> j <= |g.deps[g.slugs[i]]|
    requires i == |g.slugs| ==> j == 0
    ensures forall s :: s in Collected(g, d, i, j) ==> s in g.deps
    decreases i, j
  {
    if j > 0 {
      CollectedAreNodes(g, d, i, j - 1);
    } else if i > 0 {
      CollectedAreNodes(g, d, i - 1, |g.deps[g.slugs[i - 1]]|);
    }
  }

  lemma CollectedReverses(g: Graph, reverse: map<string, seq<string>>)
    requires WellFormed(g) && reverse.Keys == g.deps.Keys
    requires forall d :: d in g.deps ==> reverse[d] == Collected(g, d, |g.slugs|, 0)
    ensures Reverses(g, reverse)
  {
    forall d, s | d in g.deps && s in g.deps
      ensures Occurrences(reverse[d], s) == Occurrences(g.deps[s], d)
    {
      var k :| 0 <= k < |g.slugs| && g.slugs[k] == s;
      CollectedCounts(g, d, |g.slugs|, 0, k);
    }
    forall d, s | d in reverse && s in reverse[d] ensures s in g.deps {
      CollectedAreNodes(g, d, |g.slugs|, 0);
    }
  }

  method BuildReverse(g: Graph) returns (reverse: map<string, seq<string>>)
    requires WellFormed(g)
    ensures Reverses(g, reverse)
  {
    reverse := map s | s in g.deps :: [];
    for i := 0 to |g.slugs|
      invariant CollectedBy(g, reverse, i, 0)
    {
      reverse := ReverseOne(g, i, reverse);
    }
    CollectedReverses(g, reverse);
  }

  ghost predicate CollectedBy(g: Graph, reverse: map<string, seq<string>>, i: nat, j: nat)
    requires WellFormed(g) && i <= |g.slugs|
    requires i < |g.slugs| ==> j <= |g.deps[g.slugs[i]]|
    requires i == |g.slugs| ==> j == 0
  {
    reverse.Keys == g.deps.Keys && forall d :: d in g.deps ==> reverse[d] == Collected(g, d, i, j)
  }

  // The inner loop: one slug and its dependencies.
  method ReverseOne(g: Graph, i: nat, reverse0: map<string, seq<string>>) returns (reverse: map<string, seq<string>>)
    requires WellFormed(g) && i < |g.slugs| && CollectedBy(g, reverse0, i, 0)
    ensures CollectedBy(g, reverse, i + 1, 0)
  {
    reverse := reverse0;
    var slug := g.slugs[i];
    var deps := g.deps[slug];
    for j := 0 to |deps|
      invariant CollectedBy(g, reverse, i, j)
    {
      reverse := reverse[deps[j] := reverse[deps[j]] + [slug]];
    }
  }

  /** The state of the queue loop between two dequeues: `done` nodes are in the order, and a node is
      in the order or in the queue exactly when none of its dependencies is left to place. */
  ghost predicate QueueInv(g: Graph, order: seq<string>, queue: seq<string>, inDegree: map<string, int>) {
    && Distinct(order + queue)
    && (forall s :: s in order || s in queue ==> s in g.deps)
    && inDegree.Keys == g.deps.Keys
    && (forall s :: s in g.deps ==> (s in order || s in queue <==> inDegree[s] == 0))
    && DepsFirst(g.deps, order)
  }

  /** In-degrees count the dependencies not yet placed. */
  ghost predicate Counts(g: Graph, inDegree: map<string, int>, done: set<string>) {
    && inDegree.Keys == g.deps.Keys
    && forall s :: s in g.deps ==> inDegree[s] == Missing(g.deps[s], done)
  }

  /** The same in the middle of the inner loop: `seen` dependents of `current` were decremented. */
  ghost predicate CountsDuring(g: Graph, inDegree: map<string, int>, done: set<string>, seen: seq<string>) {
    && inDegree.Keys == g.deps.Keys
    && forall s :: s in g.deps ==> inDegree[s] == Missing(g.deps[s], done) - Occurrences(seen, s)
  }

  /** One decrement: the in-degree was positive, and reaching zero is what queues a node. */
  lemma Decrement(g: Graph, inDegree: map<string, int>, done: set<string>, current: string, dependents: seq<string>, j: nat)
    requires current !in done && j < |dependents| && dependents[j] in g.deps
    requires Occurrences(dependents, dependents[j]) == Occurrences(g.deps[dependents[j]], current)
    requires CountsDuring(g, inDegree, done, dependents[..j])
    ensures inDegree[dependents[j]] >= 1
    ensures CountsDuring(g, inDegree[dependents[j] := inDegree[dependents[j]] - 1], done, dependents[..j + 1])
  {
    var dependent := dependents[j];
    forall s ensures Occurrences(dependents[..j + 1], s) == Occurrences(dependents[..j], s) + (if dependent == s then 1 else 0) {
      OccurrencesStep(dependents, j, s);
    }
    OccurrencesPrefix(dependents, j + 1, dependent);
    MissingLess(g.deps[dependent], done, current);
  }

  lemma Requeue(g: Graph, order: seq<string>, queue: seq<string>, inDegree: map<string, int>, dependent: string)
    requires QueueInv(g, order, queue, inDegree) && dependent in g.deps && inDegree[dependent] >= 1
    ensures var newDegree := inDegree[dependent] - 1;
            QueueInv(g, order, if newDegree == 0 then queue + [dependent] else queue, inDegree[dependent := newDegree])
  {
    assert order + (queue + [dependent]) == (order + queue) + [dependent];
    assert dependent !in order + queue;
  }

  /** Decrement every dependent of `current`, queueing those that reach zero. */
  method Release(g: Graph, dependents: seq<string>, ghost done: set<string>, ghost current: string,
                 ghost order: seq<string>, queue0: seq<string>, inDegree0: map<string, int>)
    returns (queue: seq<string>, inDegree: map<string, int>)
    requires current !in done
    requires forall s :: s in dependents ==> s in g.deps
    requires forall s :: s in g.deps ==> Occurrences(dependents, s) == Occurrences(g.deps[s], current)
    requires Counts(g, inDegree0, done) && QueueInv(g, order, queue0, inDegree0)
    ensures Counts(g, inDegree, done + {current}) && QueueInv(g, order, queue, inDegree)
  {
    queue, inDegree := queue0, inDegree0;
    for j := 0 to |dependents|
      invariant CountsDuring(g, inDegree, done, dependents[..j])
      invariant QueueInv(g, order, queue, inDegree)
    {
      var dependent := dependents[j];
      assert dependent in dependents;
      Decrement(g, inDegree, done, current, dependents, j);
      Requeue(g, order, queue, inDegree, dependent);
      var newDegree := inDegree[dependent] - 1;
      inDegree := inDegree[dependent := newDegree];
      if newDegree == 0 {
        queue := queue + [dependent];
      }
    }
    assert dependents[..|dependents|] == dependents;
    forall s | s in g.deps ensures inDegree[s] == Missing(g.deps[s], done + {current}) {
      MissingLess(g.deps[s], done, current);
    }
  }

  method InitialQueue(g: Graph) returns (queue: seq<string>, inDegree: map<string, int>)
    requires WellFormed(g)
    ensures Counts(g, inDegree, {}) && QueueInv(g, [], queue, inDegree)
  {
    inDegree := map s | s in g.deps :: |g.deps[s]|;
    queue := [];
    for i := 0 to |g.slugs|
      invariant queue == Free(g, g.slugs[..i])
    {
      assert g.slugs[..i + 1][..i] == g.slugs[..i];
      if inDegree[g.slugs[i]] == 0 {
        queue := queue + [g.slugs[i]];
      }
    }
    assert g.slugs[..|g.slugs|] == g.slugs;
    InitialInv(g, queue, inDegree);
  }

  lemma InitialInv(g: Graph, queue: seq<string>, inDegree: map<string, int>)
    requires WellFormed(g) && queue == Free(g, g.slugs) && inDegree == map s | s in g.deps :: |g.deps[s]|
    ensures Counts(g, inDegree, {}) && QueueInv(g, [], queue, inDegree)
  {
    FreeIs(g, g.slugs);
    assert [] + queue == queue;
    forall s | s in g.deps ensures inDegree[s] == Missing(g.deps[s], {}) { MissingAll(g.deps[s]); }
  }

  /** The slugs without dependencies. */
  function Free(g: Graph, slugs: seq<string>): seq<string>
    requires forall s :: s in slugs ==> s in g.deps
  {
    if slugs == [] then []
    else
      var before, last := slugs[..|slugs| - 1], slugs[|slugs| - 1];
      Free(g, before) + (if |g.deps[last]| == 0 then [last] else [])
  }

  lemma {:induction false} FreeIs(g: Graph, slugs: seq<string>)
    requires Distinct(slugs) && forall s :: s in slugs ==> s in g.deps
    ensures Distinct(Free(g, slugs))
    ensures forall s :: s in Free(g, slugs) <==> s in slugs && |g.deps[s]| == 0
  {
    if slugs != [] {
      var before, last := slugs[..|slugs| - 1], slugs[|slugs| - 1];
      assert slugs == before + [last];
      FreeIs(g, before);
      assert last !in before;
    }
  }

  /** The slugs outside `order`, in the insertion order of the graph. */
  function Remaining(slugs: seq<string>, order: seq<string>): seq<string> {
    if slugs == [] then []
    else if slugs[0] in order then Remaining(slugs[1..], order)
    else [slugs[0]] + Remaining(slugs[1..], order)
  }

  /** Moving the head of the queue to the order: all its dependencies are placed. */
  lemma Dequeue(g: Graph, order: seq<string>, queue: seq<string>, inDegree: map<string, int>)
    requires queue != [] && QueueInv(g, order, queue, inDegree) && Counts(g, inDegree, Elements(order))
    ensures queue[0] in g.deps && queue[0] !in order
    ensures QueueInv(g, order + [queue[0]], queue[1..], inDegree)
    ensures Elements(order + [queue[0]]) == Elements(order) + {queue[0]}
  {
    var current, next := queue[0], order + [queue[0]];
    assert current in queue;
    assert (order + queue)[|order|] == current;
    forall i | 0 <= i < |order| ensures order[i] != current {
      assert (order + queue)[i] != (order + queue)[|order|];
    }
    MissingNone(g.deps[current], Elements(order));
    assert next + queue[1..] == order + queue;
    assert next[..|order|] == order;
  }

  /** Place nodes until none is free of unplaced dependencies. */
  method PlaceAll(g: Graph, reverse: map<string, seq<string>>) returns (order: seq<string>, ghost inDegree': map<string, int>)
    requires WellFormed(g) && Reverses(g, reverse)
    ensures QueueInv(g, order, [], inDegree') && Counts(g, inDegree', Elements(order))
    ensures Distinct(order) && DepsFirst(g.deps, order)
  {
    var queue, inDegree := InitialQueue(g);
    order := [];
    assert Elements([]) == {};
    while queue != []
      invariant QueueInv(g, order, queue, inDegree) && Counts(g, inDegree, Elements(order))
      decreases |g.slugs| - |order|
    {
      Dequeue(g, order, queue, inDegree);
      var current := queue[0];
      ghost var done := Elements(order);
      queue := queue[1..];
      order := order + [current];
      NoMoreThanNodes(g, order, queue, inDegree);
      queue, inDegree := Release(g, reverse[current], done, current, order, queue, inDegree);
    }
    inDegree' := inDegree;
    OrderDistinct(order, []);
  }

  method Sort(g: Graph) returns (r: TopoResult)
    requires WellFormed(g)
    ensures r.Sorted? <==> Acyclic(g.deps)
    ensures r.Sorted? ==> DependencyOrder(g, r.order)
    // The reported slugs are those from which a cycle can be reached, in insertion order.
    ensures r.Cyclic? ==> r.cycle != [] && CycleReport(g, r.cycle) && FirstOnCycle(g.slugs, g.deps, r.cycle[0])
  {
    var reverse := BuildReverse(g);
    var order, inDegree := PlaceAll(g, reverse);
    AllPlacedIffAcyclic(g, order, inDegree);
    if |order| != |g.slugs| {
      SomethingRemains(g, order, inDegree);
      ReportsCycle(g, order, inDegree);
      ReportStartsFirst(g, Remaining(g.slugs, order));
      return Cyclic(Remaining(g.slugs, order));
    }
    return Sorted(order);
  }

  // ---------------------------------------------------------------------------
  // Why the order tells
  // ---------------------------------------------------------------------------

  lemma {:induction false} DistinctSize(xs: seq<string>)
    requires Distinct(xs)
    ensures |Elements(xs)| == |xs|
  {
    if xs != [] {
      var rest := xs[..|xs| - 1];
      DistinctSize(rest);
      assert Elements(xs) == Elements(rest) + {xs[|xs| - 1]};
    } else {
      assert Elements(xs) == {};
    }
  }

  lemma NoMoreThanNodes(g: Graph, order: seq<string>, queue: seq<string>, inDegree: map<string, int>)
    requires WellFormed(g) && QueueInv(g, order, queue, inDegree)
    ensures |order| <= |g.slugs|
  {
    OrderDistinct(order, queue);
    DistinctSize(order);
    DistinctSize(g.slugs);
    Subset(Elements(order), Elements(g.slugs));
  }

  lemma OrderDistinct(order: seq<string>, queue: seq<string>)
    requires Distinct(order + queue)
    ensures Distinct(order)
  {
    forall i, j | 0 <= i < j < |order| ensures order[i] != order[j] {
      assert (order + queue)[i] != (order + queue)[j];
    }
  }

  lemma Subset<T>(a: set<T>, b: set<T>)
    requires a <= b
    ensures |a| <= |b|
    ensures |a| == |b| ==> a == b
  {
    assert b == a + (b - a);
  }

  lemma SizesTell(g: Graph, order: seq<string>, inDegree: map<string, int>)
    requires WellFormed(g) && QueueInv(g, order, [], inDegree)
    ensures |order| == |g.slugs| <==> Elements(order) == Elements(g.slugs)
    ensures |order| != |g.slugs| ==> exists s :: s in g.slugs && s !in order
    ensures Distinct(order)
  {
    OrderDistinct(order, []);
    DistinctSize(order);
    DistinctSize(g.slugs);
    Subset(Elements(order), Elements(g.slugs));
    if |order| != |g.slugs| {
      assert Elements(order) != Elements(g.slugs);
    }
  }

  lemma {:induction false} RemainingSpec(slugs: seq<string>, order: seq<string>)
    ensures forall s :: s in Remaining(slugs, order) <==> s in slugs && s !in order
    ensures forall i, j :: 0 <= i < j < |Remaining(slugs, order)| ==> Before(slugs, Remaining(slugs, order)[i], Remaining(slugs, order)[j])
  {
    if slugs != [] {
      var rest := slugs[1..];
      RemainingSpec(rest, order);
      forall x, y | Before(rest, x, y) ensures Before(slugs, x, y) {
        var i, j :| 0 <= i < j < |rest| && rest[i] == x && rest[j] == y;
        assert slugs[i + 1] == x && slugs[j + 1] == y;
      }
      forall y | y in rest ensures Before(slugs, slugs[0], y) {
        var j :| 0 <= j < |rest| && rest[j] == y;
        assert slugs[j + 1] == y;
      }
    }
  }

  /** A path from a placed node only goes to nodes placed earlier. */
  lemma {:induction false} PathDescends(deps: map<string, seq<string>>, order: seq<string>, p: seq<string>, a: nat) returns (b: nat)
    requires DepsFirst(deps, order) && IsPath(deps, p) && a < |order| && order[a] == p[0]
    ensures b + |p| <= a + 1 && order[b] == p[|p| - 1]
    decreases |p|
  {
    if |p| == 1 {
      return a;
    }
    assert p[1] in deps[p[0]];
    var k := DependencyIndex(deps, order, a, p[1]);
    b := PathDescends(deps, order, p[1..], k);
  }

  lemma PlacedReachesNoCycle(deps: map<string, seq<string>>, order: seq<string>, s: string)
    requires Distinct(order) && DepsFirst(deps, order) && s in order
    ensures !ReachesCycle(deps, s)
  {
    if ReachesCycle(deps, s) {
      var p, c :| IsPath(deps, p) && p[0] == s && IsCycle(deps, c) && c[0] == p[|p| - 1];
      var a :| 0 <= a < |order| && order[a] == s;
      var b := PathDescends(deps, order, p, a);
      var e := PathDescends(deps, order, c, b);
      assert false;
    }
  }

  ghost predicate HasSuccessor(deps: map<string, seq<string>>, left: set<string>, s: string) {
    s in deps && exists d :: d in deps[s] && d in left
  }

  ghost predicate IsWalk(deps: map<string, seq<string>>, left: set<string>, p: seq<string>) {
    IsPath(deps, p) && forall x :: x in p ==> x in left
  }

  /** Outside the order everything keeps a dependency outside the order, so walks never end. */
  lemma {:induction false} Walk(deps: map<string, seq<string>>, left: set<string>, s: string, n: nat)
    requires s in left && left <= deps.Keys
    requires forall x {:trigger HasSuccessor(deps, left, x)} :: x in left ==> HasSuccessor(deps, left, x)
    ensures exists p :: IsWalk(deps, left, p) && |p| == n + 1 && p[0] == s
    decreases n
  {
    if n == 0 {
      assert IsWalk(deps, left, [s]);
    } else {
      assert HasSuccessor(deps, left, s);
      var d :| d in deps[s] && d in left;
      Walk(deps, left, d, n - 1);
      var rest :| IsWalk(deps, left, rest) && |rest| == n && rest[0] == d;
      var p := [s] + rest;
      assert p[1..] == rest;
      assert IsWalk(deps, left, p);
    }
  }

  lemma LeftReachesCycle(deps: map<string, seq<string>>, left: set<string>, s: string)
    requires s in left && left <= deps.Keys
    requires forall x {:trigger HasSuccessor(deps, left, x)} :: x in left ==> HasSuccessor(deps, left, x)
    ensures ReachesCycle(deps, s)
  {
    Walk(deps, left, s, |left|);
    var p :| IsWalk(deps, left, p) && |p| == |left| + 1 && p[0] == s;
    Repeats(p, left);
    var i, j :| 0 <= i < j < |p| && p[i] == p[j];
    var q, c := p[..i + 1], p[i..j + 1];
    PathTake(deps, p, i + 1);
    PathTake(deps, p, j + 1);
    PathDrop(deps, p[..j + 1], i);
    assert p[..j + 1][i..] == c;
    assert c[0] == q[|q| - 1] && c[|c| - 1] == p[j];
  }

  /** Pigeonhole: a walk longer than the set it stays in visits some node twice. */
  lemma Repeats(p: seq<string>, left: set<string>)
    requires |p| > |left| && forall x :: x in p ==> x in left
    ensures !Distinct(p)
  {
    if Distinct(p) {
      DistinctSize(p);
      Subset(Elements(p), left);
    }
  }

  /** When the queue is empty, the placed nodes are those that reach no cycle. */
  lemma Placed(g: Graph, order: seq<string>, inDegree: map<string, int>)
    requires WellFormed(g) && QueueInv(g, order, [], inDegree) && Counts(g, inDegree, Elements(order))
    ensures forall s :: s in g.deps ==> (s !in order <==> ReachesCycle(g.deps, s))
  {
    OrderDistinct(order, []);
    var left := set s | s in g.deps && s !in order;
    forall x | x in left ensures HasSuccessor(g.deps, left, x) {
      MissingNone(g.deps[x], Elements(order));
      var d :| d in g.deps[x] && d !in Elements(order);
      assert d in left;
    }
    forall s | s in g.deps ensures s !in order <==> ReachesCycle(g.deps, s) {
      if s in order {
        PlacedReachesNoCycle(g.deps, order, s);
      } else {
        LeftReachesCycle(g.deps, left, s);
      }
    }
  }

  /** What an empty queue means: every node placed, or every node left reaches a cycle. */
  lemma AllPlacedIffAcyclic(g: Graph, order: seq<string>, inDegree: map<string, int>)
    requires WellFormed(g) && QueueInv(g, order, [], inDegree) && Counts(g, inDegree, Elements(order))
    ensures |order| == |g.slugs| <==> Acyclic(g.deps)
    ensures |order| == |g.slugs| ==> Distinct(order) && Elements(order) == Elements(g.slugs)
  {
    Placed(g, order, inDegree);
    SizesTell(g, order, inDegree);
    if |order| == |g.slugs| {
      forall s | s in g.deps ensures !ReachesCycle(g.deps, s) {
        assert s in Elements(order);
      }
    } else {
      var s :| s in g.slugs && s !in order;
      assert s in g.deps && ReachesCycle(g.deps, s);
    }
  }

  lemma ReportsCycle(g: Graph, order: seq<string>, inDegree: map<string, int>)
    requires WellFormed(g) && QueueInv(g, order, [], inDegree) && Counts(g, inDegree, Elements(order))
    ensures CycleReport(g, Remaining(g.slugs, order))
  {
    Placed(g, order, inDegree);
    RemainingSpec(g.slugs, order);
    assert forall s :: s in g.slugs <==> s in Elements(g.slugs);
  }

  lemma SomethingRemains(g: Graph, order: seq<string>, inDegree: map<string, int>)
    requires WellFormed(g) && QueueInv(g, order, [], inDegree) && |order| != |g.slugs|
    ensures Remaining(g.slugs, order) != []
  {
    SizesTell(g, order, inDegree);
    RemainingSpec(g.slugs, order);
  }
}
