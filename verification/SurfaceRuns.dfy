/**
 Every sequence of live-surface steps keeps one owner per view and the stacking order
 (apps/desktop/src/main.ts).
 */
module SurfaceRuns {
  import opened LiveSurfaces

  datatype Event =
    | Create | Capture | OpenFromView
    | PopOut(id: Id) | Claim(id: Id) | Bounds(id: Id, visible: bool) | Release(id: Id)
    | Reload
    | ContentsDie(id: Id) | Destroyed(id: Id)
    | WindowClosed(w: WindowId)

  predicate Possible(s: Surfaces, e: Event) {
    match e
    case ContentsDie(id) => id < s.next
    case Destroyed(id) => id in s.dead
    case WindowClosed(w) => w in s.windows
    case _ => true
  }

  function Apply(s: Surfaces, e: Event): Surfaces
    requires Possible(s, e)
  {
    match e
    case Create => Restacked(Parked(s))
    case Capture => Parked(s)
    case OpenFromView => PopupOfLiveView(s)
    case PopOut(id) => PoppedOut(s, id)
    case Claim(id) => Docked(s, id)
    case Bounds(id, visible) => BoundsSet(s, id, visible)
    case Release(id) => Released(s, id)
    case Reload => Reloaded(s)
    case ContentsDie(id) => s.(dead := s.dead + {id})
    case Destroyed(id) => DestroyedEvent(s, id)
    case WindowClosed(w) => PopoutClosed(s, w)
  }

  const START := Surfaces({}, 1, {}, map[], [], map[], 0, {}, {})

  ghost predicate Run(s: Surfaces, es: seq<Event>, s': Surfaces)
    decreases |es|
  {
    if es == [] then s' == s
    else Possible(s, es[0]) && Run(Apply(s, es[0]), es[1..], s')
  }

  // ---------------------------------------------------------------------------
  // The invariant
  // ---------------------------------------------------------------------------

  function Alive(s: Surfaces): set<Id> { s.live - s.dead }

  ghost predicate LastOnTop(xs: seq<Id>, keep: set<Id>)
    requires xs != []
  {
    xs[|xs| - 1] in keep ==> forall x :: x in xs[..|xs| - 1] && x in keep ==> x < xs[|xs| - 1]
  }

  /** The members of `keep` stand in ascending order, each at most once. */
  ghost predicate Ascends(xs: seq<Id>, keep: set<Id>) {
    forall k :: 0 < k <= |xs| ==> LastOnTop(xs[..k], keep)
  }

  ghost predicate OneParent(s: Surfaces, id: Id) {
    if id in s.popouts then
      && id !in s.main
      && forall w :: w in s.windows ==> (id in s.windows[w].children <==> w == s.popouts[id])
    else
      && id in s.main
      && forall w :: w in s.windows ==> id !in s.windows[w].children
  }

  predicate Known(s: Surfaces, id: Id) {
    id in s.live || id in s.main || id in s.popouts || id in s.visible || id in s.shown || id in s.dead
  }

  /** What holds of a surfaceId: it was handed out; if it is popped out, its mapped window is open,
      was opened for it, and it does not count as visible in main; and while it lives it has one
      parent and is on show exactly when popped out or visible in main. */
  ghost predicate Fits(s: Surfaces, id: Id) {
    && (Known(s, id) ==> id < s.next)
    && (id in s.popouts ==> s.popouts[id] in s.windows && s.windows[s.popouts[id]].owner == id && id !in s.visible)
    && (id in Alive(s) ==> OneParent(s, id) && (id in s.shown <==> id in s.popouts || id in s.visible))
  }

  /** And of a window: it was handed out, and so were its children. */
  ghost predicate WindowFits(s: Surfaces, w: WindowId) {
    w in s.windows ==> w < s.nextWindow && forall id :: id in s.windows[w].children ==> id < s.next
  }

  // A number as either.
  ghost predicate FitsAs(s: Surfaces, n: nat) { Fits(s, n) && WindowFits(s, n) }

  ghost predicate AllFit(s: Surfaces) {
    forall n: nat :: FitsAs(s, n)
  }

  ghost predicate Inv(s: Surfaces) {
    AllFit(s) && Ascends(s.main, Alive(s))
  }

  // ---------------------------------------------------------------------------
  // Ascending sequences
  // ---------------------------------------------------------------------------

  lemma AscendsSnoc(xs: seq<Id>, keep: set<Id>)
    requires xs != []
    ensures Ascends(xs, keep) <==> Ascends(xs[..|xs| - 1], keep) && LastOnTop(xs, keep)
  {
    var before := xs[..|xs| - 1];
    assert xs[..|xs|] == xs;
    assert forall k :: 0 < k <= |before| ==> before[..k] == xs[..k];
  }

  lemma {:induction false} DropAscends(xs: seq<Id>, out: set<Id>, keep: set<Id>)
    requires Ascends(xs, keep)
    ensures Ascends(Drop(xs, out), keep)
  {
    if xs != [] {
      var before, last := xs[..|xs| - 1], xs[|xs| - 1];
      AscendsSnoc(xs, keep);
      DropAscends(before, out, keep);
      DropIs(before, out);
      if last in out {
        assert Drop(xs, out) == Drop(before, out);
      } else {
        TopAscends(Drop(before, out), last, keep);
      }
    }
  }

  lemma {:induction false} FewerAscend(xs: seq<Id>, keep: set<Id>, keep': set<Id>)
    requires Ascends(xs, keep) && forall x :: x in xs && x in keep' ==> x in keep
    ensures Ascends(xs, keep')
  {
    if xs != [] {
      AscendsSnoc(xs, keep);
      AscendsSnoc(xs, keep');
      FewerAscend(xs[..|xs| - 1], keep, keep');
    }
  }

  lemma TopAscends(xs: seq<Id>, top: Id, keep: set<Id>)
    requires Ascends(xs, keep) && (top in keep ==> forall x :: x in xs && x in keep ==> x < top)
    ensures Ascends(xs + [top], keep)
  {
    assert (xs + [top])[..|xs|] == xs;
    AscendsSnoc(xs + [top], keep);
  }

  lemma {:induction false} AppendAscends(xs: seq<Id>, ys: seq<Id>, keep: set<Id>)
    requires (forall x :: x in xs ==> x !in keep) && Ascends(ys, keep)
    ensures Ascends(xs + ys, keep)
  {
    if ys == [] {
      assert xs + ys == xs;
    } else {
      var before, last := ys[..|ys| - 1], ys[|ys| - 1];
      AscendsSnoc(ys, keep);
      AppendAscends(xs, before, keep);
      assert xs + ys == xs + before + [last];
      TopAscends(xs + before, last, keep);
    }
  }

  lemma {:induction false} AscendingIs(ids: set<Id>)
    ensures forall x :: x in Ascending(ids) <==> x in ids
    ensures forall keep :: Ascends(Ascending(ids), keep)
    decreases |ids|
  {
    if ids != {} {
      LargestExists(ids);
      var m :| Largest(ids, m) && Ascending(ids) == Ascending(ids - {m}) + [m];
      AscendingIs(ids - {m});
      forall keep ensures Ascends(Ascending(ids), keep) {
        TopAscends(Ascending(ids - {m}), m, keep);
      }
    }
  }

  // ---------------------------------------------------------------------------
  // The restack loop
  // ---------------------------------------------------------------------------

  lemma {:induction false} MovedIs(s: Surfaces, ids: seq<Id>, keep: set<Id>)
    requires Ascends(ids, s.live)
    requires forall x :: x in ids ==> x in s.live
    ensures forall x :: x in Moved(s, ids) <==> x in ids && x !in s.popouts && x !in s.dead
    ensures Ascends(Moved(s, ids), keep)
  {
    if ids != [] {
      var before, last := ids[..|ids| - 1], ids[|ids| - 1];
      assert ids == before + [last];
      AscendsSnoc(ids, s.live);
      MovedIs(s, before, keep);
      if last in s.popouts || last in s.dead {
        assert Moved(s, ids) == Moved(s, before);
      } else {
        TopAscends(Moved(s, before), last, keep);
      }
    }
  }

  function SetOf(xs: seq<Id>): set<Id> { set x | x in xs }

  /** Moving ids to the top one by one leaves the rest in place below them, in the order moved. */
  lemma {:induction false} RestackMoves(s: Surfaces, ids: seq<Id>)
    requires Ascends(ids, s.live) && forall x :: x in ids ==> x in s.live
    ensures RestackIds(s, ids).main == Drop(s.main, SetOf(Moved(s, ids))) + Moved(s, ids)
  {
    if ids == [] {
      DropNothing(s.main, SetOf(Moved(s, ids)));
    } else {
      var before, last := ids[..|ids| - 1], ids[|ids| - 1];
      assert ids == before + [last];
      AscendsSnoc(ids, s.live);
      RestackMoves(s, before);
      var m := Moved(s, before);
      MovedIs(s, before, {});
      if last in s.popouts || last in s.dead {
        assert Moved(s, ids) == m;
      } else {
        assert last in s.live && last !in before;
        OneMoreMoved(s.main, m, last);
      }
    }
  }

  lemma OneMoreMoved(main: seq<Id>, m: seq<Id>, last: Id)
    requires last !in m
    ensures Drop(Drop(main, SetOf(m)) + m, {last}) + [last] == Drop(main, SetOf(m + [last])) + (m + [last])
  {
    DropConcat(Drop(main, SetOf(m)), m, {last});
    DropDrop(main, SetOf(m), {last});
    DropNothing(m, {last});
    assert SetOf(m) + {last} == SetOf(m + [last]);
  }

  lemma {:induction false} RestackFrame(s: Surfaces, ids: seq<Id>)
    ensures RestackIds(s, ids) == s.(main := RestackIds(s, ids).main, windows := RestackIds(s, ids).windows)
  {
    if ids != [] {
      RestackFrame(s, ids[..|ids| - 1]);
    }
  }

  /** Docked views are their own children; restacking re-parents none. */
  lemma {:induction false} RestackWindows(s: Surfaces, ids: seq<Id>)
    requires forall x, w :: x in ids && x !in s.popouts && x !in s.dead && w in s.windows ==> x !in s.windows[w].children
    ensures RestackIds(s, ids).windows == s.windows && RestackIds(s, ids).popouts == s.popouts
    ensures RestackIds(s, ids).dead == s.dead
  {
    if ids != [] {
      var before, last := ids[..|ids| - 1], ids[|ids| - 1];
      assert ids == before + [last];
      RestackWindows(s, before);
      if !(last in s.popouts || last in s.dead) {
        SameWindows(s.windows, last);
      }
    }
  }

  lemma SameWindows(windows: map<WindowId, Popout>, id: Id)
    requires forall w :: w in windows ==> id !in windows[w].children
    ensures Without(windows, id) == windows
  {
    forall w | w in windows ensures Without(windows, id)[w] == windows[w] {
      assert windows[w].children - {id} == windows[w].children;
    }
  }

  /** What the loop does, whatever the order was before: the living docked views end on top of the
      main window, ascending by surfaceId, and nothing else changes. */
  lemma RestackEstablishesOrder(s: Surfaces)
    requires forall id :: id in Alive(s) ==> OneParent(s, id)
    ensures Restacked(s) == s.(main := Restacked(s).main)
    ensures forall x :: x in Restacked(s).main <==> x in s.main
    ensures Ascends(Restacked(s).main, Alive(s))
  {
    var ids := Ascending(s.live);
    AscendingIs(s.live);
    RestackMoves(s, ids);
    RestackFrame(s, ids);
    var m := Moved(s, ids);
    MovedIs(s, ids, Alive(s));
    forall x, w | x in ids && x !in s.popouts && x !in s.dead && w in s.windows ensures x !in s.windows[w].children {
      assert OneParent(s, x);
    }
    RestackWindows(s, ids);
    DropIs(s.main, SetOf(m));
    forall x | x in m ensures x in s.main {
      assert OneParent(s, x);
    }
    forall x | x in Alive(s) ensures x !in Drop(s.main, SetOf(m)) {
      assert OneParent(s, x);
    }
    AppendAscends(Drop(s.main, SetOf(m)), m, Alive(s));
  }

  // ---------------------------------------------------------------------------
  // Each step
  // ---------------------------------------------------------------------------

  lemma RestackKeeps(s: Surfaces)
    requires AllFit(s)
    ensures Inv(Restacked(s))
  {
    forall id | id in Alive(s) ensures OneParent(s, id) {
      assert FitsAs(s, id);
    }
    RestackEstablishesOrder(s);
    var r := Restacked(s);
    forall n: nat ensures FitsAs(r, n) { assert FitsAs(s, n); }
  }

  lemma ParkedIs(s: Surfaces)
    requires AllFit(s)
    ensures Parked(s) == s.(live := s.live + {s.next}, next := s.next + 1, main := s.main + [s.next])
  {
    assert FitsAs(s, s.next);
    DropNothing(s.main, {s.next});
    forall w | w in s.windows ensures s.next !in s.windows[w].children {
      assert FitsAs(s, w);
    }
    SameWindows(s.windows, s.next);
  }

  lemma ParkedKeeps(s: Surfaces)
    requires Inv(s)
    ensures Inv(Parked(s))
  {
    var t := Parked(s);
    ParkedIs(s);
    forall n: nat ensures FitsAs(t, n) && (n in s.windows ==> s.next !in s.windows[n].children) {
      assert FitsAs(s, n);
    }
    forall n: nat ensures FitsAs(t, n) {
      assert FitsAs(s, n) && FitsAs(s, s.next);
    }
    forall id | id in s.main ensures id < s.next { assert FitsAs(s, id); }
    FewerAscend(s.main, Alive(s), Alive(t));
    TopAscends(s.main, s.next, Alive(t));
  }

  lemma PoppedOutIs(s: Surfaces, id: Id)
    requires id in Alive(s) && s.nextWindow !in s.windows
    ensures PoppedOut(s, id) == s.(
              main := Drop(s.main, {id}), visible := s.visible - {id}, shown := s.shown + {id}, nextWindow := s.nextWindow + 1,
              windows := Without(s.windows, id)[s.nextWindow := Popout(id, {id})], popouts := s.popouts[id := s.nextWindow])
  {
    DropDrop(s.main, {id}, {id});
    assert {id} + {id} == {id};
    var w := s.nextWindow;
    var during := s.windows[w := Popout(id, {})];
    assert Popout(id, {}).children - {id} + {id} == {id};
    assert Without(during, id)[w := Popout(id, {id})] == Without(s.windows, id)[w := Popout(id, {id})];
  }

  // Popping out `id`, which may have no parent yet.
  lemma PopsOut(s: Surfaces, id: Id)
    requires id in Alive(s) && id < s.next && Ascends(s.main, Alive(s))
    requires forall n: nat :: (n != id ==> Fits(s, n)) && WindowFits(s, n)
    ensures Inv(PoppedOut(s, id))
  {
    var t := PoppedOut(s, id);
    assert WindowFits(s, s.nextWindow);
    PoppedOutIs(s, id);
    DropAscends(s.main, {id}, Alive(s));
    assert t.main == Drop(s.main, {id}) && Alive(t) == Alive(s);
    PopsOutFits(s, id, t);
  }

  lemma PopsOutFits(s: Surfaces, id: Id, t: Surfaces)
    requires id in Alive(s) && id < s.next && s.nextWindow !in s.windows && t == PoppedOut(s, id)
    requires forall n: nat :: (n != id ==> Fits(s, n)) && WindowFits(s, n)
    ensures AllFit(t)
  {
    PoppedOutIs(s, id);
    DropIs(s.main, {id});
    forall n: nat ensures FitsAs(t, n) {
      assert (n != id ==> Fits(s, n)) && WindowFits(s, n);
    }
  }

  lemma OpenedKeeps(s: Surfaces)
    requires Inv(s)
    ensures Inv(PopupOfLiveView(s))
  {
    var t := s.(live := s.live + {s.next}, next := s.next + 1, shown := s.shown + {s.next});
    assert FitsAs(s, s.next);
    forall n: nat ensures (n != s.next ==> Fits(t, n)) && WindowFits(t, n) { assert FitsAs(s, n); }
    FewerAscend(s.main, Alive(s), Alive(t));
    PopsOut(t, s.next);
  }

  lemma DockedKeeps(s: Surfaces, id: Id)
    requires Inv(s)
    ensures Inv(Docked(s, id))
  {
    if CanDock(s, id) {
      var t := AddToMain(s.(popouts := s.popouts - {id}), id).(shown := s.shown - {id}, visible := s.visible - {id});
      DropIs(s.main, {id});
      assert FitsAs(s, id);
      forall n: nat ensures FitsAs(t, n) { assert FitsAs(s, n); }
      RestackKeeps(t);
    }
  }

  lemma BoundsKeep(s: Surfaces, id: Id, visible: bool)
    requires Inv(s)
    ensures Inv(BoundsSet(s, id, visible))
  {
    var t := BoundsSet(s, id, visible);
    assert FitsAs(s, id);
    forall n: nat ensures FitsAs(t, n) { assert FitsAs(s, n); }
  }

  /** `t` is `s` with views and windows gone: the views `out` from the main window, a window only with
      its mapping and the view it was mapped to. */
  ghost predicate Less(s: Surfaces, t: Surfaces, out: set<Id>) {
    && t.main == Drop(s.main, out) && t.live <= s.live && t.visible <= s.visible
    && t == s.(main := t.main, live := t.live, visible := t.visible, dead := t.dead, popouts := t.popouts, windows := t.windows)
    && Alive(t) <= Alive(s) - out && (forall id :: id in t.dead ==> id < s.next)
    && (forall id :: id in Alive(t) ==> (id in s.popouts ==> id in t.popouts) && (id in s.visible ==> id in t.visible))
    && (forall id :: id in t.popouts ==> id in s.popouts && t.popouts[id] == s.popouts[id] && t.popouts[id] in t.windows)
    && (forall w :: w in t.windows ==> w in s.windows && t.windows[w] == s.windows[w])
  }

  lemma LessKeeps(s: Surfaces, t: Surfaces, out: set<Id>)
    requires Inv(s) && Less(s, t, out)
    ensures Inv(t)
  {
    DropIs(s.main, out);
    forall n: nat ensures FitsAs(t, n) { assert FitsAs(s, n); }
    DropAscends(s.main, out, Alive(s));
    FewerAscend(t.main, Alive(s), Alive(t));
  }

  lemma AllSmall(s: Surfaces)
    requires Inv(s)
    ensures forall id :: id in s.dead ==> id < s.next
    ensures forall id :: id in s.popouts ==> s.popouts[id] in s.windows && s.windows[s.popouts[id]].owner == id
  {
    forall id: Id ensures (id in s.dead ==> id < s.next)
                          && (id in s.popouts ==> s.popouts[id] in s.windows && s.windows[s.popouts[id]].owner == id) {
      assert FitsAs(s, id);
    }
  }

  // The steps after which there is less.
  lemma LosingKeeps(s: Surfaces, e: Event)
    requires Inv(s) && Possible(s, e) && (e.Release? || e.Reload? || e.ContentsDie? || e.Destroyed? || e.WindowClosed?)
    ensures Inv(Apply(s, e))
  {
    AllSmall(s);
    if e.Release? {
      if e.id in s.live && e.id !in s.popouts {
        LessKeeps(s, Released(s, e.id), {e.id});
      }
    } else if e.Reload? {
      LessKeeps(s, Reloaded(s), s.live - s.popouts.Keys);
    } else {
      DropNothing(s.main, {});
      LessKeeps(s, Apply(s, e), {});
    }
  }

  lemma StepKeepsInv(s: Surfaces, e: Event)
    requires Inv(s) && Possible(s, e)
    ensures Inv(Apply(s, e))
  {
    match e {
      case Create =>
        ParkedKeeps(s);
        RestackKeeps(Parked(s));
      case Capture => ParkedKeeps(s);
      case OpenFromView => OpenedKeeps(s);
      case PopOut(id) =>
        assert FitsAs(s, id);
        forall n: nat ensures Fits(s, n) && WindowFits(s, n) { assert FitsAs(s, n); }
        if id in Alive(s) { PopsOut(s, id); }
      case Claim(id) => DockedKeeps(s, id);
      case Bounds(id, visible) => BoundsKeep(s, id, visible);
      case _ => LosingKeeps(s, e);
    }
  }

  // ---------------------------------------------------------------------------
  // Runs
  // ---------------------------------------------------------------------------

  lemma {:induction false} RunKeepsInv(s: Surfaces, es: seq<Event>, s': Surfaces)
    requires Inv(s) && Run(s, es, s')
    ensures Inv(s')
    decreases |es|
  {
    if es != [] {
      StepKeepsInv(s, es[0]);
      RunKeepsInv(Apply(s, es[0]), es[1..], s');
    }
  }

  /** After any steps: each living view is in exactly one window, its mapped popout or else the main
      one; no popped-out surface counts as visible in the main window, and it is on show in its own;
      a docked view is on show exactly when it counts as visible. */
  lemma OwnersAndVisibility(es: seq<Event>, s: Surfaces, id: Id)
    requires Run(START, es, s) && id in s.live && id !in s.dead
    ensures id in s.popouts ==> id !in s.main && s.popouts[id] in s.windows && id in s.windows[s.popouts[id]].children && id !in s.visible && id in s.shown
    ensures id in s.popouts ==> forall w :: w in s.windows && w != s.popouts[id] ==> id !in s.windows[w].children
    ensures id !in s.popouts ==> id in s.main && (id in s.shown <==> id in s.visible)
    ensures id !in s.popouts ==> forall w :: w in s.windows ==> id !in s.windows[w].children
  {
    RunKeepsInv(START, es, s);
    assert FitsAs(s, id);
  }

  // Steps that may decide whether view `id` is on show.
  predicate Decides(e: Event, id: Id) {
    match e
    case Bounds(k, _) => k == id
    case Claim(k) => k == id
    case PopOut(k) => k == id
    case _ => false
  }

  lemma OtherStep(s: Surfaces, e: Event, id: Id)
    requires Inv(s) && Possible(s, e) && !Decides(e, id) && id < s.next
    ensures var t := Apply(s, e);
            && id < t.next && (id in t.live ==> id in s.live) && (id in s.dead ==> id in t.dead)
            && (id in t.live ==> (id in t.popouts <==> id in s.popouts) && (id in t.shown <==> id in s.shown) && (id in t.visible <==> id in s.visible))
  {
    AllSmall(s);
    RestackFrame(Parked(s), Ascending(Parked(s).live));
    match e {
      case Claim(k) => if CanDock(s, k) { DockedFrame(s, k); }
      case _ =>
    }
  }

  lemma DockedFrame(s: Surfaces, k: Id)
    requires CanDock(s, k)
    ensures var t := Docked(s, k);
            && t.live == s.live && t.next == s.next && t.dead == s.dead
            && t.popouts == s.popouts - {k} && t.shown == s.shown - {k} && t.visible == s.visible - {k}
  {
    var d := AddToMain(s.(popouts := s.popouts - {k}), k).(shown := s.shown - {k}, visible := s.visible - {k});
    RestackFrame(d, Ascending(d.live));
  }

  lemma {:induction false} OtherSteps(s: Surfaces, es: seq<Event>, s': Surfaces, id: Id)
    requires Inv(s) && Run(s, es, s') && id < s.next && id in s'.live
    requires forall i :: 0 <= i < |es| ==> !Decides(es[i], id)
    ensures id in s.live && (id in s.dead ==> id in s'.dead) && (id in s'.popouts <==> id in s.popouts)
    ensures (id in s'.shown <==> id in s.shown) && (id in s'.visible <==> id in s.visible)
    decreases |es|
  {
    if es != [] {
      var rest := es[1..];
      StepKeepsInv(s, es[0]);
      OtherStep(s, es[0], id);
      assert forall i :: 0 <= i < |rest| ==> rest[i] == es[i + 1];
      OtherSteps(Apply(s, es[0]), rest, s', id);
    }
  }

  /** What the renderer said last of a docked view decides whether it is on show: the view is shown
      exactly if that report said visible. Docking again starts out hidden. */
  lemma LastReportDecides(before: seq<Event>, said: Event, after: seq<Event>, mid: Surfaces, s: Surfaces, id: Id)
    requires Run(START, before, mid) && id in mid.live && Possible(mid, said) && Run(Apply(mid, said), after, s)
    requires (said.Bounds? || said.Claim?) && said.id == id && forall i :: 0 <= i < |after| ==> !Decides(after[i], id)
    requires id in s.live && id !in s.dead && id !in s.popouts
    ensures id in s.shown <==> said.Bounds? && said.visible
    ensures id in s.visible <==> said.Bounds? && said.visible
  {
    RunKeepsInv(START, before, mid);
    StepKeepsInv(mid, said);
    assert FitsAs(mid, id);
    if said.Claim? && CanDock(mid, id) { DockedFrame(mid, id); }
    OtherSteps(Apply(mid, said), after, s, id);
  }

  /** A view is parked hidden, and stays so until something decides. */
  lemma ParkedIsHidden(before: seq<Event>, made: Event, after: seq<Event>, mid: Surfaces, s: Surfaces, id: Id)
    requires Run(START, before, mid) && (made.Create? || made.Capture?) && id == mid.next && Run(Apply(mid, made), after, s)
    requires forall i :: 0 <= i < |after| ==> !Decides(after[i], id)
    requires id in s.live
    ensures id !in s.popouts && id !in s.shown && id !in s.visible
  {
    RunKeepsInv(START, before, mid);
    StepKeepsInv(mid, made);
    assert FitsAs(mid, id);
    RestackFrame(Parked(mid), Ascending(Parked(mid).live));
    OtherSteps(Apply(mid, made), after, s, id);
  }

  /** After any steps, of two living views in the main window the one with the larger surfaceId is on
      top, and each is there once. */
  lemma StackedBySurfaceId(es: seq<Event>, s: Surfaces, i: nat, j: nat)
    requires Run(START, es, s) && i < j < |s.main|
    requires s.main[i] in s.live && s.main[i] !in s.dead && s.main[j] in s.live && s.main[j] !in s.dead
    ensures s.main[i] < s.main[j]
  {
    RunKeepsInv(START, es, s);
    AscendsAt(s.main, Alive(s), i, j);
  }

  lemma {:induction false} AscendsAt(xs: seq<Id>, keep: set<Id>, i: nat, j: nat)
    requires Ascends(xs, keep) && i < j < |xs| && xs[i] in keep && xs[j] in keep
    ensures xs[i] < xs[j]
  {
    var before := xs[..|xs| - 1];
    AscendsSnoc(xs, keep);
    if j < |xs| - 1 {
      AscendsAt(before, keep, i, j);
    } else {
      assert before[i] == xs[i];
    }
  }

  /** A window no surface is mapped to holds no living view: closing it destroys nothing, and only the
      owner of a mapped window is given up with it. */
  lemma StaleWindowsAreEmpty(es: seq<Event>, s: Surfaces, w: WindowId)
    requires Run(START, es, s) && w in s.windows
    ensures forall id :: id in s.live && id !in s.dead && id in s.windows[w].children ==> id == s.windows[w].owner && id in s.popouts && s.popouts[id] == w
    ensures Alive(PopoutClosed(s, w)) == Alive(s) - (if s.windows[w].owner in s.popouts && s.popouts[s.windows[w].owner] == w then {s.windows[w].owner} else {})
  {
    RunKeepsInv(START, es, s);
    forall id | id in s.live && id !in s.dead && id in s.windows[w].children
      ensures id == s.windows[w].owner && id in s.popouts && s.popouts[id] == w
    {
      assert FitsAs(s, id);
    }
  }

  /** Opening a window for a surface that already has one leaves the first open, empty and unmapped. */
  lemma SecondPopoutOrphansTheFirst(es: seq<Event>, s: Surfaces, id: Id)
    requires Run(START, es, s) && id in s.live && id !in s.dead && id in s.popouts
    ensures var t, w := Apply(s, PopOut(id)), s.popouts[id];
            w in t.windows && t.popouts[id] != w && id !in t.windows[w].children && PopoutClosed(t, w).live == t.live
  {
    RunKeepsInv(START, es, s);
    assert FitsAs(s, id) && FitsAs(s, s.popouts[id]) && FitsAs(s, s.nextWindow);
    PoppedOutIs(s, id);
  }
}
