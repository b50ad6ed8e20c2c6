/**
 Which window owns a live native view (apps/desktop/src/main.ts, the live-surface part), with the
 main window alive.
 */
module LiveSurfaces {
  // A view is known by its surfaceId. Geometry, URLs and the contents of windows are left out. The
  // contents of a view may be destroyed at any time; the `destroyed` event comes after that. A window
  // asked to close is open until its `closed` event.

  type Id = nat
  type WindowId = nat

  /** A popout: the surface it was opened for and the views it is the parent of. */
  datatype Popout = Popout(owner: Id, children: set<Id>)

  datatype Surfaces = Surfaces(
    live: set<Id>,                      // keys of liveSurfaces
    next: Id,                           // liveSurfaceSeq
    visible: set<Id>,                   // visibleLiveSurfaces
    popouts: map<Id, WindowId>,         // surfacePopouts
    main: seq<Id>,                      // children of the main window, bottom first
    windows: map<WindowId, Popout>,     // the open popout windows
    nextWindow: WindowId,
    shown: set<Id>,                     // views set visible
    dead: set<Id>)                      // views whose contents are destroyed

  // ---------------------------------------------------------------------------
  // Children
  // ---------------------------------------------------------------------------

  function Drop(xs: seq<Id>, out: set<Id>): seq<Id> {
    if xs == [] then []
    else Drop(xs[..|xs| - 1], out) + (if xs[|xs| - 1] in out then [] else [xs[|xs| - 1]])
  }

  function Without(windows: map<WindowId, Popout>, id: Id): map<WindowId, Popout> {
    map w | w in windows :: windows[w].(children := windows[w].children - {id})
  }

  /** `contentView.addChildView` on the main window: to the top, away from any other parent. */
  function AddToMain(s: Surfaces, id: Id): Surfaces {
    s.(main := Drop(s.main, {id}) + [id], windows := Without(s.windows, id))
  }

  function RemoveFromMain(s: Surfaces, id: Id): Surfaces {
    s.(main := Drop(s.main, {id}))
  }

  function AddToWindow(s: Surfaces, w: WindowId, id: Id): Surfaces
    requires w in s.windows
  {
    var windows := Without(s.windows, id);
    s.(main := Drop(s.main, {id}), windows := windows[w := windows[w].(children := windows[w].children + {id})])
  }

  // ---------------------------------------------------------------------------
  // Steps
  // ---------------------------------------------------------------------------

  /** The keys, ascending. */
  function Ascending(ids: set<Id>): seq<Id>
    decreases |ids|
  {
    if ids == {} then []
    else
      LargestExists(ids);
      var m :| Largest(ids, m);
      Ascending(ids - {m}) + [m]
  }

  predicate Largest(ids: set<Id>, m: Id) {
    m in ids && forall k :: k in ids ==> k <= m
  }

  lemma {:induction false} LargestExists(ids: set<Id>)
    requires ids != {}
    ensures exists m :: Largest(ids, m)
    decreases |ids|
  {
    var x :| x in ids;
    assert ids == ids - {x} + {x};
    if ids - {x} != {} {
      LargestExists(ids - {x});
      var m :| Largest(ids - {x}, m);
      assert Largest(ids, if m < x then x else m);
    } else {
      assert Largest(ids, x);
    }
  }

  /** The ids a restack moves, in order. */
  function Moved(s: Surfaces, ids: seq<Id>): seq<Id> {
    if ids == [] then []
    else
      var id := ids[|ids| - 1];
      Moved(s, ids[..|ids| - 1]) + (if id in s.popouts || id in s.dead then [] else [id])
  }

  function RestackIds(s: Surfaces, ids: seq<Id>): Surfaces {
    if ids == [] then s
    else
      var id, r := ids[|ids| - 1], RestackIds(s, ids[..|ids| - 1]);
      if id in s.popouts || id in s.dead then r else AddToMain(r, id)
  }

  function Restacked(s: Surfaces): Surfaces { RestackIds(s, Ascending(s.live)) }

  // A new view, parked hidden on top of the main window.
  function Parked(s: Surfaces): Surfaces {
    AddToMain(s.(live := s.live + {s.next}, next := s.next + 1), s.next)
  }

  function PoppedOut(s: Surfaces, id: Id): Surfaces {
    if id !in s.live || id in s.dead then s
    else
      var w := s.nextWindow;
      var t := RemoveFromMain(s, id).(visible := s.visible - {id}, nextWindow := w + 1, windows := s.windows[w := Popout(id, {})]);
      AddToWindow(t, w, id).(shown := s.shown + {id}, popouts := s.popouts[id := w])
  }

  function PopupOfLiveView(s: Surfaces): Surfaces {
    PoppedOut(s.(live := s.live + {s.next}, next := s.next + 1, shown := s.shown + {s.next}), s.next)
  }

  predicate CanDock(s: Surfaces, id: Id) { id in s.live && id !in s.dead }

  function Docked(s: Surfaces, id: Id): Surfaces {
    if !CanDock(s, id) then s
    else Restacked(AddToMain(s.(popouts := s.popouts - {id}), id).(shown := s.shown - {id}, visible := s.visible - {id}))
  }

  function BoundsSet(s: Surfaces, id: Id, visible: bool): Surfaces {
    if id !in s.live || id in s.popouts then s
    else if visible then s.(visible := s.visible + {id}, shown := s.shown + {id})
    else s.(visible := s.visible - {id}, shown := s.shown - {id})
  }

  function Released(s: Surfaces, id: Id): Surfaces {
    if id in s.popouts || id !in s.live then s
    else RemoveFromMain(s.(live := s.live - {id}), id)
  }

  function Swept(s: Surfaces, ids: set<Id>): Surfaces {
    s.(live := s.live - ids, visible := s.visible - ids, main := Drop(s.main, ids))
  }

  function Reloaded(s: Surfaces): Surfaces { Swept(s, s.live - s.popouts.Keys) }

  function DestroyedEvent(s: Surfaces, id: Id): Surfaces {
    s.(live := s.live - {id}, visible := s.visible - {id})
  }

  function PopoutClosed(s: Surfaces, w: WindowId): Surfaces
    requires w in s.windows
  {
    var id := s.windows[w].owner;
    var t := s.(windows := s.windows - {w});
    if id in s.popouts && s.popouts[id] == w then t.(popouts := s.popouts - {id}, live := s.live - {id}) else t
  }

  // ---------------------------------------------------------------------------
  // The handlers
  // ---------------------------------------------------------------------------

  class Desktop {
    var s: Surfaces

    constructor ()
      ensures s == Surfaces({}, 1, {}, map[], [], map[], 0, {}, {})
    {
      s := Surfaces({}, 1, {}, map[], [], map[], 0, {}, {});
    }

    method AddChildToMain(id: Id)
      modifies this
      ensures s == AddToMain(old(s), id)
    {
      s := s.(main := Drop(s.main, {id}) + [id], windows := Without(s.windows, id));
    }

    method RestackLiveSurfaces()
      modifies this
      ensures s == Restacked(old(s))
      ensures s.popouts == old(s.popouts) && s.shown == old(s.shown) && s.visible == old(s.visible) && s.live == old(s.live)
    {
      var ids := Ascending(s.live);
      ghost var before := s;
      for i := 0 to |ids|
        invariant s == RestackIds(before, ids[..i])
        invariant s.popouts == before.popouts && s.dead == before.dead && s.shown == before.shown && s.visible == before.visible && s.live == before.live
      {
        assert ids[..i + 1][..i] == ids[..i];
        var id := ids[i];
        if id in s.popouts { continue; }
        if id !in s.dead {
          AddChildToMain(id);
        }
      }
      assert ids[..|ids|] == ids;
    }

    // The window.open of a Browser Panel guest.
    method CapturePopup() returns (id: Id)
      modifies this
      ensures id == old(s.next) && s == Parked(old(s))
      ensures id in s.live && s.next == id + 1 && s.main != [] && s.main[|s.main| - 1] == id
      ensures s.visible == old(s.visible) && s.shown == old(s.shown) && s.popouts == old(s.popouts)
    {
      id := s.next;
      s := s.(next := s.next + 1);
      s := s.(live := s.live + {id});
      AddChildToMain(id);
    }

    method CreateLiveSurface() returns (id: Id)
      modifies this
      ensures id == old(s.next) && s == Restacked(Parked(old(s)))
    {
      id := s.next;
      s := s.(next := s.next + 1);
      s := s.(live := s.live + {id});
      AddChildToMain(id);
      RestackLiveSurfaces();
    }

    method CreateLiveSurfacePopout(id: Id)
      modifies this
      ensures s == PoppedOut(old(s), id)
      ensures id !in old(s.live) || id in old(s.dead) ==> s == old(s)
      ensures id in old(s.live) && id !in old(s.dead) ==>
                var w := old(s.nextWindow);
                && s.popouts == old(s.popouts)[id := w] && s.windows.Keys == old(s.windows.Keys) + {w} && s.windows[w] == Popout(id, {id})
                && (forall v :: v in s.windows && v != w ==> id !in s.windows[v].children)
                && (forall x :: x in s.main <==> x in old(s.main) && x != id)
                && s.shown == old(s.shown) + {id} && s.visible == old(s.visible) - {id}
    {
      DropIs(s.main, {id});
      DropIs(Drop(s.main, {id}), {id});
      if id !in s.live || id in s.dead { return; }
      s := s.(main := Drop(s.main, {id}));
      s := s.(visible := s.visible - {id});
      var w := s.nextWindow;
      s := s.(nextWindow := w + 1, windows := s.windows[w := Popout(id, {})]);
      s := AddToWindow(s, w, id);
      s := s.(shown := s.shown + {id});
      s := s.(popouts := s.popouts[id := w]);
    }

    // The window.open of a live view.
    method OpenFromLiveView() returns (id: Id)
      modifies this
      ensures id == old(s.next) && s == PopupOfLiveView(old(s))
    {
      id := s.next;
      s := s.(next := s.next + 1);
      s := s.(live := s.live + {id}, shown := s.shown + {id});
      CreateLiveSurfacePopout(id);
    }

    method ClaimDockLiveSurface(id: Id) returns (ok: bool)
      modifies this
      ensures ok <==> CanDock(old(s), id)
      ensures s == Docked(old(s), id)
      ensures !ok ==> s == old(s)
      ensures ok ==> s.popouts == old(s.popouts) - {id} && s.shown == old(s.shown) - {id} && s.visible == old(s.visible) - {id}
    {
      if id !in s.live || id in s.dead { return false; }
      s := s.(popouts := s.popouts - {id});
      AddChildToMain(id);
      s := s.(shown := s.shown - {id});
      s := s.(visible := s.visible - {id});
      RestackLiveSurfaces();
      return true;
    }

    method SetBounds(id: Id, visible: bool)
      modifies this
      ensures s == BoundsSet(old(s), id, visible)
      ensures id !in old(s.live) || id in old(s.popouts) ==> s == old(s)
      ensures id in old(s.live) && id !in old(s.popouts) ==>
                && (id in s.shown <==> visible) && (id in s.visible <==> visible)
                && s.shown - {id} == old(s.shown) - {id} && s.visible - {id} == old(s.visible) - {id}
                && s.main == old(s.main) && s.windows == old(s.windows) && s.popouts == old(s.popouts) && s.live == old(s.live)
    {
      if id !in s.live { return; }
      if id in s.popouts { return; }
      s := s.(shown := if visible then s.shown + {id} else s.shown - {id});
      s := s.(visible := if visible then s.visible + {id} else s.visible - {id});
    }

    method Release(id: Id)
      modifies this
      ensures s == Released(old(s), id)
      ensures id in old(s.popouts) ==> s == old(s)
      ensures id !in old(s.popouts) ==> s.live == old(s.live) - {id} && s.popouts == old(s.popouts) && s.windows == old(s.windows)
      ensures id !in old(s.popouts) && id in old(s.live) ==> forall x :: x in s.main <==> x in old(s.main) && x != id
    {
      DropIs(s.main, {id});
      if id in s.popouts { return; }
      if id !in s.live { return; }
      s := s.(live := s.live - {id});
      s := s.(main := Drop(s.main, {id}));
    }

    // The main frame starts to load again: parked and docked views are destroyed up front.
    method Reload()
      modifies this
      ensures s == Reloaded(old(s))
      ensures s.live == old(s.live) * old(s.popouts).Keys && s.popouts == old(s.popouts) && s.windows == old(s.windows)
      ensures forall x :: x in s.main <==> x in old(s.main) && (x in old(s.live) ==> x in old(s.popouts))
      ensures forall x :: x in s.visible <==> x in old(s.visible) && (x in old(s.live) ==> x in old(s.popouts))
    {
      DropIs(s.main, s.live - s.popouts.Keys);
      ghost var before := s;
      var ids := s.live;
      ghost var swept: set<Id> := {};
      DropNothing(s.main, {});
      while ids != {}
        invariant swept == before.live - ids - before.popouts.Keys && ids <= before.live
        invariant s == Swept(before, swept)
        decreases ids
      {
        ghost var was := s;
        var id :| id in ids;
        ids := ids - {id};
        if id !in s.popouts {
          s := s.(live := s.live - {id});
          s := s.(visible := s.visible - {id});
          s := s.(main := Drop(s.main, {id}));
          assert s == Swept(was, {id});
          SweptTwice(before, swept, {id});
          swept := swept + {id};
        }
      }
    }

    method Destroyed(id: Id)
      modifies this
      ensures s == DestroyedEvent(old(s), id)
      ensures s == old(s).(live := old(s.live) - {id}, visible := old(s.visible) - {id})
    {
      s := s.(live := s.live - {id});
      s := s.(visible := s.visible - {id});
    }

    method Closed(w: WindowId)
      requires w in s.windows
      modifies this
      ensures s == PopoutClosed(old(s), w)
      ensures s.windows == old(s.windows) - {w} && s.main == old(s.main)
      ensures var id := old(s.windows)[w].owner;
              if id in old(s.popouts) && old(s.popouts)[id] == w
              then s.live == old(s.live) - {id} && s.popouts == old(s.popouts) - {id}
              else s.live == old(s.live) && s.popouts == old(s.popouts)
    {
      var id := s.windows[w].owner;
      s := s.(windows := s.windows - {w});
      if id in s.popouts && s.popouts[id] == w {
        s := s.(popouts := s.popouts - {id});
        s := s.(live := s.live - {id});
      }
    }
  }

  // ---------------------------------------------------------------------------
  // Dropping
  // ---------------------------------------------------------------------------

  lemma {:induction false} DropIs(xs: seq<Id>, out: set<Id>)
    ensures forall x :: x in Drop(xs, out) <==> x in xs && x !in out
  {
    if xs != [] {
      DropIs(xs[..|xs| - 1], out);
      assert xs == xs[..|xs| - 1] + [xs[|xs| - 1]];
    }
  }

  lemma {:induction false} DropNothing(xs: seq<Id>, out: set<Id>)
    requires forall x :: x in xs ==> x !in out
    ensures Drop(xs, out) == xs
  {
    if xs != [] {
      DropNothing(xs[..|xs| - 1], out);
    }
  }

  lemma {:induction false} DropDrop(xs: seq<Id>, a: set<Id>, b: set<Id>)
    ensures Drop(Drop(xs, a), b) == Drop(xs, a + b)
  {
    if xs != [] {
      var before, last := xs[..|xs| - 1], xs[|xs| - 1];
      DropDrop(before, a, b);
      if last !in a {
        DropConcat(Drop(before, a), [last], b);
        assert [last][..0] == [];
        assert Drop([last], b) == if last in b then [] else [last];
      } else {
        assert Drop(xs, a) == Drop(before, a);
      }
      assert Drop(xs, a + b) == Drop(before, a + b) + if last in a + b then [] else [last];
    }
  }

  lemma SweptTwice(s: Surfaces, a: set<Id>, b: set<Id>)
    ensures Swept(Swept(s, a), b) == Swept(s, a + b)
  {
    DropDrop(s.main, a, b);
  }

  lemma {:induction false} DropConcat(xs: seq<Id>, ys: seq<Id>, out: set<Id>)
    ensures Drop(xs + ys, out) == Drop(xs, out) + Drop(ys, out)
    decreases |ys|
  {
    if ys == [] {
      assert xs + ys == xs;
    } else {
      assert (xs + ys)[..|xs + ys| - 1] == xs + ys[..|ys| - 1];
      DropConcat(xs, ys[..|ys| - 1], out);
    }
  }
}
