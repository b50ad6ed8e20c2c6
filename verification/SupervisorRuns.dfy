/**
 Runs of the process supervisor: spawns, exits, handshakes, respawn timers, stops and a shutdown,
 in any interleaving, when boot spawns each slug once.
 */
module SupervisorRuns {
  import opened Common
  import opened Supervisor

  // `onExit` fires once for each subprocess, some time after it exits. A handshake may fail at any time,
  // and succeed as long as the record's transport is open; a stop's continuation runs once, some time
  // after the subprocess has exited. Nothing bounds how long a step takes.

  /** A subprocess: whose it is, whether it has exited, and whether `HandleExit` ran for it. */
  datatype Proc = Proc(slug: Slug, exited: bool, handled: bool)

  datatype World = World(
    now: int,
    m: Manager,
    procs: map<ProcId, Proc>,
    unbooted: set<Slug>,                // slugs boot may still spawn
    handshakes: set<ProcId>,            // spawns waiting for their handshake
    closed: set<ProcId>,                // records whose transport was closed
    stops: multiset<ProcId>,            // the stops under way, by record
    schedules: map<Slug, seq<int>>)     // when respawns were scheduled

  datatype Event =
    | Tick(elapsed: nat)
    | Boot(slug: Slug, id: ProcId, fork: Fork)
    | Fire(slug: Slug, id: ProcId, fork: Fork)
    | Exit(id: ProcId)
    | Handle(id: ProcId)
    | Handshake(id: ProcId, ok: bool)
    | Stop(slug: Slug, killFails: bool)
    | StopDone(id: ProcId)
    | StopAll(failing: set<Slug>)

  ghost predicate Enabled(w: World, e: Event) {
    match e
    case Boot(slug, id, _) => slug in w.unbooted && id !in w.procs && id !in w.m.states
    case Fire(slug, id, _) => slug in w.m.timers && w.m.timers[slug] <= w.now && id !in w.procs && id !in w.m.states
    case Exit(id) => id in w.procs && !w.procs[id].exited
    case Handle(id) => id in w.procs && w.procs[id].exited && !w.procs[id].handled
    case Handshake(id, ok) => id in w.handshakes && (ok ==> id !in w.closed)
    case StopDone(id) => id in w.stops && id in w.procs && w.procs[id].exited
    case StopAll(_) => Consistent(w.m)
    case _ => true
  }

  /** A spawn that reaches the operating system: its answer may be a new subprocess. */
  function Forking(w: World, m: Manager, slug: Slug, id: ProcId, fork: Fork): World {
    if !MaySpawn(m, slug) || fork.NoProcess? then w.(m := Spawned(m, slug, id, fork))
    else w.(m := Spawned(m, slug, id, fork),
            procs := w.procs[id := Proc(slug, false, false)],
            handshakes := if fork.Forked? then w.handshakes + {id} else w.handshakes)
  }

  function Log(w: World, slug: Slug): seq<int> {
    if slug in w.schedules then w.schedules[slug] else []
  }

  /** The records of the plugins for which `stopAll` begins a stop, by whether SIGTERM throws. */
  ghost function StoppedRecords(m: Manager, failing: set<Slug>, throws: bool): set<ProcId> {
    set s | s in m.processes && !IgnoresStop(m, s) && (s in failing <==> throws) :: m.processes[s]
  }

  ghost function Apply(w: World, e: Event): World
    requires Enabled(w, e)
  {
    match e
    case Tick(d) => w.(now := w.now + d)
    case Boot(slug, id, fork) => Forking(w.(unbooted := w.unbooted - {slug}), w.m, slug, id, fork)
    case Fire(slug, id, fork) =>
      var m := w.m.(timers := w.m.timers - {slug});
      if m.shuttingDown then w.(m := m) else Forking(w, m, slug, id, fork)
    case Exit(id) => w.(procs := w.procs[id := w.procs[id].(exited := true)])
    case Handle(id) =>
      var slug := w.procs[id].slug;
      w.(procs := w.procs[id := w.procs[id].(handled := true)],
         m := ExitHandled(w.m, slug, w.now),
         closed := if slug in w.m.processes then w.closed + {w.m.processes[slug]} else w.closed,
         schedules := if Decide(w.m, slug, w.now).Respawn? then w.schedules[slug := Log(w, slug) + [w.now]] else w.schedules)
    case Handshake(id, ok) =>
      w.(m := HandshakeEnded(w.m, id, ok), handshakes := w.handshakes - {id},
         closed := if ok then w.closed else w.closed + {id})
    case Stop(slug, killFails) =>
      if IgnoresStop(w.m, slug) then w
      else if killFails then w.(m := StopBegun(w.m, slug, true), closed := w.closed + {w.m.processes[slug]})
      else w.(m := StopBegun(w.m, slug, false), stops := w.stops + multiset{w.m.processes[slug]})
    case StopDone(id) =>
      w.(m := StopEnded(w.m, id), stops := w.stops - multiset{id}, closed := w.closed + {id})
    case StopAll(failing) =>
      w.(m := StopAllBegun(w.m, failing), stops := w.stops + multiset(StoppedRecords(w.m, failing, false)),
         closed := w.closed + StoppedRecords(w.m, failing, true))
  }

  ghost predicate ValidRun(w: World, es: seq<Event>)
    decreases |es|
  {
    es == [] || (Enabled(w, es[0]) && ValidRun(Apply(w, es[0]), es[1..]))
  }

  ghost function Run(w: World, es: seq<Event>): World
    requires ValidRun(w, es)
    decreases |es|
  {
    if es == [] then w else Run(Apply(w, es[0]), es[1..])
  }

  function Start(now: int, slugs: set<Slug>): World {
    World(now, Manager(map[], map[], map[], map[], false), map[], slugs, {}, {}, multiset{}, map[])
  }

  // ---------------------------------------------------------------------------
  // At most one chance to run, per slug
  // ---------------------------------------------------------------------------

  ghost predicate Unhandled(w: World, id: ProcId, slug: Slug) {
    id in w.procs && w.procs[id].slug == slug && !w.procs[id].handled
  }

  /** No subprocess of the slug runs, and nothing is left that could start one. */
  ghost predicate Dead(w: World, slug: Slug) {
    slug !in w.unbooted && slug !in w.m.timers && forall id :: !Unhandled(w, id, slug)
  }

  /** A slug waits for boot, or has one subprocess whose exit is not handled, or has a respawn
      pending, or nothing: never two of these. */
  ghost predicate OneChance(w: World, slug: Slug) {
    && (slug in w.unbooted ==> slug !in w.m.timers)
    && (slug in w.unbooted || slug in w.m.timers ==> forall id :: !Unhandled(w, id, slug))
    && (forall a, b :: Unhandled(w, a, slug) && Unhandled(w, b, slug) ==> a == b)
  }

  ghost predicate Inv(w: World) {
    && Consistent(w.m)
    && OwnRecords(w.m)
    && (w.m.shuttingDown ==> w.m.timers == map[])
    && (forall slug :: OneChance(w, slug))
    && (forall id :: id in w.stops || id in w.handshakes ==> id in w.m.states)
  }

  lemma ForkingKeepsChances(w: World, m: Manager, slug: Slug, id: ProcId, fork: Fork, t: Slug)
    requires id !in w.procs && slug !in m.timers && slug !in w.unbooted && forall k :: !Unhandled(w, k, slug)
    requires t != slug ==> OneChance(w.(m := m), t)
    ensures OneChance(Forking(w, m, slug, id, fork), t)
  {
    var w' := Forking(w, m, slug, id, fork);
    if t != slug {
      OtherChance(w.(m := m), w', id, t);
    } else {
      forall k ensures Unhandled(w', k, t) ==> k == id { assert !Unhandled(w, k, slug); }
    }
  }

  lemma ForkingKeepsInv(w: World, m: Manager, slug: Slug, id: ProcId, fork: Fork)
    requires Consistent(m) && OwnRecords(m) && id !in m.states && id !in w.procs
    requires m.shuttingDown ==> m.timers == map[]
    requires slug !in m.timers && slug !in w.unbooted && forall k :: !Unhandled(w, k, slug)
    requires forall t :: t != slug ==> OneChance(w.(m := m), t)
    requires forall k :: k in w.stops || k in w.handshakes ==> k in m.states
    ensures Inv(Forking(w, m, slug, id, fork))
  {
    forall t ensures OneChance(Forking(w, m, slug, id, fork), t) {
      ForkingKeepsChances(w, m, slug, id, fork, t);
    }
  }

  // A subprocess of another slug changes nothing for `t`.
  lemma OtherChance(w: World, w': World, id: ProcId, t: Slug)
    requires OneChance(w, t) && id !in w.procs && w'.unbooted == w.unbooted && w'.m.timers == w.m.timers
    requires w'.procs == w.procs || (exists proc: Proc :: w'.procs == w.procs[id := proc] && proc.slug != t)
    ensures OneChance(w', t)
  {
    forall k ensures Unhandled(w', k, t) <==> Unhandled(w, k, t) {}
  }

  lemma SameProcs(w: World, w': World)
    requires (forall slug :: OneChance(w, slug)) && w'.procs == w.procs && w'.unbooted == w.unbooted
    requires forall s :: s in w'.m.timers ==> s in w.m.timers
    ensures forall slug :: OneChance(w', slug)
  {
    forall slug ensures OneChance(w', slug) {
      assert OneChance(w, slug);
      forall id ensures Unhandled(w', id, slug) <==> Unhandled(w, id, slug) {}
    }
  }

  lemma HandleKeepsInv(w: World, id: ProcId)
    requires Inv(w) && Enabled(w, Handle(id))
    ensures Inv(Apply(w, Handle(id)))
    ensures var slug := w.procs[id].slug;
            !Decide(w.m, slug, w.now).Respawn? ==> Dead(Apply(w, Handle(id)), slug)
  {
    var w', mine := Apply(w, Handle(id)), w.procs[id].slug;
    assert OneChance(w, mine) && Unhandled(w, id, mine);
    forall slug ensures OneChance(w', slug) {
      assert OneChance(w, slug);
      forall k ensures Unhandled(w', k, slug) <==> Unhandled(w, k, slug) && k != id {}
    }
    forall k ensures !Unhandled(w', k, mine) {
      assert Unhandled(w', k, mine) ==> Unhandled(w, k, mine);
    }
  }

  lemma StepKeepsInv(w: World, e: Event)
    requires Inv(w) && Enabled(w, e)
    ensures Inv(Apply(w, e))
  {
    var w' := Apply(w, e);
    match e
    case Boot(slug, id, fork) =>
      assert OneChance(w, slug);
      var b := w.(unbooted := w.unbooted - {slug});
      forall t | t != slug ensures OneChance(b, t) {
        assert OneChance(w, t);
        forall k ensures Unhandled(b, k, t) <==> Unhandled(w, k, t) {}
      }
      forall k ensures !Unhandled(b, k, slug) { assert !Unhandled(w, k, slug); }
      assert b.(m := w.m) == b;
      ForkingKeepsInv(b, w.m, slug, id, fork);
    case Fire(slug, id, fork) =>
      assert OneChance(w, slug);
      var m := w.m.(timers := w.m.timers - {slug});
      SameProcs(w, w.(m := m));
      if !m.shuttingDown {
        ForkingKeepsInv(w, m, slug, id, fork);
      }
    case Exit(id) =>
      forall slug ensures OneChance(w', slug) {
        assert OneChance(w, slug);
        forall k ensures Unhandled(w', k, slug) <==> Unhandled(w, k, slug) {}
      }
    case Handle(id) => HandleKeepsInv(w, id);
    case Tick(_) => SameProcs(w, w');
    case Handshake(_, _) => SameProcs(w, w');
    case Stop(_, _) => SameProcs(w, w');
    case StopDone(_) => SameProcs(w, w');
    case StopAll(_) => SameProcs(w, w');
  }

  lemma {:induction false} RunKeepsInv(w: World, es: seq<Event>)
    requires Inv(w) && ValidRun(w, es)
    ensures Inv(Run(w, es))
    decreases |es|
  {
    if es != [] {
      StepKeepsInv(w, es[0]);
      RunKeepsInv(Apply(w, es[0]), es[1..]);
    }
  }

  lemma StartInv(now: int, slugs: set<Slug>)
    ensures Inv(Start(now, slugs))
  {
  }

  /** In every run two subprocesses of one slug are never alive together, whether or not one of
      them was already sent SIGKILL. */
  lemma AtMostOneAlive(now: int, slugs: set<Slug>, es: seq<Event>, a: ProcId, b: ProcId)
    requires ValidRun(Start(now, slugs), es)
    requires var w := Run(Start(now, slugs), es);
             && a in w.procs && b in w.procs && w.procs[a].slug == w.procs[b].slug
             && !w.procs[a].exited && !w.procs[b].exited
    ensures a == b
  {
    StartInv(now, slugs);
    RunKeepsInv(Start(now, slugs), es);
    HandledExited(Start(now, slugs), es);
    var w := Run(Start(now, slugs), es);
    assert OneChance(w, w.procs[a].slug) && Unhandled(w, a, w.procs[a].slug) && Unhandled(w, b, w.procs[a].slug);
  }

  /** `HandleExit` only runs for a subprocess that has exited. */
  ghost predicate HandledHaveExited(w: World) {
    forall id :: id in w.procs && w.procs[id].handled ==> w.procs[id].exited
  }

  lemma {:induction false} HandledExited(w: World, es: seq<Event>)
    requires ValidRun(w, es) && HandledHaveExited(w)
    ensures HandledHaveExited(Run(w, es))
    decreases |es|
  {
    if es != [] {
      assert HandledHaveExited(Apply(w, es[0]));
      HandledExited(Apply(w, es[0]), es[1..]);
    }
  }

  // ---------------------------------------------------------------------------
  // The end of a slug
  // ---------------------------------------------------------------------------

  /** The subprocesses ever started for a slug. */
  function Started(w: World, slug: Slug): set<ProcId> {
    set id | id in w.procs && w.procs[id].slug == slug
  }

  // A slug that boot and no timer start gets no new subprocess, and handled exits stay handled.
  lemma NothingNew(w: World, e: Event, slug: Slug)
    requires Enabled(w, e) && (e.Boot? || e.Fire? ==> e.slug != slug)
    ensures Started(Apply(w, e), slug) == Started(w, slug)
    ensures forall id :: Unhandled(Apply(w, e), id, slug) ==> Unhandled(w, id, slug)
  {
    match e
    case Boot(_, _, _) =>
    case Fire(_, _, _) =>
    case Exit(_) =>
    case Handle(_) =>
    case Tick(_) =>
    case Handshake(_, _) =>
    case Stop(_, _) =>
    case StopDone(_) =>
    case StopAll(_) =>
  }

  lemma DeadStep(w: World, e: Event, slug: Slug)
    requires Enabled(w, e) && Dead(w, slug)
    ensures Dead(Apply(w, e), slug) && Started(Apply(w, e), slug) == Started(w, slug)
  {
    NothingNew(w, e, slug);
    match e
    case Boot(_, _, _) =>
    case Fire(_, _, _) =>
    case Exit(_) =>
    case Handle(id) => assert !Unhandled(w, id, slug);
    case Tick(_) =>
    case Handshake(_, _) =>
    case Stop(_, _) =>
    case StopDone(_) =>
    case StopAll(_) =>
  }

  /** A slug that is dead stays dead: no respawn starts, no subprocess appears. */
  lemma {:induction false} DeadForever(w: World, es: seq<Event>, slug: Slug)
    requires Inv(w) && ValidRun(w, es) && Dead(w, slug)
    ensures Dead(Run(w, es), slug) && Started(Run(w, es), slug) == Started(w, slug)
    decreases |es|
  {
    if es != [] {
      DeadStep(w, es[0], slug);
      StepKeepsInv(w, es[0]);
      DeadForever(Apply(w, es[0]), es[1..], slug);
    }
  }

  /** Once an exit is answered by a quarantine, the fifth crash of a window, no subprocess of that
      slug is ever started again, whatever the record's state becomes later. */
  lemma NoSpawnAfterQuarantine(now: int, slugs: set<Slug>, es: seq<Event>, id: ProcId, later: seq<Event>)
    requires ValidRun(Start(now, slugs), es)
    requires var w := Run(Start(now, slugs), es);
             && Enabled(w, Handle(id)) && Decide(w.m, w.procs[id].slug, w.now).Quarantine?
             && ValidRun(Apply(w, Handle(id)), later)
    ensures var w := Run(Start(now, slugs), es);
            var slug := w.procs[id].slug;
            var w' := Run(Apply(w, Handle(id)), later);
            Started(w', slug) == Started(w, slug) && slug !in w'.m.timers
  {
    StartInv(now, slugs);
    RunKeepsInv(Start(now, slugs), es);
    var w := Run(Start(now, slugs), es);
    HandleKeepsInv(w, id);
    DeadForever(Apply(w, Handle(id)), later, w.procs[id].slug);
    assert Started(Apply(w, Handle(id)), w.procs[id].slug) == Started(w, w.procs[id].slug);
  }

  lemma ShutStep(w: World, e: Event)
    requires Enabled(w, e) && w.m.shuttingDown
    ensures Apply(w, e).m.shuttingDown && Apply(w, e).unbooted <= w.unbooted
  {
  }

  /** After `stopAll` no respawn is pending or ever starts; only boot can still spawn. */
  lemma {:induction false} NoRespawnAfterStopAll(w: World, es: seq<Event>, slug: Slug)
    requires Inv(w) && ValidRun(w, es) && w.m.shuttingDown
    ensures Run(w, es).m.shuttingDown && Run(w, es).m.timers == map[]
    ensures slug !in w.unbooted ==> Started(Run(w, es), slug) == Started(w, slug)
    decreases |es|
  {
    if es != [] {
      var w1 := Apply(w, es[0]);
      StepKeepsInv(w, es[0]);
      ShutStep(w, es[0]);
      if slug !in w.unbooted { NothingNew(w, es[0], slug); }
      NoRespawnAfterStopAll(w1, es[1..], slug);
    }
  }

  // ---------------------------------------------------------------------------
  // How often, and when, respawns are scheduled
  // ---------------------------------------------------------------------------

  /** How many of the times lie in [from, from + 10 minutes). */
  function Within(times: seq<int>, from: int): nat {
    if times == [] then 0
    else Within(times[..|times| - 1], from)
         + (if from <= times[|times| - 1] < from + QUARANTINE_WINDOW then 1 else 0)
  }

  ghost predicate Sparse(times: seq<int>) {
    forall from {:trigger Within(times, from)} :: Within(times, from) <= QUARANTINE_THRESHOLD - 1
  }

  lemma {:induction false} WithinRecent(times: seq<int>, from: int, now: int)
    requires now - QUARANTINE_WINDOW < from
    ensures Within(times, from) <= Recent(times, now)
  {
    if times != [] { WithinRecent(times[..|times| - 1], from, now); }
  }

  /** Appending a time at which fewer than five crashes are recent keeps every window sparse. */
  lemma SparseSnoc(times: seq<int>, now: int)
    requires Sparse(times) && Recent(times + [now], now) < QUARANTINE_THRESHOLD
    ensures Sparse(times + [now])
  {
    assert (times + [now])[..|times|] == times;
    forall from ensures Within(times + [now], from) <= QUARANTINE_THRESHOLD - 1 {
      if from <= now < from + QUARANTINE_WINDOW {
        WithinRecent(times + [now], from, now);
      } else {
        assert Within(times, from) <= QUARANTINE_THRESHOLD - 1;
      }
    }
  }

  function Capped(n: nat): nat { if n < 4 then n else 4 }

  /** While a slug is alive its crashes are its scheduled respawns, and the backoff index counts
      them, up to the last step of the schedule. */
  ghost predicate LogInv(w: World, slug: Slug) {
    && Sparse(Log(w, slug))
    && (!Dead(w, slug) && slug in w.m.trackers ==>
          w.m.trackers[slug] == Tracker(Log(w, slug), Capped(|Log(w, slug)|)))
    && (slug !in w.m.trackers ==> Log(w, slug) == [])
    && (slug in w.m.timers ==>
          Log(w, slug) != [] &&
          w.m.timers[slug] == Log(w, slug)[|Log(w, slug)| - 1] + BACKOFF_SCHEDULE[Capped(|Log(w, slug)| - 1)])
  }

  // What the invariant reads.
  ghost predicate SameLog(w: World, w': World, slug: Slug) {
    && Log(w', slug) == Log(w, slug)
    && (Dead(w, slug) ==> Dead(w', slug))
    && (slug in w'.m.trackers <==> slug in w.m.trackers)
    && (slug in w.m.trackers ==> w'.m.trackers[slug] == w.m.trackers[slug])
    && (slug in w'.m.timers ==> slug in w.m.timers && w'.m.timers[slug] == w.m.timers[slug])
  }

  lemma HandleOther(w: World, id: ProcId, slug: Slug)
    requires Enabled(w, Handle(id)) && slug != w.procs[id].slug
    ensures SameLog(w, Apply(w, Handle(id)), slug)
  {
    var w' := Apply(w, Handle(id));
    forall k ensures Unhandled(w', k, slug) <==> Unhandled(w, k, slug) {}
  }

  // A respawn is logged, counted and scheduled together.
  lemma HandleOwnRespawn(w: World, id: ProcId)
    requires Enabled(w, Handle(id)) && !Dead(w, w.procs[id].slug) && LogInv(w, w.procs[id].slug)
    requires Decide(w.m, w.procs[id].slug, w.now).Respawn?
    ensures LogInv(Apply(w, Handle(id)), w.procs[id].slug)
  {
    var w', mine := Apply(w, Handle(id)), w.procs[id].slug;
    SparseSnoc(Log(w, mine), w.now);
    assert Log(w', mine) == Log(w, mine) + [w.now];
    assert w'.m.trackers[mine] == GetBackoffDelay(Tracker(Log(w', mine), Capped(|Log(w, mine)|))).1;
  }

  lemma HandleKeepsLog(w: World, id: ProcId, slug: Slug)
    requires Inv(w) && LogInv(w, slug) && Enabled(w, Handle(id))
    ensures LogInv(Apply(w, Handle(id)), slug)
  {
    var mine := w.procs[id].slug;
    if slug != mine {
      HandleOther(w, id, slug);
    } else {
      assert Unhandled(w, id, mine);
      if Decide(w.m, mine, w.now).Respawn? {
        HandleOwnRespawn(w, id);
      } else {
        HandleKeepsInv(w, id);
        GivenUp(w, id);
      }
    }
  }

  lemma GivenUp(w: World, id: ProcId)
    requires Enabled(w, Handle(id)) && LogInv(w, w.procs[id].slug)
    requires !Decide(w.m, w.procs[id].slug, w.now).Respawn? && Dead(Apply(w, Handle(id)), w.procs[id].slug)
    ensures LogInv(Apply(w, Handle(id)), w.procs[id].slug)
  {
    var w', mine := Apply(w, Handle(id)), w.procs[id].slug;
    assert Log(w', mine) == Log(w, mine);
    assert mine in w'.m.trackers <==> mine in w.m.trackers;
  }

  ghost predicate Logged(w: World) {
    Inv(w) && forall slug :: LogInv(w, slug)
  }

  lemma StepKeepsLog(w: World, e: Event)
    requires Logged(w) && Enabled(w, e)
    ensures forall slug :: LogInv(Apply(w, e), slug)
  {
    var w' := Apply(w, e);
    forall slug ensures LogInv(w', slug) {
      assert LogInv(w, slug);
      if e.Handle? {
        HandleKeepsLog(w, e.id, slug);
      } else {
        if Dead(w, slug) {
          DeadStep(w, e, slug);
        }
        if e.Boot? || e.Fire? {
          SpawnKeepsLog(w, e, slug);
        } else {
          assert SameLog(w, w', slug);
        }
      }
    }
  }

  lemma SpawnKeepsLog(w: World, e: Event, slug: Slug)
    requires LogInv(w, slug) && Enabled(w, e) && (e.Boot? || e.Fire?)
    requires Dead(w, slug) ==> Dead(Apply(w, e), slug)
    ensures LogInv(Apply(w, e), slug)
  {
    assert Log(Apply(w, e), slug) == Log(w, slug);
  }

  lemma {:induction false} RunKeepsLog(w: World, es: seq<Event>)
    requires Logged(w) && ValidRun(w, es)
    ensures forall slug :: LogInv(Run(w, es), slug)
    decreases |es|
  {
    if es != [] {
      StepKeepsLog(w, es[0]);
      StepKeepsInv(w, es[0]);
      RunKeepsLog(Apply(w, es[0]), es[1..]);
    }
  }

  /** In every run at most four respawns of a slug are scheduled in any ten minutes, and the n-th
      one is due after the n-th delay of the backoff schedule, from the fifth on after the last. */
  lemma RespawnsAreRare(now: int, slugs: set<Slug>, es: seq<Event>, slug: Slug, from: int)
    requires ValidRun(Start(now, slugs), es)
    ensures var w := Run(Start(now, slugs), es);
            && Within(Log(w, slug), from) <= 4
            && (slug in w.m.timers ==>
                  var n := |Log(w, slug)|;
                  n > 0 && w.m.timers[slug] == Log(w, slug)[n - 1] + BACKOFF_SCHEDULE[Capped(n - 1)])
  {
    StartInv(now, slugs);
    RunKeepsLog(Start(now, slugs), es);
    assert LogInv(Run(Start(now, slugs), es), slug);
    assert Sparse(Log(Run(Start(now, slugs), es), slug));
  }
}
