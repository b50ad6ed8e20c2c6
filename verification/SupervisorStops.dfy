/**
 What a stop prevents, and how long a quarantine lasts.
 */
module SupervisorStops {
  import opened Common
  import opened Supervisor
  import opened SupervisorRuns

  // `stop` and `isQuarantined` go by a record's state alone, while a pending respawn timer and an
  // unfinished handshake may still change that state. From every state of every run: exactly when a
  // subprocess of a slug can still be started, and exactly when a quarantined record stays so.

  // ---------------------------------------------------------------------------
  // Records and their subprocesses
  // ---------------------------------------------------------------------------

  ghost predicate Running(state: PluginState) {
    state.Starting? || state.Ready?
  }

  /** What holds of a slug and its current record. Once the exit of its subprocess is handled the
      transport is closed, and the state says that nothing runs, except during a shutdown. */
  ghost predicate SlugOk(w: World, slug: Slug) {
    && (slug in w.m.timers ==> slug in w.m.processes && !w.m.shuttingDown)
    && (slug in w.m.processes ==>
          var id := w.m.processes[slug];
          && slug !in w.unbooted && slug in w.m.trackers
          && id in w.procs && w.procs[id].slug == slug && id in w.m.states
          && (w.procs[id].handled ==> w.procs[id].exited && id in w.closed && (Running(w.m.states[id]) ==> w.m.shuttingDown))
          && (slug in w.m.timers ==> w.m.states[id].Stopped? && w.procs[id].handled)
          && (w.m.states[id].Quarantined? ==> Dead(w, slug))
          && forall at :: at in w.m.trackers[slug].crashes ==> at <= w.now)
  }

  /** What every reachable state has. */
  ghost predicate Sound(w: World) {
    Inv(w) && forall slug :: SlugOk(w, slug)
  }

  /** Nothing about the slug and its current record is different. */
  ghost predicate Untouched(w: World, w': World, slug: Slug) {
    && w.now <= w'.now && w'.m.shuttingDown == w.m.shuttingDown
    && (slug in w'.unbooted <==> slug in w.unbooted)
    && (slug in w'.m.timers <==> slug in w.m.timers)
    && (slug in w'.m.processes <==> slug in w.m.processes)
    && (slug in w.m.trackers ==> slug in w'.m.trackers && w'.m.trackers[slug] == w.m.trackers[slug])
    && (slug in w.m.processes ==>
          var id := w.m.processes[slug];
          && w'.m.processes[slug] == id
          && (id in w.procs ==> id in w'.procs && w'.procs[id] == w.procs[id])
          && (id in w.m.states ==> id in w'.m.states && w'.m.states[id] == w.m.states[id])
          && (id in w'.handshakes <==> id in w.handshakes) && (id in w'.closed <==> id in w.closed))
  }

  lemma ForkingElsewhere(w: World, m: Manager, s: Slug, id: ProcId, fork: Fork, slug: Slug)
    requires s != slug && id !in w.procs && (slug in m.processes ==> m.processes[slug] != id)
    ensures Untouched(w.(m := m), Forking(w, m, s, id, fork), slug)
  {
  }

  lemma SpawnElsewhere(w: World, e: Event, slug: Slug)
    requires Enabled(w, e) && (e.Boot? || e.Fire?) && e.slug != slug
    requires slug in w.m.processes ==> w.m.processes[slug] in w.m.states
    ensures Untouched(w, Apply(w, e), slug)
  {
    if e.Boot? {
      ForkingElsewhere(w.(unbooted := w.unbooted - {e.slug}), w.m, e.slug, e.id, e.fork, slug);
    } else {
      ForkingElsewhere(w, w.m.(timers := w.m.timers - {e.slug}), e.slug, e.id, e.fork, slug);
    }
  }

  lemma UntouchedKeepsSlug(w: World, w': World, slug: Slug)
    requires Untouched(w, w', slug) && SlugOk(w, slug) && (Dead(w, slug) ==> Dead(w', slug))
    ensures SlugOk(w', slug)
  {
  }

  lemma SpawnKeepsSlug(w: World, e: Event, slug: Slug)
    requires Enabled(w, e) && (e.Boot? || e.Fire?) && e.slug != slug && SlugOk(w, slug)
    ensures SlugOk(Apply(w, e), slug)
  {
    if Dead(w, slug) { DeadStep(w, e, slug); }
    SpawnElsewhere(w, e, slug);
    UntouchedKeepsSlug(w, Apply(w, e), slug);
  }

  lemma SpawnMakesSlug(w: World, e: Event)
    requires Enabled(w, e) && (e.Boot? || e.Fire?) && Consistent(w.m) && OneChance(w, e.slug) && SlugOk(w, e.slug)
    ensures SlugOk(Apply(w, e), e.slug)
  {
  }

  lemma HandleKeepsSlug(w: World, id: ProcId, slug: Slug)
    requires Enabled(w, Handle(id)) && OneChance(w, slug) && SlugOk(w, slug) && SlugOk(w, w.procs[id].slug)
    ensures SlugOk(Apply(w, Handle(id)), slug)
  {
    var w' := Apply(w, Handle(id));
    if Dead(w, slug) {
      DeadStep(w, Handle(id), slug);
    } else if w.procs[id].slug == slug && slug in w.m.processes {
      assert Unhandled(w, id, slug);
      assert w.m.processes[slug] != id ==> !Unhandled(w, w.m.processes[slug], slug);
      forall k ensures !Unhandled(w', k, slug) { assert Unhandled(w', k, slug) ==> Unhandled(w, k, slug); }
    }
  }

  lemma StopKeepsSlug(w: World, t: Slug, killFails: bool, slug: Slug)
    requires SlugOk(w, t) && SlugOk(w, slug)
    ensures SlugOk(Apply(w, Stop(t, killFails)), slug)
  {
    if Dead(w, slug) { DeadStep(w, Stop(t, killFails), slug); }
  }

  lemma StopAllKeepsSlug(w: World, failing: set<Slug>, slug: Slug)
    requires Consistent(w.m) && SlugOk(w, slug)
    ensures SlugOk(Apply(w, StopAll(failing)), slug)
  {
    if Dead(w, slug) { DeadStep(w, StopAll(failing), slug); }
  }

  lemma ElseKeepsSlug(w: World, e: Event, slug: Slug)
    requires Enabled(w, e) && (e.Tick? || e.Exit? || e.Handshake? || e.StopDone?) && SlugOk(w, slug)
    ensures SlugOk(Apply(w, e), slug)
  {
    if Dead(w, slug) { DeadStep(w, e, slug); }
  }

  lemma StepKeepsSound(w: World, e: Event)
    requires Sound(w) && Enabled(w, e)
    ensures Sound(Apply(w, e))
  {
    StepKeepsInv(w, e);
    forall slug ensures SlugOk(Apply(w, e), slug) {
      StepKeepsSlug(w, e, slug);
    }
  }

  lemma StepKeepsSlug(w: World, e: Event, slug: Slug)
    requires Sound(w) && Enabled(w, e)
    ensures SlugOk(Apply(w, e), slug)
  {
    assert SlugOk(w, slug) && OneChance(w, slug);
    match e
    case Boot(s, _, _) => if s == slug { SpawnMakesSlug(w, e); } else { SpawnKeepsSlug(w, e, slug); }
    case Fire(s, _, _) => if s == slug { SpawnMakesSlug(w, e); } else { SpawnKeepsSlug(w, e, slug); }
    case Handle(id) => assert SlugOk(w, w.procs[id].slug); HandleKeepsSlug(w, id, slug);
    case Stop(t, killFails) => assert SlugOk(w, t); StopKeepsSlug(w, t, killFails, slug);
    case StopAll(failing) => StopAllKeepsSlug(w, failing, slug);
    case Tick(_) => ElseKeepsSlug(w, e, slug);
    case Exit(_) => ElseKeepsSlug(w, e, slug);
    case Handshake(_, _) => ElseKeepsSlug(w, e, slug);
    case StopDone(_) => ElseKeepsSlug(w, e, slug);
  }

  lemma {:induction false} RunKeepsSound(w: World, es: seq<Event>)
    requires Sound(w) && ValidRun(w, es)
    ensures Sound(Run(w, es))
    decreases |es|
  {
    if es != [] {
      StepKeepsSound(w, es[0]);
      RunKeepsSound(Apply(w, es[0]), es[1..]);
    }
  }

  /** Every state of every run is sound. */
  lemma EveryRunIsSound(now: int, slugs: set<Slug>, es: seq<Event>)
    requires ValidRun(Start(now, slugs), es)
    ensures Sound(Run(Start(now, slugs), es))
  {
    StartInv(now, slugs);
    RunKeepsSound(Start(now, slugs), es);
  }

  // ---------------------------------------------------------------------------
  // Whether a slug can still be started
  // ---------------------------------------------------------------------------

  /** Some continuation starts a subprocess of the slug. */
  ghost predicate StartsLater(w: World, slug: Slug) {
    exists es: seq<Event> :: ValidRun(w, es) && Started(Run(w, es), slug) != Started(w, slug)
  }

  /** What is left to start the slug: boot, a timer, or a subprocess whose exit would be answered as a
      crash, now or once its handshake has succeeded. */
  ghost predicate CanStart(w: World, slug: Slug) {
    || slug in w.unbooted
    || slug in w.m.timers
    || (&& !w.m.shuttingDown && slug in w.m.processes
        && var id := w.m.processes[slug];
           && Unhandled(w, id, slug) && id in w.m.states
           && (Running(w.m.states[id]) || (id in w.handshakes && id !in w.closed)))
  }

  lemma HandleCannotStart(w: World, id: ProcId, slug: Slug)
    requires SlugOk(w, slug) && OneChance(w, slug) && Enabled(w, Handle(id)) && !CanStart(w, slug)
    requires SlugOk(w, w.procs[id].slug)
    ensures !CanStart(Apply(w, Handle(id)), slug)
  {
    if w.procs[id].slug == slug {
      assert Unhandled(w, id, slug);
      assert slug in w.m.processes && w.m.processes[slug] != id ==> !Unhandled(w, w.m.processes[slug], slug);
      assert Decide(w.m, slug, w.now).Ignore?;
    }
  }

  lemma UntouchedCannotStart(w: World, w': World, slug: Slug)
    requires Untouched(w, w', slug) && SlugOk(w, slug) && !CanStart(w, slug)
    ensures !CanStart(w', slug)
  {
  }

  lemma StopCannotStart(w: World, e: Event, slug: Slug)
    requires SlugOk(w, slug) && Enabled(w, e) && !CanStart(w, slug)
    requires e.StopAll? || (e.Stop? && SlugOk(w, e.slug))
    ensures !CanStart(Apply(w, e), slug)
  {
  }

  lemma RecordCannotStart(w: World, e: Event, slug: Slug)
    requires SlugOk(w, slug) && Enabled(w, e) && !CanStart(w, slug) && (e.Tick? || e.Exit? || e.Handshake? || e.StopDone?)
    ensures !CanStart(Apply(w, e), slug)
  {
  }

  lemma CannotStartStep(w: World, e: Event, slug: Slug)
    requires Sound(w) && Enabled(w, e) && !CanStart(w, slug)
    ensures !CanStart(Apply(w, e), slug) && Started(Apply(w, e), slug) == Started(w, slug)
  {
    assert SlugOk(w, slug) && OneChance(w, slug);
    NothingNew(w, e, slug);
    match e
    case Boot(_, _, _) => SpawnElsewhere(w, e, slug); UntouchedCannotStart(w, Apply(w, e), slug);
    case Fire(_, _, _) => SpawnElsewhere(w, e, slug); UntouchedCannotStart(w, Apply(w, e), slug);
    case Exit(_) => RecordCannotStart(w, e, slug);
    case Handle(id) => assert SlugOk(w, w.procs[id].slug); HandleCannotStart(w, id, slug);
    case Tick(_) => RecordCannotStart(w, e, slug);
    case Handshake(_, _) => RecordCannotStart(w, e, slug);
    case Stop(t, _) => assert SlugOk(w, t); StopCannotStart(w, e, slug);
    case StopDone(_) => RecordCannotStart(w, e, slug);
    case StopAll(_) => StopCannotStart(w, e, slug);
  }

  lemma {:induction false} CannotStartRun(w: World, es: seq<Event>, slug: Slug)
    requires Sound(w) && ValidRun(w, es) && !CanStart(w, slug)
    ensures Started(Run(w, es), slug) == Started(w, slug)
    decreases |es|
  {
    if es != [] {
      CannotStartStep(w, es[0], slug);
      StepKeepsSound(w, es[0]);
      CannotStartRun(Apply(w, es[0]), es[1..], slug);
    }
  }

  lemma OneStep(w: World, e: Event)
    requires Enabled(w, e)
    ensures ValidRun(w, [e]) && Run(w, [e]) == Apply(w, e)
  {
    var w', es: seq<Event> := Apply(w, e), [e];
    assert es[1..] == [];
    assert ValidRun(w', es[1..]) && Run(w', es[1..]) == w';
  }

  lemma StartsNow(w: World, e: Event, slug: Slug)
    requires Enabled(w, e) && Started(Apply(w, e), slug) != Started(w, slug)
    ensures StartsLater(w, slug)
  {
    OneStep(w, e);
  }

  lemma StartsAfter(w: World, e: Event, slug: Slug)
    requires Enabled(w, e) && !e.Boot? && !e.Fire? && StartsLater(Apply(w, e), slug)
    ensures StartsLater(w, slug)
  {
    NothingNew(w, e, slug);
    var es: seq<Event> :| ValidRun(Apply(w, e), es) && Started(Run(Apply(w, e), es), slug) != Started(Apply(w, e), slug);
    assert ([e] + es)[1..] == es;
    assert ValidRun(w, [e] + es) && Run(w, [e] + es) == Run(Apply(w, e), es);
  }

  ghost predicate Above(ids: set<nat>, n: nat) {
    forall id :: id in ids ==> id < n
  }

  lemma {:induction false} Bound(ids: set<nat>)
    ensures exists n: nat :: Above(ids, n)
  {
    if ids == {} {
      assert Above(ids, 0);
    } else {
      var x :| x in ids;
      Bound(ids - {x});
      var n: nat :| Above(ids - {x}, n);
      var m := if x < n then n else x + 1;
      forall id | id in ids ensures id < m { assert id == x || id in ids - {x}; }
      assert Above(ids, m);
    }
  }

  lemma FreshId(w: World)
    ensures exists id: ProcId :: id !in w.procs && id !in w.m.states
  {
    Bound(w.procs.Keys + w.m.states.Keys);
    var n: nat :| Above(w.procs.Keys + w.m.states.Keys, n);
    assert n !in w.procs.Keys + w.m.states.Keys;
  }

  lemma BootStarts(w: World, slug: Slug)
    requires slug in w.unbooted && slug !in w.m.processes
    ensures StartsLater(w, slug)
  {
    FreshId(w);
    var id: ProcId :| id !in w.procs && id !in w.m.states;
    assert id in Started(Apply(w, Boot(slug, id, Forked)), slug);
    StartsNow(w, Boot(slug, id, Forked), slug);
  }

  lemma DueTimerStarts(w: World, slug: Slug)
    requires slug in w.m.timers && w.m.timers[slug] <= w.now && MaySpawn(w.m, slug) && !w.m.shuttingDown
    ensures StartsLater(w, slug)
  {
    FreshId(w);
    var id: ProcId :| id !in w.procs && id !in w.m.states;
    assert id in Started(Apply(w, Fire(slug, id, Forked)), slug);
    StartsNow(w, Fire(slug, id, Forked), slug);
  }

  lemma TimerStarts(w: World, slug: Slug)
    requires slug in w.m.timers && MaySpawn(w.m, slug) && !w.m.shuttingDown
    ensures StartsLater(w, slug)
  {
    if w.m.timers[slug] <= w.now {
      DueTimerStarts(w, slug);
    } else {
      var e := Tick(w.m.timers[slug] - w.now);
      DueTimerStarts(Apply(w, e), slug);
      StartsAfter(w, e, slug);
    }
  }

  lemma {:induction false} NoneRecent(crashes: seq<int>, now: int)
    requires forall i :: 0 <= i < |crashes| ==> crashes[i] + QUARANTINE_WINDOW <= now
    ensures Recent(crashes, now) == 0
  {
    if crashes != [] { NoneRecent(crashes[..|crashes| - 1], now); }
  }

  /** The exit of the current subprocess would be answered as a crash. */
  ghost predicate Supervised(w: World, slug: Slug) {
    && !w.m.shuttingDown && slug in w.m.processes && slug in w.m.trackers
    && var id := w.m.processes[slug]; Unhandled(w, id, slug) && id in w.m.states && Running(w.m.states[id])
  }

  // An exit that is handled ten minutes after every earlier crash is answered by a respawn.
  lemma LoneCrashStarts(w: World, slug: Slug)
    requires Supervised(w, slug) && w.procs[w.m.processes[slug]].exited && Recent(w.m.trackers[slug].crashes, w.now) == 0
    ensures StartsLater(w, slug)
  {
    var e, crashes := Handle(w.m.processes[slug]), w.m.trackers[slug].crashes;
    assert (crashes + [w.now])[..|crashes|] == crashes;
    assert Decide(w.m, slug, w.now).Respawn?;
    TimerStarts(Apply(w, e), slug);
    StartsAfter(w, e, slug);
  }

  lemma ExitedStarts(w: World, slug: Slug)
    requires Supervised(w, slug) && w.procs[w.m.processes[slug]].exited
    requires forall at :: at in w.m.trackers[slug].crashes ==> at <= w.now
    ensures StartsLater(w, slug)
  {
    var crashes := w.m.trackers[slug].crashes;
    assert forall i :: 0 <= i < |crashes| ==> crashes[i] in crashes;
    NoneRecent(crashes, w.now + QUARANTINE_WINDOW);
    LoneCrashStarts(w.(now := w.now + QUARANTINE_WINDOW), slug);
    StartsAfter(w, Tick(QUARANTINE_WINDOW), slug);
  }

  lemma SupervisedStarts(w: World, slug: Slug)
    requires Supervised(w, slug) && forall at :: at in w.m.trackers[slug].crashes ==> at <= w.now
    ensures StartsLater(w, slug)
  {
    var e := Exit(w.m.processes[slug]);
    if w.procs[w.m.processes[slug]].exited {
      ExitedStarts(w, slug);
    } else {
      ExitedStarts(Apply(w, e), slug);
      StartsAfter(w, e, slug);
    }
  }

  /** In every state of every run: some continuation starts a subprocess of the slug if and only if
      boot, a timer or a crash that would be answered is left. */
  lemma StartsLaterIff(w: World, slug: Slug)
    requires Sound(w)
    ensures StartsLater(w, slug) <==> CanStart(w, slug)
  {
    assert SlugOk(w, slug);
    if CanStart(w, slug) {
      LeftToStart(w, slug);
    } else if StartsLater(w, slug) {
      var es: seq<Event> :| ValidRun(w, es) && Started(Run(w, es), slug) != Started(w, slug);
      CannotStartRun(w, es, slug);
    }
  }

  lemma LeftToStart(w: World, slug: Slug)
    requires SlugOk(w, slug) && CanStart(w, slug)
    ensures StartsLater(w, slug)
  {
    if slug in w.unbooted {
      BootStarts(w, slug);
    } else if slug in w.m.timers {
      TimerStarts(w, slug);
    } else if Running(w.m.states[w.m.processes[slug]]) {
      SupervisedStarts(w, slug);
    } else {
      var e := Handshake(w.m.processes[slug], true);
      SupervisedStarts(Apply(w, e), slug);
      StartsAfter(w, e, slug);
    }
  }

  /** What `stop` does not prevent, exactly: a boot or a respawn that is pending, and the crash of a
      subprocess whose handshake is pending and may still succeed. */
  lemma StopPreventsIff(w: World, slug: Slug, killFails: bool)
    requires Sound(w)
    ensures var w' := Apply(w, Stop(slug, killFails));
            StartsLater(w', slug) <==>
              || slug in w.unbooted
              || slug in w.m.timers
              || (&& !w.m.shuttingDown && slug in w.m.processes
                  && var id := w.m.processes[slug];
                     && Unhandled(w, id, slug) && id in w.handshakes && id !in w.closed
                     && (killFails ==> IgnoresStop(w.m, slug)))
  {
    var w' := Apply(w, Stop(slug, killFails));
    StepKeepsSound(w, Stop(slug, killFails));
    StartsLaterIff(w', slug);
    assert SlugOk(w, slug);
  }

  // ---------------------------------------------------------------------------
  // How long a quarantine lasts
  // ---------------------------------------------------------------------------

  ghost predicate IsQuarantined(w: World, slug: Slug) {
    StateOf(w.m, slug) == Some(Quarantined)
  }

  /** Record `id` of the slug is written by this event, whatever its state. */
  predicate Writes(e: Event, slug: Slug, id: ProcId) {
    match e
    case Handshake(k, _) => k == id
    case StopDone(k) => k == id
    case Stop(s, _) => s == slug
    case StopAll(_) => true
    case _ => false
  }

  // What the steps of other plugins and of their records leave alone.
  lemma QuarantineElsewhere(w: World, e: Event, slug: Slug)
    requires Sound(w) && Enabled(w, e) && slug in w.m.processes && Dead(w, slug) && (e.Boot? || e.Fire? || e.Handle?)
    ensures slug in Apply(w, e).m.processes && Apply(w, e).m.processes[slug] == w.m.processes[slug]
    ensures IsQuarantined(Apply(w, e), slug) <==> IsQuarantined(w, slug)
  {
    assert SlugOk(w, slug);
    if e.Handle? {
      assert !Unhandled(w, e.id, slug) && SlugOk(w, w.procs[e.id].slug);
    } else {
      SpawnElsewhere(w, e, slug);
    }
  }

  lemma QuarantineRecord(w: World, e: Event, slug: Slug)
    requires Enabled(w, e) && slug in w.m.processes && (e.Tick? || e.Exit? || e.Handshake? || e.StopDone?)
    ensures Apply(w, e).m.processes == w.m.processes
    ensures IsQuarantined(Apply(w, e), slug) <==> IsQuarantined(w, slug) && !Writes(e, slug, w.m.processes[slug])
  {
  }

  lemma QuarantineStop(w: World, t: Slug, killFails: bool, slug: Slug)
    requires SlugOk(w, slug) && SlugOk(w, t) && slug in w.m.processes
    ensures Apply(w, Stop(t, killFails)).m.processes == w.m.processes
    ensures IsQuarantined(Apply(w, Stop(t, killFails)), slug) <==> IsQuarantined(w, slug) && t != slug
  {
  }

  lemma QuarantineStopAll(w: World, failing: set<Slug>, slug: Slug)
    requires Consistent(w.m) && slug in w.m.processes
    ensures !IsQuarantined(Apply(w, StopAll(failing)), slug)
  {
    assert IsQuarantined(w, slug) ==> !IgnoresStop(w.m, slug);
  }

  lemma QuarantineStep(w: World, e: Event, slug: Slug)
    requires Sound(w) && Enabled(w, e) && slug in w.m.processes && Dead(w, slug)
    ensures slug in Apply(w, e).m.processes && Apply(w, e).m.processes[slug] == w.m.processes[slug]
    ensures IsQuarantined(Apply(w, e), slug) <==> IsQuarantined(w, slug) && !Writes(e, slug, w.m.processes[slug])
  {
    match e
    case Boot(_, _, _) => QuarantineElsewhere(w, e, slug);
    case Fire(_, _, _) => QuarantineElsewhere(w, e, slug);
    case Handle(_) => QuarantineElsewhere(w, e, slug);
    case Stop(t, killFails) => assert SlugOk(w, slug) && SlugOk(w, t); QuarantineStop(w, t, killFails, slug);
    case StopAll(failing) => QuarantineStopAll(w, failing, slug);
    case Tick(_) => QuarantineRecord(w, e, slug);
    case Exit(_) => QuarantineRecord(w, e, slug);
    case Handshake(_, _) => QuarantineRecord(w, e, slug);
    case StopDone(_) => QuarantineRecord(w, e, slug);
  }

  lemma {:induction false} QuarantineRun(w: World, es: seq<Event>, slug: Slug)
    requires Sound(w) && ValidRun(w, es) && slug in w.m.processes && Dead(w, slug)
    ensures IsQuarantined(Run(w, es), slug) <==>
              IsQuarantined(w, slug) && forall i :: 0 <= i < |es| ==> !Writes(es[i], slug, w.m.processes[slug])
    decreases |es|
  {
    if es != [] {
      var w1 := Apply(w, es[0]);
      QuarantineStep(w, es[0], slug);
      DeadStep(w, es[0], slug);
      StepKeepsSound(w, es[0]);
      QuarantineRun(w1, es[1..], slug);
      if forall i :: 0 <= i < |es[1..]| ==> !Writes(es[1..][i], slug, w.m.processes[slug]) {
        forall i | 1 <= i < |es| ensures !Writes(es[i], slug, w.m.processes[slug]) {
          assert es[i] == es[1..][i - 1];
        }
      }
    }
  }

  /** A quarantined plugin still reports it at the end of a run if and only if no step of the run was
      the end of its own handshake, the end of a stop of it, or a new stop. */
  lemma QuarantineLastsIff(w: World, es: seq<Event>, slug: Slug)
    requires Sound(w) && IsQuarantined(w, slug) && ValidRun(w, es)
    ensures IsQuarantined(Run(w, es), slug) <==>
              forall i :: 0 <= i < |es| ==> !Writes(es[i], slug, w.m.processes[slug])
  {
    assert SlugOk(w, slug);
    QuarantineRun(w, es, slug);
  }

  /** It reports it in every continuation without a new stop. */
  ghost predicate StaysQuarantined(w: World, slug: Slug) {
    forall es: seq<Event> :: ValidRun(w, es) && (forall i :: 0 <= i < |es| ==> !es[i].Stop? && !es[i].StopAll?) ==>
      IsQuarantined(Run(w, es), slug)
  }

  lemma NoNewStop(w: World, e: Event, id: ProcId)
    requires Enabled(w, e) && id !in w.handshakes && id !in w.stops && id in w.m.states && !e.Stop? && !e.StopAll?
    ensures id !in Apply(w, e).handshakes && id !in Apply(w, e).stops && id in Apply(w, e).m.states
  {
    match e
    case Boot(_, _, _) =>
    case Fire(_, _, _) =>
    case Exit(_) =>
    case Handle(_) =>
    case Tick(_) =>
    case Handshake(_, _) =>
    case StopDone(_) =>
  }

  lemma {:induction false} NeverWrites(w: World, es: seq<Event>, slug: Slug, id: ProcId)
    requires ValidRun(w, es) && id !in w.handshakes && id !in w.stops && id in w.m.states
    requires forall i :: 0 <= i < |es| ==> !es[i].Stop? && !es[i].StopAll?
    ensures forall i :: 0 <= i < |es| ==> !Writes(es[i], slug, id)
    decreases |es|
  {
    if es != [] {
      var rest := es[1..];
      NoNewStop(w, es[0], id);
      assert forall i :: 0 <= i < |rest| ==> rest[i] == es[i + 1];
      NeverWrites(Apply(w, es[0]), rest, slug, id);
      forall i | 0 <= i < |es| ensures !Writes(es[i], slug, id) {
        if i > 0 { assert es[i] == rest[i - 1]; }
      }
    }
  }

  /** A quarantine lasts until the next stop if and only if neither the handshake of that subprocess
      nor an earlier stop of it is still to end. */
  lemma StaysQuarantinedIff(w: World, slug: Slug)
    requires Sound(w) && IsQuarantined(w, slug)
    ensures StaysQuarantined(w, slug) <==>
              w.m.processes[slug] !in w.handshakes && w.m.processes[slug] !in w.stops
  {
    var id := w.m.processes[slug];
    assert SlugOk(w, slug) && !Unhandled(w, id, slug);
    if id in w.handshakes {
      EndsQuarantine(w, slug, Handshake(id, false));
    } else if id in w.stops {
      EndsQuarantine(w, slug, StopDone(id));
    } else {
      forall es: seq<Event> | ValidRun(w, es) && (forall i :: 0 <= i < |es| ==> !es[i].Stop? && !es[i].StopAll?)
        ensures IsQuarantined(Run(w, es), slug)
      {
        NeverWrites(w, es, slug, id);
        QuarantineLastsIff(w, es, slug);
      }
    }
  }

  lemma EndsQuarantine(w: World, slug: Slug, e: Event)
    requires Sound(w) && IsQuarantined(w, slug) && Enabled(w, e) && !e.Stop? && !e.StopAll?
    requires Writes(e, slug, w.m.processes[slug])
    ensures !StaysQuarantined(w, slug)
  {
    var es := [e];
    OneStep(w, e);
    assert Writes(es[0], slug, w.m.processes[slug]);
    QuarantineLastsIff(w, es, slug);
  }

  // ---------------------------------------------------------------------------
  // Runs of one plugin that get there
  // ---------------------------------------------------------------------------

  lemma {:induction false} RunSnoc(w: World, es: seq<Event>, e: Event)
    requires ValidRun(w, es) && Enabled(Run(w, es), e)
    ensures ValidRun(w, es + [e]) && Run(w, es + [e]) == Apply(Run(w, es), e)
    decreases |es|
  {
    if es == [] {
      assert es + [e] == [e] && [e][1..] == [];
    } else {
      assert (es + [e])[1..] == es[1..] + [e];
      RunSnoc(Apply(w, es[0]), es[1..], e);
    }
  }

  /** Some run of plugin `p` alone ends in `w`. */
  ghost predicate Reaches(p: Slug, w: World) {
    exists es: seq<Event> :: ValidRun(Start(0, {p}), es) && Run(Start(0, {p}), es) == w
  }

  lemma Step(p: Slug, w: World, e: Event)
    requires Reaches(p, w) && Enabled(w, e)
    ensures Reaches(p, Apply(w, e))
  {
    var es: seq<Event> :| ValidRun(Start(0, {p}), es) && Run(Start(0, {p}), es) == w;
    RunSnoc(Start(0, {p}), es, e);
  }

  lemma ReachedIsSound(p: Slug, w: World)
    requires Reaches(p, w)
    ensures Sound(w)
  {
    var es: seq<Event> :| ValidRun(Start(0, {p}), es) && Run(Start(0, {p}), es) == w;
    EveryRunIsSound(0, {p}, es);
  }

  // Just booted.
  function Booted(p: Slug): World {
    World(0, Manager(map[p := 0], map[0 := Starting], map[p := Tracker([], 0)], map[], false),
          map[0 := Proc(p, false, false)], {}, {0}, {}, multiset{}, map[])
  }

  lemma Boots(p: Slug)
    ensures Reaches(p, Booted(p))
  {
    var w := Start(0, {p});
    assert ValidRun(w, []) && Run(w, []) == w;
    Step(p, w, Boot(p, 0, Forked));
    assert w.unbooted - {p} == {};
    assert Apply(w, Boot(p, 0, Forked)) == Booted(p);
  }

  // A crash that is answered by a respawn, of the only plugin.
  lemma CrashAnswered(p: Slug, w: World, k: ProcId, t: Tracker)
    requires Enabled(w, Handle(k)) && w.procs[k].slug == p && w.m.processes == map[p := k] && k in w.m.states
    requires Running(w.m.states[k]) && w.m.trackers == map[p := t] && !w.m.shuttingDown
    requires Recent(t.crashes + [w.now], w.now) < QUARANTINE_THRESHOLD
    ensures var (delay, t') := GetBackoffDelay(RecordCrash(t, w.now));
            Apply(w, Handle(k)) == w.(
              procs := w.procs[k := w.procs[k].(handled := true)],
              m := w.m.(trackers := map[p := t'], states := w.m.states[k := Stopped], timers := w.m.timers[p := w.now + delay]),
              closed := w.closed + {k},
              schedules := w.schedules[p := Log(w, p) + [w.now]])
  {
    var (delay, t') := GetBackoffDelay(RecordCrash(t, w.now));
    assert StateOf(w.m, p) == Some(w.m.states[k]);
    assert Decide(w.m, p, w.now) == Respawn(w.now + delay);
    assert w.m.trackers[p := t'] == map[p := t'];
  }

  /** Crash, then `stop`, then the respawn: `stop` finds the record stopped and changes nothing, and
      the pending respawn still starts the plugin. */
  lemma StopDoesNotCancelRespawn(p: Slug)
    ensures exists w :: Reaches(p, w) && p in w.m.timers && Apply(w, Stop(p, false)) == w && StartsLater(Apply(w, Stop(p, false)), p)
  {
    Boots(p);
    Step(p, Booted(p), Exit(0));
    var w := Apply(Booted(p), Exit(0));
    assert Recent([0], 0) == 1 by { assert [0][..0] == []; }
    assert [] + [w.now] == [0];
    CrashAnswered(p, w, 0, Tracker([], 0));
    Step(p, w, Handle(0));
    var w' := Apply(w, Handle(0));
    ReachedIsSound(p, w');
    StopPreventsIff(w', p, false);
  }

  /** `stop` while the handshake is pending, then its end, then the exit: the handshake turns the
      record ready again, and the exit that the stop caused is answered as a crash. */
  lemma StopDuringHandshakeCanRespawn(p: Slug)
    ensures exists w :: Reaches(p, w) && var w' := Apply(w, Stop(p, false));
                        StateOf(w'.m, p) == Some(Stopping) && p !in w'.unbooted && p !in w'.m.timers && StartsLater(w', p)
  {
    Boots(p);
    var w := Booted(p);
    ReachedIsSound(p, w);
    StopPreventsIff(w, p, false);
    assert Unhandled(w, 0, p) && StateOf(Apply(w, Stop(p, false)).m, p) == Some(Stopping);
  }

  // `n` crashes a minute apart.
  function Minutes(n: nat): seq<int> {
    if n == 0 then [] else Minutes(n - 1) + [60_000 * (n - 1)]
  }

  lemma {:induction false} MinutesRecent(n: nat, now: int)
    requires now < QUARANTINE_WINDOW
    ensures |Minutes(n)| == n && Recent(Minutes(n), now) == n
  {
    if n > 0 {
      MinutesRecent(n - 1, now);
      assert Minutes(n)[..n - 1] == Minutes(n - 1);
    }
  }

  /** Plugin `p` at the `k`-th subprocess, each earlier one having crashed before its handshake. */
  ghost predicate Crashing(p: Slug, w: World, k: nat) {
    && w.now == 60_000 * k && w.unbooted == {}
    && k in w.procs && w.procs[k] == Proc(p, false, false)
    && w.m.processes == map[p := k] && k in w.m.states && w.m.states[k] == Starting
    && w.m.trackers == map[p := Tracker(Minutes(k), Capped(k))]
    && w.m.timers == map[] && !w.m.shuttingDown && k in w.handshakes
    && (forall id :: id in w.procs || id in w.m.states ==> id <= k)
  }

  /** And just after that subprocess crashed. */
  ghost predicate Crashed(p: Slug, w: World, k: nat) {
    && w.now == 60_000 * k && w.unbooted == {}
    && w.m.processes == map[p := k] && k in w.m.states && w.m.states[k] == Stopped
    && w.m.trackers == map[p := Tracker(Minutes(k + 1), Capped(k + 1))]
    && w.m.timers.Keys == {p} && w.m.timers[p] <= w.now + 60_000 && !w.m.shuttingDown
    && (forall id :: id in w.procs || id in w.m.states ==> id <= k)
  }

  // The tracker after one more of the crashes a minute apart.
  lemma MinuteCrash(k: nat)
    requires k < 4
    ensures var t := RecordCrash(Tracker(Minutes(k), Capped(k)), 60_000 * k);
            && GetBackoffDelay(t).1 == Tracker(Minutes(k + 1), Capped(k + 1)) && GetBackoffDelay(t).0 <= 60_000
            && Recent(t.crashes, 60_000 * k) < QUARANTINE_THRESHOLD
  {
    MinutesRecent(k + 1, 60_000 * k);
  }

  lemma OneCrash(p: Slug, w: World, k: nat)
    requires Reaches(p, w) && Crashing(p, w, k) && k < 4
    ensures exists w' :: Reaches(p, w') && Crashed(p, w', k)
  {
    Step(p, w, Exit(k));
    var w1 := Apply(w, Exit(k));
    MinuteCrash(k);
    CrashAnswered(p, w1, k, Tracker(Minutes(k), Capped(k)));
    Step(p, w1, Handle(k));
    var w2 := Apply(w1, Handle(k));
    assert w2.m.timers == map[p := w2.m.timers[p]];
    assert Crashed(p, w2, k);
  }

  lemma OneRespawn(p: Slug, w: World, k: nat)
    requires Reaches(p, w) && Crashed(p, w, k)
    ensures exists w' :: Reaches(p, w') && Crashing(p, w', k + 1)
  {
    Step(p, w, Tick(60_000));
    var w1 := Apply(w, Tick(60_000));
    Step(p, w1, Fire(p, k + 1, Forked));
    assert Crashing(p, Apply(w1, Fire(p, k + 1, Forked)), k + 1);
  }

  lemma {:induction false} CrashLoop(p: Slug, k: nat)
    requires k <= 4
    ensures exists w :: Reaches(p, w) && Crashing(p, w, k)
  {
    if k == 0 {
      Boots(p);
      assert Crashing(p, Booted(p), 0);
    } else {
      CrashLoop(p, k - 1);
      var w :| Reaches(p, w) && Crashing(p, w, k - 1);
      OneCrash(p, w, k - 1);
      var w' :| Reaches(p, w') && Crashed(p, w', k - 1);
      OneRespawn(p, w', k - 1);
    }
  }

  /** Quarantine, then the end of the handshake that failed with the fifth crash: the record that was
      quarantined is stopped, although the tracker still says quarantine. */
  lemma QuarantineIsOverwritten(p: Slug)
    ensures exists w, id :: Reaches(p, w) && IsQuarantined(w, p) && Enabled(w, Handshake(id, false))
                            && p in w.m.trackers && ShouldQuarantine(w.m.trackers[p], w.now)
                            && StateOf(Apply(w, Handshake(id, false)).m, p) == Some(Stopped)
  {
    CrashLoop(p, 4);
    var w :| Reaches(p, w) && Crashing(p, w, 4);
    MinutesRecent(5, w.now);
    Step(p, w, Exit(4));
    var w1 := Apply(w, Exit(4));
    assert Decide(w1.m, p, w1.now).Quarantine?;
    Step(p, w1, Handle(4));
    var w2 := Apply(w1, Handle(4));
    assert IsQuarantined(w2, p) && Enabled(w2, Handshake(4, false));
    assert StateOf(Apply(w2, Handshake(4, false)).m, p) == Some(Stopped);
  }
}
