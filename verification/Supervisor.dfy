/**
 Plugin process supervision (runtime/src/subprocess.ts).
 */
module Supervisor {
  import opened Common

  // Each method is one stretch of the source between two awaits, so methods of several calls may
  // interleave in any order. A record is named by the subprocess it was made for; continuations keep
  // that name, while `HandleExit` looks the record up by slug, as the source does. Restart trackers
  // are shared by all records of a slug, so they are kept per slug. Logs and callbacks are left out.

  type Slug = string
  type ProcId = nat

  datatype PluginState = Starting | Ready | Stopping | Stopped | Quarantined

  datatype Tracker = Tracker(crashes: seq<int>, backoffIndex: nat)

  const BACKOFF_SCHEDULE: seq<int> := [1000, 2000, 5000, 15000, 60000]
  const QUARANTINE_WINDOW := 600_000
  const QUARANTINE_THRESHOLD := 5

  // ---------------------------------------------------------------------------
  // Restart tracking
  // ---------------------------------------------------------------------------

  function RecordCrash(t: Tracker, now: int): Tracker {
    t.(crashes := t.crashes + [now])
  }

  /** How many crashes lie within the window ending now. */
  function Recent(crashes: seq<int>, now: int): nat {
    if crashes == [] then 0
    else Recent(crashes[..|crashes| - 1], now) + (if now - crashes[|crashes| - 1] < QUARANTINE_WINDOW then 1 else 0)
  }

  /** By their number, whatever their order. */
  lemma {:induction false} RecentCounts(crashes: seq<int>, now: int)
    ensures Recent(crashes, now) == |set i: nat | i < |crashes| && now - crashes[i] < 600_000|
  {
    var recent := set i: nat | i < |crashes| && now - crashes[i] < 600_000;
    if crashes == [] {
      assert recent == {};
    } else {
      var before, last := crashes[..|crashes| - 1], |crashes| - 1;
      var sooner := set i: nat | i < |before| && now - before[i] < 600_000;
      RecentCounts(before, now);
      assert recent == if now - crashes[last] < 600_000 then sooner + {last} else sooner;
      assert last !in sooner;
    }
  }

  predicate ShouldQuarantine(t: Tracker, now: int) {
    Recent(t.crashes, now) >= QUARANTINE_THRESHOLD
  }

  /** The delay for this crash and the tracker moved on: the index is read, then advanced. */
  function GetBackoffDelay(t: Tracker): (r: (int, Tracker))
  {
    var idx := if t.backoffIndex < |BACKOFF_SCHEDULE| - 1 then t.backoffIndex else |BACKOFF_SCHEDULE| - 1;
    (BACKOFF_SCHEDULE[idx],
     if t.backoffIndex < |BACKOFF_SCHEDULE| - 1 then t.(backoffIndex := t.backoffIndex + 1) else t)
  }

  // ---------------------------------------------------------------------------
  // The manager as a value
  // ---------------------------------------------------------------------------

  datatype Manager = Manager(
    processes: map<Slug, ProcId>,        // the current record of each slug
    states: map<ProcId, PluginState>,    // every record ever made
    trackers: map<Slug, Tracker>,
    timers: map<Slug, int>,              // pending respawns and when they are due
    shuttingDown: bool)

  /** The current records exist, and their slugs have trackers. */
  ghost predicate Consistent(m: Manager) {
    && (forall s :: s in m.processes ==> m.processes[s] in m.states)
    && m.processes.Keys == m.trackers.Keys
  }

  function StateOf(m: Manager, slug: Slug): Option<PluginState> {
    if slug in m.processes && m.processes[slug] in m.states then Some(m.states[m.processes[slug]]) else None
  }

  /** How the operating system answers a spawn: no process, a process whose pipes could not be
      wrapped and that therefore gets no record, or a process. */
  datatype Fork = NoProcess | Unrecorded | Forked

  predicate MaySpawn(m: Manager, slug: Slug) {
    StateOf(m, slug) == None || StateOf(m, slug) == Some(Stopped)
  }

  function Spawned(m: Manager, slug: Slug, id: ProcId, fork: Fork): Manager {
    if !MaySpawn(m, slug) || !fork.Forked? then m
    else m.(processes := m.processes[slug := id],
            states := m.states[id := Starting],
            trackers := if slug in m.trackers then m.trackers else m.trackers[slug := Tracker([], 0)])
  }

  function HandshakeEnded(m: Manager, id: ProcId, ok: bool): Manager {
    m.(states := m.states[id := if ok then Ready else Stopped])
  }

  /** What `HandleExit` decides: ignore the exit, give the plugin up, or respawn it at some time. */
  datatype Decision = Ignore | Quarantine | Respawn(due: int)

  function Decide(m: Manager, slug: Slug, now: int): Decision {
    if StateOf(m, slug) == None || StateOf(m, slug) == Some(Stopping) || StateOf(m, slug) == Some(Stopped)
       || m.shuttingDown || slug !in m.trackers then Ignore
    else
      var crashed := RecordCrash(m.trackers[slug], now);
      if ShouldQuarantine(crashed, now) then Quarantine
      else Respawn(now + GetBackoffDelay(crashed).0)
  }

  function ExitHandled(m: Manager, slug: Slug, now: int): Manager {
    match Decide(m, slug, now)
    case Ignore => m
    case Quarantine =>
      m.(trackers := m.trackers[slug := RecordCrash(m.trackers[slug], now)],
         states := m.states[m.processes[slug] := Quarantined])
    case Respawn(due) =>
      m.(trackers := m.trackers[slug := GetBackoffDelay(RecordCrash(m.trackers[slug], now)).1],
         states := m.states[m.processes[slug] := Stopped],
         timers := m.timers[slug := due])
  }

  predicate IgnoresStop(m: Manager, slug: Slug) {
    StateOf(m, slug) == None || StateOf(m, slug) == Some(Stopped) || StateOf(m, slug) == Some(Stopping)
  }

  /** `killFails` when SIGTERM throws: the record is marked stopped at once. */
  function StopBegun(m: Manager, slug: Slug, killFails: bool): Manager {
    if IgnoresStop(m, slug) then m
    else m.(states := m.states[m.processes[slug] := if killFails then Stopped else Stopping])
  }

  function StopEnded(m: Manager, id: ProcId): Manager {
    m.(states := m.states[id := Stopped])
  }

  /** `stopAll` up to its first await: no timers, and a stop begun for every tracked slug. */
  function StopAllBegun(m: Manager, failing: set<Slug>): Manager
    requires Consistent(m)
  {
    m.(shuttingDown := true,
       timers := map[],
       states := map id | id in m.states ::
         if exists s :: s in m.processes && m.processes[s] == id && !IgnoresStop(m, s)
         then (if exists s :: s in m.processes && m.processes[s] == id && s in failing then Stopped else Stopping)
         else m.states[id])
  }

  /** No two slugs share a record. */
  ghost predicate OwnRecords(m: Manager) {
    forall s, t :: s in m.processes && t in m.processes && m.processes[s] == m.processes[t] ==> s == t
  }

  datatype SpawnReply = AlreadyRunning | SpawnFailed | Waiting

  class SubprocessManager {
    var processes: map<Slug, ProcId>
    var states: map<ProcId, PluginState>
    var trackers: map<Slug, Tracker>
    var respawnTimers: map<Slug, int>
    var shuttingDown: bool

    function Contents(): Manager
      reads this
    {
      Manager(processes, states, trackers, respawnTimers, shuttingDown)
    }

    constructor ()
      ensures Contents() == Manager(map[], map[], map[], map[], false)
    {
      processes, states, trackers, respawnTimers, shuttingDown := map[], map[], map[], map[], false;
    }

    /** `spawn` up to the wait for the handshake. */
    method Spawn(slug: Slug, id: ProcId, fork: Fork) returns (reply: SpawnReply)
      requires Consistent(Contents()) && id !in states
      modifies this
      ensures Contents() == Spawned(old(Contents()), slug, id, fork)
      ensures var running := slug in old(processes) && old(states)[old(processes)[slug]] != Stopped;
              reply == if running then AlreadyRunning else if !fork.Forked? then SpawnFailed else Waiting
      ensures if reply.Waiting?
              then processes == old(processes)[slug := id] && states == old(states)[id := Starting]
                   && trackers == (if slug in old(processes) then old(trackers) else old(trackers)[slug := Tracker([], 0)])
              else processes == old(processes) && states == old(states) && trackers == old(trackers)
      ensures respawnTimers == old(respawnTimers) && shuttingDown == old(shuttingDown)
    {
      if slug in processes && states[processes[slug]] != Stopped {
        return AlreadyRunning;
      }
      if !fork.Forked? {
        return SpawnFailed;
      }
      if slug !in processes {
        trackers := trackers[slug := Tracker([], 0)];
      }
      states := states[id := Starting];
      processes := processes[slug := id];
      return Waiting;
    }

    /** The rest of `spawn`, on the record it made; a failed handshake also sends SIGKILL. */
    method EndHandshake(id: ProcId, ok: bool)
      modifies this
      ensures Contents() == HandshakeEnded(old(Contents()), id, ok)
      ensures states == old(states)[id := if ok then Ready else Stopped]
    {
      if !ok {
        states := states[id := Stopped];
        return;
      }
      states := states[id := Ready];
    }

    method HandleExit(slug: Slug, now: int)
      requires Consistent(Contents())
      modifies this
      ensures Contents() == ExitHandled(old(Contents()), slug, now)
      // An exit nobody asked for is a crash: the fifth within ten minutes gives the plugin up, and any
      // other is answered by a respawn after the next delay.
      ensures processes == old(processes) && shuttingDown == old(shuttingDown)
      ensures var id := if slug in processes then Some(processes[slug]) else None;
              var expected := id.None? || old(states)[id.value] in {Stopping, Stopped} || shuttingDown;
              if expected then Contents() == old(Contents())
              else
                var was := old(trackers)[slug];
                var crashes := was.crashes + [now];
                var step := if was.backoffIndex < 4 then was.backoffIndex else 4;
                if Recent(crashes, now) >= 5 then
                  && states == old(states)[id.value := Quarantined] && respawnTimers == old(respawnTimers)
                  && trackers == old(trackers)[slug := Tracker(crashes, was.backoffIndex)]
                else
                  && states == old(states)[id.value := Stopped]
                  && respawnTimers == old(respawnTimers)[slug := now + [1000, 2000, 5000, 15_000, 60_000][step]]
                  && trackers == old(trackers)[slug := Tracker(crashes, if was.backoffIndex < 4 then was.backoffIndex + 1 else was.backoffIndex)]
    {
      if slug !in processes {
        return;
      }
      var plugin := processes[slug];
      if states[plugin] == Stopping || states[plugin] == Stopped || shuttingDown {
        return;
      }
      var tracker := RecordCrash(trackers[slug], now);
      if ShouldQuarantine(tracker, now) {
        trackers := trackers[slug := tracker];
        states := states[plugin := Quarantined];
        return;
      }
      var (delay, advanced) := GetBackoffDelay(tracker);
      trackers := trackers[slug := advanced];
      states := states[plugin := Stopped];
      respawnTimers := respawnTimers[slug := now + delay];
    }

    /** The respawn timer's callback. */
    method FireRespawn(slug: Slug, id: ProcId, fork: Fork)
      requires Consistent(Contents()) && id !in states
      modifies this
      ensures var m := old(Contents()).(timers := old(respawnTimers) - {slug});
              Contents() == if m.shuttingDown then m else Spawned(m, slug, id, fork)
      ensures respawnTimers == old(respawnTimers) - {slug} && shuttingDown == old(shuttingDown)
      ensures shuttingDown ==> processes == old(processes) && states == old(states)
    {
      respawnTimers := respawnTimers - {slug};
      if shuttingDown {
        return;
      }
      var _ := Spawn(slug, id, fork);
    }

    /** `stop` up to its first await. */
    method BeginStop(slug: Slug, killFails: bool)
      requires Consistent(Contents())
      modifies this`states
      ensures Contents() == StopBegun(old(Contents()), slug, killFails)
      ensures slug in processes ==> states == old(states)[processes[slug] := AfterStop(old(Contents()), slug, killFails)]
      ensures var was := if slug in processes then Some(old(states)[processes[slug]]) else None;
              states == if was.None? || was.value.Stopped? || was.value.Stopping? then old(states)
                        else old(states)[processes[slug] := if killFails then Stopped else Stopping]
    {
      if slug !in processes || states[processes[slug]] == Stopped || states[processes[slug]] == Stopping {
        return;
      }
      var plugin := processes[slug];
      states := states[plugin := Stopping];
      if killFails {
        states := states[plugin := Stopped];
      }
    }

    /** The rest of `stop`, on the record it found. */
    method EndStop(id: ProcId)
      modifies this
      ensures Contents() == StopEnded(old(Contents()), id)
      ensures states == old(states)[id := Stopped]
    {
      states := states[id := Stopped];
    }

    // The stops of `stopAll`, each up to its first await.
    method BeginStops(failing: set<Slug>)
      requires Consistent(Contents()) && OwnRecords(Contents())
      modifies this`states
      ensures StopsBegun(old(Contents()), states, processes.Keys, failing)
    {
      ghost var before := Contents();
      var slugs := processes.Keys;
      while slugs != {}
        invariant slugs <= processes.Keys
        invariant StopsBegun(before, states, processes.Keys - slugs, failing)
        decreases slugs
      {
        var slug :| slug in slugs;
        ghost var was, begun := states, processes.Keys - slugs;
        BeginStop(slug, slug in failing);
        OneMoreStop(before, was, begun, failing, slug);
        slugs := slugs - {slug};
        assert processes.Keys - slugs == begun + {slug};
      }
    }

    method BeginStopAll(failing: set<Slug>)
      requires Consistent(Contents()) && OwnRecords(Contents())
      modifies this
      ensures Contents() == StopAllBegun(old(Contents()), failing)
      ensures shuttingDown && respawnTimers == map[]
      ensures forall s :: s in processes && old(states)[processes[s]] !in {Stopped, Stopping} ==>
                states[processes[s]] == if s in failing then Stopped else Stopping
    {
      shuttingDown := true;
      respawnTimers := map[];
      ghost var before := Contents();
      BeginStops(failing);
      AllStopsBegun(before, states, failing);
    }
  }

  /** The state of one record once the stops of `begun` have been begun. */
  ghost predicate StopsBegun(before: Manager, states: map<ProcId, PluginState>, begun: set<Slug>, failing: set<Slug>)
    requires Consistent(before)
  {
    && states.Keys == before.states.Keys
    && (forall s :: s in begun && s in before.processes ==>
          states[before.processes[s]] == AfterStop(before, s, s in failing))
    && (forall s :: s in before.processes && s !in begun ==>
          states[before.processes[s]] == before.states[before.processes[s]])
    && (forall id :: id in states && id !in before.processes.Values ==> states[id] == before.states[id])
  }

  function AfterStop(m: Manager, slug: Slug, killFails: bool): PluginState
    requires slug in m.processes && m.processes[slug] in m.states
  {
    var was := m.states[m.processes[slug]];
    if was.Stopped? || was.Stopping? then was else if killFails then Stopped else Stopping
  }

  lemma OneMoreStop(before: Manager, states: map<ProcId, PluginState>, begun: set<Slug>, failing: set<Slug>, slug: Slug)
    requires Consistent(before) && OwnRecords(before) && slug in before.processes && slug !in begun
    requires StopsBegun(before, states, begun, failing)
    ensures StopsBegun(before, states[before.processes[slug] := AfterStop(before, slug, slug in failing)], begun + {slug}, failing)
  {
  }

  lemma AllStopsBegun(before: Manager, states: map<ProcId, PluginState>, failing: set<Slug>)
    requires Consistent(before) && OwnRecords(before)
    requires StopsBegun(before, states, before.processes.Keys, failing)
    ensures states == StopAllBegun(before, failing).states
  {
    forall id | id in states ensures states[id] == StopAllBegun(before, failing).states[id] {
      if id in before.processes.Values {
        var s :| s in before.processes && before.processes[s] == id;
        assert states[id] == AfterStop(before, s, s in failing);
      }
    }
  }
}
