/**
 Deploying a dev plugin into a server volume and removing it again
 (apps/desktop/src/plugin-dev-deploy.ts, runDeploy and undeployDevPlugin).
 */
module PluginDeploy {
  import opened Common
  import opened FileTree
  import opened DeployCopy

  // Every filesystem call may fail. `trace` records each call with the state it leaves, which is what a
  // container start finds should the desktop die there. Checks that read only, the container calls and
  // the health probe are left out; the caller's answers are parameters.

  /** The state a container start reads: /plugins and the registrations of server.json. */
  datatype Server = Server(plugins: map<Name, Node>, installed: seq<Name>, allowUnsigned: bool)

  datatype Options = Options(consentUnsigned: bool, overwriteExisting: bool)

  /** Where a copy may fail. */
  datatype Stage = Sweeping | Copying | StaleBackup | MoveAside | MoveIn | DropBackup

  /** `restored` is false when the compensating rename failed too. */
  datatype Outcome =
    | PLUGIN_TOO_LARGE | CONSENT_REQUIRED | SLUG_CONFLICT_EXISTING   // nothing was touched
    | COPY_FAILED(at: Stage, restored: bool) | CONFIG_WRITE_FAILED | DEPLOYED

  datatype UndeployOutcome = UNDEPLOY_CONFIG_WRITE_FAILED | UNINSTALL_FAILED | UNDEPLOYED

  /** The filesystem calls, by what they are for. */
  datatype Call =
    | SweepOne          // rmSync of a stale scratch folder
    | CopyIn            // cpSync to the staging folder
    | DropStale         // rmSync of an old backup
    | Aside             // rename of the plugin's folder to the backup
    | In                // rename of the staging folder into place
    | DropOld           // rmSync of the backup
    | Back              // the compensating rename of the backup into place
    | CleanUp(failed: Stage)   // rmSync of the staging folder after a failure
    | WriteJson
    | Unregister | RemoveFolder   // the calls of an undeploy

  datatype Moment = Moment(call: Call, ok: bool, state: Server)

  function StagingName(slug: Name): Name { ".staging-" + slug }
  function BackupName(slug: Name): Name { ".backup-" + slug }

  predicate IsScratch(name: Name) {
    StartsWith(name, ".staging-") || StartsWith(name, ".backup-")
  }

  /** Dev slugs are validated folder names; none starts with a dot. */
  predicate IsSlug(slug: Name) {
    slug != "" && slug[0] != '.'
  }

  /** The folders a container start can load: the scratch folders are no plugins. */
  function Folders(plugins: map<Name, Node>): map<Name, Node> {
    map k | k in plugins && !IsScratch(k) :: plugins[k]
  }

  predicate NoScratch(plugins: map<Name, Node>) {
    forall k :: k in plugins ==> !IsScratch(k)
  }

  // ---------------------------------------------------------------------------
  // The states a deploy passes through
  // ---------------------------------------------------------------------------

  ghost predicate Kept(before: Server, now: Server) {
    Folders(now.plugins) == Folders(before.plugins) && now.installed == before.installed
  }

  /** The whole new tree is in place. */
  ghost predicate Swapped(before: Server, now: Server, slug: Name, tree: Node) {
    Folders(now.plugins) == Folders(before.plugins)[slug := tree] && now.installed == before.installed
  }

  /** The folder of `slug` is moved aside and nothing is in its place. */
  ghost predicate Hole(before: Server, now: Server, slug: Name) {
    && slug in before.plugins
    && Folders(now.plugins) == Folders(before.plugins) - {slug}
    && BackupName(slug) in now.plugins && now.plugins[BackupName(slug)] == before.plugins[slug]
    && now.installed == before.installed
  }

  /** The only scratch folders left are those of this deploy, a backup only of a folder it found. */
  ghost predicate OwnScratch(before: Server, now: Server, slug: Name) {
    forall k :: k in now.plugins && IsScratch(k) ==> k == StagingName(slug) || (slug in before.plugins && k == BackupName(slug))
  }

  predicate AfterSweep(call: Call) {
    !call.SweepOne? && call != CleanUp(Sweeping)
  }

  /** The state after each call of a deploy that began at `before`. */
  ghost predicate DeployMoment(before: Server, m: Moment, slug: Name, tree: Node) {
    && (AfterSweep(m.call) ==> OwnScratch(before, m.state, slug))
    && match m.call
       case SweepOne => Kept(before, m.state)
       case CopyIn => Kept(before, m.state)
       case DropStale => Kept(before, m.state)
       case Aside => if m.ok then Hole(before, m.state, slug) else Kept(before, m.state)
       case In =>
         if m.ok then Swapped(before, m.state, slug, tree)
         else if slug in before.plugins then Hole(before, m.state, slug) else Kept(before, m.state)
       case DropOld => Swapped(before, m.state, slug, tree)
       case Back => if m.ok then Kept(before, m.state) else Hole(before, m.state, slug)
       case CleanUp(at) => if at.DropBackup? then Swapped(before, m.state, slug, tree) else Kept(before, m.state)
       case WriteJson =>
         && Folders(m.state.plugins) == Folders(before.plugins)[slug := tree]
         && m.state.installed == (if m.ok then Registered(before.installed, slug) else before.installed)
       case _ => false
  }

  ghost predicate DeployMoments(before: Server, ms: seq<Moment>, slug: Name, tree: Node) {
    forall m :: m in ms ==> DeployMoment(before, m, slug, tree)
  }

  /** The last call recorded, if there is a new one, left the present state. */
  ghost predicate Recorded(calls: nat, before: Server, trace: seq<Moment>, now: Server) {
    if |trace| == calls then now == before else trace != [] && trace[|trace| - 1].state == now
  }

  /** The state in which the try block of the swap stops. */
  ghost predicate StoppedAt(at: Stage, before: Server, now: Server, slug: Name, tree: Node) {
    if at.DropBackup? then Swapped(before, now, slug, tree)
    else if at.MoveIn? && slug in before.plugins then Hole(before, now, slug)
    else Kept(before, now)
  }

  /** The state a deploy ends in. */
  ghost predicate Ends(before: Server, now: Server, slug: Name, tree: Node, r: Outcome) {
    match r
    case COPY_FAILED(at, restored) =>
      && (restored || (at.MoveIn? && slug in before.plugins))
      && if at.DropBackup? then Swapped(before, now, slug, tree)
         else if restored then Kept(before, now) else Hole(before, now, slug)
    case CONFIG_WRITE_FAILED => Swapped(before, now, slug, tree)
    case DEPLOYED =>
      Folders(now.plugins) == Folders(before.plugins)[slug := tree] && now.installed == Registered(before.installed, slug)
    case _ => now == before
  }

  /** How the swap fails, read off the calls that fail, `n` calls having been made before it. */
  function SwapFailure(faults: nat -> bool, n: nat, had: bool): Option<(Stage, bool)> {
    var k := if had then n + 2 else n + 1;   // the last call before the rename into place
    if faults(n + 1) then Some((StaleBackup, true))
    else if had && faults(n + 2) then Some((MoveAside, true))
    else if faults(k + 1) then Some((MoveIn, !had || !faults(k + 2)))
    else if faults(k + 2) then Some((DropBackup, true))
    else None
  }

  /** What a deploy answers. `stale` is the number of scratch folders to sweep, `had` says whether the
      plugin has a folder; sockets and fifos cannot be copied. */
  function Answer(faults: nat -> bool, n: nat, stale: nat, had: bool, copyable: bool): Outcome {
    if !NoFault(faults, n, n + stale) then COPY_FAILED(Sweeping, true)
    else
      match CopyFailure(faults, n + stale, had, copyable)
      case Some((at, restored)) => COPY_FAILED(at, restored)
      case None => if faults(n + stale + (if had then 6 else 5)) then CONFIG_WRITE_FAILED else DEPLOYED
  }

  function CopyFailure(faults: nat -> bool, n: nat, had: bool, copyable: bool): Option<(Stage, bool)> {
    if faults(n + 1) || !copyable then Some((Copying, true)) else SwapFailure(faults, n + 1, had)
  }

  /** None of the calls after number `from`, up to number `to`, fails. */
  predicate NoFault(faults: nat -> bool, from: nat, to: nat) {
    forall i :: from < i <= to ==> !faults(i)
  }

  function ScratchOf(names: set<Name>): set<Name> {
    set k | k in names && IsScratch(k)
  }

  lemma LessScratch(names: set<Name>, name: Name)
    requires name in names
    ensures |ScratchOf(names)| == |ScratchOf(names - {name})| + if IsScratch(name) then 1 else 0
  {
    if IsScratch(name) {
      assert ScratchOf(names) == ScratchOf(names - {name}) + {name};
    } else {
      assert ScratchOf(names) == ScratchOf(names - {name});
    }
  }

  /** `new Set(installed).add(slug)`, in insertion order. */
  function Registered(installed: seq<Name>, slug: Name): seq<Name> {
    if slug in installed then Unique(installed) else Unique(installed) + [slug]
  }

  function Unique(xs: seq<Name>): seq<Name> {
    if xs == [] then []
    else
      var before := Unique(xs[..|xs| - 1]);
      if xs[|xs| - 1] in before then before else before + [xs[|xs| - 1]]
  }

  lemma {:induction false} UniqueSame(xs: seq<Name>)
    ensures forall x :: x in Unique(xs) <==> x in xs
  {
    if xs != [] {
      UniqueSame(xs[..|xs| - 1]);
      assert xs == xs[..|xs| - 1] + [xs[|xs| - 1]];
    }
  }

  // `x` occurs before the first `y`.
  ghost predicate OccursBefore(xs: seq<Name>, x: Name, y: Name) {
    exists i :: 0 <= i < |xs| && xs[i] == x && y !in xs[..i + 1]
  }

  lemma OccursBeforeGrows(xs: seq<Name>, last: Name, x: Name, y: Name)
    requires OccursBefore(xs, x, y)
    ensures OccursBefore(xs + [last], x, y)
  {
    var i :| 0 <= i < |xs| && xs[i] == x && y !in xs[..i + 1];
    assert (xs + [last])[..i + 1] == xs[..i + 1] && (xs + [last])[i] == x;
  }

  lemma {:induction false} UniqueOrder(xs: seq<Name>)
    ensures forall i, j :: 0 <= i < j < |Unique(xs)| ==> OccursBefore(xs, Unique(xs)[i], Unique(xs)[j])
  {
    if xs != [] {
      var rest, last := xs[..|xs| - 1], xs[|xs| - 1];
      UniqueOrder(rest);
      UniqueSame(rest);
      assert xs == rest + [last];
      forall i, j | 0 <= i < j < |Unique(xs)| ensures OccursBefore(xs, Unique(xs)[i], Unique(xs)[j]) {
        var x, y := Unique(xs)[i], Unique(xs)[j];
        assert x == Unique(rest)[i] && x in Unique(rest);
        if j < |Unique(rest)| {
          OccursBeforeGrows(rest, last, x, y);
        } else {
          var k :| 0 <= k < |rest| && rest[k] == x;
          assert xs[k] == x && xs[..k + 1] == rest[..k + 1];
        }
      }
    }
  }

  /** The registered plugins: those listed before and the slug, once each, in the order in which they
      first occur. */
  lemma RegisteredSpec(installed: seq<Name>, slug: Name)
    ensures var r, all := Registered(installed, slug), installed + [slug];
            && (forall x :: x in r <==> x in all)
            && forall i, j :: 0 <= i < j < |r| ==> OccursBefore(all, r[i], r[j])
  {
    var all := installed + [slug];
    assert all[..|all| - 1] == installed;
    UniqueSame(installed);
    UniqueOrder(all);
    assert Registered(installed, slug) == Unique(all);
  }

  function Unregistered(installed: seq<Name>, slug: Name): seq<Name> {
    if installed == [] then []
    else if installed[0] == slug then Unregistered(installed[1..], slug)
    else [installed[0]] + Unregistered(installed[1..], slug)
  }

  lemma {:induction false} UnregisteredSame(installed: seq<Name>, slug: Name)
    ensures forall x :: x in Unregistered(installed, slug) <==> x in installed && x != slug
  {
    if installed != [] {
      UnregisteredSame(installed[1..], slug);
    }
  }

  lemma {:induction false} UnregisteredAll(xs: seq<Name>, slug: Name)
    requires slug !in xs
    ensures Unregistered(xs, slug) == xs
  {
    if xs != [] {
      UnregisteredAll(xs[1..], slug);
    }
  }

  lemma {:induction false} UnregisteredConcat(xs: seq<Name>, ys: seq<Name>, slug: Name)
    ensures Unregistered(xs + ys, slug) == Unregistered(xs, slug) + Unregistered(ys, slug)
  {
    if xs == [] {
      assert xs + ys == ys;
    } else {
      UnregisteredConcat(xs[1..], ys, slug);
      assert (xs + ys)[1..] == xs[1..] + ys;
    }
  }

  /** The slug goes wherever it is listed; what is listed between stays as it is. */
  lemma UnregisteredSpec(installed: seq<Name>, slug: Name, rest: seq<Name>)
    ensures forall x :: x in Unregistered(installed, slug) <==> x in installed && x != slug
    ensures slug !in installed ==>
              Unregistered(installed, slug) == installed && Unregistered(installed + [slug] + rest, slug) == installed + Unregistered(rest, slug)
  {
    UnregisteredSame(installed, slug);
    if slug !in installed {
      UnregisteredAll(installed, slug);
      UnregisteredConcat(installed, [slug], slug);
      UnregisteredConcat(installed + [slug], rest, slug);
      assert [slug][1..] == [];
    }
  }

  // ---------------------------------------------------------------------------
  // The volume
  // ---------------------------------------------------------------------------

  class HostedServer {
    var plugins: map<Name, Node>
    var installed: seq<Name>
    var allowUnsigned: bool
    ghost var trace: seq<Moment>
    var calls: nat
    const faults: nat -> bool
    const leftover: (nat, Node) -> Node

    function State(): Server
      reads this
    {
      Server(plugins, installed, allowUnsigned)
    }

    constructor (s: Server, faults: nat -> bool, leftover: (nat, Node) -> Node)
      ensures State() == s && trace == [] && calls == 0 && this.faults == faults
    {
      this.faults, this.leftover, calls := faults, leftover, 0;
      plugins, installed, allowUnsigned := s.plugins, s.installed, s.allowUnsigned;
      trace := [];
    }

    method Rename(ghost call: Call, a: Name, b: Name) returns (ok: bool)
      requires a != b
      modifies this
      ensures calls == old(calls) + 1 && (ok <==> !faults(calls) && a in old(plugins) && b !in old(plugins))
      ensures plugins == if ok then (old(plugins) - {a})[b := old(plugins)[a]] else old(plugins)
      ensures installed == old(installed) && allowUnsigned == old(allowUnsigned)
      ensures trace == old(trace) + [Moment(call, ok, State())]
    {
      calls := calls + 1;
      ok := !faults(calls) && a in plugins && b !in plugins;
      if ok {
        plugins := (plugins - {a})[b := plugins[a]];
      }
      trace := trace + [Moment(call, ok, State())];
    }

    /** A recursive, forced removal; an interrupted one leaves a part of the folder. */
    method Remove(ghost call: Call, a: Name) returns (ok: bool)
      modifies this
      ensures calls == old(calls) + 1 && (ok <==> !faults(calls))
      ensures ok ==> plugins == old(plugins) - {a}
      ensures !ok ==> plugins - {a} == old(plugins) - {a} && plugins.Keys == old(plugins).Keys
      ensures installed == old(installed) && allowUnsigned == old(allowUnsigned)
      ensures trace == old(trace) + [Moment(call, ok, State())]
    {
      calls := calls + 1;
      ok := !faults(calls);
      if ok {
        plugins := plugins - {a};
      } else if a in plugins {
        plugins := plugins[a := leftover(calls, plugins[a])];
      }
      trace := trace + [Moment(call, ok, State())];
    }

    /** `cpSync` with the filter, into a folder that does not exist. Sockets and fifos fail it. */
    method Copy(ghost call: Call, source: Node, a: Name) returns (ok: bool)
      requires a !in plugins
      modifies this
      ensures calls == old(calls) + 1 && (ok <==> !faults(calls) && Plain(Shipped(source)))
      ensures ok ==> plugins == old(plugins)[a := Shipped(source)]
      ensures !ok ==> plugins - {a} == old(plugins)
      ensures installed == old(installed) && allowUnsigned == old(allowUnsigned)
      ensures trace == old(trace) + [Moment(call, ok, State())]
    {
      calls := calls + 1;
      ok := !faults(calls) && Plain(Shipped(source));
      plugins := plugins[a := if ok then Shipped(source) else leftover(calls, Shipped(source))];
      trace := trace + [Moment(call, ok, State())];
    }

    /** `writeServerJson`: a temporary file renamed over the old one, so it is written whole or not. */
    method WriteServerJson(ghost call: Call, installed': seq<Name>, allowUnsigned': bool) returns (ok: bool)
      modifies this
      ensures calls == old(calls) + 1 && (ok <==> !faults(calls))
      ensures ok ==> installed == installed' && allowUnsigned == allowUnsigned'
      ensures !ok ==> installed == old(installed) && allowUnsigned == old(allowUnsigned)
      ensures plugins == old(plugins)
      ensures trace == old(trace) + [Moment(call, ok, State())]
    {
      calls := calls + 1;
      ok := !faults(calls);
      if ok {
        installed, allowUnsigned := installed', allowUnsigned';
      }
      trace := trace + [Moment(call, ok, State())];
    }

    // Every call recorded since `from` leaves a state as a deploy that began at `before` may.
    ghost predicate Traced(from: nat, before: Server, slug: Name, tree: Node)
      reads this
    {
      from <= |trace| && DeployMoments(before, trace[from..], slug, tree)
    }

    // The last call was the removal of the staging folder, which is gone if that did not fail, or the
    // compensating rename, which failed.
    ghost predicate CleanedUp(slug: Name)
      reads this
    {
      && trace != []
      && var last := trace[|trace| - 1];
         (last.call.CleanUp? && (last.ok ==> StagingName(slug) !in plugins)) || (last.call.Back? && !last.ok)
    }

    /** Stale scratch folders of earlier deploys, of any slug, are swept away. */
    method Sweep() returns (ok: bool)
      modifies this
      ensures Folders(plugins) == Folders(old(plugins))
      ensures ok ==> NoScratch(plugins)
      ensures ok ==> forall k :: k in plugins <==> k in old(plugins) && !StartsWith(k, ".staging-") && !StartsWith(k, ".backup-")
      ensures var stale := |ScratchOf(old(plugins).Keys)|;
              && (ok <==> NoFault(faults, old(calls), old(calls) + stale)) && (ok ==> calls == old(calls) + stale)
      ensures installed == old(installed) && allowUnsigned == old(allowUnsigned)
      ensures |old(trace)| <= |trace| && trace[..|old(trace)|] == old(trace)
      ensures Recorded(|old(trace)|, old(State()), trace, State())
      ensures forall i :: |old(trace)| <= i < |trace| ==> trace[i].call == SweepOne && Kept(old(State()), trace[i].state)
    {
      var names := plugins.Keys;
      ok := true;
      while names != {}
        invariant Folders(plugins) == Folders(old(plugins)) && names <= old(plugins).Keys
        invariant forall k :: k in plugins && k !in names ==> !IsScratch(k)
        invariant ok && old(calls) <= calls && NoFault(faults, old(calls), calls)
        invariant calls + |ScratchOf(names)| == old(calls) + |ScratchOf(old(plugins).Keys)|
        invariant installed == old(installed) && allowUnsigned == old(allowUnsigned)
        invariant |old(trace)| <= |trace| && trace[..|old(trace)|] == old(trace)
        invariant Recorded(|old(trace)|, old(State()), trace, State())
        invariant forall i :: |old(trace)| <= i < |trace| ==> trace[i].call == SweepOne && Kept(old(State()), trace[i].state)
        decreases names
      {
        var name :| name in names;
        LessScratch(names, name);
        names := names - {name};
        if IsScratch(name) {
          ghost var was := plugins;
          ok := Remove(SweepOne, name);
          ScratchOnly(was, plugins, name);
          if !ok { return; }
        }
      }
      forall k ensures k in plugins <==> k in old(plugins) && !IsScratch(k) {
        assert k in Folders(plugins) <==> k in Folders(old(plugins));
      }
    }

    // Once nothing stale is left.
    method FillStaging(source: Node, slug: Name, ghost before: Server) returns (ok: bool)
      requires IsSlug(slug) && plugins == Folders(before.plugins) && Kept(before, State())
      modifies this
      ensures ok ==> Staged(before, State(), slug, Shipped(source)) && calls == old(calls) + 1
      ensures Kept(before, State())
      ensures ok <==> !faults(old(calls) + 1) && Plain(Shipped(source))
      ensures |trace| > |old(trace)| && (!ok ==> CleanedUp(slug))
      ensures installed == old(installed) && allowUnsigned == old(allowUnsigned)
      ensures |old(trace)| <= |trace| && trace[..|old(trace)|] == old(trace)
      ensures Recorded(|old(trace)|, old(State()), trace, State())
      ensures Traced(|old(trace)|, before, slug, Shipped(source))
    {
      ok := Copy(CopyIn, source, StagingName(slug));
      ScratchOnly(old(plugins), plugins, StagingName(slug));
      OnlyAdded(old(plugins), plugins, StagingName(slug));
      assert DeployMoment(before, trace[|trace| - 1], slug, Shipped(source));
      if !ok {
        DropStaging(slug, Copying, before, Shipped(source));
      }
    }

    /** `copyPluginToStaging`. */
    method Stage(source: Node, slug: Name) returns (failedAt: Option<Stage>)
      requires IsSlug(slug)
      modifies this
      ensures failedAt.None? ==> Staged(old(State()), State(), slug, Shipped(source))
      ensures failedAt.None? ==> ".staging-" + slug in plugins && plugins[".staging-" + slug] == Shipped(source)
      ensures Kept(old(State()), State())
      ensures failedAt.Some? ==> (failedAt.value.Sweeping? || failedAt.value.Copying?) && CleanedUp(slug)
      ensures |trace| > |old(trace)|
      ensures var n, m := old(calls), old(calls) + |ScratchOf(old(plugins).Keys)|;
              && failedAt == (if !NoFault(faults, n, m) then Some(Sweeping)
                              else if faults(m + 1) || !Plain(Shipped(source)) then Some(Copying) else None)
              && (failedAt.None? ==> calls == m + 1)
      ensures installed == old(installed) && allowUnsigned == old(allowUnsigned)
      ensures |old(trace)| <= |trace| && trace[..|old(trace)|] == old(trace)
      ensures Recorded(|old(trace)|, old(State()), trace, State())
      ensures Traced(|old(trace)|, old(State()), slug, Shipped(source))
    {
      ghost var before, start := State(), trace;
      var ok := Sweep();
      ghost var mid := trace;
      assert DeployMoments(before, mid[|start|..], slug, Shipped(source));
      if ok {
        assert plugins == Folders(plugins);
        ok := FillStaging(source, slug, before);
        failedAt := if ok then None else Some(Copying);
      } else {
        ghost var was := plugins;
        var _ := Remove(CleanUp(Sweeping), StagingName(slug));
        ScratchOnly(was, plugins, StagingName(slug));
        failedAt := Some(Sweeping);
      }
      MomentsJoin(before, start, mid, trace, slug, Shipped(source));
    }

    // The old folder is moved aside, never deleted first.
    method MakeRoom(slug: Name, ghost before: Server, ghost tree: Node) returns (failedAt: Option<Stage>)
      requires IsSlug(slug) && Staged(before, State(), slug, tree)
      modifies this
      ensures installed == old(installed) && allowUnsigned == old(allowUnsigned)
      ensures OwnScratch(before, State(), slug)
      ensures match failedAt
              case None => RoomMade(before, State(), slug, tree)
              case Some(at) => (at.StaleBackup? || at.MoveAside?) && Kept(before, State())
      ensures failedAt.None? && slug in before.plugins ==>
                ".backup-" + slug in plugins && plugins[".backup-" + slug] == before.plugins[slug]
      ensures var n, had := old(calls), slug in before.plugins;
              && failedAt == (if faults(n + 1) then Some(StaleBackup) else if had && faults(n + 2) then Some(MoveAside) else None)
              && (failedAt == None ==> calls == if had then n + 2 else n + 1)
      ensures |old(trace)| <= |trace| && trace[..|old(trace)|] == old(trace)
      ensures Recorded(|old(trace)|, old(State()), trace, State())
      ensures Traced(|old(trace)|, before, slug, tree)
    {
      var backup, hadExisting := BackupName(slug), slug in plugins;
      StagedFolder(before, State(), slug, tree);
      ghost var staged := plugins;
      var ok := Remove(DropStale, backup);
      assert staged - {backup} == staged && plugins - {backup} == plugins;
      if !ok { return Some(StaleBackup); }
      if hadExisting {
        ok := Rename(Aside, slug, backup);
        if !ok { return Some(MoveAside); }
        MovedAside(before, staged, plugins, slug);
      } else {
        NothingThere(before.plugins, slug);
      }
      return None;
    }

    method MoveNewIn(slug: Name, ghost before: Server, ghost tree: Node) returns (failedAt: Option<Stage>)
      requires IsSlug(slug) && RoomMade(before, State(), slug, tree) && OwnScratch(before, State(), slug)
      modifies this
      ensures installed == old(installed) && allowUnsigned == old(allowUnsigned)
      ensures OwnScratch(before, State(), slug)
      ensures match failedAt
              case None => Swapped(before, State(), slug, tree) && NoScratch(plugins)
              case Some(at) => if at.DropBackup? then Swapped(before, State(), slug, tree)
                               else at.MoveIn? && plugins == old(plugins)
      ensures failedAt == if faults(old(calls) + 1) then Some(MoveIn) else if faults(old(calls) + 2) then Some(DropBackup) else None
      ensures calls == old(calls) + (if failedAt == Some(MoveIn) then 1 else 2)
      ensures |old(trace)| <= |trace| && trace[..|old(trace)|] == old(trace)
      ensures Recorded(|old(trace)|, old(State()), trace, State())
      ensures Traced(|old(trace)|, before, slug, tree)
    {
      var ok := Rename(In, StagingName(slug), slug);
      if !ok {
        assert DeployMoment(before, trace[|trace| - 1], slug, tree);
        return Some(MoveIn);
      }
      PutInPlace(before, old(plugins), plugins, slug, tree);
      assert DeployMoment(before, trace[|trace| - 1], slug, tree);
      ghost var swapped := plugins;
      ok := Remove(DropOld, BackupName(slug));
      ScratchOnly(swapped, plugins, BackupName(slug));
      assert DeployMoment(before, trace[|trace| - 1], slug, tree);
      return if ok then None else Some(DropBackup);
    }

    // The try block of the swap.
    method TrySwap(slug: Name, ghost before: Server, ghost tree: Node) returns (failedAt: Option<Stage>)
      requires IsSlug(slug) && Staged(before, State(), slug, tree)
      modifies this
      ensures installed == old(installed) && allowUnsigned == old(allowUnsigned)
      ensures OwnScratch(before, State(), slug)
      ensures failedAt.None? ==> Swapped(before, State(), slug, tree) && NoScratch(plugins)
      ensures failedAt.Some? ==> StoppedAt(failedAt.value, before, State(), slug, tree)
      ensures var n, had := old(calls), slug in before.plugins;
              var k := if had then n + 2 else n + 1;
              && failedAt == (if faults(n + 1) then Some(StaleBackup) else if had && faults(n + 2) then Some(MoveAside)
                              else if faults(k + 1) then Some(MoveIn) else if faults(k + 2) then Some(DropBackup) else None)
              && (failedAt == Some(MoveIn) ==> calls == k + 1) && (failedAt == None ==> calls == k + 2)
      ensures |old(trace)| <= |trace| && trace[..|old(trace)|] == old(trace)
      ensures Recorded(|old(trace)|, old(State()), trace, State())
      ensures Traced(|old(trace)|, before, slug, tree)
    {
      failedAt := MakeRoom(slug, before, tree);
      if failedAt.None? {
        failedAt := MoveNewIn(slug, before, tree);
      }
    }

    method DropStaging(slug: Name, at: Stage, ghost before: Server, ghost tree: Node)
      requires OwnScratch(before, State(), slug)
      requires if at.DropBackup? then Swapped(before, State(), slug, tree) else Kept(before, State())
      modifies this
      ensures installed == old(installed) && allowUnsigned == old(allowUnsigned) && CleanedUp(slug)
      ensures if at.DropBackup? then Swapped(before, State(), slug, tree) else Kept(before, State())
      ensures |old(trace)| <= |trace| && trace[..|old(trace)|] == old(trace)
      ensures Recorded(|old(trace)|, old(State()), trace, State())
      ensures Traced(|old(trace)|, before, slug, tree)
    {
      ghost var was := plugins;
      var _ := Remove(CleanUp(at), StagingName(slug));
      ScratchOnly(was, plugins, StagingName(slug));
      assert DeployMoment(before, trace[|trace| - 1], slug, tree);
    }

    // The compensating rename.
    method PutBack(slug: Name, ghost before: Server, ghost tree: Node) returns (restored: bool)
      requires IsSlug(slug) && Hole(before, State(), slug) && OwnScratch(before, State(), slug) && slug !in plugins
      modifies this
      ensures installed == old(installed) && allowUnsigned == old(allowUnsigned)
      ensures restored <==> !faults(old(calls) + 1)
      ensures trace == old(trace) + [Moment(Back, restored, State())]
      ensures OwnScratch(before, State(), slug) && if restored then Kept(before, State()) else Hole(before, State(), slug)
      ensures |old(trace)| <= |trace| && trace[..|old(trace)|] == old(trace)
      ensures Recorded(|old(trace)|, old(State()), trace, State())
      ensures Traced(|old(trace)|, before, slug, tree)
    {
      restored := Rename(Back, BackupName(slug), slug);
      if restored {
        MovedBack(before.plugins, old(plugins), plugins, slug);
      }
      assert DeployMoment(before, trace[|trace| - 1], slug, tree);
    }

    // Its catch block. `restored` is false when the compensating rename failed.
    method RestoreSwap(slug: Name, at: Stage, hadExisting: bool, ghost before: Server, ghost tree: Node) returns (restored: bool)
      requires IsSlug(slug) && (hadExisting <==> slug in before.plugins) && OwnScratch(before, State(), slug)
      requires StoppedAt(at, before, State(), slug, tree)
      modifies this
      ensures installed == old(installed) && allowUnsigned == old(allowUnsigned)
      ensures restored <==> !(at.MoveIn? && hadExisting && faults(old(calls) + 1))
      ensures CleanedUp(slug)
      ensures if at.DropBackup? then Swapped(before, State(), slug, tree)
              else if restored then Kept(before, State()) else Hole(before, State(), slug)
      ensures |old(trace)| <= |trace| && trace[..|old(trace)|] == old(trace)
      ensures Recorded(|old(trace)|, old(State()), trace, State())
      ensures Traced(|old(trace)|, before, slug, tree)
    {
      ghost var start := trace;
      OutOfPlace(before, State(), slug, tree);
      restored := true;
      if hadExisting && slug !in plugins && BackupName(slug) in plugins {
        restored := PutBack(slug, before, tree);
      }
      ghost var mid := trace;
      if restored {
        DropStaging(slug, at, before, tree);
      }
      MomentsJoin(before, start, mid, trace, slug, tree);
    }

    /** The swap with its compensation. */
    method Swap(slug: Name, ghost before: Server, ghost tree: Node) returns (failed: Option<(Stage, bool)>)
      requires IsSlug(slug) && Staged(before, State(), slug, tree)
      modifies this
      ensures installed == old(installed) && allowUnsigned == old(allowUnsigned)
      ensures failed.None? ==> Swapped(before, State(), slug, tree) && NoScratch(plugins)
      ensures failed.Some? ==> Ends(before, State(), slug, tree, COPY_FAILED(failed.value.0, failed.value.1)) && CleanedUp(slug)
      ensures failed == SwapFailure(faults, old(calls), slug in before.plugins)
      ensures failed.None? ==> calls == old(calls) + (if slug in before.plugins then 4 else 3)
      ensures |old(trace)| <= |trace| && trace[..|old(trace)|] == old(trace)
      ensures Recorded(|old(trace)|, old(State()), trace, State())
      ensures Traced(|old(trace)|, before, slug, tree)
    {
      var hadExisting := slug in plugins;
      StagedFolder(before, State(), slug, tree);
      ghost var start := trace;
      var failedAt := TrySwap(slug, before, tree);
      ghost var mid := trace;
      failed := None;
      if failedAt.Some? {
        var restored := RestoreSwap(slug, failedAt.value, hadExisting, before, tree);
        failed := Some((failedAt.value, restored));
      }
      MomentsJoin(before, start, mid, trace, slug, tree);
    }

    method CopyFiles(slug: Name, source: Node) returns (failed: Option<(Stage, bool)>)
      requires IsSlug(slug)
      modifies this
      ensures installed == old(installed) && allowUnsigned == old(allowUnsigned)
      ensures failed.None? ==>
                Swapped(old(State()), State(), slug, Shipped(source)) && NoScratch(plugins)
      ensures failed.Some? ==>
                Ends(old(State()), State(), slug, Shipped(source), COPY_FAILED(failed.value.0, failed.value.1)) && CleanedUp(slug)
      ensures |trace| > |old(trace)|
      ensures var n, m, had := old(calls), old(calls) + |ScratchOf(old(plugins).Keys)|, slug in old(plugins);
              && failed == (if NoFault(faults, n, m) then CopyFailure(faults, m, had, Plain(Shipped(source))) else Some((Sweeping, true)))
              && (failed.None? ==> calls == m + (if had then 5 else 4))
      ensures |old(trace)| <= |trace| && trace[..|old(trace)|] == old(trace)
      ensures Recorded(|old(trace)|, old(State()), trace, State())
      ensures Traced(|old(trace)|, old(State()), slug, Shipped(source))
    {
      ghost var before := State();
      var staged := Stage(source, slug);
      if staged.Some? {
        return Some((staged.value, true));
      }
      failed := Swap(slug, before, Shipped(source));
    }

    method RegisterFiles(slug: Name, consentUnsigned: bool, ghost before: Server, ghost tree: Node) returns (r: Outcome)
      requires Swapped(before, State(), slug, tree) && NoScratch(plugins)
      modifies this
      ensures NoScratch(plugins)
      ensures r == if faults(old(calls) + 1) then CONFIG_WRITE_FAILED else DEPLOYED
      ensures Ends(before, State(), slug, tree, r)
      ensures allowUnsigned == (old(allowUnsigned) || (r.DEPLOYED? && consentUnsigned))
      ensures |old(trace)| <= |trace| && trace[..|old(trace)|] == old(trace)
      ensures Recorded(|old(trace)|, old(State()), trace, State())
      ensures Traced(|old(trace)|, before, slug, tree)
    {
      var ok := WriteServerJson(WriteJson, Registered(installed, slug), allowUnsigned || consentUnsigned);
      assert DeployMoment(before, trace[|trace| - 1], slug, tree);
      return if ok then DEPLOYED else CONFIG_WRITE_FAILED;
    }

    /** From the staged copy to the registration. Each failure is followed by a container start, as
        is success. */
    method InstallFiles(slug: Name, source: Node, consentUnsigned: bool) returns (r: Outcome)
      requires IsSlug(slug)
      modifies this
      ensures r.COPY_FAILED? || r.CONFIG_WRITE_FAILED? || r.DEPLOYED?
      ensures |trace| > |old(trace)| && if r.COPY_FAILED? then CleanedUp(slug) else NoScratch(plugins)
      ensures Ends(old(State()), State(), slug, Shipped(source), r)
      ensures allowUnsigned == (old(allowUnsigned) || (r.DEPLOYED? && consentUnsigned))
      ensures r == Answer(faults, old(calls), |ScratchOf(old(plugins).Keys)|, slug in old(plugins), Plain(Shipped(source)))
      ensures |old(trace)| <= |trace| && trace[..|old(trace)|] == old(trace)
      ensures Recorded(|old(trace)|, old(State()), trace, State())
      ensures Traced(|old(trace)|, old(State()), slug, Shipped(source))
    {
      ghost var before, start, tree := State(), trace, Shipped(source);
      var failed := CopyFiles(slug, source);
      ghost var mid := trace;
      if failed.Some? {
        return COPY_FAILED(failed.value.0, failed.value.1);
      }
      r := RegisterFiles(slug, consentUnsigned, before, tree);
      MomentsJoin(before, start, mid, trace, slug, tree);
    }

    /** A deploy, from the checks that depend on the volume. */
    method Deploy(slug: Name, source: Node, options: Options, unreadable: Node -> bool) returns (r: Outcome)
      requires IsSlug(slug) && source.Dir?
      modifies this
      ensures r.PLUGIN_TOO_LARGE? <==> Total(Scanned(source, unreadable), Bytes) > 512 * 1024 * 1024
      ensures !r.PLUGIN_TOO_LARGE? ==> (r.CONSENT_REQUIRED? <==> !old(allowUnsigned) && !options.consentUnsigned)
      ensures !r.PLUGIN_TOO_LARGE? && !r.CONSENT_REQUIRED? ==>
                (r.SLUG_CONFLICT_EXISTING? <==> slug in old(plugins) && slug !in old(installed) && !options.overwriteExisting)
      ensures Ends(old(State()), State(), slug, Shipped(source), r)
      ensures (r.COPY_FAILED? ==> CleanedUp(slug)) && (r.DEPLOYED? || r.CONFIG_WRITE_FAILED? ==> NoScratch(plugins))
      ensures r.DEPLOYED? ==>
                && slug in plugins && plugins[slug] == Shipped(source)
                && (forall k :: k in plugins && !IsScratch(k) ==> k == slug || (k in old(plugins) && plugins[k] == old(plugins)[k]))
                && (forall k :: k in old(plugins) && !IsScratch(k) ==> k in plugins)
                && (forall k :: k in installed <==> k in old(installed) || k == slug)
      ensures allowUnsigned == (old(allowUnsigned) || (r.DEPLOYED? && options.consentUnsigned))
      ensures if r.PLUGIN_TOO_LARGE? || r.CONSENT_REQUIRED? || r.SLUG_CONFLICT_EXISTING? then trace == old(trace)
              else |trace| > |old(trace)| && r == Answer(faults, old(calls), |ScratchOf(old(plugins).Keys)|, slug in old(plugins), Plain(Shipped(source)))
      ensures |old(trace)| <= |trace| && trace[..|old(trace)|] == old(trace)
      ensures Recorded(|old(trace)|, old(State()), trace, State())
      ensures Traced(|old(trace)|, old(State()), slug, Shipped(source))
    {
      var size, over := MeasureCopyBytes(source, DEPLOY_MAX_BYTES, unreadable);
      if over {
        return PLUGIN_TOO_LARGE;
      }
      if !allowUnsigned && !options.consentUnsigned {
        return CONSENT_REQUIRED;
      }
      var isRedeploy := slug in installed;
      if slug in plugins && !isRedeploy && !options.overwriteExisting {
        return SLUG_CONFLICT_EXISTING;
      }
      ghost var before := State();
      r := InstallFiles(slug, source, options.consentUnsigned);
      if r.DEPLOYED? {
        RegisteredSpec(before.installed, slug);
        DeployedFolders(before.plugins, plugins, slug, Shipped(source));
      }
    }

    /** The registration goes before the files, so a half-removed folder is never registered. */
    method Undeploy(slug: Name) returns (r: UndeployOutcome)
      requires IsSlug(slug)
      modifies this
      ensures r.UNDEPLOY_CONFIG_WRITE_FAILED? ==> State() == old(State())
      ensures !r.UNDEPLOY_CONFIG_WRITE_FAILED? ==>
                installed == Unregistered(old(installed), slug) && plugins - {slug} == old(plugins) - {slug}
      ensures allowUnsigned == old(allowUnsigned)
      ensures r == if faults(old(calls) + 1) then UNDEPLOY_CONFIG_WRITE_FAILED
                   else if faults(old(calls) + 2) then UNINSTALL_FAILED else UNDEPLOYED
      ensures r.UNDEPLOYED? ==> slug !in plugins
      ensures |old(trace)| <= |trace| && trace[..|old(trace)|] == old(trace)
      ensures Recorded(|old(trace)|, old(State()), trace, State())
      ensures forall i :: |old(trace)| <= i < |trace| ==> UndeployMoment(old(State()), trace[i], slug)
      ensures |trace| > |old(trace)|
    {
      var ok := WriteServerJson(Unregister, Unregistered(installed, slug), allowUnsigned);
      if !ok {
        return UNDEPLOY_CONFIG_WRITE_FAILED;
      }
      ok := Remove(RemoveFolder, slug);
      return if ok then UNDEPLOYED else UNINSTALL_FAILED;
    }
  }

  /** The state after each call of an undeploy. */
  ghost predicate UndeployMoment(before: Server, m: Moment, slug: Name) {
    if m.call.Unregister? then
      m.state.plugins == before.plugins
      && m.state.installed == (if m.ok then Unregistered(before.installed, slug) else before.installed)
    else
      && m.call.RemoveFolder?
      && m.state.plugins - {slug} == before.plugins - {slug} && (m.ok ==> slug !in m.state.plugins)
      && m.state.installed == Unregistered(before.installed, slug)
  }

  // ---------------------------------------------------------------------------
  // Folders through the steps
  // ---------------------------------------------------------------------------

  lemma ScratchOnly(a: map<Name, Node>, b: map<Name, Node>, k: Name)
    requires IsScratch(k) && a - {k} == b - {k}
    ensures Folders(a) == Folders(b)
  {
    forall x | x != k ensures (x in a <==> x in b) && (x in a ==> a[x] == b[x]) {
      assert x in a - {k} <==> x in b - {k};
      if x in a { assert (a - {k})[x] == (b - {k})[x]; }
    }
  }

  lemma DeployedFolders(was: map<Name, Node>, now: map<Name, Node>, slug: Name, tree: Node)
    requires IsSlug(slug) && Folders(now) == Folders(was)[slug := tree]
    ensures slug in now && now[slug] == tree
    ensures forall k :: k in now && !IsScratch(k) ==> k == slug || (k in was && now[k] == was[k])
    ensures forall k :: k in was && !IsScratch(k) ==> k in now
  {
    assert slug in Folders(now);
    forall k | k in now && !IsScratch(k) && k != slug ensures k in was && now[k] == was[k] {
      assert k in Folders(now) && k in Folders(was) && Folders(was)[k] == was[k];
    }
    forall k | k in was && !IsScratch(k) ensures k in now {
      assert k in Folders(was) && k in Folders(now);
    }
  }

  lemma MovedAside(before: Server, staged: map<Name, Node>, now: map<Name, Node>, slug: Name)
    requires IsSlug(slug) && slug in staged && slug in before.plugins && staged[slug] == before.plugins[slug]
    requires Folders(staged) == Folders(before.plugins) && now == (staged - {slug})[BackupName(slug) := staged[slug]]
    ensures Folders(now) == Folders(before.plugins) - {slug}
  {
    assert Folders(now) == Folders(staged) - {slug};
  }

  lemma NothingThere(plugins: map<Name, Node>, slug: Name)
    requires slug !in plugins
    ensures Folders(plugins) == Folders(plugins) - {slug}
  {
  }

  // Whether the folder is in its place.
  lemma OutOfPlace(before: Server, now: Server, slug: Name, tree: Node)
    requires IsSlug(slug)
    ensures Hole(before, now, slug) ==> slug !in now.plugins
    ensures Kept(before, now) ==> (slug in now.plugins <==> slug in before.plugins)
    ensures Swapped(before, now, slug, tree) ==> slug in now.plugins
  {
    assert slug in before.plugins <==> slug in Folders(before.plugins);
    assert slug in now.plugins <==> slug in Folders(now.plugins);
  }

  lemma PutInPlace(before: Server, aside: map<Name, Node>, now: map<Name, Node>, slug: Name, tree: Node)
    requires IsSlug(slug) && StagingName(slug) in aside && aside[StagingName(slug)] == tree && slug !in aside
    requires Folders(aside) == if slug in before.plugins then Folders(before.plugins) - {slug} else Folders(before.plugins)
    requires now == (aside - {StagingName(slug)})[slug := tree]
    ensures Folders(now) == Folders(before.plugins)[slug := tree]
    ensures forall k :: k in now && IsScratch(k) ==> k in aside
  {
    assert Folders(now) == Folders(aside)[slug := tree];
  }

  lemma MovedBack(before: map<Name, Node>, broken: map<Name, Node>, now: map<Name, Node>, slug: Name)
    requires IsSlug(slug) && slug in before && slug !in broken
    requires BackupName(slug) in broken && broken[BackupName(slug)] == before[slug]
    requires Folders(broken) == Folders(before) - {slug}
    requires now == (broken - {BackupName(slug)})[slug := broken[BackupName(slug)]]
    ensures Folders(now) == Folders(before)
  {
    assert Folders(now) == Folders(broken)[slug := before[slug]];
  }

  lemma MomentsJoin(before: Server, start: seq<Moment>, mid: seq<Moment>, end: seq<Moment>, slug: Name, tree: Node)
    requires |start| <= |mid| <= |end| && mid[..|start|] == start && end[..|mid|] == mid
    requires DeployMoments(before, mid[|start|..], slug, tree) && DeployMoments(before, end[|mid|..], slug, tree)
    ensures DeployMoments(before, end[|start|..], slug, tree) && end[..|start|] == start
  {
    assert end[|start|..] == mid[|start|..] + end[|mid|..];
  }

  // A swap starts with the staged tree as the only scratch folder.
  ghost predicate Staged(before: Server, now: Server, slug: Name, tree: Node) {
    && now.plugins == Folders(before.plugins)[StagingName(slug) := tree]
    && Folders(now.plugins) == Folders(before.plugins) && now.installed == before.installed
  }

  /** Nothing is in the way of the staged tree. */
  ghost predicate RoomMade(before: Server, now: Server, slug: Name, tree: Node) {
    && slug !in now.plugins && StagingName(slug) in now.plugins && now.plugins[StagingName(slug)] == tree
    && if slug in before.plugins then Hole(before, now, slug) else Kept(before, now)
  }

  lemma StagedFolder(before: Server, now: Server, slug: Name, tree: Node)
    requires IsSlug(slug) && Staged(before, now, slug, tree)
    ensures slug in now.plugins <==> slug in before.plugins
    ensures slug in before.plugins ==> now.plugins[slug] == before.plugins[slug]
    ensures StagingName(slug) in now.plugins && now.plugins[StagingName(slug)] == tree && BackupName(slug) !in now.plugins
    ensures OwnScratch(before, now, slug)
  {
    assert slug in now.plugins <==> slug in Folders(now.plugins);
    assert slug in before.plugins <==> slug in Folders(before.plugins);
    assert slug in before.plugins ==> Folders(before.plugins)[slug] == before.plugins[slug];
    assert IsScratch(BackupName(slug)) && BackupName(slug) != StagingName(slug);
  }

  lemma OnlyAdded(a: map<Name, Node>, b: map<Name, Node>, k: Name)
    requires NoScratch(a) && b - {k} == a - {k}
    ensures forall x :: x in b && IsScratch(x) ==> x == k
  {
    forall x | x in b && x != k ensures x in a { assert x in b - {k}; }
  }

  // ---------------------------------------------------------------------------
  // What a failed deploy leaves
  // ---------------------------------------------------------------------------

  /** A failed deploy leaves exactly the plugins and registrations it found if and only if it failed
      before the new tree was renamed into place, or in that rename, and the compensating rename did
      not fail. A later failure, in dropping the backup or in writing the registration, leaves the
      new tree. (A tree equal to the old one makes no difference.) */
  lemma ExactlyRestoredIff(before: Server, now: Server, slug: Name, tree: Node, r: Outcome)
    requires IsSlug(slug) && Ends(before, now, slug, tree, r) && (r.COPY_FAILED? || r.CONFIG_WRITE_FAILED?)
    ensures Kept(before, now) <==>
              || (r.COPY_FAILED? && r.restored && !r.at.DropBackup?)
              || ((r.CONFIG_WRITE_FAILED? || r.at.DropBackup?) && slug in before.plugins && before.plugins[slug] == tree)
  {
    var was, fs := Folders(before.plugins), Folders(now.plugins);
    assert slug in was <==> slug in before.plugins;
    if r.CONFIG_WRITE_FAILED? || r.at.DropBackup? {
      assert fs[slug] == tree;
    } else if !r.restored {
      assert slug in was && slug !in fs;
    }
  }

  /** A deploy of `source` to a server without scratch folders, with these calls failing. */
  method DeployWith(before: Server, slug: Name, source: Node, faults: nat -> bool) returns (r: Outcome, now: Server)
    requires IsSlug(slug) && NoScratch(before.plugins)
    ensures r == Answer(faults, 0, 0, slug in before.plugins, Plain(Shipped(source)))
    ensures Ends(before, now, slug, Shipped(source), r)
  {
    var host := new HostedServer(before, faults, (_, n) => n);
    assert ScratchOf(before.plugins.Keys) == {};
    r := host.InstallFiles(slug, source, false);
    now := host.State();
  }

  /** Each of the three places occurs: dropping the backup, the registration, and the compensation. */
  method FailingRuns(before: Server, slug: Name, source: Node) returns (dropped: Server, unwritten: Server, stranded: Server)
    requires IsSlug(slug) && NoScratch(before.plugins) && slug in before.plugins && before.plugins[slug] != Shipped(source)
    requires Plain(Shipped(source))
    ensures Swapped(before, dropped, slug, Shipped(source)) && !Kept(before, dropped)
    ensures Swapped(before, unwritten, slug, Shipped(source)) && !Kept(before, unwritten)
    ensures Hole(before, stranded, slug) && !Kept(before, stranded)
  {
    var r;
    r, dropped := DeployWith(before, slug, source, i => i == 5);
    assert r == COPY_FAILED(DropBackup, true);
    ExactlyRestoredIff(before, dropped, slug, Shipped(source), r);
    r, unwritten := DeployWith(before, slug, source, i => i == 6);
    ExactlyRestoredIff(before, unwritten, slug, Shipped(source), r);
    r, stranded := DeployWith(before, slug, source, i => i == 4 || i == 5);
    assert r == COPY_FAILED(MoveIn, false);
    ExactlyRestoredIff(before, stranded, slug, Shipped(source), r);
  }
}
