/**
 Runs of deploys and undeploys on one server, one at a time as the lifecycle lock makes them
 (apps/desktop/src/plugin-dev-deploy.ts).
 */
module DeployRuns {
  import opened Common
  import opened FileTree
  import opened DeployCopy
  import opened PluginDeploy
  import opened LifecycleLock

  // A step goes from the state an operation began in to the state after any of its calls: its last one,
  // or an earlier one, should the desktop process die there. So each state of a run is one a container
  // may start in.

  datatype Op = Deploy(slug: Name, source: Node) | Undeploy(slug: Name)

  ghost predicate Step(before: Server, op: Op, m: Moment) {
    && IsSlug(op.slug)
    && match op
       case Deploy(slug, source) => DeployMoment(before, m, slug, Shipped(source))
       case Undeploy(slug) => UndeployMoment(before, m, slug)
  }

  /** The calls after which the old folder is moved aside and nothing is in its place: the rename
      aside, a rename into place that failed, and a compensating rename that failed. */
  predicate StrandingCall(call: Call, ok: bool, had: bool) {
    (call.Aside? && ok) || (call.In? && !ok && had) || (call.Back? && !ok)
  }

  /** The process of a deploy of a registered slug died after such a call, or got no further. */
  predicate Strands(before: Server, op: Op, m: Moment) {
    op.Deploy? && op.slug in before.installed && StrandingCall(m.call, m.ok, op.slug in before.plugins)
  }

  /** `n` is the whole tree `slug` had at first, or all of what some deploy shipped. */
  ghost predicate Whole(slug: Name, n: Node, first: Server, ops: seq<Op>) {
    || (slug in first.plugins && first.plugins[slug] == n)
    || exists op :: op in ops && op.Deploy? && op.slug == slug && Shipped(op.source) == n
  }

  /** Every registered dev slug has a folder, and the folder is whole. */
  ghost predicate Safe(dev: set<Name>, first: Server, ops: seq<Op>, now: Server) {
    forall k :: k in dev && k in now.installed ==> k in now.plugins && Whole(k, now.plugins[k], first, ops)
  }

  ghost predicate AllSlugs(dev: set<Name>) {
    forall k :: k in dev ==> IsSlug(k)
  }

  /** Each call of an operation is a step from its start, and the last one leaves the final state. */
  /** What no check turns away before the first call. */
  ghost predicate Admitted(s: Server, op: Op, options: Options, unreadable: Node -> bool) {
    op.Deploy? ==>
      && Total(Scanned(op.source, unreadable), Bytes) <= 512 * 1024 * 1024
      && (s.allowUnsigned || options.consentUnsigned)
      && (op.slug in s.plugins && op.slug !in s.installed ==> options.overwriteExisting)
  }

  method Perform(host: HostedServer, op: Op, options: Options, unreadable: Node -> bool)
    requires IsSlug(op.slug) && (op.Deploy? ==> op.source.Dir?)
    modifies host
    ensures |old(host.trace)| <= |host.trace| && host.trace[..|old(host.trace)|] == old(host.trace)
    ensures forall m :: m in host.trace[|old(host.trace)|..] ==> Step(old(host.State()), op, m)
    ensures Recorded(|old(host.trace)|, old(host.State()), host.trace, host.State())
    ensures Admitted(old(host.State()), op, options, unreadable) <==> |host.trace| > |old(host.trace)|
  {
    match op {
      case Deploy(slug, source) =>
        var _ := host.Deploy(slug, source, options, unreadable);
      case Undeploy(slug) =>
        var _ := host.Undeploy(slug);
    }
  }

  /** The operation behind the lock: a busy server turns it away, and the lock is released whatever
      becomes of the operation. */
  method PerformLocked(lock: Lock, server: ServerId, host: HostedServer, op: Op, options: Options, unreadable: Node -> bool)
    returns (busy: bool)
    requires IsSlug(op.slug) && (op.Deploy? ==> op.source.Dir?)
    modifies lock, host
    ensures busy <==> server in old(lock.held)
    ensures lock.held == old(lock.held)
    ensures busy ==> host.State() == old(host.State()) && host.trace == old(host.trace)
    ensures |old(host.trace)| <= |host.trace| && host.trace[..|old(host.trace)|] == old(host.trace)
    ensures forall m :: m in host.trace[|old(host.trace)|..] ==> Step(old(host.State()), op, m)
    ensures !busy && Admitted(old(host.State()), op, options, unreadable) <==> |host.trace| > |old(host.trace)|
  {
    var acquired := lock.TryAcquire(server);
    if !acquired {
      return true;
    }
    Perform(host, op, options, unreadable);
    lock.Release(server);
    return false;
  }

  // ---------------------------------------------------------------------------
  // One step
  // ---------------------------------------------------------------------------

  // Registered slugs keep their folders when the folders do not change.
  lemma SameFolders(dev: set<Name>, first: Server, ops: seq<Op>, before: Server, now: Server)
    requires AllSlugs(dev) && Safe(dev, first, ops, before)
    requires Folders(now.plugins) == Folders(before.plugins)
    requires forall k :: k in now.installed ==> k in before.installed
    ensures Safe(dev, first, ops, now)
  {
    forall k | k in dev && k in now.installed ensures k in now.plugins && Whole(k, now.plugins[k], first, ops) {
      assert k in Folders(before.plugins);
      assert k in Folders(now.plugins) && Folders(now.plugins)[k] == Folders(before.plugins)[k];
    }
  }

  lemma NewFolder(dev: set<Name>, first: Server, ops: seq<Op>, before: Server, op: Op, now: Server)
    requires AllSlugs(dev) && Safe(dev, first, ops, before) && op in ops && op.Deploy? && IsSlug(op.slug)
    requires Folders(now.plugins) == Folders(before.plugins)[op.slug := Shipped(op.source)]
    requires forall k :: k in now.installed ==> k in before.installed || k == op.slug
    ensures Safe(dev, first, ops, now)
  {
    forall k | k in dev && k in now.installed ensures k in now.plugins && Whole(k, now.plugins[k], first, ops) {
      if k == op.slug {
        assert k in Folders(now.plugins) && Folders(now.plugins)[k] == Shipped(op.source);
        assert op == Deploy(k, op.source);
      } else {
        assert k in Folders(before.plugins);
        assert k in Folders(now.plugins) && Folders(now.plugins)[k] == Folders(before.plugins)[k];
      }
    }
  }

  lemma HoleStep(dev: set<Name>, first: Server, ops: seq<Op>, before: Server, slug: Name, now: Server)
    requires AllSlugs(dev) && Safe(dev, first, ops, before) && IsSlug(slug) && Hole(before, now, slug)
    ensures slug !in now.plugins
    ensures slug !in before.installed ==> Safe(dev, first, ops, now)
  {
    assert slug !in Folders(now.plugins);
    if slug !in before.installed {
      forall k | k in dev && k in now.installed ensures k in now.plugins && Whole(k, now.plugins[k], first, ops) {
        assert k in Folders(before.plugins) - {slug};
        assert k in Folders(now.plugins) && Folders(now.plugins)[k] == Folders(before.plugins)[k];
      }
    }
  }

  lemma UndeployStep(dev: set<Name>, first: Server, ops: seq<Op>, before: Server, slug: Name, m: Moment)
    requires Safe(dev, first, ops, before) && UndeployMoment(before, m, slug)
    ensures Safe(dev, first, ops, m.state)
  {
    UnregisteredSpec(before.installed, slug, []);
    var now := m.state;
    forall k | k in dev && k in now.installed ensures k in now.plugins && Whole(k, now.plugins[k], first, ops) {
      if m.call.RemoveFolder? {
        assert k in before.plugins - {slug};
        assert k in now.plugins - {slug} && (now.plugins - {slug})[k] == (before.plugins - {slug})[k];
      }
    }
  }

  /** The calls that strand are exactly those that leave the hole. */
  lemma HoleIffStrandingCall(before: Server, m: Moment, slug: Name, tree: Node)
    requires IsSlug(slug) && DeployMoment(before, m, slug, tree)
    ensures Hole(before, m.state, slug) <==> StrandingCall(m.call, m.ok, slug in before.plugins)
  {
    OutOfPlace(before, m.state, slug, tree);
    assert m.call.WriteJson? ==> slug in Folders(m.state.plugins);
  }

  lemma DeployStep(dev: set<Name>, first: Server, ops: seq<Op>, before: Server, op: Op, m: Moment)
    requires AllSlugs(dev) && Safe(dev, first, ops, before) && op in ops && op.Deploy?
    requires Step(before, op, m) && !Hole(before, m.state, op.slug)
    ensures Safe(dev, first, ops, m.state)
  {
    if Kept(before, m.state) {
      SameFolders(dev, first, ops, before, m.state);
    } else {
      RegisteredSpec(before.installed, op.slug);
      NewFolder(dev, first, ops, before, op, m.state);
    }
  }

  /** A call keeps every registered folder present and whole if and only if it does not strand. */
  lemma SafeIffNotStranded(dev: set<Name>, first: Server, ops: seq<Op>, before: Server, op: Op, m: Moment)
    requires AllSlugs(dev) && op.slug in dev && Safe(dev, first, ops, before) && op in ops
    requires Step(before, op, m)
    ensures Safe(dev, first, ops, m.state) <==> !Strands(before, op, m)
  {
    if op.Undeploy? {
      UndeployStep(dev, first, ops, before, op.slug, m);
    } else {
      HoleIffStrandingCall(before, m, op.slug, Shipped(op.source));
      if Hole(before, m.state, op.slug) {
        HoleStep(dev, first, ops, before, op.slug, m.state);
      } else {
        DeployStep(dev, first, ops, before, op, m);
      }
    }
  }

  // ---------------------------------------------------------------------------
  // Runs
  // ---------------------------------------------------------------------------

  /** `now` is reached from `first` by `ops`, none of which strands a registered slug. An operation
      that is turned away, or dies before its first call, changes nothing. */
  ghost predicate Run(first: Server, ops: seq<Op>, now: Server)
    decreases |ops|
  {
    if ops == [] then now == first
    else exists mid :: RunLast(first, ops, mid, now)
  }

  ghost predicate Leads(mid: Server, op: Op, now: Server) {
    now == mid || exists m: Moment :: m.state == now && Step(mid, op, m) && !Strands(mid, op, m)
  }

  ghost predicate RunLast(first: Server, ops: seq<Op>, mid: Server, now: Server)
    requires ops != []
    decreases |ops|, 0
  {
    Run(first, ops[..|ops| - 1], mid) && Leads(mid, ops[|ops| - 1], now)
  }

  /** Over every run, with a failure or a process death at any point but the stranding ones, each
      container start finds every registered dev slug with a whole folder: the first tree, or all
      of what one deploy shipped. */
  lemma {:induction false} RunIsSafe(dev: set<Name>, first: Server, ops: seq<Op>, now: Server)
    requires AllSlugs(dev) && forall op :: op in ops ==> op.slug in dev
    requires forall k :: k in dev && k in first.installed ==> k in first.plugins
    requires Run(first, ops, now)
    ensures Safe(dev, first, ops, now)
    decreases |ops|
  {
    if ops != [] {
      var before, op := ops[..|ops| - 1], ops[|ops| - 1];
      var mid :| RunLast(first, ops, mid, now);
      assert ops == before + [op];
      RunIsSafe(dev, first, before, mid);
      assert Safe(dev, first, ops, mid);
      if now != mid {
        var m: Moment :| m.state == now && Step(mid, op, m) && !Strands(mid, op, m);
        SafeIffNotStranded(dev, first, ops, mid, op, m);
      }
    }
  }

  // ---------------------------------------------------------------------------
  // After a stranding
  // ---------------------------------------------------------------------------

  /** From its copy on, a deploy that began where `slug` was stranded leaves the old tree of `slug`
      nowhere: not in its folder, and no longer in the backup. */
  lemma BackupIsGone(before: Server, slug: Name, stranded: Server, other: Name, tree: Node, m: Moment)
    requires IsSlug(slug) && IsSlug(other) && slug in before.installed && Hole(before, stranded, slug)
    requires DeployMoment(stranded, m, other, tree) && AfterSweep(m.call)
    ensures slug in m.state.installed && BackupName(slug) !in m.state.plugins
    ensures slug in m.state.plugins ==> slug == other && m.state.plugins[slug] == tree
  {
    var was, fs := Folders(stranded.plugins), Folders(m.state.plugins);
    RegisteredSpec(stranded.installed, other);
    assert slug !in was;
    if BackupName(slug) == BackupName(other) { BackupsDiffer(slug, other); }
    assert BackupName(slug)[1] == 'b' && StagingName(other)[1] == 's';
    assert slug in m.state.plugins ==> slug in fs && fs[slug] == m.state.plugins[slug];
  }

  lemma BackupsDiffer(a: Name, b: Name)
    requires BackupName(a) == BackupName(b)
    ensures a == b
  {
    assert a == BackupName(a)[|".backup-"|..] && b == BackupName(b)[|".backup-"|..];
  }

  /** The deploy after a stranding, of any plugin: after every call from the copy on the slug is
      registered and its old tree is nowhere. Only a deploy of that very plugin puts a tree back. */
  method DeployAfterStranding(host: HostedServer, ghost before: Server, ghost slug: Name, other: Name, source: Node,
                              options: Options, unreadable: Node -> bool) returns (r: Outcome)
    requires IsSlug(slug) && IsSlug(other) && source.Dir?
    requires slug in before.installed && Hole(before, host.State(), slug)
    modifies host
    ensures |old(host.trace)| <= |host.trace|
    ensures forall m :: m in host.trace[|old(host.trace)|..] && AfterSweep(m.call) ==>
              && slug in m.state.installed && BackupName(slug) !in m.state.plugins
              && (slug in m.state.plugins ==> slug == other && m.state.plugins[slug] == Shipped(source))
  {
    ghost var stranded, mark := host.State(), |host.trace|;
    r := host.Deploy(other, source, options, unreadable);
    forall m | m in host.trace[mark..] && AfterSweep(m.call)
      ensures slug in m.state.installed && BackupName(slug) !in m.state.plugins
      ensures slug in m.state.plugins ==> slug == other && m.state.plugins[slug] == Shipped(source)
    {
      BackupIsGone(before, slug, stranded, other, Shipped(source), m);
    }
  }
}
