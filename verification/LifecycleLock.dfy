/**
 The per-server lock around deploys, undeploys, runtime updates and rebuilds
 (apps/desktop/src/server-lifecycle-lock.ts).
 */
module LifecycleLock {
  // `Lock` is the module-level set; `Desktop` adds the operations that are between their acquire and
  // the `finally` that releases, so interleavings can be spoken of.

  type ServerId = nat
  type OpId = nat

  class Lock {
    var held: set<ServerId>

    constructor ()
      ensures held == {}
    {
      held := {};
    }

    method TryAcquire(server: ServerId) returns (ok: bool)
      modifies this
      ensures ok <==> server !in old(held)
      ensures held == old(held) + {server}
    {
      if server in held {
        return false;
      }
      held := held + {server};
      ok := true;
    }

    method Release(server: ServerId)
      modifies this
      ensures held == old(held) - {server}
    {
      held := held - {server};
    }
  }

  /** `running` holds the operations that acquired and have not yet released. */
  datatype Desktop = Desktop(held: set<ServerId>, running: map<OpId, ServerId>)

  datatype Event =
    | Call(op: OpId, server: ServerId)   // tryAcquireServerLifecycle; a busy server turns it away
    | Settle(op: OpId)                   // the operation returns or throws: its `finally` runs

  predicate Possible(d: Desktop, e: Event) {
    match e
    case Call(op, _) => op !in d.running
    case Settle(op) => op in d.running
  }

  function Apply(d: Desktop, e: Event): Desktop
    requires Possible(d, e)
  {
    match e
    case Call(op, server) =>
      if server in d.held then d else Desktop(d.held + {server}, d.running[op := server])
    case Settle(op) =>
      Desktop(d.held - {d.running[op]}, d.running - {op})
  }

  ghost predicate Run(d: Desktop, es: seq<Event>, d': Desktop)
    decreases |es|
  {
    if es == [] then d' == d
    else Possible(d, es[0]) && Run(Apply(d, es[0]), es[1..], d')
  }

  ghost predicate Alone(d: Desktop) {
    forall a, b :: a in d.running && b in d.running && d.running[a] == d.running[b] ==> a == b
  }

  ghost predicate HeldIsRunning(d: Desktop) {
    forall s :: s in d.held <==> exists op :: op in d.running && d.running[op] == s
  }

  lemma StepAlone(d: Desktop, e: Event)
    requires Alone(d) && HeldIsRunning(d) && Possible(d, e)
    ensures Alone(Apply(d, e)) && HeldIsRunning(Apply(d, e))
  {
    var d' := Apply(d, e);
    match e {
      case Call(op, server) =>
        if server !in d.held {
          forall s ensures s in d'.held <==> exists o :: o in d'.running && d'.running[o] == s {
            if s == server {
              assert d'.running[op] == s;
            } else if s in d.held {
              var o :| o in d.running && d.running[o] == s;
              assert d'.running[o] == s;
            }
          }
        }
      case Settle(op) =>
        forall s ensures s in d'.held <==> exists o :: o in d'.running && d'.running[o] == s {
          if s in d.held {
            var o :| o in d.running && d.running[o] == s;
            if o != op {
              assert d'.running[o] == s;
            }
          }
        }
    }
  }

  /** In every interleaving at most one operation is running for a server, and a call is turned away
      exactly when one is. */
  lemma {:induction false} OneOperationPerServer(es: seq<Event>, d: Desktop, server: ServerId)
    requires Run(Desktop({}, map[]), es, d)
    ensures forall a, b :: a in d.running && b in d.running && d.running[a] == d.running[b] ==> a == b
    ensures server in d.held <==> exists op :: op in d.running && d.running[op] == server
  {
    RunAlone(Desktop({}, map[]), es, d);
  }

  lemma {:induction false} RunAlone(d: Desktop, es: seq<Event>, d': Desktop)
    requires Alone(d) && HeldIsRunning(d) && Run(d, es, d')
    ensures Alone(d') && HeldIsRunning(d')
    decreases |es|
  {
    if es != [] {
      StepAlone(d, es[0]);
      RunAlone(Apply(d, es[0]), es[1..], d');
    }
  }
}
