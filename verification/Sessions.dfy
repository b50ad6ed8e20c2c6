/**
 Sliding-window sessions (apps/central/src/middleware.ts, createSession and authenticate).
 */
module Sessions {
  // A session row carries an idle and an absolute deadline. A request is accepted while both lie
  // ahead, and slides the idle deadline at most about once an hour. Times are integer milliseconds
  // of one monotone clock. Within a request the row is read first, then the wait left is measured,
  // then the new deadline is computed, then it is written; other requests, of this process or of
  // another, may act in between.

  const MINUTE_MS := 60 * 1000
  const HOUR_MS := 60 * MINUTE_MS
  const DAY_MS := 24 * HOUR_MS
  const SESSION_IDLE_MAX_AGE_MS := 7 * DAY_MS
  const SESSION_ABSOLUTE_MAX_AGE_MS := 30 * DAY_MS
  const SESSION_SLIDE_INTERVAL_MS := HOUR_MS

  function Least(a: int, b: int): int { if a <= b then a else b }

  datatype Row = Row(idle: int, absolute: int)

  /** A request that runs to its end before the next one: the clock at its SELECT, at the test and
      at the new deadline, and whether the UPDATE succeeds. */
  datatype Request = Request(readAt: int, testedAt: int, bumpAt: int, bumpOk: bool)

  function NewRow(now: int): Row {
    Row(now + SESSION_IDLE_MAX_AGE_MS, now + SESSION_ABSOLUTE_MAX_AGE_MS)
  }

  predicate Accepted(row: Row, now: int) {
    row.idle > now && row.absolute > now
  }

  predicate ShouldBump(idle: int, now: int) {
    idle - now < SESSION_IDLE_MAX_AGE_MS - SESSION_SLIDE_INTERVAL_MS
  }

  predicate Writes(row: Row, r: Request) {
    Accepted(row, r.readAt) && ShouldBump(row.idle, r.testedAt) && r.bumpOk
  }

  function AfterRequest(row: Row, r: Request): Row {
    if Writes(row, r) then row.(idle := Least(r.bumpAt + SESSION_IDLE_MAX_AGE_MS, row.absolute)) else row
  }

  /** One row of `sessions`, as the handlers read and update it. */
  class Session {
    var idleExpiresAt: int
    var absoluteExpiresAt: int

    function Contents(): Row
      reads this
    {
      Row(idleExpiresAt, absoluteExpiresAt)
    }

    constructor (now: int)
      ensures Contents() == NewRow(now)
      ensures idleExpiresAt == now + 7 * 24 * 60 * 60 * 1000 && absoluteExpiresAt == now + 30 * 24 * 60 * 60 * 1000
    {
      idleExpiresAt := now + SESSION_IDLE_MAX_AGE_MS;
      absoluteExpiresAt := now + SESSION_ABSOLUTE_MAX_AGE_MS;
    }

    method Authenticate(r: Request) returns (accepted: bool)
      modifies this
      ensures accepted <==> Accepted(old(Contents()), r.readAt)
      ensures Contents() == AfterRequest(old(Contents()), r)
      // Both deadlines decide; the idle one moves to seven days from now, capped, once an hour of it is used.
      ensures accepted <==> old(idleExpiresAt) > r.readAt && old(absoluteExpiresAt) > r.readAt
      ensures absoluteExpiresAt == old(absoluteExpiresAt)
      ensures var writes := accepted && r.bumpOk && old(idleExpiresAt) - r.testedAt < (7 * 24 - 1) * 60 * 60 * 1000;
              var target := r.bumpAt + 7 * 24 * 60 * 60 * 1000;
              idleExpiresAt == if !writes then old(idleExpiresAt) else if target <= absoluteExpiresAt then target else absoluteExpiresAt
    {
      if !(idleExpiresAt > r.readAt && absoluteExpiresAt > r.readAt) {
        return false;
      }
      var remainingMs := idleExpiresAt - r.testedAt;
      var shouldBump := remainingMs < SESSION_IDLE_MAX_AGE_MS - SESSION_SLIDE_INTERVAL_MS;
      if shouldBump {
        var newIdle := r.bumpAt + SESSION_IDLE_MAX_AGE_MS;
        if r.bumpOk {
          idleExpiresAt := Least(newIdle, absoluteExpiresAt);
        }
      }
      return true;
    }
  }

  // ---------------------------------------------------------------------------
  // Histories of requests, one after the other
  // ---------------------------------------------------------------------------

  predicate InOrder(r: Request) {
    r.readAt <= r.testedAt <= r.bumpAt
  }

  /** The clock never runs back, within a request or from one to the next. */
  predicate ClockAdvances(rs: seq<Request>, from: int) {
    rs == [] || (from <= rs[0].readAt && InOrder(rs[0]) && ClockAdvances(rs[1..], rs[0].bumpAt))
  }

  function AfterAll(row: Row, rs: seq<Request>): Row
    decreases |rs|
  {
    if rs == [] then row else AfterAll(AfterRequest(row, rs[0]), rs[1..])
  }

  predicate AllAccepted(row: Row, rs: seq<Request>)
    decreases |rs|
  {
    rs == [] || (Accepted(row, rs[0].readAt) && AllAccepted(AfterRequest(row, rs[0]), rs[1..]))
  }

  /** The idle deadline stays within the cap and never moves back; the cap never moves. */
  lemma {:induction false} DeadlinesOnlyGrow(row: Row, rs: seq<Request>, from: int)
    requires row.idle <= row.absolute && ClockAdvances(rs, from)
    ensures row.idle <= AfterAll(row, rs).idle <= row.absolute == AfterAll(row, rs).absolute
    decreases |rs|
  {
    if rs != [] {
      DeadlinesOnlyGrow(AfterRequest(row, rs[0]), rs[1..], rs[0].bumpAt);
    }
  }

  /** The idle deadline is creation, or the last moment of an accepted request, plus seven days,
      unless the cap cuts it. */
  lemma {:induction false} IdleHasASource(row: Row, rs: seq<Request>)
    requires row.idle <= row.absolute
    ensures AfterAll(row, rs).idle == row.idle || exists i :: 0 <= i < |rs| && IsSource(row, rs, i)
    decreases |rs|
  {
    if rs != [] {
      var next := AfterRequest(row, rs[0]);
      IdleHasASource(next, rs[1..]);
      if j :| 0 <= j < |rs| - 1 && IsSource(next, rs[1..], j) {
        assert rs[..j + 1][1..] == rs[1..][..j];
        assert IsSource(row, rs, j + 1);
      } else if Writes(row, rs[0]) {
        assert rs[..0] == [];
        assert IsSource(row, rs, 0);
      }
    }
  }

  ghost predicate IsSource(row: Row, rs: seq<Request>, i: nat)
    requires i < |rs|
  {
    Accepted(AfterAll(row, rs[..i]), rs[i].readAt) && AfterAll(row, rs).idle <= rs[i].bumpAt + SESSION_IDLE_MAX_AGE_MS
  }

  /** Safety: a request accepted after any history comes within 30 days of creation, and within 7
      days of creation or of the end of an earlier accepted request. */
  lemma AcceptanceIsRecent(born: int, rs: seq<Request>, t: int)
    requires ClockAdvances(rs, born)
    requires Accepted(AfterAll(NewRow(born), rs), t)
    ensures t < born + SESSION_ABSOLUTE_MAX_AGE_MS
    ensures || t < born + SESSION_IDLE_MAX_AGE_MS
            || exists i :: 0 <= i < |rs| && Accepted(AfterAll(NewRow(born), rs[..i]), rs[i].readAt)
                           && t < rs[i].bumpAt + SESSION_IDLE_MAX_AGE_MS
  {
    DeadlinesOnlyGrow(NewRow(born), rs, born);
    IdleHasASource(NewRow(born), rs);
  }

  /** The gaps between a request and the next stay under 7 days less 1 hour. */
  predicate GapsShort(rs: seq<Request>, last: int) {
    rs == [] || (rs[0].readAt < last + SESSION_IDLE_MAX_AGE_MS - SESSION_SLIDE_INTERVAL_MS
                 && GapsShort(rs[1..], rs[0].testedAt))
  }

  /** Liveness: with short gaps and successful bumps every request before the cap is accepted. */
  lemma {:induction false} ActiveSessionLives(row: Row, rs: seq<Request>, from: int)
    requires ClockAdvances(rs, from) && GapsShort(rs, from)
    requires Least(from + SESSION_IDLE_MAX_AGE_MS - SESSION_SLIDE_INTERVAL_MS, row.absolute) <= row.idle <= row.absolute
    requires forall i :: 0 <= i < |rs| ==> rs[i].bumpOk && rs[i].readAt < row.absolute
    ensures AllAccepted(row, rs)
    decreases |rs|
  {
    if rs != [] {
      var r := rs[0];
      var next := AfterRequest(row, r);
      ActiveSessionLives(next, rs[1..], r.testedAt);
    }
  }

  lemma ActiveSessionNeverExpires(born: int, rs: seq<Request>)
    requires ClockAdvances(rs, born) && GapsShort(rs, born)
    requires forall i :: 0 <= i < |rs| ==> rs[i].bumpOk && rs[i].readAt < born + SESSION_ABSOLUTE_MAX_AGE_MS
    ensures AllAccepted(NewRow(born), rs)
  {
    ActiveSessionLives(NewRow(born), rs, born);
  }

  // ---------------------------------------------------------------------------
  // How often the row is written
  // ---------------------------------------------------------------------------

  /** Nothing written in between changes nothing. */
  lemma {:induction false} QuietRequests(row: Row, rs: seq<Request>)
    requires forall i :: 0 <= i < |rs| ==> !Writes(AfterAll(row, rs[..i]), rs[i])
    ensures AfterAll(row, rs) == row
    decreases |rs|
  {
    if rs != [] {
      assert rs[..0] == [];
      assert !Writes(AfterAll(row, rs[..0]), rs[0]);
      forall i | 0 <= i < |rs[1..]| ensures !Writes(AfterAll(row, rs[1..][..i]), rs[1..][i]) {
        assert rs[..i + 1][1..] == rs[1..][..i];
        assert !Writes(AfterAll(row, rs[..i + 1]), rs[i + 1]);
      }
      QuietRequests(row, rs[1..]);
    }
  }

  /** Two writes with none between them are more than an hour apart, when the cap did not cut the
      deadline the first one wrote. */
  lemma WritesAreAnHourApart(row: Row, first: Request, quiet: seq<Request>, second: Request)
    requires row.idle <= row.absolute && InOrder(first) && Writes(row, first)
    requires forall i :: 0 <= i < |quiet| ==> !Writes(AfterAll(AfterRequest(row, first), quiet[..i]), quiet[i])
    requires first.bumpAt + SESSION_IDLE_MAX_AGE_MS <= row.absolute
    requires Writes(AfterAll(AfterRequest(row, first), quiet), second)
    ensures second.testedAt > first.bumpAt + SESSION_SLIDE_INTERVAL_MS
  {
    QuietRequests(AfterRequest(row, first), quiet);
  }

  /** The limit on writes ends 6 days and 23 hours before the cap: from there on every accepted
      request writes, and it writes the deadline the row already has once that is the cap. */
  lemma EveryRequestWritesNearTheCap(row: Row, r: Request)
    requires row.idle <= row.absolute && InOrder(r) && r.bumpOk && Accepted(row, r.readAt)
    requires row.absolute < r.testedAt + SESSION_IDLE_MAX_AGE_MS - SESSION_SLIDE_INTERVAL_MS
    ensures Writes(row, r)
    ensures AfterRequest(row, r) == row.(idle := row.absolute)
  {
  }

  // ---------------------------------------------------------------------------
  // Requests that overlap
  // ---------------------------------------------------------------------------

  /** One session and its requests in flight, by how far they have come. */
  datatype World = World(
    now: int,
    row: Row,
    selected: multiset<int>,  // accepted, with the idle deadline each one read
    tested: nat,              // found that they should bump
    writes: multiset<int>,    // computed a new deadline, each at the time given, and have not written it
    stamps: set<int>)         // every time at which a new deadline was computed

  datatype Event =
    | Tick(elapsed: nat)
    | Select
    | Test(idle: int)
    | Stamp
    | Write(bumpAt: int)
    | Fail(bumpAt: int)

  predicate Enabled(w: World, e: Event) {
    match e
    case Test(idle) => idle in w.selected
    case Stamp => w.tested > 0
    case Write(b) => b in w.writes
    case Fail(b) => b in w.writes
    case _ => true
  }

  function Apply(w: World, e: Event): World
    requires Enabled(w, e)
  {
    match e
    case Tick(d) => w.(now := w.now + d)
    case Select => if Accepted(w.row, w.now) then w.(selected := w.selected + multiset{w.row.idle}) else w
    case Test(idle) =>
      w.(selected := w.selected - multiset{idle}, tested := if ShouldBump(idle, w.now) then w.tested + 1 else w.tested)
    case Stamp => w.(tested := w.tested - 1, writes := w.writes + multiset{w.now}, stamps := w.stamps + {w.now})
    case Write(b) =>
      w.(row := w.row.(idle := Least(b + SESSION_IDLE_MAX_AGE_MS, w.row.absolute)), writes := w.writes - multiset{b})
    case Fail(b) => w.(writes := w.writes - multiset{b})
  }

  predicate ValidRun(w: World, es: seq<Event>)
    decreases |es|
  {
    es == [] || (Enabled(w, es[0]) && ValidRun(Apply(w, es[0]), es[1..]))
  }

  function Run(w: World, es: seq<Event>): World
    requires ValidRun(w, es)
    decreases |es|
  {
    if es == [] then w else Run(Apply(w, es[0]), es[1..])
  }

  function Created(born: int): World {
    World(born, NewRow(born), multiset{}, 0, multiset{}, {})
  }

  /** When the deadline was computed that was written last; creation wrote the first one. */
  function LastWritten(es: seq<Event>, born: int): int {
    if es == [] then born
    else if es[|es| - 1].Write? then es[|es| - 1].bumpAt
    else LastWritten(es[..|es| - 1], born)
  }

  lemma {:induction false} RunSnoc(w: World, es: seq<Event>, e: Event)
    ensures ValidRun(w, es + [e]) <==> ValidRun(w, es) && Enabled(Run(w, es), e)
    ensures ValidRun(w, es + [e]) ==> Run(w, es + [e]) == Apply(Run(w, es), e)
    decreases |es|
  {
    if es == [] {
      assert es + [e] == [e] && [e][1..] == [];
    } else {
      assert (es + [e])[1..] == es[1..] + [e];
      if Enabled(w, es[0]) { RunSnoc(Apply(w, es[0]), es[1..], e); }
    }
  }

  /** The cap is fixed, what is to be written was computed since creation, and the idle deadline is
      seven days past `last`, or the cap. */
  ghost predicate Deadline(w: World, last: int, born: int) {
    && born <= w.now && w.row.absolute == born + SESSION_ABSOLUTE_MAX_AGE_MS
    && (forall b :: b in w.writes ==> b in w.stamps)
    && (forall b :: b in w.stamps ==> born <= b <= w.now)
    && w.row.idle == Least(last + SESSION_IDLE_MAX_AGE_MS, w.row.absolute)
    && (last == born || last in w.stamps)
  }

  lemma DeadlineStep(w: World, e: Event, last: int, born: int)
    requires Deadline(w, last, born) && Enabled(w, e)
    ensures Deadline(Apply(w, e), if e.Write? then e.bumpAt else last, born)
  {
  }

  /** In every interleaving the idle deadline is seven days past what was written last, or the cap. */
  lemma {:induction false} DeadlineIsLastWritten(born: int, es: seq<Event>)
    requires ValidRun(Created(born), es)
    ensures Deadline(Run(Created(born), es), LastWritten(es, born), born)
    decreases |es|
  {
    if es != [] {
      var before, e := es[..|es| - 1], es[|es| - 1];
      assert es == before + [e];
      RunSnoc(Created(born), before, e);
      DeadlineIsLastWritten(born, before);
      DeadlineStep(Run(Created(born), before), e, LastWritten(before, born), born);
    }
  }

  /** Safety in every interleaving: a request is accepted within 30 days of creation, and within 7
      days of creation or of the time at which an earlier accepted request computed its deadline. */
  lemma OverlappingAcceptanceIsRecent(born: int, es: seq<Event>)
    requires ValidRun(Created(born), es)
    requires var w := Run(Created(born), es); Accepted(w.row, w.now)
    ensures var w := Run(Created(born), es);
            && w.now < born + SESSION_ABSOLUTE_MAX_AGE_MS
            && (w.now < born + SESSION_IDLE_MAX_AGE_MS
                || exists t :: t in w.stamps && t <= w.now < t + SESSION_IDLE_MAX_AGE_MS)
  {
    DeadlineIsLastWritten(born, es);
  }

  /** The deadline moves back at a step exactly when that step writes a deadline computed before the
      one written last, and the cap does not cut it. */
  lemma WriteShrinksIff(born: int, es: seq<Event>, e: Event)
    requires ValidRun(Created(born), es) && Enabled(Run(Created(born), es), e)
    ensures var w := Run(Created(born), es);
            Apply(w, e).row.idle < w.row.idle <==>
              e.Write? && e.bumpAt < LastWritten(es, born) && e.bumpAt + SESSION_IDLE_MAX_AGE_MS < w.row.absolute
  {
    DeadlineIsLastWritten(born, es);
  }

  /** Some run since creation at time 0 ends in `w`. */
  ghost predicate Reached(w: World) {
    exists es: seq<Event> :: ValidRun(Created(0), es) && Run(Created(0), es) == w
  }

  lemma Step(w: World, e: Event)
    requires Reached(w) && Enabled(w, e)
    ensures Reached(Apply(w, e))
  {
    var es: seq<Event> :| ValidRun(Created(0), es) && Run(Created(0), es) == w;
    RunSnoc(Created(0), es, e);
  }

  // A request that comes as far as its new deadline.
  lemma Bumps(w: World)
    requires Reached(w) && Accepted(w.row, w.now) && ShouldBump(w.row.idle, w.now)
    ensures Reached(w.(writes := w.writes + multiset{w.now}, stamps := w.stamps + {w.now}))
  {
    Step(w, Select);
    var w1 := Apply(w, Select);
    Step(w1, Test(w.row.idle));
    var w2 := Apply(w1, Test(w.row.idle));
    assert w2 == w.(tested := w.tested + 1);
    Step(w2, Stamp);
    assert Apply(w2, Stamp) == w.(writes := w.writes + multiset{w.now}, stamps := w.stamps + {w.now});
  }

  /** "idle_expires_at can't shrink, only grow" fails for overlapping requests: the first of two
      is written last. */
  lemma OverlapCanShrinkIdle()
    ensures exists w, e :: Reached(w) && Enabled(w, e) && Apply(w, e).row.idle < w.row.idle
  {
    var d, w0 := 2 * HOUR_MS, Created(0);
    assert ValidRun(w0, []) && Run(w0, []) == w0;
    Step(w0, Tick(d));
    var w1 := w0.(now := d);
    Bumps(w1);
    var w2 := w1.(writes := multiset{} + multiset{d}, stamps := {} + {d});
    Step(w2, Tick(1));
    var w3 := w2.(now := d + 1);
    Bumps(w3);
    var w4 := w3.(writes := w3.writes + multiset{d + 1}, stamps := w3.stamps + {d + 1});
    Step(w4, Write(d + 1));
    var w5 := Apply(w4, Write(d + 1));
    assert d in w5.writes;
    assert Apply(w5, Write(d)).row.idle < w5.row.idle;
  }
}
