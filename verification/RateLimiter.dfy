/** The in-memory token-bucket rate limiter (apps/central/src/middleware.ts, createRateLimiter). */
module RateLimiter {
  // Clock readings are integer milliseconds. Tokens and rates are reals: rounding of the source's
  // floating point is not modelled.

  import opened Common

  const EVICT_IDLE_MS := 600_000

  datatype Bucket = Bucket(tokens: real, lastRefill: int)

  datatype Config = Config(maxTokens: real, refillRate: real)

  datatype Answer = Answer(allowed: bool, retryAfter: int)

  type Buckets = map<string, Bucket>

  function Min(a: real, b: real): real { if a <= b then a else b }

  function Ceil(x: real): (n: int)
    ensures n as real - 1.0 < x <= n as real
  {
    -((-x).Floor)
  }

  /** What `ms` milliseconds add. */
  function Gain(c: Config, ms: int): real {
    ms as real / 1000.0 * c.refillRate
  }

  /** Every limit of the source has a positive rate and room for at least one token. */
  predicate Sane(c: Config) {
    c.maxTokens >= 1.0 && c.refillRate > 0.0
  }

  // ---------------------------------------------------------------------------
  // One call, as a function of one bucket
  // ---------------------------------------------------------------------------

  function Refill(b: Bucket, c: Config, now: int): Bucket {
    Bucket(Min(c.maxTokens, b.tokens + Gain(c, now - b.lastRefill)), now)
  }

  /** The bucket a call starts from: a missing one is full. */
  function Current(bs: Buckets, key: string, c: Config, now: int): Bucket {
    if key in bs then bs[key] else Bucket(c.maxTokens, now)
  }

  /** The bucket a call at `now` leaves behind. */
  function Spent(b: Bucket, c: Config, now: int): Bucket {
    var r := Refill(b, c, now);
    if r.tokens >= 1.0 then r.(tokens := r.tokens - 1.0) else r
  }

  predicate Allows(b: Bucket, c: Config, now: int) {
    Refill(b, c, now).tokens >= 1.0
  }

  function AnswerOf(b: Bucket, c: Config, now: int): Answer
    requires c.refillRate > 0.0
  {
    if Allows(b, c, now) then Answer(true, 0)
    else Answer(false, Ceil((1.0 - Refill(b, c, now).tokens) / c.refillRate))
  }

  predicate Stale(b: Bucket, now: int) {
    now - b.lastRefill > EVICT_IDLE_MS
  }

  function Evicted(bs: Buckets, now: int): Buckets {
    map k | k in bs && !Stale(bs[k], now) :: bs[k]
  }

  /** The tokens a key has at `now`: what it had and what it has earned since, up to the maximum. */
  function Have(buckets: map<string, Bucket>, key: string, c: Config, now: int): real {
    var had := if key in buckets then buckets[key].tokens else c.maxTokens;
    var since := if key in buckets then buckets[key].lastRefill else now;
    var earned := had + (now - since) as real / 1000.0 * c.refillRate;
    if earned > c.maxTokens then c.maxTokens else earned
  }

  lemma CallIs(buckets: map<string, Bucket>, key: string, c: Config, now: int)
    requires c.refillRate > 0.0
    ensures var a, have := AnswerOf(Current(buckets, key, c, now), c, now), Have(buckets, key, c, now);
            && (a.allowed <==> have >= 1.0) && (a.allowed ==> a.retryAfter == 0)
            && (!a.allowed ==> a.retryAfter as real - 1.0 < (1.0 - have) / c.refillRate <= a.retryAfter as real)
            && Spent(Current(buckets, key, c, now), c, now) == Bucket(if a.allowed then have - 1.0 else have, now)
  {
  }

  class Limiter {
    var buckets: Buckets

    constructor ()
      ensures buckets == map[]
    {
      buckets := map[];
    }

    method Consume(key: string, config: Config, now: int) returns (a: Answer)
      requires config.refillRate > 0.0
      modifies this
      ensures a == AnswerOf(Current(old(buckets), key, config, now), config, now)
      ensures buckets == old(buckets)[key := Spent(Current(old(buckets), key, config, now), config, now)]
      // Granted or denied, the call counts as activity and brings the tokens up to date; a grant costs one.
      ensures var have := Have(old(buckets), key, config, now);
              && (a.allowed <==> have >= 1.0) && (a.allowed ==> a.retryAfter == 0)
              && (!a.allowed ==> a.retryAfter as real - 1.0 < (1.0 - have) / config.refillRate <= a.retryAfter as real)
              && key in buckets && buckets[key] == Bucket(if a.allowed then have - 1.0 else have, now)
    {
      if key !in buckets {
        buckets := buckets[key := Bucket(config.maxTokens, now)];
      }
      var bucket := buckets[key];
      var elapsed := (now - bucket.lastRefill) as real / 1000.0;
      var tokens := Min(config.maxTokens, bucket.tokens + elapsed * config.refillRate);
      buckets := buckets[key := Bucket(tokens, now)];
      CallIs(old(buckets), key, config, now);
      if tokens >= 1.0 {
        buckets := buckets[key := Bucket(tokens - 1.0, now)];
        assert buckets == old(buckets)[key := Bucket(tokens - 1.0, now)];
        assert Spent(Current(old(buckets), key, config, now), config, now) == Bucket(tokens - 1.0, now);
        return Answer(true, 0);
      }
      var deficit := 1.0 - tokens;
      assert buckets == old(buckets)[key := Bucket(tokens, now)];
      return Answer(false, Ceil(deficit / config.refillRate));
    }

    /** One firing of the eviction timer. */
    method Evict(now: int)
      modifies this
      ensures buckets == Evicted(old(buckets), now)
      ensures forall k :: k in buckets <==> k in old(buckets) && now - old(buckets)[k].lastRefill <= 10 * 60 * 1000
      ensures forall k :: k in buckets ==> buckets[k] == old(buckets)[k]
    {
      var keys := buckets.Keys;
      ghost var before := buckets;
      while keys != {}
        invariant keys <= before.Keys
        invariant buckets == map k | k in before && (k in keys || !Stale(before[k], now)) :: before[k]
        decreases keys
      {
        var k :| k in keys;
        if Stale(buckets[k], now) {
          buckets := buckets - {k};
        }
        keys := keys - {k};
      }
    }

    method ResetForTests()
      modifies this
      ensures buckets == map[]
    {
      buckets := map[];
    }
  }

  // ---------------------------------------------------------------------------
  // A denial's retryAfter
  // ---------------------------------------------------------------------------

  /** After a denial, the next call some whole seconds later succeeds exactly from `retryAfter`
      seconds on; with a limit below one token it never does. */
  lemma RetryAfterIsLeast(b: Bucket, c: Config, now: int, n: nat)
    requires c.refillRate > 0.0 && !Allows(b, c, now)
    ensures var a := AnswerOf(b, c, now);
            && a.retryAfter >= 1
            && (Allows(Spent(b, c, now), c, now + 1000 * n) <==> c.maxTokens >= 1.0 && n >= a.retryAfter)
  {
    var left := Spent(b, c, now).tokens;
    var wait := (1.0 - left) / c.refillRate;
    assert wait * c.refillRate == 1.0 - left;
    assert wait > 0.0;
    EnoughAfter(left, c.refillRate, wait, n);
    assert AnswerOf(b, c, now).retryAfter == Ceil(wait);
    assert Refill(Spent(b, c, now), c, now + 1000 * n).tokens == Min(c.maxTokens, left + n as real * c.refillRate);
  }

  // Whole seconds are enough exactly from the wait rounded up.
  lemma EnoughAfter(left: real, rate: real, wait: real, n: nat)
    requires rate > 0.0 && wait * rate == 1.0 - left
    ensures left + n as real * rate >= 1.0 <==> n >= Ceil(wait)
  {
    if n < Ceil(wait) {
      assert n as real <= Ceil(wait) as real - 1.0 < wait;
      MulStrict(n as real, wait, rate);
    }
  }

  lemma MulStrict(x: real, y: real, k: real)
    requires x < y && k > 0.0
    ensures x * k < y * k
  {
  }

  // ---------------------------------------------------------------------------
  // Histories
  // ---------------------------------------------------------------------------

  datatype Event = Call(key: string, at: int) | EvictAt(at: int)

  /** The limit in force for each key: a key names the endpoint it protects, so all calls with one
      key pass one config. */
  type Limits = string -> Config

  ghost predicate SaneLimits(limits: Limits) {
    forall k :: Sane(limits(k))
  }

  /** The clock readings of a history, from `from` on and never backwards. */
  predicate ClockAdvances(es: seq<Event>, from: int) {
    es == [] || (from <= es[0].at && ClockAdvances(es[1..], es[0].at))
  }

  function After(bs: Buckets, e: Event, limits: Limits, evicting: bool): Buckets {
    match e
    case Call(k, t) => bs[k := Spent(Current(bs, k, limits(k), t), limits(k), t)]
    case EvictAt(t) => if evicting then Evicted(bs, t) else bs
  }

  function AfterAll(bs: Buckets, es: seq<Event>, limits: Limits, evicting: bool): Buckets
    decreases |es|
  {
    if es == [] then bs else AfterAll(After(bs, es[0], limits, evicting), es[1..], limits, evicting)
  }

  ghost function Grants(bs: Buckets, e: Event, limits: Limits, key: string): nat {
    if e.Call? && e.key == key && Allows(Current(bs, key, limits(key), e.at), limits(key), e.at) then 1 else 0
  }

  /** How many calls with `key` are granted. */
  ghost function Granted(bs: Buckets, es: seq<Event>, limits: Limits, evicting: bool, key: string): nat
    decreases |es|
  {
    if es == [] then 0
    else Grants(bs, es[0], limits, key) + Granted(After(bs, es[0], limits, evicting), es[1..], limits, evicting, key)
  }

  function Answers(bs: Buckets, es: seq<Event>, limits: Limits, evicting: bool): seq<Answer>
    requires forall k :: limits(k).refillRate > 0.0
    decreases |es|
  {
    if es == [] then []
    else
      (match es[0]
       case Call(k, t) => [AnswerOf(Current(bs, k, limits(k), t), limits(k), t)]
       case EvictAt(_) => [])
      + Answers(After(bs, es[0], limits, evicting), es[1..], limits, evicting)
  }

  /** What every bucket satisfies at time `now`. */
  ghost predicate Inv(bs: Buckets, limits: Limits, now: int) {
    forall k :: k in bs ==> bs[k].lastRefill <= now && 0.0 <= bs[k].tokens <= limits(k).maxTokens
  }

  lemma GainAdds(c: Config, a: int, b: int)
    requires c.refillRate > 0.0
    ensures Gain(c, a + b) == Gain(c, a) + Gain(c, b)
    ensures a >= 0 ==> Gain(c, a) >= 0.0
  {
    assert (a + b) as real / 1000.0 * c.refillRate == (a as real / 1000.0 + b as real / 1000.0) * c.refillRate;
  }

  lemma StepKeepsInv(bs: Buckets, e: Event, limits: Limits, evicting: bool, now: int)
    requires SaneLimits(limits) && Inv(bs, limits, now) && now <= e.at
    ensures Inv(After(bs, e, limits, evicting), limits, e.at)
  {
    if e.Call? {
      var b, c := Current(bs, e.key, limits(e.key), e.at), limits(e.key);
      GainAdds(c, e.at - b.lastRefill, 0);
    }
  }

  lemma {:induction false} RunKeepsInv(bs: Buckets, es: seq<Event>, limits: Limits, evicting: bool, from: int, until: int)
    requires SaneLimits(limits) && Inv(bs, limits, from) && ClockAdvances(es, from)
    requires from <= until && forall i :: 0 <= i < |es| ==> es[i].at <= until
    ensures Inv(AfterAll(bs, es, limits, evicting), limits, until)
    decreases |es|
  {
    if es != [] {
      StepKeepsInv(bs, es[0], limits, evicting, from);
      RunKeepsInv(After(bs, es[0], limits, evicting), es[1..], limits, evicting, es[0].at, until);
    }
  }

  // ---------------------------------------------------------------------------
  // The rate bound
  // ---------------------------------------------------------------------------

  /** What the key could spend at time `now`. */
  ghost function Level(bs: Buckets, limits: Limits, key: string, now: int): real {
    Refill(Current(bs, key, limits(key), now), limits(key), now).tokens
  }

  /** Waiting adds at most the refill, and a grant costs one token. */
  lemma LevelPays(bs: Buckets, e: Event, limits: Limits, key: string, now: int)
    requires SaneLimits(limits) && Inv(bs, limits, now) && now <= e.at
    ensures Grants(bs, e, limits, key) as real + Level(After(bs, e, limits, false), limits, key, e.at)
            <= Level(bs, limits, key, now) + Gain(limits(key), e.at - now)
  {
    var c := limits(key);
    var b := Current(bs, key, c, now);
    GainAdds(c, now - b.lastRefill, e.at - now);
    GainAdds(c, e.at - now, 0);
    assert Gain(c, 0) == 0.0;
    assert Level(bs, limits, key, e.at) <= Level(bs, limits, key, now) + Gain(c, e.at - now);
  }

  lemma {:induction false} GrantsWithinLevel(bs: Buckets, es: seq<Event>, limits: Limits, key: string, from: int, until: int)
    requires SaneLimits(limits) && Inv(bs, limits, from) && ClockAdvances(es, from)
    requires from <= until && forall i :: 0 <= i < |es| ==> es[i].at <= until
    ensures Granted(bs, es, limits, false, key) as real
            <= Level(bs, limits, key, from) + Gain(limits(key), until - from)
    decreases |es|
  {
    var c := limits(key);
    if es == [] {
      GainAdds(c, until - from, 0);
      GainAdds(c, from - Current(bs, key, c, from).lastRefill, 0);
    } else {
      var e := es[0];
      LevelPays(bs, e, limits, key, from);
      StepKeepsInv(bs, e, limits, false, from);
      GrantsWithinLevel(After(bs, e, limits, false), es[1..], limits, key, e.at, until);
      GainAdds(c, e.at - from, until - e.at);
    }
  }

  lemma LevelCapped(bs: Buckets, limits: Limits, key: string, now: int)
    ensures Level(bs, limits, key, now) <= limits(key).maxTokens
  {
  }

  /** In any interval [s, t] of any history without eviction, a key is granted at most
      maxTokens + refillRate * (t - s) calls. */
  lemma RateBound(before: seq<Event>, inside: seq<Event>, limits: Limits, key: string, start: int, s: int, t: int)
    requires SaneLimits(limits) && ClockAdvances(before, start) && ClockAdvances(inside, s) && start <= s <= t
    requires forall i :: 0 <= i < |before| ==> before[i].at <= s
    requires forall i :: 0 <= i < |inside| ==> inside[i].at <= t
    ensures Granted(AfterAll(map[], before, limits, false), inside, limits, false, key) as real
            <= limits(key).maxTokens + (t - s) as real / 1000.0 * limits(key).refillRate
  {
    var bs := AfterAll(map[], before, limits, false);
    RunKeepsInv(map[], before, limits, false, start, s);
    GrantsWithinLevel(bs, inside, limits, key, s, t);
    LevelCapped(bs, limits, key, s);
    assert Gain(limits(key), t - s) == (t - s) as real / 1000.0 * limits(key).refillRate;
  }

  // ---------------------------------------------------------------------------
  // Eviction
  // ---------------------------------------------------------------------------

  /** A bucket evicted at the first millisecond past the idle limit would be full anyway. */
  predicate RefillsWhileIdle(c: Config) {
    c.maxTokens <= Gain(c, EVICT_IDLE_MS + 1)
  }

  /** The evicting limiter holds the buckets of the other one, less some that would be full. */
  ghost predicate Thinned(evicting: Buckets, full: Buckets, now: int) {
    && (forall k :: k in evicting ==> k in full && evicting[k] == full[k])
    && (forall k :: k in full && k !in evicting ==> now - full[k].lastRefill > EVICT_IDLE_MS)
  }

  lemma IdleBucketIsFull(b: Bucket, c: Config, now: int)
    requires Sane(c) && RefillsWhileIdle(c) && b.tokens >= 0.0 && now - b.lastRefill > EVICT_IDLE_MS
    ensures Refill(b, c, now) == Refill(Bucket(c.maxTokens, now), c, now)
  {
    var more := now - b.lastRefill - (EVICT_IDLE_MS + 1);
    GainAdds(c, more, EVICT_IDLE_MS + 1);
    assert now - b.lastRefill == more + (EVICT_IDLE_MS + 1);
    assert Gain(c, 0) == 0.0;
  }

  lemma {:induction false} ThinnedAnswersAlike(ev: Buckets, full: Buckets, es: seq<Event>, limits: Limits, from: int)
    requires SaneLimits(limits) && ClockAdvances(es, from)
    requires Inv(full, limits, from) && Thinned(ev, full, from)
    requires forall k :: RefillsWhileIdle(limits(k))
    ensures Answers(ev, es, limits, true) == Answers(full, es, limits, false)
    decreases |es|
  {
    if es != [] {
      var e := es[0];
      StepKeepsInv(full, e, limits, false, from);
      match e {
        case Call(k, t) =>
          if k in full && k !in ev {
            IdleBucketIsFull(full[k], limits(k), t);
          }
        case EvictAt(_) =>
      }
      ThinnedAnswersAlike(After(ev, e, limits, true), After(full, e, limits, false), es[1..], limits, e.at);
    }
  }

  /** Eviction, whenever the timer fires, is invisible if every limit refills within the idle time. */
  lemma EvictionInvisible(es: seq<Event>, limits: Limits, start: int)
    requires SaneLimits(limits) && ClockAdvances(es, start)
    requires forall k :: RefillsWhileIdle(limits(k))
    ensures Answers(map[], es, limits, true) == Answers(map[], es, limits, false)
  {
    ThinnedAnswersAlike(map[], map[], es, limits, start);
  }

  // ---------------------------------------------------------------------------
  // Where eviction shows
  // ---------------------------------------------------------------------------

  /** `n` calls in the same millisecond. */
  function Burst(key: string, n: nat, at: int): seq<Event> {
    if n == 0 then [] else [Call(key, at)] + Burst(key, n - 1, at)
  }

  ghost predicate OnlyKey(es: seq<Event>, key: string) {
    forall e :: e in es && e.Call? ==> e.key == key
  }

  /** The answers of a history about one key tell how many calls were granted. */
  lemma {:induction false} AnswersShowGrants(ev: Buckets, full: Buckets, es: seq<Event>, limits: Limits, key: string)
    requires forall k :: limits(k).refillRate > 0.0
    requires OnlyKey(es, key)
    requires Answers(ev, es, limits, true) == Answers(full, es, limits, false)
    ensures Granted(ev, es, limits, true, key) == Granted(full, es, limits, false, key)
    decreases |es|
  {
    if es != [] {
      var e := es[0];
      var ev', full' := After(ev, e, limits, true), After(full, e, limits, false);
      var a, b := Answers(ev', es[1..], limits, true), Answers(full', es[1..], limits, false);
      if e.Call? {
        assert Answers(ev, es, limits, true)[1..] == a;
        assert Answers(full, es, limits, false)[1..] == b;
        assert Answers(ev, es, limits, true)[0] == Answers(full, es, limits, false)[0];
      } else {
        assert [] + a == a && [] + b == b;
      }
      AnswersShowGrants(ev', full', es[1..], limits, key);
    }
  }

  lemma {:induction false} BurstShape(key: string, n: nat, at: int)
    ensures |Burst(key, n, at)| == n && forall e :: e in Burst(key, n, at) ==> e == Call(key, at)
    ensures ClockAdvances(Burst(key, n, at), at)
  {
    if n > 0 { BurstShape(key, n - 1, at); }
  }

  /** A burst from a bucket holding at least `n` tokens is granted whole. */
  lemma {:induction false} BurstGranted(bs: Buckets, key: string, n: nat, at: int, limits: Limits, evicting: bool)
    requires SaneLimits(limits) && Level(bs, limits, key, at) >= n as real
    ensures Granted(bs, Burst(key, n, at), limits, evicting, key) == n
    ensures var after := AfterAll(bs, Burst(key, n, at), limits, evicting);
            Level(after, limits, key, at) == Level(bs, limits, key, at) - n as real
    ensures var after := AfterAll(bs, Burst(key, n, at), limits, evicting);
            n > 0 ==> key in after && after[key] == Bucket(Level(bs, limits, key, at) - n as real, at)
    ensures AfterAll(bs, Burst(key, n, at), limits, true) == AfterAll(bs, Burst(key, n, at), limits, false)
    ensures forall k :: k in AfterAll(bs, Burst(key, n, at), limits, evicting) ==> k in bs || k == key
    decreases n
  {
    if n > 0 {
      var next := After(bs, Call(key, at), limits, evicting);
      assert Gain(limits(key), 0) == 0.0;
      assert Burst(key, n, at)[1..] == Burst(key, n - 1, at);
      BurstGranted(next, key, n - 1, at, limits, evicting);
    }
  }

  lemma {:induction false} RunsCompose(bs: Buckets, xs: seq<Event>, ys: seq<Event>, limits: Limits, evicting: bool, key: string)
    ensures Granted(bs, xs + ys, limits, evicting, key)
         == Granted(bs, xs, limits, evicting, key) + Granted(AfterAll(bs, xs, limits, evicting), ys, limits, evicting, key)
    decreases |xs|
  {
    if xs == [] {
      assert xs + ys == ys;
    } else {
      assert (xs + ys)[1..] == xs[1..] + ys;
      RunsCompose(After(bs, xs[0], limits, evicting), xs[1..], ys, limits, evicting, key);
    }
  }

  lemma {:induction false} ClocksCompose(xs: seq<Event>, ys: seq<Event>, from: int, mid: int)
    requires ClockAdvances(xs, from) && ClockAdvances(ys, mid) && from <= mid
    requires forall e :: e in xs ==> e.at <= mid
    ensures ClockAdvances(xs + ys, from)
    decreases |xs|
  {
    if xs == [] {
      assert xs + ys == ys;
    } else {
      assert (xs + ys)[1..] == xs[1..] + ys;
      ClocksCompose(xs[1..], ys, xs[0].at, mid);
    }
  }

  // The idle limit reached exactly when the 5-minute timer fires for the third time.
  const EMPTIED_AT := 299_999
  const TIMER_AT := 900_000

  /** Empty the bucket, let the timer evict it, and ask again. */
  function EvictionProbe(key: string, n: nat): seq<Event> {
    Burst(key, n, EMPTIED_AT) + ([EvictAt(TIMER_AT)] + Burst(key, n, TIMER_AT))
  }

  /** A limit of `n` tokens that does not refill within the idle time is granted twice over. */
  lemma ProbeGrants(key: string, n: nat, limits: Limits)
    requires SaneLimits(limits) && n >= 1 && limits(key).maxTokens == n as real && !RefillsWhileIdle(limits(key))
    ensures Granted(map[], EvictionProbe(key, n), limits, true, key) == 2 * n
    ensures Granted(map[], EvictionProbe(key, n), limits, false, key) < 2 * n
  {
    var c := limits(key);
    var first, second := Burst(key, n, EMPTIED_AT), Burst(key, n, TIMER_AT);
    var tail := [EvictAt(TIMER_AT)] + second;
    assert tail[1..] == second;
    assert Gain(c, 0) == 0.0;
    BurstGranted(map[], key, n, EMPTIED_AT, limits, true);
    BurstGranted(map[], key, n, EMPTIED_AT, limits, false);
    var emptied := AfterAll(map[], first, limits, true);
    assert emptied[key] == Bucket(0.0, EMPTIED_AT);
    RunsCompose(map[], first, tail, limits, true, key);
    RunsCompose(map[], first, tail, limits, false, key);
    // With eviction the bucket is gone, and the second burst finds a full one.
    assert Evicted(emptied, TIMER_AT) == map[];
    BurstGranted(map[], key, n, TIMER_AT, limits, true);
    // Without, it holds what 600.001 s refill.
    BurstShape(key, n, TIMER_AT);
    GainAdds(c, EVICT_IDLE_MS + 1, 0);
    assert Level(emptied, limits, key, TIMER_AT) < n as real;
    BurstWithin(emptied, key, n, TIMER_AT, limits);
  }

  lemma BurstWithin(bs: Buckets, key: string, n: nat, at: int, limits: Limits)
    requires SaneLimits(limits) && Inv(bs, limits, at) && Level(bs, limits, key, at) < n as real
    ensures Granted(bs, Burst(key, n, at), limits, false, key) < n
  {
    BurstShape(key, n, at);
    assert Gain(limits(key), 0) == 0.0;
    forall i | 0 <= i < n ensures Burst(key, n, at)[i].at <= at {
      assert Burst(key, n, at)[i] in Burst(key, n, at);
    }
    GrantsWithinLevel(bs, Burst(key, n, at), limits, key, at, at);
  }

  function Everywhere(c: Config): Limits {
    k => c
  }

  /** The evicting limiter and the never-evicting one answer a history alike. */
  ghost predicate AnswersAlike(es: seq<Event>, c: Config)
    requires c.refillRate > 0.0
  {
    Answers(map[], es, Everywhere(c), true) == Answers(map[], es, Everywhere(c), false)
  }

  /** Eviction is invisible for a limit, in every history, if and only if the limit refills within
      the idle time: 600.001 s, the first millisecond past the idle limit. */
  lemma EvictionInvisibleIff(c: Config, n: nat)
    requires Sane(c) && c.maxTokens == n as real
    ensures RefillsWhileIdle(c) <==>
            forall es: seq<Event>, start | ClockAdvances(es, start) :: AnswersAlike(es, c)
  {
    var limits := Everywhere(c);
    if RefillsWhileIdle(c) {
      forall es: seq<Event>, start | ClockAdvances(es, start)
        ensures AnswersAlike(es, c)
      {
        EvictionInvisible(es, limits, start);
      }
    } else {
      var probe := EvictionProbe("k", n);
      ProbeGrants("k", n, limits);
      BurstShape("k", n, EMPTIED_AT);
      BurstShape("k", n, TIMER_AT);
      ClocksCompose(Burst("k", n, EMPTIED_AT), [EvictAt(TIMER_AT)] + Burst("k", n, TIMER_AT), EMPTIED_AT, TIMER_AT);
      assert ClockAdvances(probe, EMPTIED_AT);
      if AnswersAlike(probe, c) {
        AnswersShowGrants(map[], map[], probe, limits, "k");
        assert false;
      }
      assert !AnswersAlike(probe, c);
      assert exists es: seq<Event>, start :: ClockAdvances(es, start) && !AnswersAlike(es, c);
    }
  }

  // ---------------------------------------------------------------------------
  // Keys in use
  // ---------------------------------------------------------------------------

  /** When the key was last called, whether or not the call was granted. */
  function LastCall(es: seq<Event>, key: string): Option<int> {
    if es == [] then None
    else if es[|es| - 1].Call? && es[|es| - 1].key == key then Some(es[|es| - 1].at)
    else LastCall(es[..|es| - 1], key)
  }

  lemma {:induction false} AfterSnoc(bs: Buckets, es: seq<Event>, e: Event, limits: Limits, evicting: bool)
    ensures AfterAll(bs, es + [e], limits, evicting) == After(AfterAll(bs, es, limits, evicting), e, limits, evicting)
    decreases |es|
  {
    if es == [] {
      assert es + [e] == [e] && [e][1..] == [];
    } else {
      assert (es + [e])[1..] == es[1..] + [e];
      AfterSnoc(After(bs, es[0], limits, evicting), es[1..], e, limits, evicting);
    }
  }

  /** With the timer running, a key keeps its bucket for ten minutes after each call, a denied one too. */
  lemma {:induction false} CalledKeyKeepsBucket(es: seq<Event>, limits: Limits, key: string)
    requires LastCall(es, key).Some? && forall i :: 0 <= i < |es| ==> es[i].at <= LastCall(es, key).value + 600_000
    ensures var bs := AfterAll(map[], es, limits, true);
            key in bs && bs[key].lastRefill == LastCall(es, key).value
    decreases |es|
  {
    var before, e := es[..|es| - 1], es[|es| - 1];
    assert es == before + [e];
    AfterSnoc(map[], before, e, limits, true);
    if !(e.Call? && e.key == key) {
      forall i | 0 <= i < |before| ensures before[i].at <= LastCall(es, key).value + 600_000 {
        assert before[i] == es[i];
      }
      CalledKeyKeepsBucket(before, limits, key);
    }
  }

  /** No two calls of the key in a row are more than ten minutes apart. */
  predicate StaysInUse(es: seq<Event>, key: string, last: Option<int>)
    decreases |es|
  {
    es == [] ||
    if es[0].Call? && es[0].key == key then
      (last.Some? ==> es[0].at <= last.value + 600_000) && StaysInUse(es[1..], key, Some(es[0].at))
    else StaysInUse(es[1..], key, last)
  }

  predicate NeverCalled(es: seq<Event>, key: string) {
    forall e :: e in es ==> !(e.Call? && e.key == key)
  }

  // The evicting limiter and the other one agree on the key, or nothing depends on it any more.
  ghost predicate AgreeOn(evicting: Buckets, full: Buckets, es: seq<Event>, key: string, last: Option<int>) {
    || NeverCalled(es, key)
    || (if last.None? then key !in evicting && key !in full
        else key in evicting && key in full && evicting[key] == full[key] && full[key].lastRefill == last.value)
  }

  lemma {:induction false} LateCallNone(es: seq<Event>, key: string, last: int, now: int)
    requires StaysInUse(es, key, Some(last)) && ClockAdvances(es, now) && now > last + 600_000
    ensures NeverCalled(es, key)
    decreases |es|
  {
    if es != [] { LateCallNone(es[1..], key, last, es[0].at); }
  }

  lemma AgreeStep(ev: Buckets, full: Buckets, es: seq<Event>, limits: Limits, key: string, last: Option<int>, from: int)
    requires es != [] && StaysInUse(es, key, last) && ClockAdvances(es, from) && AgreeOn(ev, full, es, key, last)
    ensures var next := if es[0].Call? && es[0].key == key then Some(es[0].at) else last;
            StaysInUse(es[1..], key, next) && AgreeOn(After(ev, es[0], limits, true), After(full, es[0], limits, false), es[1..], key, next)
    ensures Grants(ev, es[0], limits, key) == Grants(full, es[0], limits, key)
  {
    if es[0].EvictAt? && last.Some? && es[0].at > last.value + 600_000 {
      LateCallNone(es[1..], key, last.value, es[0].at);
    }
  }

  lemma {:induction false} GrantedAlike(ev: Buckets, full: Buckets, before: seq<Event>, inside: seq<Event>, limits: Limits, key: string,
                                        last: Option<int>, from: int)
    requires StaysInUse(before + inside, key, last) && ClockAdvances(before + inside, from)
    requires AgreeOn(ev, full, before + inside, key, last)
    ensures Granted(AfterAll(ev, before, limits, true), inside, limits, true, key)
         == Granted(AfterAll(full, before, limits, false), inside, limits, false, key)
    decreases |before|, |inside|
  {
    var es := before + inside;
    if es != [] {
      var next := if es[0].Call? && es[0].key == key then Some(es[0].at) else last;
      AgreeStep(ev, full, es, limits, key, last, from);
      var ev', full' := After(ev, es[0], limits, true), After(full, es[0], limits, false);
      if before == [] {
        assert es == inside && [] + inside[1..] == es[1..];
        GrantedAlike(ev', full', [], inside[1..], limits, key, next, es[0].at);
      } else {
        assert es[1..] == before[1..] + inside;
        GrantedAlike(ev', full', before[1..], inside, limits, key, next, es[0].at);
      }
    }
  }

  /** The bound of `RateBound` holds with the timer running for a key that stays in use: no two calls in
      a row, the denied ones included, more than ten minutes apart. */
  lemma RateBoundInUse(before: seq<Event>, inside: seq<Event>, limits: Limits, key: string, start: int, s: int, t: int)
    requires SaneLimits(limits) && ClockAdvances(before, start) && ClockAdvances(inside, s) && start <= s <= t
    requires forall i :: 0 <= i < |before| ==> before[i].at <= s
    requires forall i :: 0 <= i < |inside| ==> inside[i].at <= t
    requires StaysInUse(before + inside, key, None)
    ensures Granted(AfterAll(map[], before, limits, true), inside, limits, true, key) as real
            <= limits(key).maxTokens + (t - s) as real / 1000.0 * limits(key).refillRate
  {
    ClocksCompose(before, inside, start, s);
    GrantedAlike(map[], map[], before, inside, limits, key, None, start);
    RateBound(before, inside, limits, key, start, s, t);
  }

  // ---------------------------------------------------------------------------
  // The limits of the source
  // ---------------------------------------------------------------------------

  function PerHour(n: nat): Config { Config(n as real, n as real / 3600.0) }

  function PerMinute(n: nat): Config { Config(n as real, n as real / 60.0) }

  const HOURLY := map[
    "RATE_REGISTER" := PerHour(3), "RATE_SESSION_REFRESH" := PerHour(5), "RATE_REGISTER_ASN" := PerHour(20),
    "RATE_RESEND_VERIFICATION" := PerHour(3), "RATE_PLUGIN_REPORT" := PerHour(5), "RATE_PLUGIN_PUBLISH" := PerHour(5),
    "RATE_AVATAR_UPLOAD" := PerHour(10), "RATE_ADMIN_OP" := PerHour(100), "RATE_SERVER_TRANSFER_INITIATE" := PerHour(5)]

  const MINUTELY := map[
    "RATE_LOGIN" := PerMinute(10), "RATE_SERVER_TOKEN" := PerMinute(30), "RATE_HEARTBEAT" := Config(5.0, 3.0 / 60.0),
    "RATE_DIRECTORY_BROWSE" := PerMinute(30), "RATE_CHECK_FRAME" := PerMinute(30), "RATE_OAUTH_CALLBACK" := PerMinute(10),
    "RATE_OAUTH_LINK" := PerMinute(10), "RATE_MARKETPLACE_BROWSE" := Config(60.0, 1.0), "RATE_LOGOUT" := PerMinute(20),
    "RATE_SERVER_TRANSFER_CONFIRM" := PerMinute(10), "RATE_VOICE_PROBE" := Config(5.0, 1.0 / 60.0)]

  /** A limit of `n` per hour, whatever `n`, is forgotten: some history gets other answers from the
      evicting limiter. A limit of `n` per minute never is. */
  lemma HourlyLimitsAreForgotten(n: nat)
    requires n > 0
    ensures exists es: seq<Event>, start :: ClockAdvances(es, start) && !AnswersAlike(es, PerHour(n))
    ensures forall es: seq<Event>, start :: ClockAdvances(es, start) ==> AnswersAlike(es, PerMinute(n))
  {
    EvictionInvisibleIff(PerHour(n), n);
    EvictionInvisibleIff(PerMinute(n), n);
  }

  /** The limits of the source by that measure: each per-hour one is forgotten and no other is. */
  lemma LimitsOfTheSource()
    ensures forall n :: PerHour(n).maxTokens == n as real && PerHour(n).refillRate * 3600.0 == n as real
    ensures forall n :: PerMinute(n).maxTokens == n as real && PerMinute(n).refillRate * 60.0 == n as real
    ensures forall k :: k in HOURLY ==> !RefillsWhileIdle(HOURLY[k])
    ensures forall k :: k in MINUTELY ==> RefillsWhileIdle(MINUTELY[k])
  {
  }
}
