/**
 Runs of the key authority: several processes boot, rotate, refill their caches and sign tokens, in
 any interleaving, over one table and one clock, with an unchanged secret.
 */
module SigningKeyProtocol {
  import opened Common
  import opened SigningKeys

  // `ensureSigningKey` is cut at its awaits: it tries one active row, then it may expire all of them,
  // then it inserts a new one, and other processes may act in between. So may they between reading the
  // table and storing what was read: `now - readAt` is the age of the rows a process serves; it exceeds
  // the age of the cache entry by the duration of the query.

  // ---------------------------------------------------------------------------
  // States and steps
  // ---------------------------------------------------------------------------

  /** The rows one SELECT saw: every id in the table, the published ones it returned, and those a
      booting process had expired before. */
  datatype Snapshot = Snapshot(readAt: int, present: set<KeyId>, keys: set<KeyId>, wiped: set<KeyId>)

  datatype Entry = Entry(snap: Snapshot, cachedAt: int)

  /** `signedAt` is when the signer read the active key. */
  datatype Token = Token(kid: KeyId, signedAt: int)

  datatype World = World(
    now: int,
    rows: Table,
    selects: set<Snapshot>,        // every SELECT so far; any of them may still be in flight
    caches: map<nat, Entry>,       // per process
    tokens: set<Token>,
    waited: set<KeyId>,            // rows that were pending at some time
    wiped: set<KeyId>,             // rows that were active when some process expired all active rows
    expiring: nat,                 // booting processes whose row did not decrypt and that have not expired any yet
    inserting: nat)                // booting processes that have not inserted their row yet

  datatype Event =
    | Tick(elapsed: nat)
    | Rotate(id: KeyId)            // a committed rotation
    | Bust(process: nat)           // `publicKeyCache = null`
    | TryRow(row: Option<KeyId>)   // `ensureSigningKey` reads and decrypts one active row, if there is one
    | ExpireAll                    // its UPDATE of every active row
    | Insert(id: KeyId)            // its INSERT of a row that is active at once
    | Read                         // the SELECT of a cache miss
    | Store(process: nat, snap: Snapshot)
    | Sign(kid: KeyId)

  function TakeSnapshot(w: World): Snapshot {
    Snapshot(w.now, w.rows.Keys, PublishedIds(w.rows), w.wiped)
  }

  ghost predicate Enabled(w: World, e: Event, secret: Secret) {
    match e
    case Rotate(id) => id !in w.rows
    case TryRow(row) => if row.None? then IdsIn(w.rows, Active) == {} else row.value in IdsIn(w.rows, Active)
    case ExpireAll => w.expiring > 0
    case Insert(id) => w.inserting > 0 && id !in w.rows
    case Store(_, snap) => snap in w.selects
    case Sign(kid) => IsPick(w.rows, kid) && w.rows[kid].secret == secret
    case _ => true
  }

  ghost function Apply(w: World, e: Event, secret: Secret): World
    requires Enabled(w, e, secret)
  {
    match e
    case Tick(d) => w.(now := w.now + d)
    case Rotate(id) => w.(rows := Rotated(w.rows, w.now, id, secret), waited := w.waited + {id})
    case Bust(p) => w.(caches := w.caches - {p})
    case TryRow(row) =>
      if row.None? then w.(inserting := w.inserting + 1)
      else if w.rows[row.value].secret == secret then w
      else w.(expiring := w.expiring + 1)
    case ExpireAll =>
      w.(rows := ActivesExpired(w.rows), wiped := w.wiped + IdsIn(w.rows, Active),
         expiring := w.expiring - 1, inserting := w.inserting + 1)
    case Insert(id) => w.(rows := w.rows[id := NewKey(secret, w.now, Active)], inserting := w.inserting - 1)
    case Read => w.(selects := w.selects + {TakeSnapshot(w)})
    case Store(p, snap) => w.(caches := w.caches[p := Entry(snap, w.now)])
    case Sign(kid) => w.(tokens := w.tokens + {Token(kid, w.now)})
  }

  ghost predicate ValidRun(w: World, es: seq<Event>, secret: Secret)
    decreases |es|
  {
    es == [] || (Enabled(w, es[0], secret) && ValidRun(Apply(w, es[0], secret), es[1..], secret))
  }

  ghost function Run(w: World, es: seq<Event>, secret: Secret): World
    requires ValidRun(w, es, secret)
    decreases |es|
  {
    if es == [] then w else Run(Apply(w, es[0], secret), es[1..], secret)
  }

  /** Any table at all, with nothing read, cached or signed yet and no row from the future. */
  ghost predicate Start(w: World) {
    && (forall id :: id in w.rows ==> w.rows[id].createdAt <= w.now)
    && w == World(w.now, w.rows, {}, map[], {}, IdsIn(w.rows, Pending), {}, 0, 0)
  }

  /** What `getPublicKeys` can return now: a cache entry within its TTL, or a finished query. */
  ghost predicate Served(w: World, snap: Snapshot) {
    || snap in w.selects
    || exists p :: p in w.caches && w.caches[p].snap == snap
                   && w.now - w.caches[p].cachedAt < PUBLIC_KEY_CACHE_TTL_MS
  }

  // ---------------------------------------------------------------------------
  // The invariant
  // ---------------------------------------------------------------------------

  ghost predicate RowInv(w: World, id: KeyId)
    requires id in w.rows
  {
    var row := w.rows[id];
    && row.createdAt <= w.now
    && (row.state.Pending? ==> id in w.waited)
    && (id in w.waited && !row.state.Pending? ==> row.createdAt + PROMOTION_DELAY_MS < w.now)
    && (id in w.wiped ==> row.state.Expired?)
  }

  /** The key of a token is active, or its grace reaches past the life of that token; it is
      expired only once the grace is over, or by a booting process. */
  ghost predicate TokenInv(w: World, t: Token, secret: Secret) {
    && t.kid in w.rows && t.signedAt <= w.now
    && var row := w.rows[t.kid];
       && row.secret == secret
       && (t.kid in w.waited ==> row.createdAt + PROMOTION_DELAY_MS < t.signedAt)
       && !row.state.Pending?
       && (row.state.Retiring? || (row.state.Expired? && t.kid !in w.wiped) ==>
             row.expiresAt.Some? && t.signedAt + TOKEN_LIFETIME_MS <= row.expiresAt.value)
       && (row.state.Expired? && t.kid !in w.wiped ==> row.expiresAt.value < w.now)
  }

  /** A SELECT returns every row it saw that is not expired; a row it left out stays expired. */
  ghost predicate SnapInv(w: World, snap: Snapshot) {
    && snap.readAt <= w.now
    && snap.keys <= snap.present <= w.rows.Keys
    && snap.wiped <= w.wiped && snap.wiped !! snap.keys
    && (forall id :: id in w.rows && w.rows[id].createdAt < snap.readAt ==> id in snap.present)
    && (forall id :: id in snap.present - snap.keys ==> w.rows[id].state.Expired?)
    && (forall t :: t in w.tokens && t.kid in snap.present - snap.keys && t.kid !in snap.wiped
                    ==> t.signedAt + TOKEN_LIFETIME_MS < snap.readAt)
  }

  ghost predicate Inv(w: World, secret: Secret) {
    && w.waited <= w.rows.Keys && w.wiped <= w.rows.Keys
    && (forall id :: id in w.rows ==> RowInv(w, id))
    && (forall t :: t in w.tokens ==> TokenInv(w, t, secret))
    && (forall s :: s in w.selects ==> SnapInv(w, s))
    && (forall p :: p in w.caches ==> w.caches[p].snap in w.selects)
  }

  lemma RotateKeepsInv(w: World, id: KeyId, secret: Secret)
    requires Inv(w, secret) && id !in w.rows
    ensures Inv(Apply(w, Rotate(id), secret), secret)
  {
    var w' := Apply(w, Rotate(id), secret);
    var replaced := MaturedIds(w.rows, w.now) != {};
    assert w'.rows.Keys == w.rows.Keys + {id};
    forall k | k in w.rows ensures w'.rows[k] == RowAfterRotation(w.rows[k], w.now, replaced) {}
    forall k | k in w'.rows ensures RowInv(w', k) {
      assert k != id ==> RowInv(w, k);
    }
    forall t | t in w.tokens ensures TokenInv(w', t, secret) {
      assert TokenInv(w, t, secret) && RowInv(w, t.kid);
    }
    forall s | s in w.selects ensures SnapInv(w', s) { assert SnapInv(w, s); }
  }

  lemma ExpireKeepsInv(w: World, secret: Secret)
    requires Inv(w, secret) && w.expiring > 0
    ensures Inv(Apply(w, ExpireAll, secret), secret)
  {
    var w' := Apply(w, ExpireAll, secret);
    forall k | k in w'.rows ensures RowInv(w', k) { assert RowInv(w, k); }
    forall t | t in w.tokens ensures TokenInv(w', t, secret) { assert TokenInv(w, t, secret); }
    forall s | s in w.selects ensures SnapInv(w', s) { assert SnapInv(w, s); }
  }

  lemma InsertKeepsInv(w: World, id: KeyId, secret: Secret)
    requires Inv(w, secret) && w.inserting > 0 && id !in w.rows
    ensures Inv(Apply(w, Insert(id), secret), secret)
  {
    var w' := Apply(w, Insert(id), secret);
    forall k | k in w'.rows ensures RowInv(w', k) { assert k != id ==> RowInv(w, k); }
    forall t | t in w.tokens ensures TokenInv(w', t, secret) { assert TokenInv(w, t, secret); }
    forall s | s in w.selects ensures SnapInv(w', s) { assert SnapInv(w, s); }
  }

  lemma ReadKeepsInv(w: World, secret: Secret)
    requires Inv(w, secret)
    ensures Inv(w.(selects := w.selects + {TakeSnapshot(w)}), secret)
  {
    var w' := w.(selects := w.selects + {TakeSnapshot(w)});
    forall k | k in w.rows ensures RowInv(w', k) { assert RowInv(w, k); }
    forall t | t in w.tokens ensures TokenInv(w', t, secret) { assert TokenInv(w, t, secret); }
    forall s | s in w.selects ensures SnapInv(w', s) { assert SnapInv(w, s); }
    forall id | id in w.wiped ensures id !in PublishedIds(w.rows) { assert RowInv(w, id); }
    assert SnapInv(w', TakeSnapshot(w));
  }

  lemma SignKeepsInv(w: World, kid: KeyId, secret: Secret)
    requires Inv(w, secret) && Enabled(w, Sign(kid), secret)
    ensures Inv(Apply(w, Sign(kid), secret), secret)
  {
    var w' := Apply(w, Sign(kid), secret);
    forall k | k in w.rows ensures RowInv(w', k) { assert RowInv(w, k); }
    forall t | t in w'.tokens ensures TokenInv(w', t, secret) {
      assert t in w.tokens ==> TokenInv(w, t, secret);
      assert RowInv(w, kid);
    }
    forall s | s in w.selects ensures SnapInv(w', s) { assert SnapInv(w, s); }
  }

  // Time, caches and processes that only started to boot leave rows, tokens and selects alone.
  lemma ElseKeepsInv(w: World, w': World, secret: Secret)
    requires Inv(w, secret) && w.now <= w'.now && forall p :: p in w'.caches ==> w'.caches[p].snap in w.selects
    requires w' == w.(now := w'.now, caches := w'.caches, expiring := w'.expiring, inserting := w'.inserting)
    ensures Inv(w', secret)
  {
    forall k | k in w.rows ensures RowInv(w', k) { assert RowInv(w, k); }
    forall t | t in w.tokens ensures TokenInv(w', t, secret) { assert TokenInv(w, t, secret); }
    forall s | s in w.selects ensures SnapInv(w', s) { assert SnapInv(w, s); }
  }

  lemma StepKeepsInv(w: World, e: Event, secret: Secret)
    requires Inv(w, secret) && Enabled(w, e, secret)
    ensures Inv(Apply(w, e, secret), secret)
  {
    match e
    case Rotate(id) => RotateKeepsInv(w, id, secret);
    case ExpireAll => ExpireKeepsInv(w, secret);
    case Insert(id) => InsertKeepsInv(w, id, secret);
    case Read => ReadKeepsInv(w, secret);
    case Sign(kid) => SignKeepsInv(w, kid, secret);
    case Tick(_) => ElseKeepsInv(w, Apply(w, e, secret), secret);
    case TryRow(_) => ElseKeepsInv(w, Apply(w, e, secret), secret);
    case Bust(_) => ElseKeepsInv(w, Apply(w, e, secret), secret);
    case Store(_, _) => ElseKeepsInv(w, Apply(w, e, secret), secret);
  }

  lemma {:induction false} RunKeepsInv(w: World, es: seq<Event>, secret: Secret)
    requires Inv(w, secret) && ValidRun(w, es, secret)
    ensures Inv(Run(w, es, secret), secret)
    decreases |es|
  {
    if es != [] {
      StepKeepsInv(w, es[0], secret);
      RunKeepsInv(Apply(w, es[0], secret), es[1..], secret);
    }
  }

  // ---------------------------------------------------------------------------
  // The steps of a run that matter
  // ---------------------------------------------------------------------------

  lemma {:induction false} RunTake(w: World, es: seq<Event>, n: nat, secret: Secret)
    requires ValidRun(w, es, secret) && n <= |es|
    ensures ValidRun(w, es[..n], secret)
    decreases n
  {
    if n > 0 {
      RunTake(Apply(w, es[0], secret), es[1..], n - 1, secret);
      assert es[..n][1..] == es[1..][..n - 1];
    }
  }

  /** Step `i` expires all active rows, and `id` is one of them. */
  ghost predicate WipesAt(w: World, es: seq<Event>, i: nat, id: KeyId, secret: Secret) {
    && i < |es| && es[i].ExpireAll? && ValidRun(w, es[..i], secret)
    && id in IdsIn(Run(w, es[..i], secret).rows, Active)
  }

  /** Step `j` is a SELECT that sees `snap`. */
  ghost predicate ReadsAt(w: World, es: seq<Event>, j: nat, snap: Snapshot, secret: Secret) {
    && j < |es| && es[j].Read? && ValidRun(w, es[..j], secret)
    && snap == TakeSnapshot(Run(w, es[..j], secret))
  }

  lemma FirstStep(w: World, es: seq<Event>, secret: Secret)
    requires es != [] && ValidRun(w, es, secret)
    ensures ValidRun(w, es[..0], secret) && Run(w, es[..0], secret) == w
    ensures forall k: nat :: k < |es| - 1 && ValidRun(Apply(w, es[0], secret), es[1..][..k], secret) ==>
              ValidRun(w, es[..k + 1], secret)
              && Run(w, es[..k + 1], secret) == Run(Apply(w, es[0], secret), es[1..][..k], secret)
  {
    assert es[..0] == [];
    forall k: nat | k < |es| - 1 ensures es[..k + 1][1..] == es[1..][..k] {}
  }

  /** What `wiped` holds beyond what it held at first: the rows some expire-all step found active. */
  lemma {:induction false} WipedIff(w: World, es: seq<Event>, id: KeyId, secret: Secret)
    requires ValidRun(w, es, secret)
    ensures id in Run(w, es, secret).wiped <==> id in w.wiped || exists i :: WipesAt(w, es, i, id, secret)
    decreases |es|
  {
    if es != [] {
      var w1, rest := Apply(w, es[0], secret), es[1..];
      WipedIff(w1, rest, id, secret);
      FirstStep(w, es, secret);
      if k: nat :| WipesAt(w1, rest, k, id, secret) {
        assert WipesAt(w, es, k + 1, id, secret);
      } else if id in w1.wiped && id !in w.wiped {
        assert WipesAt(w, es, 0, id, secret);
      }
      if i: nat :| WipesAt(w, es, i, id, secret) && id !in w1.wiped {
        RunTake(w1, rest, i - 1, secret);
        assert es[..i][1..] == rest[..i - 1];
        assert WipesAt(w1, rest, i - 1, id, secret);
      }
    }
  }

  /** Every SELECT of a run was read at some step of it. */
  lemma {:induction false} SelectHasStep(w: World, es: seq<Event>, snap: Snapshot, secret: Secret)
    requires ValidRun(w, es, secret) && snap in Run(w, es, secret).selects && snap !in w.selects
    ensures exists j :: ReadsAt(w, es, j, snap, secret)
    decreases |es|
  {
    if es != [] {
      var w1, rest := Apply(w, es[0], secret), es[1..];
      FirstStep(w, es, secret);
      if snap in w1.selects {
        assert ReadsAt(w, es, 0, snap, secret);
      } else {
        SelectHasStep(w1, rest, snap, secret);
        var k: nat :| ReadsAt(w1, rest, k, snap, secret);
        assert ReadsAt(w, es, k + 1, snap, secret);
      }
    }
  }

  // ---------------------------------------------------------------------------
  // Main results
  // ---------------------------------------------------------------------------

  /** During a token's life, a served key set holds its key if and only if the rows were read after
      the key's row was inserted and before any expire-all step that found it active. */
  lemma VerifiesIff(start: World, es: seq<Event>, secret: Secret, t: Token, snap: Snapshot)
    requires Start(start) && ValidRun(start, es, secret)
    requires var w := Run(start, es, secret);
             t in w.tokens && w.now <= t.signedAt + TOKEN_LIFETIME_MS && Served(w, snap)
    ensures t.kid in snap.keys <==> t.kid in snap.present && t.kid !in snap.wiped
    ensures exists j :: ReadsAt(start, es, j, snap, secret)
    ensures forall j: nat :: ReadsAt(start, es, j, snap, secret) ==>
              (t.kid in snap.wiped <==> exists i: nat :: i < j && WipesAt(start, es, i, t.kid, secret))
  {
    RunKeepsInv(start, es, secret);
    var w := Run(start, es, secret);
    assert SnapInv(w, snap);
    SelectHasStep(start, es, snap, secret);
    forall j: nat | ReadsAt(start, es, j, snap, secret)
      ensures t.kid in snap.wiped <==> exists i: nat :: i < j && WipesAt(start, es, i, t.kid, secret)
    {
      WipedBefore(start, es, j, t.kid, secret);
    }
  }

  lemma WipedBefore(start: World, es: seq<Event>, j: nat, id: KeyId, secret: Secret)
    requires Start(start) && j <= |es| && ValidRun(start, es[..j], secret)
    ensures id in Run(start, es[..j], secret).wiped <==> exists i: nat :: i < j && WipesAt(start, es, i, id, secret)
  {
    WipedIff(start, es[..j], id, secret);
    forall i: nat | i < j ensures WipesAt(start, es[..j], i, id, secret) <==> WipesAt(start, es, i, id, secret) {
      assert es[..j][..i] == es[..i];
    }
  }

  /** The claim of the cache, exactly: for a key that waited its 60 s as Pending, a live token is
      accepted by every process from rows at most 60 s old, if and only if no booting process
      expired the key before those rows were read. */
  lemma TokenVerifiesIff(start: World, es: seq<Event>, secret: Secret, t: Token, snap: Snapshot)
    requires Start(start) && ValidRun(start, es, secret)
    requires var w := Run(start, es, secret);
             && t in w.tokens && t.kid in w.waited && w.now <= t.signedAt + TOKEN_LIFETIME_MS
             && Served(w, snap) && w.now - snap.readAt <= PUBLIC_KEY_CACHE_TTL_MS
    ensures exists j :: ReadsAt(start, es, j, snap, secret)
    ensures forall j: nat :: ReadsAt(start, es, j, snap, secret) ==>
              (t.kid in snap.keys <==> !exists i: nat :: i < j && WipesAt(start, es, i, t.kid, secret))
  {
    RunKeepsInv(start, es, secret);
    var w := Run(start, es, secret);
    assert TokenInv(w, t, secret) && SnapInv(w, snap);
    VerifiesIff(start, es, secret, t, snap);
  }

  /** A token is signed by a key no booting process has expired, so what refuses it comes later. */
  lemma WipedAfterSigning(start: World, before: seq<Event>, kid: KeyId, secret: Secret)
    requires Start(start) && ValidRun(start, before, secret) && Enabled(Run(start, before, secret), Sign(kid), secret)
    ensures !exists i: nat :: WipesAt(start, before, i, kid, secret)
  {
    RunKeepsInv(start, before, secret);
    assert RowInv(Run(start, before, secret), kid);
    WipedIff(start, before, kid, secret);
  }

  /** States are one-way: a row never becomes pending again, and an expired one never returns. */
  ghost function Rank(s: KeyState): nat {
    match s case Pending => 0 case Active => 1 case Retiring => 2 case Expired => 3
  }

  lemma {:induction false} StatesAreOneWay(w: World, es: seq<Event>, secret: Secret, id: KeyId)
    requires ValidRun(w, es, secret) && id in w.rows
    ensures var w' := Run(w, es, secret);
            && id in w'.rows && Rank(w.rows[id].state) <= Rank(w'.rows[id].state)
            && w'.rows[id].secret == w.rows[id].secret && w'.rows[id].createdAt == w.rows[id].createdAt
    decreases |es|
  {
    if es != [] {
      var w1 := Apply(w, es[0], secret);
      assert id in w1.rows && Rank(w.rows[id].state) <= Rank(w1.rows[id].state);
      StatesAreOneWay(w1, es[1..], secret, id);
    }
  }

  // ---------------------------------------------------------------------------
  // The end of a retired key
  // ---------------------------------------------------------------------------

  lemma {:induction false} RunSplit(w: World, es: seq<Event>, n: nat, secret: Secret)
    requires ValidRun(w, es, secret) && n <= |es|
    ensures ValidRun(w, es[..n], secret) && ValidRun(Run(w, es[..n], secret), es[n..], secret)
    ensures Run(Run(w, es[..n], secret), es[n..], secret) == Run(w, es, secret)
    decreases n
  {
    if n == 0 {
      assert es[..0] == [] && es[0..] == es;
    } else {
      RunSplit(Apply(w, es[0], secret), es[1..], n - 1, secret);
      assert es[..n][1..] == es[1..][..n - 1] && es[n..] == es[1..][n - 1..];
    }
  }

  /** Step `j` is a rotation later than `due`. */
  ghost predicate RotatesAfter(w: World, es: seq<Event>, j: nat, due: int, secret: Secret) {
    && j < |es| && es[j].Rotate? && ValidRun(w, es[..j], secret)
    && Run(w, es[..j], secret).now > due
  }

  // One step of a retiring row.
  lemma RetiringStep(w: World, e: Event, id: KeyId, due: int, secret: Secret)
    requires Enabled(w, e, secret) && id in w.rows
    requires w.rows[id].state.Retiring? && w.rows[id].expiresAt == Some(due)
    ensures var row := Apply(w, e, secret).rows[id];
            row.expiresAt == Some(due) && row.state == if e.Rotate? && w.now > due then Expired else Retiring
  {
  }

  /** A retiring row is expired at the end of a run if and only if some rotation came after its
      deadline, and otherwise it is still retiring. */
  lemma {:induction false} RetiringUntilDue(w: World, es: seq<Event>, id: KeyId, due: int, secret: Secret)
    requires ValidRun(w, es, secret) && id in w.rows
    requires w.rows[id].state.Retiring? && w.rows[id].expiresAt == Some(due)
    ensures id in Run(w, es, secret).rows
    ensures Run(w, es, secret).rows[id].state ==
              if exists j: nat :: RotatesAfter(w, es, j, due, secret) then Expired else Retiring
    decreases |es|
  {
    if es != [] {
      var w1, rest := Apply(w, es[0], secret), es[1..];
      FirstStep(w, es, secret);
      RetiringStep(w, es[0], id, due, secret);
      if es[0].Rotate? && w.now > due {
        assert RotatesAfter(w, es, 0, due, secret);
        StatesAreOneWay(w1, rest, secret, id);
      } else {
        RetiringUntilDue(w1, rest, id, due, secret);
        forall j: nat | RotatesAfter(w, es, j, due, secret) ensures j > 0 && RotatesAfter(w1, rest, j - 1, due, secret) {
          RunTake(w1, rest, j - 1, secret);
          assert es[..j][1..] == rest[..j - 1];
        }
        if k: nat :| RotatesAfter(w1, rest, k, due, secret) {
          assert RotatesAfter(w, es, k + 1, due, secret);
        }
      }
    }
  }

  /** Step `i` is a rotation that retires row `id`. */
  ghost predicate RetiresAt(w: World, es: seq<Event>, i: nat, id: KeyId, secret: Secret) {
    && i < |es| && es[i].Rotate? && ValidRun(w, es[..i], secret) && Enabled(Run(w, es[..i], secret), es[i], secret)
    && id in IdsIn(Run(w, es[..i], secret).rows, Active)
    && id in IdsIn(Apply(Run(w, es[..i], secret), es[i], secret).rows, Retiring)
  }

  // The steps from `m` to `k`, counted from `m` and from the start.
  lemma LaterSteps(w: World, es: seq<Event>, m: nat, k: nat, due: int, secret: Secret)
    requires ValidRun(w, es, secret) && m <= k <= |es|
    ensures ValidRun(w, es[..m], secret) && ValidRun(Run(w, es[..m], secret), es[m..k], secret)
    ensures ValidRun(w, es[..k], secret) && Run(Run(w, es[..m], secret), es[m..k], secret) == Run(w, es[..k], secret)
    ensures (exists j: nat :: RotatesAfter(Run(w, es[..m], secret), es[m..k], j, due, secret)) <==>
            exists j: nat :: m <= j < k && RotatesAfter(w, es, j, due, secret)
  {
    RunTake(w, es, k, secret);
    RunSplit(w, es[..k], m, secret);
    assert es[..k][..m] == es[..m] && es[..k][m..] == es[m..k];
    var mid := Run(w, es[..m], secret);
    if j: nat :| RotatesAfter(mid, es[m..k], j, due, secret) {
      LaterStep(w, es, m, k, j, due, secret);
      assert m <= m + j < k;
    }
    if j: nat :| m <= j < k && RotatesAfter(w, es, j, due, secret) {
      LaterStep(w, es, m, k, j - m, due, secret);
    }
  }

  lemma LaterStep(w: World, es: seq<Event>, m: nat, k: nat, j: nat, due: int, secret: Secret)
    requires ValidRun(w, es, secret) && m + j < k <= |es|
    requires ValidRun(w, es[..m], secret) && ValidRun(Run(w, es[..m], secret), es[m..k], secret)
    ensures RotatesAfter(Run(w, es[..m], secret), es[m..k], j, due, secret) <==> RotatesAfter(w, es, m + j, due, secret)
  {
    RunTake(w, es, m + j, secret);
    RunSplit(w, es[..m + j], m, secret);
    assert es[..m + j][..m] == es[..m] && es[..m + j][m..] == es[m..k][..j];
    assert es[m..k][j] == es[m + j];
  }

  lemma RetiresWithGrace(w: World, es: seq<Event>, i: nat, id: KeyId, secret: Secret)
    requires RetiresAt(w, es, i, id, secret) && ValidRun(w, es[..i + 1], secret)
    ensures var rows := Run(w, es[..i + 1], secret).rows;
            id in rows && rows[id].state.Retiring? && rows[id].expiresAt == Some(Run(w, es[..i], secret).now + 600_000)
  {
    var before := Run(w, es[..i], secret);
    RunSnoc(w, es[..i], es[i], secret);
    assert es[..i + 1] == es[..i] + [es[i]];
    RotationRows(before.rows, before.now, es[i].id, secret);
  }

  /** A key that some rotation retired is in the rows a later SELECT sees if and only if no rotation
      in between came more than ten minutes after that one. */
  lemma RetiredKeyIsReadIff(w: World, es: seq<Event>, i: nat, k: nat, id: KeyId, snap: Snapshot, secret: Secret)
    requires ValidRun(w, es, secret) && RetiresAt(w, es, i, id, secret) && i < k && ReadsAt(w, es, k, snap, secret)
    ensures var due := Run(w, es[..i], secret).now + 600_000;
            id in snap.keys <==> !exists j: nat :: i < j < k && RotatesAfter(w, es, j, due, secret)
  {
    var due := Run(w, es[..i], secret).now + 600_000;
    RunTake(w, es, i + 1, secret);
    RetiresWithGrace(w, es, i, id, secret);
    LaterSteps(w, es, i + 1, k, due, secret);
    RetiringUntilDue(Run(w, es[..i + 1], secret), es[i + 1..k], id, due, secret);
  }

  // ---------------------------------------------------------------------------
  // Where the comment on the cache claims more
  // ---------------------------------------------------------------------------

  /** Some run, from any start, ends in `w`. */
  ghost predicate Reached(w: World, secret: Secret) {
    exists start, es: seq<Event> :: Start(start) && ValidRun(start, es, secret) && Run(start, es, secret) == w
  }

  lemma {:induction false} RunSnoc(w: World, es: seq<Event>, e: Event, secret: Secret)
    requires ValidRun(w, es, secret) && Enabled(Run(w, es, secret), e, secret)
    ensures ValidRun(w, es + [e], secret) && Run(w, es + [e], secret) == Apply(Run(w, es, secret), e, secret)
    decreases |es|
  {
    if es == [] {
      assert es + [e] == [e] && [e][1..] == [];
    } else {
      assert (es + [e])[1..] == es[1..] + [e];
      RunSnoc(Apply(w, es[0], secret), es[1..], e, secret);
    }
  }

  lemma Begin(w: World, secret: Secret)
    requires Start(w)
    ensures Reached(w, secret)
  {
    assert ValidRun(w, [], secret) && Run(w, [], secret) == w;
  }

  lemma Step(w: World, e: Event, secret: Secret)
    requires Reached(w, secret) && Enabled(w, e, secret)
    ensures Reached(Apply(w, e, secret), secret)
  {
    var start, es: seq<Event> :| Start(start) && ValidRun(start, es, secret) && Run(start, es, secret) == w;
    RunSnoc(start, es, e, secret);
  }

  /** Token `t` is live while some process serves, from rows at most 60 s old, a set without its key. */
  ghost predicate Rejected(w: World, t: Token) {
    && t in w.tokens && w.now <= t.signedAt + TOKEN_LIFETIME_MS
    && exists snap :: Served(w, snap) && w.now - snap.readAt <= PUBLIC_KEY_CACHE_TTL_MS && t.kid !in snap.keys
  }

  /** A key that `ensureSigningKey` makes active at once is missing from a set another process
      cached just before. */
  lemma BootKeyCanBeMissed()
    ensures exists w, t :: Reached(w, 7) && Rejected(w, t) && t.kid !in w.wiped
  {
    var w0 := World(0, map[], {}, map[], {}, {}, {}, 0, 0);
    Begin(w0, 7);
    Step(w0, Read, 7);
    var w1 := Apply(w0, Read, 7);
    assert IdsIn(w1.rows, Active) == {};
    Step(w1, TryRow(None), 7);
    var w2 := Apply(w1, TryRow(None), 7);
    Step(w2, Insert(1), 7);
    var w3 := Apply(w2, Insert(1), 7);
    Step(w3, Sign(1), 7);
    var w4 := Apply(w3, Sign(1), 7);
    assert TakeSnapshot(w0) in w4.selects;
    assert Served(w4, TakeSnapshot(w0)) && Rejected(w4, Token(1, 0));
  }

  // A table of active row 1 under the secret and active row 2 under an older one, and a token of row 1.
  function TwoActives(): World {
    World(0, map[1 := NewKey(7, 0, Active), 2 := NewKey(6, 0, Active)], {}, map[], {Token(1, 0)}, {}, {}, 0, 0)
  }

  lemma ReadAfterExpiry(w: World, t: Token)
    requires Reached(w, 7) && w.expiring > 0 && t in w.tokens && w.now <= t.signedAt + TOKEN_LIFETIME_MS
    requires t.kid in IdsIn(w.rows, Active)
    ensures exists w' :: Reached(w', 7) && Rejected(w', t) && w'.waited == w.waited && t.kid in w'.wiped
  {
    Step(w, ExpireAll, 7);
    var w1 := Apply(w, ExpireAll, 7);
    Step(w1, Read, 7);
    var w2 := Apply(w1, Read, 7);
    assert t.kid !in TakeSnapshot(w1).keys;
    assert Served(w2, TakeSnapshot(w1)) && Rejected(w2, t);
  }

  /** The row `ensureSigningKey` tries need not be the one that signs: a usable active row is expired
      with an unusable one, and its live tokens are refused. */
  lemma UsableKeyIsExpired()
    ensures exists w, t :: Reached(w, 7) && Rejected(w, t) && t.kid in w.wiped
  {
    var w0 := TwoActives().(tokens := {});
    assert IdsIn(w0.rows, Pending) == {};
    Begin(w0, 7);
    Step(w0, Sign(1), 7);
    assert Apply(w0, Sign(1), 7) == TwoActives();
    Step(TwoActives(), TryRow(Some(2)), 7);
    ReadAfterExpiry(Apply(TwoActives(), TryRow(Some(2)), 7), Token(1, 0));
  }

  /** A rotation that promotes a key between the try and the expiry loses that key, although it waited
      its 60 s: its live tokens are refused. */
  lemma PromotedKeyIsExpired()
    ensures exists w, t :: Reached(w, 7) && Rejected(w, t) && t.kid in w.waited && t.kid in w.wiped
  {
    var rows := map[1 := NewKey(7, 0, Pending), 2 := NewKey(6, 0, Active)];
    var w0 := World(60_001, rows, {}, map[], {}, {1}, {}, 0, 0);
    assert IdsIn(rows, Pending) == {1};
    Begin(w0, 7);
    Step(w0, TryRow(Some(2)), 7);
    PromotedThenExpired(w0.(expiring := 1), rows);
  }

  lemma PromotedThenExpired(w: World, rows: Table)
    requires rows == map[1 := NewKey(7, 0, Pending), 2 := NewKey(6, 0, Active)]
    requires w == World(60_001, rows, {}, map[], {}, {1}, {}, 1, 0) && Reached(w, 7)
    ensures exists w', t :: Reached(w', 7) && Rejected(w', t) && t.kid in w'.waited && t.kid in w'.wiped
  {
    Step(w, Rotate(3), 7);
    var w1 := Apply(w, Rotate(3), 7);
    assert 1 in MaturedIds(rows, 60_001);
    SignThenExpire(w1, 1);
  }

  lemma SignThenExpire(w: World, kid: KeyId)
    requires Reached(w, 7) && w.expiring > 0 && Enabled(w, Sign(kid), 7)
    ensures exists w', t :: Reached(w', 7) && Rejected(w', t) && t.kid == kid && w'.waited == w.waited && kid in w'.wiped
  {
    Step(w, Sign(kid), 7);
    ReadAfterExpiry(Apply(w, Sign(kid), 7), Token(kid, w.now));
  }

  /** Two processes that boot together: the second expires the key the first one made. */
  lemma BootsExpireEachOther()
    ensures exists w, t :: Reached(w, 7) && Rejected(w, t) && t.kid in w.wiped && t.kid !in w.waited
  {
    var w0 := World(0, map[2 := NewKey(6, 0, Active)], {}, map[], {}, {}, {}, 0, 0);
    assert IdsIn(w0.rows, Pending) == {};
    Begin(w0, 7);
    Step(w0, TryRow(Some(2)), 7);
    Step(w0.(expiring := 1), TryRow(Some(2)), 7);
    FirstBootDone(w0.(expiring := 2));
  }

  lemma FirstBootDone(w: World)
    requires w == World(0, map[2 := NewKey(6, 0, Active)], {}, map[], {}, {}, {}, 2, 0) && Reached(w, 7)
    ensures exists w', t :: Reached(w', 7) && Rejected(w', t) && t.kid in w'.wiped && t.kid !in w'.waited
  {
    Step(w, ExpireAll, 7);
    var w3 := Apply(w, ExpireAll, 7);
    Step(w3, Insert(1), 7);
    SignThenExpire(Apply(w3, Insert(1), 7), 1);
  }

  /** A rotated key that is missing from a cache entry still within its TTL. */
  ghost predicate FreshEntryLacksRotatedKey(w: World) {
    exists t, p ::
      && t in w.tokens && t.kid in w.waited && t.kid !in w.wiped && w.now <= t.signedAt + TOKEN_LIFETIME_MS
      && p in w.caches && w.now - w.caches[p].cachedAt < PUBLIC_KEY_CACHE_TTL_MS
      && t.kid !in w.caches[p].snap.keys
  }

  /** When the query took 2 ms the rows are older than the entry, and a rotation barely more than
      60 s after the last one is enough. */
  lemma SlowQueryCanMissRotatedKey()
    ensures exists w :: Reached(w, 7) && FreshEntryLacksRotatedKey(w)
  {
    var empty := Snapshot(0, {}, {}, {});
    var w0 := World(0, map[], {}, map[], {}, {}, {}, 0, 0);
    Begin(w0, 7);
    Step(w0, Read, 7);
    var w1 := Apply(w0, Read, 7);
    assert TakeSnapshot(w0) == empty && w1.selects == {empty};
    Step(w1, Rotate(1), 7);
    var w2 := Apply(w1, Rotate(1), 7);
    Step(w2, Tick(2), 7);
    var w3 := Apply(w2, Tick(2), 7);
    Step(w3, Store(2, empty), 7);
    var w4 := World(2, map[1 := NewKey(7, 0, Pending)], {empty}, map[2 := Entry(empty, 2)], {}, {1}, {}, 0, 0);
    assert w3.rows == w4.rows && Apply(w3, Store(2, empty), 7) == w4;
    SlowQueryTail(w4, empty);
  }

  lemma SlowQueryTail(w4: World, empty: Snapshot)
    requires empty == Snapshot(0, {}, {}, {}) && Reached(w4, 7)
    requires w4 == World(2, map[1 := NewKey(7, 0, Pending)], {empty}, map[2 := Entry(empty, 2)], {}, {1}, {}, 0, 0)
    ensures exists w :: Reached(w, 7) && FreshEntryLacksRotatedKey(w)
  {
    Step(w4, Tick(59_999), 7);
    var w5 := Apply(w4, Tick(59_999), 7);
    assert 1 in MaturedIds(w5.rows, w5.now);
    Step(w5, Rotate(3), 7);
    var w6 := Apply(w5, Rotate(3), 7);
    assert w6.rows == map[1 := NewKey(7, 0, Active), 3 := NewKey(7, 60_001, Pending)];
    Step(w6, Sign(1), 7);
    var w7 := Apply(w6, Sign(1), 7);
    assert Token(1, 60_001) in w7.tokens && 2 in w7.caches;
    assert FreshEntryLacksRotatedKey(w7);
  }
}
