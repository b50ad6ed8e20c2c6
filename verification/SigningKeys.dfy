/**
 The signing-key authority of Central (apps/central/src/crypto.ts).
 */
module SigningKeys {
  import opened Common

  // A row of `signing_keys` moves Pending -> Active -> Retiring -> Expired. Every process of the
  // service keeps a 60 s cache of the published key set, and a token signed by the active key
  // lives 10 minutes. Cryptography is abstract: a private key is encrypted under a secret, and it
  // decrypts under that secret only. Times are integer milliseconds of one clock.

  const PROMOTION_DELAY_MS := 60_000
  const RETIRING_GRACE_MS := 600_000
  const PUBLIC_KEY_CACHE_TTL_MS := 60_000
  const TOKEN_LIFETIME_MS := 600_000

  type Secret = nat
  type KeyId = nat

  datatype KeyState = Pending | Active | Retiring | Expired

  datatype KeyRow = KeyRow(
    secret: Secret,            // what the private key is encrypted under
    createdAt: int,
    expiresAt: Option<int>,
    state: KeyState)

  /** `signing_keys`, by primary key. */
  type Table = map<KeyId, KeyRow>

  // ---------------------------------------------------------------------------
  // What the statements say about rows
  // ---------------------------------------------------------------------------

  function IdsIn(rows: Table, state: KeyState): set<KeyId> {
    set id | id in rows && rows[id].state == state
  }

  /** `WHERE state IN ('active', 'pending', 'retiring')`. */
  function PublishedIds(rows: Table): set<KeyId> {
    set id | id in rows && !rows[id].state.Expired?
  }

  /** `state = 'pending' AND created_at < now() - interval '60 seconds'`. */
  predicate Matured(row: KeyRow, now: int) {
    row.state.Pending? && row.createdAt < now - PROMOTION_DELAY_MS
  }

  function MaturedIds(rows: Table, now: int): set<KeyId> {
    set id | id in rows && Matured(rows[id], now)
  }

  /** `state = 'retiring' AND expires_at < now()`; a NULL deadline never compares. */
  predicate PastGrace(row: KeyRow, now: int) {
    row.state.Retiring? && row.expiresAt.Some? && row.expiresAt.value < now
  }

  function NewKey(secret: Secret, now: int, state: KeyState): KeyRow {
    KeyRow(secret, now, None, state)
  }

  /** What one rotation does to one row, in a single reading of the row. */
  function RowAfterRotation(row: KeyRow, now: int, replaced: bool): KeyRow {
    if PastGrace(row, now) then row.(state := Expired)
    else if Matured(row, now) then row.(state := Active)
    else if row.state.Active? && replaced then
      row.(state := Retiring, expiresAt := Some(now + RETIRING_GRACE_MS))
    else row
  }

  /** The table after a committed rotation that inserts row `newId`. */
  function Rotated(rows: Table, now: int, newId: KeyId, secret: Secret): Table {
    var replaced := MaturedIds(rows, now) != {};
    (map id | id in rows :: RowAfterRotation(rows[id], now, replaced))[newId := NewKey(secret, now, Pending)]
  }

  function ActivesExpired(rows: Table): Table {
    map id | id in rows :: if rows[id].state.Active? then rows[id].(state := Expired) else rows[id]
  }

  /** The table after an `ensureSigningKey` that found no usable row. */
  function Repaired(rows: Table, now: int, newId: KeyId, secret: Secret): Table {
    ActivesExpired(rows)[newId := NewKey(secret, now, Active)]
  }

  /** `ORDER BY created_at DESC LIMIT 1` may return row `id` among the active rows. */
  predicate IsPick(rows: Table, id: KeyId) {
    && id in rows && rows[id].state.Active?
    && forall k :: k in rows && rows[k].state.Active? ==> rows[k].createdAt <= rows[id].createdAt
  }

  // ---------------------------------------------------------------------------
  // The statements of the source, over the database they update
  // ---------------------------------------------------------------------------

  lemma NewestActiveExists(rows: Table, actives: set<KeyId>)
    requires actives != {} && actives <= IdsIn(rows, Active)
    ensures exists id :: id in actives && forall k :: k in actives ==> rows[k].createdAt <= rows[id].createdAt
  {
    var x :| x in actives;
    if actives - {x} != {} {
      NewestActiveExists(rows, actives - {x});
      var y :| y in actives - {x} && forall k :: k in actives - {x} ==> rows[k].createdAt <= rows[y].createdAt;
      var best := if rows[x].createdAt <= rows[y].createdAt then y else x;
      forall k | k in actives ensures rows[k].createdAt <= rows[best].createdAt {
        if k != x { assert k in actives - {x}; }
      }
    } else {
      assert actives == {x};
    }
  }

  datatype Delta = Delta(server: nat, version: nat)

  class Database {
    var keys: Table
    var serverSync: map<nat, nat>
    var serverDeltas: seq<Delta>

    constructor ()
      ensures keys == map[] && serverSync == map[] && serverDeltas == []
    {
      keys, serverSync, serverDeltas := map[], map[], [];
    }

    /** Bump every server's version and leave a placeholder delta at the new version. */
    method BumpSyncForKeyChange()
      modifies this`serverSync, this`serverDeltas
      ensures serverSync == Bumped(old(serverSync))
      ensures serverSync.Keys == old(serverSync).Keys && forall s :: s in serverSync ==> serverSync[s] == old(serverSync)[s] + 1
      ensures DeltasAdded(old(serverDeltas), serverDeltas, serverSync)
    {
      var bumped := Bumped(serverSync);
      serverSync := bumped;
      ghost var before := serverDeltas;
      var pending := bumped.Keys;
      while pending != {}
        invariant pending <= bumped.Keys && serverSync == bumped
        invariant before <= serverDeltas
        invariant forall s :: s in bumped.Keys - pending ==> Delta(s, bumped[s]) in serverDeltas[|before|..]
        invariant forall d :: d in serverDeltas[|before|..] ==> d.server in bumped && d.version == bumped[d.server]
        decreases pending
      {
        var s :| s in pending;
        ghost var added := serverDeltas[|before|..];
        serverDeltas := serverDeltas + [Delta(s, bumped[s])];
        assert serverDeltas[|before|..] == added + [Delta(s, bumped[s])];
        pending := pending - {s};
      }
    }

    // Step 1 of the rotation.
    method ExpireRetiring(now: int)
      modifies this`keys
      ensures keys == map id | id in old(keys) ::
                        if PastGrace(old(keys)[id], now) then old(keys)[id].(state := Expired) else old(keys)[id]
    {
      var rows := keys;
      keys := map id | id in rows :: if PastGrace(rows[id], now) then rows[id].(state := Expired) else rows[id];
    }

    // Step 2, `RETURNING id`.
    method PromoteMatured(now: int) returns (promoted: set<KeyId>)
      modifies this`keys
      ensures promoted == MaturedIds(old(keys), now)
      ensures keys == map id | id in old(keys) ::
                        if Matured(old(keys)[id], now) then old(keys)[id].(state := Active) else old(keys)[id]
    {
      var rows := keys;
      promoted := MaturedIds(rows, now);
      keys := map id | id in rows :: if Matured(rows[id], now) then rows[id].(state := Active) else rows[id];
    }

    // Step 3: `state = 'active' AND id <> ALL(promoted)`.
    method RetireActives(now: int, except: set<KeyId>)
      modifies this`keys
      ensures keys == map id | id in old(keys) ::
                        if old(keys)[id].state.Active? && id !in except
                        then old(keys)[id].(state := Retiring, expiresAt := Some(now + RETIRING_GRACE_MS))
                        else old(keys)[id]
    {
      var rows := keys;
      keys := map id | id in rows ::
        if rows[id].state.Active? && id !in except
        then rows[id].(state := Retiring, expiresAt := Some(now + RETIRING_GRACE_MS))
        else rows[id];
    }
  }

  function Bumped(sync: map<nat, nat>): map<nat, nat> {
    map s | s in sync :: sync[s] + 1
  }

  /** Exactly one kind of new delta per server: at the version that server now has. */
  ghost predicate DeltasAdded(before: seq<Delta>, after: seq<Delta>, sync: map<nat, nat>) {
    && before <= after
    && (forall s :: s in sync ==> Delta(s, sync[s]) in after[|before|..])
    && (forall d :: d in after[|before|..] ==> d.server in sync && d.version == sync[d.server])
  }

  /** What `ensureSigningKey` finds. */
  datatype Tried = Usable | Unusable | NoneActive

  datatype CacheEntry = CacheEntry(keys: set<KeyId>, cachedAt: int)

  /** One process of Central: the module variable and the environment's secret. */
  class Process {
    const db: Database
    const secret: Option<Secret>
    var publicKeyCache: Option<CacheEntry>

    constructor (db: Database, secret: Option<Secret>)
      ensures this.db == db && this.secret == secret && publicKeyCache == None
    {
      this.db, this.secret, publicKeyCache := db, secret, None;
    }

    // `ensureSigningKey` up to its first await: one active row, no matter which, is tried.
    method TryActive() returns (r: Tried)
      ensures r.NoneActive? <==> IdsIn(db.keys, Active) == {}
      ensures r.Usable? ==> exists k :: k in IdsIn(db.keys, Active) && secret == Some(db.keys[k].secret)
      ensures r.Unusable? ==> exists k :: k in IdsIn(db.keys, Active) && secret != Some(db.keys[k].secret)
    {
      var actives := IdsIn(db.keys, Active);
      if actives == {} {
        return NoneActive;
      }
      var row :| row in actives;  // LIMIT 1, no ORDER BY
      return if secret == Some(db.keys[row].secret) then Usable else Unusable;
    }

    // Its UPDATE, after a row that does not decrypt. Every active row goes, the usable ones too.
    method ExpireActives()
      modifies db`keys
      ensures db.keys == ActivesExpired(old(db.keys))
      ensures db.keys.Keys == old(db.keys).Keys
      ensures forall id :: id in db.keys ==>
                var was := old(db.keys)[id];
                db.keys[id] == if was.state == Active then was.(state := Expired) else was
    {
      db.keys := ActivesExpired(db.keys);
    }

    // The rest: a new active row, unless the environment carries no secret, where the source throws.
    method InsertActive(now: int, newId: KeyId) returns (ok: bool)
      requires newId !in db.keys
      modifies db
      ensures ok <==> secret.Some?
      ensures ok ==>
                && db.keys == old(db.keys)[newId := NewKey(secret.value, now, Active)]
                && db.serverSync == Bumped(old(db.serverSync))
                && DeltasAdded(old(db.serverDeltas), db.serverDeltas, db.serverSync)
      ensures !ok ==> db.keys == old(db.keys) && db.serverSync == old(db.serverSync) && db.serverDeltas == old(db.serverDeltas)
    {
      if secret.None? {
        return false;
      }
      db.keys := db.keys[newId := NewKey(secret.value, now, Active)];
      db.BumpSyncForKeyChange();
      return true;
    }

    /** `ensureSigningKey` when nothing comes between its steps. `newId` is the primary key the
        database draws for an inserted row. */
    method EnsureSigningKey(now: int, newId: KeyId) returns (ok: bool)
      requires newId !in db.keys
      modifies db
      ensures ok <==> secret.Some?
      // Nothing changes only if some active row decrypts.
      ensures ok ==>
                || (db.keys == old(db.keys) && db.serverSync == old(db.serverSync) && db.serverDeltas == old(db.serverDeltas)
                    && exists k :: k in IdsIn(db.keys, Active) && secret == Some(db.keys[k].secret))
                || (db.keys == Repaired(old(db.keys), now, newId, secret.value)
                    && db.serverSync == Bumped(old(db.serverSync))
                    && DeltasAdded(old(db.serverDeltas), db.serverDeltas, db.serverSync)
                    && (IdsIn(old(db.keys), Active) == {} ||
                        exists k :: k in IdsIn(old(db.keys), Active) && secret != Some(old(db.keys)[k].secret)))
      // Without a secret every active row is expired and no row replaces it.
      ensures !ok ==> db.keys == ActivesExpired(old(db.keys)) && db.serverSync == old(db.serverSync)
    {
      var tried := TryActive();
      if tried.Usable? {
        return true;
      }
      if tried.Unusable? {
        ExpireActives();
      } else {
        assert ActivesExpired(db.keys) == db.keys by {
          assert forall id :: id in db.keys ==> id !in IdsIn(db.keys, Active);
        }
      }
      ok := InsertActive(now, newId);
    }

    /** `commits` is false when the database rolls the transaction back. */
    method RotateSigningKey(now: int, newId: KeyId, commits: bool) returns (ok: bool)
      requires newId !in db.keys
      modifies db, this`publicKeyCache
      ensures ok <==> secret.Some? && commits
      ensures ok ==>
                && db.keys == Rotated(old(db.keys), now, newId, secret.value)
                && db.serverSync == Bumped(old(db.serverSync))
                && DeltasAdded(old(db.serverDeltas), db.serverDeltas, db.serverSync)
                && publicKeyCache == None
      ensures !ok ==>
                && db.keys == old(db.keys) && db.serverSync == old(db.serverSync)
                && db.serverDeltas == old(db.serverDeltas) && publicKeyCache == old(publicKeyCache)
    {
      if secret.None? || !commits {
        return false;
      }
      db.ExpireRetiring(now);
      var promoted := db.PromoteMatured(now);
      assert promoted == MaturedIds(old(db.keys), now);
      if |promoted| > 0 {
        // Excluding the promoted ids keeps the row just promoted from being retired at once.
        db.RetireActives(now, promoted);
      }
      db.keys := db.keys[newId := NewKey(secret.value, now, Pending)];
      assert db.keys == Rotated(old(db.keys), now, newId, secret.value);
      db.BumpSyncForKeyChange();
      publicKeyCache := None;
      return true;
    }

    /** `None` where the source returns null; `Some((id, ok))` with `ok` false where decrypting throws. */
    method GetActiveSigningKey() returns (r: Option<(KeyId, bool)>)
      ensures r.None? <==> IdsIn(db.keys, Active) == {}
      ensures r.Some? ==> IsPick(db.keys, r.value.0) && (r.value.1 <==> secret == Some(db.keys[r.value.0].secret))
    {
      if IdsIn(db.keys, Active) == {} {
        return None;
      }
      NewestActiveExists(db.keys, IdsIn(db.keys, Active));
      var id :| id in db.keys && IsPick(db.keys, id);
      return Some((id, secret == Some(db.keys[id].secret)));
    }

    /** A hit answers from the cache; a miss reads the table and refills it. `doneAt` is the
        clock once the query has returned. */
    method GetPublicKeys(now: int, doneAt: int) returns (keys: set<KeyId>)
      modifies this`publicKeyCache
      ensures var hit := old(publicKeyCache).Some? && now - old(publicKeyCache).value.cachedAt < 60_000;
              && (hit ==> keys == old(publicKeyCache).value.keys && publicKeyCache == old(publicKeyCache))
              && (!hit ==> publicKeyCache == Some(CacheEntry(keys, doneAt))
                           && keys == set id | id in db.keys && db.keys[id].state in {Active, Pending, Retiring})
    {
      if publicKeyCache.Some? && now - publicKeyCache.value.cachedAt < PUBLIC_KEY_CACHE_TTL_MS {
        return publicKeyCache.value.keys;
      }
      keys := PublishedIds(db.keys);
      publicKeyCache := Some(CacheEntry(keys, doneAt));
    }
  }

  // ---------------------------------------------------------------------------
  // One rotation, and runs of rotations
  // ---------------------------------------------------------------------------

  /** Who signs and who waits after a rotation: matured rows take over signing if there are any. */
  lemma RotationStates(rows: Table, now: int, newId: KeyId, secret: Secret)
    requires newId !in rows
    ensures var after := Rotated(rows, now, newId, secret);
            var matured := MaturedIds(rows, now);
            && (forall id :: id in matured <==> id in rows && rows[id].state == Pending && rows[id].createdAt + 60_000 < now)
            && IdsIn(after, Active) == (if matured == {} then IdsIn(rows, Active) else matured)
            && IdsIn(after, Pending) == IdsIn(rows, Pending) - matured + {newId}
  {
    var after, matured := Rotated(rows, now, newId, secret), MaturedIds(rows, now);
    assert after.Keys == rows.Keys + {newId};
    forall id | id in rows ensures after[id] == RowAfterRotation(rows[id], now, matured != {}) {}
    if matured == {} {
      forall id | id in rows ensures !Matured(rows[id], now) {
        assert id !in matured;
      }
    }
  }

  /** Who retires and who is done: the rows that signed retire when matured ones take over, and a
      retiring row is expired by the first rotation after its deadline. */
  lemma RotationDeadlines(rows: Table, now: int, newId: KeyId, secret: Secret)
    requires newId !in rows
    ensures var after := Rotated(rows, now, newId, secret);
            var over := set id | id in rows && rows[id].state == Retiring && rows[id].expiresAt.Some? && rows[id].expiresAt.value < now;
            && IdsIn(after, Retiring) == IdsIn(rows, Retiring) - over + (if MaturedIds(rows, now) == {} then {} else IdsIn(rows, Active))
            && IdsIn(after, Expired) == IdsIn(rows, Expired) + over
  {
    var after := Rotated(rows, now, newId, secret);
    assert after.Keys == rows.Keys + {newId};
    forall id | id in rows ensures after[id] == RowAfterRotation(rows[id], now, MaturedIds(rows, now) != {}) {}
  }

  /** And the rows: a row that retires has ten minutes from now, and nothing else about a row changes. */
  lemma RotationRows(rows: Table, now: int, newId: KeyId, secret: Secret)
    requires newId !in rows
    ensures var after := Rotated(rows, now, newId, secret);
            && after.Keys == rows.Keys + {newId} && after[newId] == KeyRow(secret, now, None, Pending)
            && forall id :: id in rows ==>
                 var retires := rows[id].state == Active && after[id].state == Retiring;
                 after[id] == rows[id].(state := after[id].state,
                                        expiresAt := if retires then Some(now + 600_000) else rows[id].expiresAt)
  {
    assert Rotated(rows, now, newId, secret).Keys == rows.Keys + {newId};
  }

  /** A rotation of a run: when it commits and the row it inserts. */
  datatype Rotation = Rotation(at: int, newId: KeyId)

  ghost predicate FreshRotations(rows: Table, rs: seq<Rotation>) {
    && (forall i :: 0 <= i < |rs| ==> rs[i].newId !in rows)
    && (forall i, j :: 0 <= i < j < |rs| ==> rs[i].newId != rs[j].newId)
  }

  ghost function RotatedAll(rows: Table, rs: seq<Rotation>, secret: Secret): Table
    decreases |rs|
  {
    if rs == [] then rows else RotatedAll(Rotated(rows, rs[0].at, rs[0].newId, secret), rs[1..], secret)
  }

  lemma {:induction false} RotatedSnoc(rows: Table, rs: seq<Rotation>, secret: Secret)
    requires rs != []
    ensures var before, last := rs[..|rs| - 1], rs[|rs| - 1];
            RotatedAll(rows, rs, secret) == Rotated(RotatedAll(rows, before, secret), last.at, last.newId, secret)
    decreases |rs|
  {
    if |rs| > 1 {
      RotatedSnoc(Rotated(rows, rs[0].at, rs[0].newId, secret), rs[1..], secret);
      assert rs[1..][..|rs| - 2] == rs[..|rs| - 1][1..];
    }
  }

  lemma {:induction false} RotatedKeys(rows: Table, rs: seq<Rotation>, id: KeyId, secret: Secret)
    requires id !in rows && forall i :: 0 <= i < |rs| ==> rs[i].newId != id
    ensures id !in RotatedAll(rows, rs, secret)
    decreases |rs|
  {
    if rs != [] {
      RotatedKeys(Rotated(rows, rs[0].at, rs[0].newId, secret), rs[1..], id, secret);
    }
  }

  /** The `i`-th rotation of a run retires row `id`. */
  ghost predicate RetiredBy(rows: Table, rs: seq<Rotation>, i: nat, id: KeyId, secret: Secret) {
    && i < |rs|
    && id in IdsIn(RotatedAll(rows, rs[..i], secret), Active)
    && id in IdsIn(RotatedAll(rows, rs[..i + 1], secret), Retiring)
  }

  // A retiring row with a deadline in one rotation.
  lemma RetiringAfter(rows: Table, now: int, newId: KeyId, id: KeyId, secret: Secret)
    requires newId !in rows
    ensures var after := Rotated(rows, now, newId, secret);
            && (id in rows && rows[id].state.Expired? ==> after[id].state.Expired?)
            && (id in rows && rows[id].state.Retiring? && rows[id].expiresAt.Some? ==>
                  after[id].state == if rows[id].expiresAt.value < now then Expired else Retiring)
  {
  }

  /** The grace is exactly ten minutes: after more rotations a retired row is expired, and published
      no more, if and only if one of them came later than that. */
  lemma {:induction false} RetiredForTenMinutes(rows: Table, rs: seq<Rotation>, i: nat, id: KeyId, secret: Secret)
    requires FreshRotations(rows, rs) && RetiredBy(rows, rs, i, id, secret)
    ensures var after := RotatedAll(rows, rs, secret);
            var graceOver := exists j :: i < j < |rs| && rs[j].at > rs[i].at + 600_000;
            && id in after
            && after[id].state == (if graceOver then Expired else Retiring)
            && after[id].expiresAt == Some(rs[i].at + 600_000)
            && (id in PublishedIds(after) <==> !graceOver)
    decreases |rs|
  {
    var before, last := rs[..|rs| - 1], rs[|rs| - 1];
    RotatedSnoc(rows, rs, secret);
    RotatedKeys(rows, before, last.newId, secret);
    RotationRows(RotatedAll(rows, before, secret), last.at, last.newId, secret);
    RetiringAfter(RotatedAll(rows, before, secret), last.at, last.newId, id, secret);
    assert rs[..|rs|] == rs;
    if i + 1 < |rs| {
      assert before[..i] == rs[..i] && before[..i + 1] == rs[..i + 1];
      RetiredForTenMinutes(rows, before, i, id, secret);
      assert forall j :: i < j < |rs| ==> j == |rs| - 1 || before[j] == rs[j];
      if last.at > rs[i].at + 600_000 {
        assert rs[|rs| - 1] == last;
      }
    }
  }

  /** Rotations never leave the service without an active key. */
  lemma {:induction false} RotationsKeepAnActiveKey(rows: Table, rs: seq<Rotation>, secret: Secret)
    requires IdsIn(rows, Active) != {} && FreshRotations(rows, rs)
    ensures IdsIn(RotatedAll(rows, rs, secret), Active) != {}
    decreases |rs|
  {
    if rs != [] {
      RotationStates(rows, rs[0].at, rs[0].newId, secret);
      RotationsKeepAnActiveKey(Rotated(rows, rs[0].at, rs[0].newId, secret), rs[1..], secret);
    }
  }

  /** One active key, and at most one pending key, which is older than `last` allows. */
  ghost predicate SteadyState(rows: Table, last: int) {
    && |IdsIn(rows, Active)| == 1
    && |IdsIn(rows, Pending)| <= 1
    && forall id :: id in rows && rows[id].state.Pending? ==> rows[id].createdAt <= last
  }

  ghost predicate SpacedOut(rs: seq<Rotation>, last: int) {
    && (rs != [] ==> last + PROMOTION_DELAY_MS < rs[0].at)
    && forall i :: 0 < i < |rs| ==> rs[i - 1].at + PROMOTION_DELAY_MS < rs[i].at
  }

  lemma SpacedStep(rows: Table, last: int, now: int, newId: KeyId, secret: Secret)
    requires SteadyState(rows, last) && newId !in rows && last + PROMOTION_DELAY_MS < now
    ensures SteadyState(Rotated(rows, now, newId, secret), now)
  {
    var after := Rotated(rows, now, newId, secret);
    RotationStates(rows, now, newId, secret);
    assert MaturedIds(rows, now) == IdsIn(rows, Pending);
    assert IdsIn(after, Pending) == {newId};
    if IdsIn(rows, Pending) != {} {
      var p :| p in IdsIn(rows, Pending);
      SingletonOf(IdsIn(rows, Pending), p);
    }
    forall id | id in after && after[id].state.Pending? ensures after[id].createdAt <= now {
      assert id in IdsIn(after, Pending);
    }
  }

  /** Rotations more than 60 s apart keep exactly one active key and at most one pending key. */
  lemma {:induction false} SpacedRotationsKeepOneActiveKey(rows: Table, last: int, rs: seq<Rotation>, secret: Secret)
    requires SteadyState(rows, last) && FreshRotations(rows, rs) && SpacedOut(rs, last)
    ensures |IdsIn(RotatedAll(rows, rs, secret), Active)| == 1
    ensures |IdsIn(RotatedAll(rows, rs, secret), Pending)| <= 1
    decreases |rs|
  {
    if rs != [] {
      var after := Rotated(rows, rs[0].at, rs[0].newId, secret);
      SpacedStep(rows, last, rs[0].at, rs[0].newId, secret);
      SpacedRotationsKeepOneActiveKey(after, rs[0].at, rs[1..], secret);
    }
  }

  lemma SingletonOf<T>(s: set<T>, x: T)
    requires x in s && |s| <= 1
    ensures s == {x}
  {
    assert |s - {x}| == |s| - 1;
  }

  /** What the boot of an empty database leaves, and so every spaced run after it. */
  lemma StartedEmpty(bootAt: int, bootId: KeyId, rs: seq<Rotation>, secret: Secret)
    requires var rows := map[bootId := NewKey(secret, bootAt, Active)];
             FreshRotations(rows, rs) && forall i :: 0 < i < |rs| ==> rs[i - 1].at + PROMOTION_DELAY_MS < rs[i].at
    ensures var rows := RotatedAll(map[bootId := NewKey(secret, bootAt, Active)], rs, secret);
            |IdsIn(rows, Active)| == 1 && |IdsIn(rows, Pending)| <= 1
  {
    var rows: Table := map[bootId := NewKey(secret, bootAt, Active)];
    assert IdsIn(rows, Active) == {bootId};
    assert IdsIn(rows, Pending) == {};
    var last := if rs == [] then bootAt else rs[0].at - PROMOTION_DELAY_MS - 1;
    SpacedRotationsKeepOneActiveKey(rows, last, rs, secret);
  }

  /** Whichever row the query returns as the signing key, it decrypts. */
  ghost predicate SignerDecrypts(rows: Table, secret: Secret) {
    forall id :: IsPick(rows, id) ==> rows[id].secret == secret
  }

  ghost predicate AllUnder(rows: Table, state: KeyState, secret: Secret) {
    forall id :: id in rows && rows[id].state == state ==> rows[id].secret == secret
  }

  /** Exactly when signing works after a rotation: the newest matured rows, or without any the
      present signer, are under the current secret. */
  lemma SignerAfterRotation(rows: Table, now: int, newId: KeyId, secret: Secret)
    requires newId !in rows
    ensures SignerDecrypts(Rotated(rows, now, newId, secret), secret) <==>
            if MaturedIds(rows, now) == {} then SignerDecrypts(rows, secret)
            else forall id :: id in rows && Matured(rows[id], now) && rows[id].secret != secret ==>
                              exists k :: k in rows && Matured(rows[k], now) && rows[k].createdAt > rows[id].createdAt
  {
    var after, matured := Rotated(rows, now, newId, secret), MaturedIds(rows, now);
    RotationStates(rows, now, newId, secret);
    forall id | id in rows
      ensures after[id].secret == rows[id].secret && after[id].createdAt == rows[id].createdAt
    {}
    if matured == {} {
      forall id ensures IsPick(after, id) <==> IsPick(rows, id) {
        assert id in IdsIn(after, Active) <==> id in IdsIn(rows, Active);
        forall k ensures (k in after && after[k].state.Active?) <==> (k in rows && rows[k].state.Active?) {
          assert k in IdsIn(after, Active) <==> k in IdsIn(rows, Active);
        }
      }
    } else {
      forall k ensures (k in after && after[k].state.Active?) <==> k in matured {
        assert k in IdsIn(after, Active) <==> k in matured;
      }
      forall id ensures IsPick(after, id) <==>
                        id in matured && !exists k :: k in rows && Matured(rows[k], now) && rows[k].createdAt > rows[id].createdAt
      {
        forall k ensures k in matured <==> k in rows && Matured(rows[k], now) {}
      }
    }
  }

  /** So without a pending row under an older secret, signing keeps working over every run. */
  lemma {:induction false} RotationsKeepSignerDecryptable(rows: Table, rs: seq<Rotation>, secret: Secret)
    requires AllUnder(rows, Active, secret) && AllUnder(rows, Pending, secret) && FreshRotations(rows, rs)
    ensures SignerDecrypts(RotatedAll(rows, rs, secret), secret)
    decreases |rs|
  {
    if rs != [] {
      var after := Rotated(rows, rs[0].at, rs[0].newId, secret);
      RotationStates(rows, rs[0].at, rs[0].newId, secret);
      forall id | id in after && (after[id].state.Active? || after[id].state.Pending?)
        ensures after[id].secret == secret
      {}
      RotationsKeepSignerDecryptable(after, rs[1..], secret);
    }
  }

  /** A pending row under an older secret survives the repair of the active ones, and the first
      rotation that promotes it alone hands signing to a row that no longer decrypts. */
  lemma OldPendingKeyBreaksSigning(rows: Table, pending: KeyId, newId: KeyId, bootAt: int, at: int, rotatedId: KeyId, secret: Secret)
    requires IdsIn(rows, Pending) == {pending} && rows[pending].secret != secret
    requires newId !in rows && rotatedId !in rows && rotatedId != newId && rows[pending].createdAt + PROMOTION_DELAY_MS < at
    ensures var repaired := Repaired(rows, bootAt, newId, secret);
            && SignerDecrypts(repaired, secret)
            && IdsIn(repaired, Pending) == {pending}
            && !SignerDecrypts(Rotated(repaired, at, rotatedId, secret), secret)
  {
    var repaired := Repaired(rows, bootAt, newId, secret);
    assert pending in IdsIn(rows, Pending);
    forall id ensures id in IdsIn(repaired, Pending) <==> id in IdsIn(rows, Pending) {}
    assert IdsIn(repaired, Pending) == {pending};
    forall id | id in MaturedIds(repaired, at) ensures id == pending {
      assert id in IdsIn(repaired, Pending);
    }
    assert pending in MaturedIds(repaired, at);
    SignerAfterRotation(repaired, at, rotatedId, secret);
    assert Matured(repaired[pending], at) && repaired[pending].secret != secret;
    forall k | k in repaired && Matured(repaired[k], at) ensures k == pending {
      assert k in MaturedIds(repaired, at);
    }
  }
}
