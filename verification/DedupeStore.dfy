/** internal/dedupe/embedded.go and sweep.go: the embedded store of seen ids. Commits are
    durable (db, Pebble's content), pending claims are leased and live in memory. Keys are
    stored keys (DedupeKey.StoredKey), times are nanoseconds. */
module DedupeStore {
  import opened Common
  import opened Bytes

  const DEFAULT_LEASE: int := 30 * SECOND
  const SWEEP_CHUNK: nat := 1024

  datatype Status = Claimed | Duplicate | InFlight
  datatype Claim = Claim(key: Bytes, status: Status, token: nat)

  datatype Pending = Pending(token: nat, expires: int)

  // A stored value: a commit with its expiry (0 = never), or a value of an older layout.
  datatype Value = Commit(exp: int) | Version0

  // committedLive and committedExpired
  predicate Live(v: Value, now: int) {
    v.Commit? && (v.exp == 0 || now < v.exp)
  }

  predicate Expired(v: Value, now: int) {
    v.Commit? && v.exp != 0 && now >= v.exp
  }

  // sweepReason is not "".
  predicate Sweepable(v: Value, now: int) {
    v.Version0? || Expired(v, now)
  }

  lemma SweepableIsDead(v: Value, now: int)
    ensures Sweepable(v, now) <==> !Live(v, now)
  {}

  // expiry
  function Expiry(now: int, retention: int): (exp: int)
    ensures retention > 0 && 0 <= now <= MAX_INT64 ==> now <= exp <= MAX_INT64
    ensures retention <= 0 ==> exp == 0
  {
    if retention <= 0 then 0
    else if retention > MAX_INT64 - now then MAX_INT64
    else now + retention
  }

  datatype Store = Store(pending: map<Bytes, Pending>, nextSweep: map<nat, int>, db: map<Bytes, Value>, tokens: nat)

  /******* One lock-protected section each *******/

  // pendingShard.sweep on key's shard: at most once a DEFAULT_LEASE, drop its lapsed claims.
  function SweptShard(shard: Bytes -> nat, st: Store, key: Bytes, now: int): (r: Store)
    ensures r.db == st.db && r.tokens == st.tokens
    ensures !(shard(key) in st.nextSweep && now < st.nextSweep[shard(key)]) ==>
      forall k :: k in r.pending && shard(k) == shard(key) ==> now < r.pending[k].expires
    ensures r.nextSweep ==
      if shard(key) in st.nextSweep && now < st.nextSweep[shard(key)] then st.nextSweep else st.nextSweep[shard(key) := now + 30 * SECOND]
    ensures r.pending.Keys <= st.pending.Keys
    ensures forall k :: k in r.pending ==> r.pending[k] == st.pending[k]
    ensures forall k :: k in st.pending && now < st.pending[k].expires ==> k in r.pending
  {
    var sh := shard(key);
    if sh in st.nextSweep && now < st.nextSweep[sh] then st
    else st.(nextSweep := st.nextSweep[sh := now + DEFAULT_LEASE],
             pending := map k | k in st.pending && (shard(k) != sh || now < st.pending[k].expires) :: st.pending[k])
  }

  predicate PendingLive(st: Store, key: Bytes, now: int) {
    key in st.pending && now < st.pending[key].expires
  }

  predicate Committed(st: Store, key: Bytes, now: int) {
    key in st.db && Live(st.db[key], now)
  }

  datatype Reserved = Reserved(store: Store, claim: Claim)

  // tenantStore.reserve
  function ReserveKey(shard: Bytes -> nat, st: Store, key: Bytes, now: int, lease: nat): (r: Reserved) {
    var s := SweptShard(shard, st, key, now);
    if PendingLive(s, key, now) then Reserved(s, Claim(key, InFlight, 0))
    else if Committed(s, key, now) then Reserved(s, Claim(key, Duplicate, 0))
    else
      Reserved(s.(tokens := s.tokens + 1, pending := s.pending[key := Pending(s.tokens + 1, now + lease)]),
               Claim(key, Claimed, s.tokens + 1))
  }

  // The batch of tenantStore.Commit: every claim's key, one value, all at once.
  function CommitWrite(st: Store, claims: seq<Claim>, exp: int): (r: Store) {
    st.(db := map k | k in st.db.Keys + KeysOf(claims) :: if k in KeysOf(claims) then Commit(exp) else st.db[k])
  }

  function KeysOf(claims: seq<Claim>): (r: set<Bytes>)
    ensures forall i :: 0 <= i < |claims| ==> claims[i].key in r
    ensures forall k :: k in r ==> exists i :: 0 <= i < |claims| && claims[i].key == k
  {
    set i | 0 <= i < |claims| :: claims[i].key
  }

  // One key of tenantStore.release.
  function DropClaim(st: Store, c: Claim): (r: Store) {
    if c.status == Claimed && c.key in st.pending && st.pending[c.key].token == c.token
    then st.(pending := st.pending - {c.key}) else st
  }

  // deleteSweepable: the re-read and the delete, under commitMu.
  function SweepDelete(st: Store, candidates: set<Bytes>, now: int): (r: Store) {
    st.(db := map k | k in st.db && !(k in candidates && Sweepable(st.db[k], now)) :: st.db[k])
  }

  /******* Sequences of them *******/

  datatype ReservedAll = ReservedAll(store: Store, claims: seq<Claim>)

  function ReserveAll(shard: Bytes -> nat, st: Store, keys: seq<Bytes>, now: int, lease: nat): (r: ReservedAll)
    ensures |r.claims| == |keys|
    ensures forall i :: 0 <= i < |keys| ==> r.claims[i].key == keys[i]
  {
    if keys == [] then ReservedAll(st, [])
    else
      var before := ReserveAll(shard, st, keys[..|keys| - 1], now, lease);
      var last := ReserveKey(shard, before.store, keys[|keys| - 1], now, lease);
      ReservedAll(last.store, before.claims + [last.claim])
  }

  function DropAll(st: Store, claims: seq<Claim>): Store {
    if claims == [] then st else DropClaim(DropAll(st, claims[..|claims| - 1]), claims[|claims| - 1])
  }

  // tenantStore.Commit at now, as a whole.
  function CommitAll(st: Store, claims: seq<Claim>, now: int, retention: int): Store {
    DropAll(CommitWrite(st, claims, Expiry(now, retention)), claims)
  }

  // What committing claims at now, kept for retention, comes to: every Claimed one is stored until
  // its time is over and pending under its token no more; whatever else is stored stays.
  ghost predicate CommittedAs(before: Store, after: Store, claims: seq<Claim>, now: int, retention: int) {
    && (forall c :: c in claims && c.status == Claimed ==>
          c.key in after.db && after.db[c.key] == Commit(if retention <= 0 then 0 else Smaller(now + retention, MAX_INT64)))
    && (forall c :: c in claims && c.status == Claimed && c.key in after.pending ==> after.pending[c.key].token != c.token)
    && (forall k :: (forall c :: c in claims && c.status == Claimed ==> c.key != k) ==>
          (k in after.db <==> k in before.db) && (k in after.db ==> after.db[k] == before.db[k]))
    && (forall k :: k in after.pending ==> k in before.pending && after.pending[k] == before.pending[k])
  }

  lemma AllCommitted(st: Store, claims: seq<Claim>, now: int, retention: int)
    requires forall c :: c in claims ==> c.status == Claimed
    ensures CommittedAs(st, CommitAll(st, claims, now, retention), claims, now, retention)
  {
    var written := CommitWrite(st, claims, Expiry(now, retention));
    var after := CommitAll(st, claims, now, retention);
    DropAllDrops(written, claims, []);
    forall k | k in after.pending ensures k in st.pending && after.pending[k] == st.pending[k] {
      DropAllDrops(written, claims, k);
    }
    forall c | c in claims ensures c.key in after.db && after.db[c.key] == Commit(if retention <= 0 then 0 else Smaller(now + retention, MAX_INT64)) {
      assert c.key in KeysOf(claims);
    }
    forall c | c in claims && c.key in after.pending ensures after.pending[c.key].token != c.token {
      DropAllDrops(written, claims, c.key);
    }
  }

  // Every claim pending beyond st's is one of claims, under its own token.
  ghost predicate OnlyAdds(st: Store, s: Store, claims: seq<Claim>) {
    && st.tokens <= s.tokens && s.db == st.db
    && forall k :: k in s.pending && s.pending[k].token > st.tokens ==>
        exists i :: 0 <= i < |claims| && claims[i] == Claim(k, Claimed, s.pending[k].token)
  }

  // What one Reserve leaves pending was there, or is its claim.
  lemma ReserveAdds(shard: Bytes -> nat, st: Store, key: Bytes, now: int, lease: nat, k: Bytes)
    requires k in ReserveKey(shard, st, key, now, lease).store.pending
    ensures var r := ReserveKey(shard, st, key, now, lease);
      (k in st.pending && r.store.pending[k] == st.pending[k]) || (k == key && r.claim == Claim(k, Claimed, r.store.pending[k].token))
  {}

  lemma {:induction false} ReserveAllAdds(shard: Bytes -> nat, st: Store, keys: seq<Bytes>, now: int, lease: nat)
    requires forall k :: k in st.pending ==> st.pending[k].token <= st.tokens
    ensures var r := ReserveAll(shard, st, keys, now, lease); OnlyAdds(st, r.store, r.claims)
  {
    if keys != [] {
      var key := keys[|keys| - 1];
      ReserveAllAdds(shard, st, keys[..|keys| - 1], now, lease);
      var b := ReserveAll(shard, st, keys[..|keys| - 1], now, lease);
      var r := ReserveAll(shard, st, keys, now, lease);
      forall k | k in r.store.pending && r.store.pending[k].token > st.tokens
        ensures exists i :: 0 <= i < |r.claims| && r.claims[i] == Claim(k, Claimed, r.store.pending[k].token)
      {
        ReserveAdds(shard, b.store, key, now, lease, k);
        if k in b.store.pending && r.store.pending[k] == b.store.pending[k] {
          var i :| 0 <= i < |b.claims| && b.claims[i] == Claim(k, Claimed, b.store.pending[k].token);
          assert r.claims[i] == b.claims[i];
        } else {
          assert r.claims[|b.claims|] == Claim(key, Claimed, r.store.pending[k].token);
        }
      }
    }
  }

  lemma {:induction false} DropAllDrops(st: Store, claims: seq<Claim>, k: Bytes)
    ensures DropAll(st, claims).(pending := st.pending) == st
    ensures k in DropAll(st, claims).pending ==>
              k in st.pending && DropAll(st, claims).pending[k] == st.pending[k]
              && forall i :: 0 <= i < |claims| ==> claims[i] != Claim(k, Claimed, st.pending[k].token)
    ensures k in st.pending && k !in DropAll(st, claims).pending ==>
              exists i :: 0 <= i < |claims| && claims[i] == Claim(k, Claimed, st.pending[k].token)
  {
    if claims != [] {
      DropAllDrops(st, claims[..|claims| - 1], k);
      var b := DropAll(st, claims[..|claims| - 1]);
      var c := claims[|claims| - 1];
      if k in st.pending && k !in DropAll(st, claims).pending {
        if k in b.pending {
          assert c == Claim(k, Claimed, st.pending[k].token);
        } else {
          var i :| 0 <= i < |claims| - 1 && claims[..|claims| - 1][i] == Claim(k, Claimed, st.pending[k].token);
          assert claims[i] == Claim(k, Claimed, st.pending[k].token);
        }
      }
    }
  }

  // A claim that is running is left alone, and every claim handed out has a new token.
  lemma {:induction false} ReserveSpares(shard: Bytes -> nat, st: Store, keys: seq<Bytes>, now: int, lease: nat, k: Bytes)
    ensures var r := ReserveAll(shard, st, keys, now, lease);
      && (PendingLive(st, k, now) ==> k in r.store.pending && r.store.pending[k] == st.pending[k])
      && r.store.tokens >= st.tokens && forall c :: c in r.claims && c.status == Claimed ==> c.token > st.tokens
  {
    if keys != [] {
      var n := |keys| - 1;
      ReserveSpares(shard, st, keys[..n], now, lease, k);
      var b := ReserveAll(shard, st, keys[..n], now, lease);
      ReserveLeaves(shard, b.store, keys[n], now, lease);
      ClaimedExactlyWhen(shard, b.store, keys[n], now, lease);
    }
  }

  // A Reserve that fails leaves every claim that was running.
  lemma {:induction false} UndoneSpares(shard: Bytes -> nat, st: Store, keys: seq<Bytes>, now: int, lease: nat, s: Store, k: Bytes)
    requires k in st.pending && st.pending[k].token <= st.tokens && now < st.pending[k].expires
    requires var r := ReserveAll(shard, st, keys, now, lease).store; k in r.pending && now < r.pending[k].expires ==> k in s.pending && s.pending[k] == r.pending[k]
    ensures var u := DropAll(s, ReserveAll(shard, st, keys, now, lease).claims); k in u.pending && u.pending[k] == st.pending[k]
  {
    var claims := ReserveAll(shard, st, keys, now, lease).claims;
    ReserveSpares(shard, st, keys, now, lease, k);
    DropAllDrops(s, claims, k);
    assert forall i :: 0 <= i < |claims| ==> claims[i] in claims;
  }

  // A Reserve that fails gives back every claim it made, whatever lapsed meanwhile.
  lemma {:induction false} ReserveUndone(shard: Bytes -> nat, st: Store, keys: seq<Bytes>, now: int, lease: nat, s: Store)
    requires forall k :: k in st.pending ==> st.pending[k].token <= st.tokens
    requires var r := ReserveAll(shard, st, keys, now, lease).store;
             s.db == r.db && s.pending.Keys <= r.pending.Keys && forall k :: k in s.pending ==> s.pending[k] == r.pending[k]
    ensures var u := DropAll(s, ReserveAll(shard, st, keys, now, lease).claims);
            u.db == st.db && forall k :: k in u.pending ==> u.pending[k].token <= st.tokens
  {
    var r := ReserveAll(shard, st, keys, now, lease);
    var u := DropAll(s, r.claims);
    ReserveAllAdds(shard, st, keys, now, lease);
    DropAllDrops(s, r.claims, []);
    forall k | k in u.pending ensures u.pending[k].token <= st.tokens {
      DropAllDrops(s, r.claims, k);
    }
  }

  // A commit at now kept for retention answers Duplicate for all of it and no longer, or for good
  // where there is no retention; past the end of int64 it lasts until that.
  lemma CommitLasts(shard: Bytes -> nat, st: Store, claims: seq<Claim>, k: Bytes, now: int, retention: int, t: int, lease: nat)
    requires k in KeysOf(claims) && 0 <= now <= t
    requires !PendingLive(CommitAll(st, claims, now, retention), k, t)
    ensures var status := ReserveKey(shard, CommitAll(st, claims, now, retention), k, t, lease).claim.status;
      && (retention <= 0 ==> status == Duplicate)
      && (0 < retention <= MAX_INT64 - now ==> (status == Duplicate <==> t < now + retention))
      && (retention > MAX_INT64 - now && retention > 0 ==> (status == Duplicate <==> t < MAX_INT64))
  {
    DropAllDrops(CommitWrite(st, claims, Expiry(now, retention)), claims, k);
    ClaimedExactlyWhen(shard, CommitAll(st, claims, now, retention), k, t, lease);
  }

  // What one Reserve does besides its answer: a claim is pending under a new token until now plus
  // the lease, and nothing else comes or changes.
  lemma ReserveLeaves(shard: Bytes -> nat, st: Store, key: Bytes, now: int, lease: nat)
    ensures var r := ReserveKey(shard, st, key, now, lease);
      && r.store.db == st.db && r.claim.key == key
      && (r.claim.status == Claimed ==> key in r.store.pending && r.store.pending[key] == Pending(r.claim.token, now + lease))
      && (r.claim.status == Claimed ==> r.claim.token == r.store.tokens > st.tokens)
      && (r.claim.status != Claimed ==> r.store.tokens == st.tokens && r.store.pending.Keys <= st.pending.Keys)
      && (forall k :: k in r.store.pending && (k != key || r.claim.status != Claimed) ==> k in st.pending && r.store.pending[k] == st.pending[k])
      && (forall k :: k in st.pending && now < st.pending[k].expires && (k != key || r.claim.status != Claimed) ==> k in r.store.pending)
  {}

  lemma PrefixDistinct(keys: seq<Bytes>, n: nat)
    requires n <= |keys| && forall i, j :: 0 <= i < j < |keys| ==> keys[i] != keys[j]
    ensures forall i, j :: 0 <= i < j < n ==> keys[..n][i] != keys[..n][j]
  {}

  // The answer k gets by itself.
  predicate AnsweredAlone(st: Store, k: Bytes, now: int, status: Status) {
    && (status == InFlight <==> PendingLive(st, k, now))
    && (status == Duplicate <==> !PendingLive(st, k, now) && Committed(st, k, now))
  }

  // A Reserve of other keys makes no difference to k.
  lemma {:induction false} OthersReserved(shard: Bytes -> nat, st: Store, keys: seq<Bytes>, now: int, lease: nat, k: Bytes)
    requires k !in keys
    ensures var r := ReserveAll(shard, st, keys, now, lease).store; r.db == st.db && PendingLive(r, k, now) == PendingLive(st, k, now)
  {
    if keys != [] {
      var n := |keys| - 1;
      OthersReserved(shard, st, keys[..n], now, lease, k);
      ReserveLeaves(shard, ReserveAll(shard, st, keys[..n], now, lease).store, keys[n], now, lease);
    }
  }

  // Of different keys each gets the answer it would have got alone.
  lemma {:induction false} EachAnsweredAlone(shard: Bytes -> nat, st: Store, keys: seq<Bytes>, now: int, lease: nat, i: nat)
    requires i < |keys| && forall i, j :: 0 <= i < j < |keys| ==> keys[i] != keys[j]
    ensures AnsweredAlone(st, keys[i], now, ReserveAll(shard, st, keys, now, lease).claims[i].status)
  {
    var n := |keys| - 1;
    PrefixDistinct(keys, n);
    if i < n {
      EachAnsweredAlone(shard, st, keys[..n], now, lease, i);
    } else {
      OthersReserved(shard, st, keys[..n], now, lease, keys[n]);
      ClaimedExactlyWhen(shard, ReserveAll(shard, st, keys[..n], now, lease).store, keys[n], now, lease);
    }
  }

  // Exactly when Reserve hands out a claim.
  lemma ClaimedExactlyWhen(shard: Bytes -> nat, st: Store, key: Bytes, now: int, lease: nat)
    ensures var c := ReserveKey(shard, st, key, now, lease).claim;
            && (c.status == Claimed <==> !PendingLive(st, key, now) && !Committed(st, key, now))
            && (c.status == Duplicate <==> !PendingLive(st, key, now) && Committed(st, key, now))
            && (c.status == InFlight <==> PendingLive(st, key, now))
  {}

  // Commit is unconditional: a claimant whose lease lapsed can land a commit that expires
  // before the one already there, and the key is then handed out again while the longer
  // retention is still running. At time 3 request C claims a key B committed until 102.
  lemma LateCommitShortensRetention(shard: Bytes -> nat, k: Bytes)
    ensures var s0 := Store(map[], map[], map[], 0);
            var a := ReserveKey(shard, s0, k, 0, 1);                   // A claims until 1
            var b := ReserveKey(shard, a.store, k, 2, 10);             // B re-claims at 2
            var sb := DropAll(CommitWrite(b.store, [b.claim], Expiry(2, 100)), [b.claim]);
            var sa := DropAll(CommitWrite(sb, [a.claim], Expiry(2, 1)), [a.claim]);
            && a.claim.status == Claimed && b.claim.status == Claimed
            && ReserveKey(shard, sb, k, 3, 10).claim.status == Duplicate
            && ReserveKey(shard, sa, k, 3, 10).claim.status == Claimed
  {
    var s0 := Store(map[], map[], map[], 0);
    var a := ReserveKey(shard, s0, k, 0, 1);
    var b := ReserveKey(shard, a.store, k, 2, 10);
    ClaimedExactlyWhen(shard, a.store, k, 2, 10);
    assert DropAll(CommitWrite(b.store, [b.claim], 102), [b.claim]) == DropClaim(CommitWrite(b.store, [b.claim], 102), b.claim) by {
      assert [b.claim][..0] == [];
    }
    var sb := DropAll(CommitWrite(b.store, [b.claim], 102), [b.claim]);
    assert k !in sb.pending && sb.db[k] == Commit(102);
    ClaimedExactlyWhen(shard, sb, k, 3, 10);
    var w := CommitWrite(sb, [a.claim], 3);
    assert DropAll(w, [a.claim]) == DropClaim(w, a.claim) by {
      assert [a.claim][..0] == [];
    }
    assert w.db[k] == Commit(3) && k !in w.pending;
    ClaimedExactlyWhen(shard, DropAll(w, [a.claim]), k, 3, 10);
  }

  // Expiries, 0 being never.
  predicate NoEarlier(x: int, e: int) {
    x == 0 || (e != 0 && x >= e)
  }

  // At t, within a retention that ends at e, the key is handed out.
  predicate Reopens(shard: Bytes -> nat, st: Store, k: Bytes, now: int, e: int, t: int, lease: nat) {
    now <= t && (e == 0 || t < e) && ReserveKey(shard, st, k, t, lease).claim.status == Claimed
  }

  // A late commit, of a claim whose pending entry is gone, reopens a key within an earlier
  // commit's retention exactly when it expires earlier.
  lemma {:induction false} LateCommitReopensExactlyWhen(shard: Bytes -> nat, st: Store, claims: seq<Claim>, k: Bytes, x: int, e: int, now: int, lease: nat)
    requires k in KeysOf(claims) && k !in st.pending && (e == 0 || now < e)
    ensures (exists t :: Reopens(shard, DropAll(CommitWrite(st, claims, x), claims), k, now, e, t, lease)) <==> !NoEarlier(x, e)
  {
    var after := DropAll(CommitWrite(st, claims, x), claims);
    DropAllDrops(CommitWrite(st, claims, x), claims, k);
    assert k !in after.pending && after.db[k] == Commit(x);
    forall t ensures Reopens(shard, after, k, now, e, t, lease) <==> now <= t && (e == 0 || t < e) && x != 0 && x <= t {
      ClaimedExactlyWhen(shard, after, k, t, lease);
    }
    if !NoEarlier(x, e) {
      assert Reopens(shard, after, k, now, e, Larger(now, x), lease);
    }
  }

  /******* The objects *******/

  // A clock that never goes back.
  class Clock {
    var t: int

    method Now() returns (n: int)
      modifies this
      ensures n == t && t >= old(t)
    {
      var d: nat :| d >= 0;
      t := t + d;
      n := t;
    }
  }

  method Least(s: set<Bytes>) returns (m: Bytes)
    requires s != {}
    ensures m in s && forall k :: k in s ==> Leq(m, k)
  {
    m :| m in s;
    var rest := s - {m};
    while rest != {}
      invariant rest <= s && m in s
      invariant forall k :: k in s - rest ==> Leq(m, k)
      decreases rest
    {
      var x :| x in rest;
      LessTotal(x, m);
      if Less(x, m) {
        forall k | k in s - rest ensures Leq(x, k) {
          LeqTransitive(x, m, k);
        }
        m := x;
      }
      rest := rest - {x};
    }
  }

  class Embedded {
    const shard: Bytes -> nat
    var pending: map<Bytes, Pending>
    var nextSweep: map<nat, int>
    var db: map<Bytes, Value>
    var tokens: nat

    constructor (shard: Bytes -> nat, db: map<Bytes, Value>)
      ensures this.shard == shard && State() == Store(map[], map[], db, 0)
    {
      this.shard, this.db := shard, db;
      pending, nextSweep, tokens := map[], map[], 0;
    }

    function State(): Store
      reads this
    {
      Store(pending, nextSweep, db, tokens)
    }

    // Tokens only ever grow, so a pending claim never carries one yet to be handed out.
    ghost predicate Valid()
      reads this
    {
      forall k :: k in pending ==> pending[k].token <= tokens
    }

    method ReserveOne(key: Bytes, now: int, lease: nat, readFails: bool) returns (r: Result<Claim>)
      requires Valid()
      modifies this
      ensures Valid()
      ensures r.Ok? ==> Reserved(State(), r.value) == ReserveKey(shard, old(State()), key, now, lease)
      ensures r.Err? <==> readFails && !PendingLive(old(State()), key, now)
      ensures r.Err? ==> State() == SweptShard(shard, old(State()), key, now)
    {
      var s := SweptShard(shard, State(), key, now);
      pending, nextSweep := s.pending, s.nextSweep;
      if key in pending && now < pending[key].expires {
        return Ok(Claim(key, InFlight, 0));
      }
      if readFails {
        return Err;
      }
      if key in db && Live(db[key], now) {
        return Ok(Claim(key, Duplicate, 0));
      }
      tokens := tokens + 1;
      pending := pending[key := Pending(tokens, now + lease)];
      return Ok(Claim(key, Claimed, tokens));
    }

    // Reserve reads the clock once and claims the keys in order; a failed read gives back
    // what it had claimed.
    method Reserve(keys: seq<Bytes>, now: int, lease: nat, readFails: seq<bool>) returns (r: Result<seq<Claim>>)
      requires Valid() && |readFails| == |keys|
      modifies this
      ensures Valid()
      ensures r.Ok? ==> ReservedAll(State(), r.value) == ReserveAll(shard, old(State()), keys, now, lease)
      ensures r.Err? ==> db == old(db) && forall k :: k in pending ==> pending[k].token <= old(tokens)
      ensures r.Err? ==> forall k :: k in old(pending) && now < old(pending)[k].expires ==> k in pending && pending[k] == old(pending)[k]
      ensures (forall i :: 0 <= i < |keys| ==> !readFails[i]) ==> r.Ok?
    {
      var claims: seq<Claim> := [];
      for i := 0 to |keys|
        invariant Valid() && tokens >= old(tokens)
        invariant ReservedAll(State(), claims) == ReserveAll(shard, old(State()), keys[..i], now, lease)
      {
        var c := ReserveOne(keys[i], now, lease, readFails[i]);
        if c.Err? {
          ReserveUndone(shard, old(State()), keys[..i], now, lease, State());
          forall k | k in old(pending) && now < old(pending)[k].expires
            ensures var u := DropAll(State(), claims); k in u.pending && u.pending[k] == old(pending)[k]
          {
            UndoneSpares(shard, old(State()), keys[..i], now, lease, State(), k);
          }
          Release(claims);
          return Err;
        }
        assert keys[..i + 1][..i] == keys[..i];
        claims := claims + [c.value];
      }
      assert keys[..|keys|] == keys;
      return Ok(claims);
    }

    // The batch lands whole, then the pending entries go: in that order.
    method Commit(claims: seq<Claim>, now: int, retention: int, writeFails: bool) returns (ok: bool)
      requires Valid()
      modifies this
      ensures Valid() && ok == !writeFails
      ensures ok && (forall c :: c in claims ==> c.status == Claimed) ==> CommittedAs(old(State()), State(), claims, now, retention)
      ensures State() == if ok then CommitAll(old(State()), claims, now, retention) else old(State())
    {
      if writeFails {
        return false;
      }
      var exp := Expiry(now, retention);
      var batch := db;
      for i := 0 to |claims|
        invariant batch == CommitWrite(old(State()), claims[..i], exp).db
      {
        assert KeysOf(claims[..i + 1]) == KeysOf(claims[..i]) + {claims[i].key} by {
          assert forall j :: 0 <= j < i ==> claims[..i + 1][j] == claims[..i][j];
          assert claims[..i + 1][i] == claims[i];
        }
        batch := batch[claims[i].key := Value.Commit(exp)];
      }
      assert claims[..|claims|] == claims;
      db := batch;
      Release(claims);
      if forall c :: c in claims ==> c.status == Claimed {
        AllCommitted(old(State()), claims, now, retention);
      }
      return true;
    }

    method Release(claims: seq<Claim>)
      requires Valid()
      modifies this
      ensures Valid() && State() == DropAll(old(State()), claims)
    {
      for i := 0 to |claims|
        invariant Valid() && State() == DropAll(old(State()), claims[..i])
      {
        var c := claims[i];
        assert claims[..i + 1][..i] == claims[..i];
        if c.status == Claimed && c.key in pending && pending[c.key].token == c.token {
          pending := pending - {c.key};
        }
      }
      assert claims[..|claims|] == claims;
    }

    /******* The sweep *******/

    // The next SWEEP_CHUNK keys from from on: the sweepable ones, and where the next chunk
    // starts. A key is read unless it comes before from or at or after next.
    method SweepCandidates(from: Bytes, now: int) returns (candidates: seq<Bytes>, next: Option<Bytes>)
      ensures forall k :: k in candidates <==>
                k in db && Leq(from, k) && (next.Some? ==> !Leq(next.value, k)) && Sweepable(db[k], now)
      ensures next.Some? ==> next.value in db && exists k :: k in db && Leq(from, k) && Less(k, next.value)
      ensures next.Some? ==> Leq(from, next.value)
      ensures next.Some? ==> |set k | k in db && Leq(from, k) && !Leq(next.value, k)| == 1024
    {
      candidates, next := [], None;
      var rest := set k | k in db && Leq(from, k);
      var seen := 0;
      ghost var last: Bytes := [];
      while rest != {}
        invariant rest <= db.Keys && forall k :: k in rest ==> Leq(from, k)
        invariant forall k, m :: k in db && Leq(from, k) && k !in rest && m in rest ==> Less(k, m)
        invariant forall k :: k in candidates <==> k in db && Leq(from, k) && k !in rest && Sweepable(db[k], now)
        invariant seen > 0 ==> last in db && Leq(from, last) && last !in rest
        invariant seen == |set k | k in db && Leq(from, k) && k !in rest|
        decreases rest
      {
        var k := Least(rest);
        if seen == SWEEP_CHUNK {
          next := Some(k);
          forall m | m in db && Leq(from, m) ensures m in rest <==> Leq(k, m) {
            if m !in rest {
              LessTotal(m, k);
            }
          }
          assert (set m | m in db && Leq(from, m) && !Leq(k, m)) == set m | m in db && Leq(from, m) && m !in rest;
          return;
        }
        assert (set m | m in db && Leq(from, m) && m !in rest - {k}) == (set m | m in db && Leq(from, m) && m !in rest) + {k};
        seen, last := seen + 1, k;
        if Sweepable(db[k], now) {
          candidates := candidates + [k];
        }
        forall m | m in rest - {k} ensures Less(k, m) {
          assert Leq(k, m);
        }
        rest := rest - {k};
      }
    }

    method DeleteSweepable(candidates: seq<Bytes>, now: int)
      modifies this`db
      ensures db == SweepDelete(old(State()), (set k | k in candidates), now).db
    {
      var batch: set<Bytes> := {};
      for i := 0 to |candidates|
        invariant batch == set k | k in candidates[..i] && k in db && Sweepable(db[k], now)
      {
        var k := candidates[i];
        assert candidates[..i + 1] == candidates[..i] + [k];
        if k in db && Sweepable(db[k], now) {
          batch := batch + {k};
        }
      }
      assert candidates[..|candidates|] == candidates;
      db := map k | k in db && k !in batch :: db[k];
    }

    // A chunk reads without commitMu, then re-reads and deletes under it; the clock is read
    // again for the re-read. What is sweepable at the first reading still is at the second.
    method SweepNextChunk(from: Bytes, clock: Clock) returns (next: Option<Bytes>, ghost now: int)
      modifies this`db, clock
      ensures old(clock.t) <= now <= clock.t
      ensures forall k :: k in db <==> k in old(db) && !(InChunk(from, next, k) && Sweepable(old(db)[k], now))
      ensures forall k :: k in db ==> db[k] == old(db)[k]
      ensures next.Some? ==> exists k :: k in old(db) && InChunk(from, next, k)
      ensures next.Some? ==> Leq(from, next.value)
    {
      var read := clock.Now();
      now := read;
      var candidates;
      candidates, next := SweepCandidates(from, read);
      if next.Some? {
        ghost var first :| first in db && Leq(from, first) && Less(first, next.value);
        LessTotal(first, next.value);
        assert InChunk(from, next, first);
      }
      if |candidates| > 0 {
        var reread := clock.Now();
        DeleteSweepable(candidates, reread);
      }
    }

    // One complete pass with no Commit in between. at[k] is when the pass read key k.
    method Sweep(clock: Clock) returns (ghost at: map<Bytes, int>)
      modifies this`db, clock
      ensures at.Keys == old(db.Keys)
      ensures forall k :: k in at ==> old(clock.t) <= at[k] <= clock.t
      ensures forall k :: k in db ==> k in old(db) && db[k] == old(db)[k]
      ensures forall k :: k in old(db) ==> (k in db <==> !Sweepable(old(db)[k], at[k]))
    {
      at := map[];
      ghost var db0 := db;
      var from: Option<Bytes> := Some([]);
      while from.Some?
        invariant old(clock.t) <= clock.t
        invariant forall k :: k in at ==> old(clock.t) <= at[k] <= clock.t
        invariant SweptUpTo(db0, db, at, from)
        decreases if from.Some? then 1 + |db0.Keys - at.Keys| else 0
      {
        var start := from.value;
        ghost var before := db;
        var next, now := SweepNextChunk(start, clock);
        SweptFurther(db0, before, db, at, start, next, now);
        at := Stamped(db0, at, start, next, now);
        from := next;
      }
    }
  }

  // A pass has dealt with the keys before from, each as it was at at[k], and no others.
  ghost predicate SweptUpTo(db0: map<Bytes, Value>, db: map<Bytes, Value>, at: map<Bytes, int>, from: Option<Bytes>) {
    && (forall k :: k in at <==> k in db0 && (from.Some? ==> !Leq(from.value, k)))
    && (forall k :: k in db ==> k in db0 && db[k] == db0[k])
    && (forall k :: k in db0 ==> (k in db <==> !(k in at && Sweepable(db0[k], at[k]))))
  }

  ghost function Stamped(db0: map<Bytes, Value>, at: map<Bytes, int>, from: Bytes, next: Option<Bytes>, now: int): map<Bytes, int> {
    map k | k in db0 && (k in at || InChunk(from, next, k)) :: if k in at then at[k] else now
  }

  lemma SweptFurther(db0: map<Bytes, Value>, db: map<Bytes, Value>, db': map<Bytes, Value>, at: map<Bytes, int>,
                     from: Bytes, next: Option<Bytes>, now: int)
    requires SweptUpTo(db0, db, at, Some(from))
    requires forall k :: k in db' <==> k in db && !(InChunk(from, next, k) && Sweepable(db[k], now))
    requires forall k :: k in db' ==> db'[k] == db[k]
    requires next.Some? ==> Leq(from, next.value) && exists k :: k in db && InChunk(from, next, k)
    ensures SweptUpTo(db0, db', Stamped(db0, at, from, next, now), next)
    ensures next.Some? ==> |db0.Keys - Stamped(db0, at, from, next, now).Keys| < |db0.Keys - at.Keys|
  {
    var at' := Stamped(db0, at, from, next, now);
    if next.Some? {
      forall k | k in at ensures !Leq(next.value, k) {
        if Leq(next.value, k) {
          LeqTransitive(from, next.value, k);
        }
      }
      var first :| first in db && InChunk(from, next, first);
      SubsetSize(db0.Keys - at'.Keys, db0.Keys - at.Keys, first);
    }
    forall k | k in db0 ensures k in db' <==> !(k in at' && Sweepable(db0[k], at'[k])) {
      assert k in at <==> !Leq(from, k);
    }
  }

  predicate InChunk(from: Bytes, next: Option<Bytes>, k: Bytes) {
    Leq(from, k) && (next.Some? ==> !Leq(next.value, k))
  }

  lemma SubsetSize<T>(a: set<T>, b: set<T>, x: T)
    requires a <= b && x in b - a
    ensures |a| < |b|
  {
    SubsetSizeLeq(a, b - {x});
  }

  lemma {:induction false} SubsetSizeLeq<T>(a: set<T>, b: set<T>)
    requires a <= b
    ensures |a| <= |b|
  {
    if a != {} {
      var x :| x in a;
      SubsetSizeLeq(a - {x}, b - {x});
    }
  }
}
