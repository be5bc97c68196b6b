/** internal/cache/redis.go: delivering token bumps in batches. The server is what it answers to
    each key's SET (reply) and whether the breaker lets a batch through (up). */
module RedisBumps {
  import opened Common
  import opened RedisKeys
  import opened PendingBumps

  const DRAIN_BATCH: nat := 1000

  // The next batch of a map's keys, whose order is any: a full one, or all that are left.
  method NextBatch(left: set<TokenKey>) returns (batch: seq<TokenKey>, rest: set<TokenKey>)
    requires left != {}
    ensures batch != [] && rest < left && forall k :: k in batch <==> k in left && k !in rest
    ensures |batch| == |left| - |rest| && |batch| <= 1000 && (|batch| == 1000 || rest == {})
  {
    batch, rest := [], left;
    while rest != {} && |batch| < DRAIN_BATCH
      invariant rest <= left && Elements(batch) == left - rest && |batch| == |left| - |rest| && |batch| <= DRAIN_BATCH
      invariant batch == [] ==> rest == left
      invariant batch != [] ==> batch[0] in left && batch[0] !in rest
      decreases rest
    {
      var k :| k in rest;
      assert Elements(batch + [k]) == Elements(batch) + {k};
      batch, rest := batch + [k], rest - {k};
    }
    assert forall k :: k in batch <==> k in Elements(batch);
  }

  // sendBumps
  method SendBatch(batch: seq<TokenKey>, reply: TokenKey -> bool) returns (landed: seq<bool>, ok: bool)
    ensures |landed| == |batch| && forall i :: 0 <= i < |batch| ==> landed[i] == reply(batch[i])
    ensures ok <==> forall i :: 0 <= i < |batch| ==> reply(batch[i])
  {
    landed, ok := [], true;
    for i := 0 to |batch|
      invariant |landed| == i && forall j :: 0 <= j < i ==> landed[j] == reply(batch[j])
      invariant ok <==> forall j :: 0 <= j < i ==> reply(batch[j])
    {
      landed := landed + [reply(batch[i])];
      ok := ok && reply(batch[i]);
    }
  }

  // bump's batches: past one with a failure nothing more is sent. Of what was sent what the server
  // confirmed has landed, and everything else has failed.
  method SendAll(owner: set<TokenKey>, reply: TokenKey -> bool) returns (failed: set<TokenKey>, ok: bool, ghost sent: set<TokenKey>)
    ensures sent <= owner && failed <= owner && forall k :: k in owner ==> (k in failed <==> k !in sent || !reply(k))
    ensures ok <==> failed == {}
    ensures ok <==> forall k :: k in owner ==> reply(k)
    ensures sent == owner || exists k :: k in sent && !reply(k)
  {
    failed, ok, sent := {}, true, {};
    var left := owner;
    while left != {}
      invariant left <= owner && sent <= owner - left && failed <= owner - left
      invariant forall k :: k in owner - left ==> (k in failed <==> k !in sent || !reply(k))
      invariant ok ==> sent == owner - left && failed == {}
      invariant !ok ==> exists k :: k in sent && !reply(k)
      decreases left
    {
      var batch, rest := NextBatch(left);
      assert Elements(batch) == left - rest;
      if ok {
        var landed;
        landed, ok := SendBatch(batch, reply);
        failed := set j | 0 <= j < |batch| && !landed[j] :: batch[j];
        sent := sent + (left - rest);
        if !ok {
          var j :| 0 <= j < |batch| && !reply(batch[j]);
          assert batch[j] in sent;
        }
      } else {
        failed := failed + Elements(batch);
      }
      left := rest;
    }
  }

  // Nothing held is forgotten.
  ghost predicate StillHolds(p: Pending, q: Pending) {
    forall k, g: nat :: g <= p.gen && Holds(p, k, g) ==> Holds(q, k, g)
  }

  lemma DeferOne(mid: Pending, limit: nat, k: TokenKey, was: Pending)
    requires WellFormed(mid) && was.gen <= mid.gen && StillHolds(was, mid)
    ensures var q := Add(mid, limit, k.id, {k});
      && WellFormed(q) && StillHolds(was, q) && Holds(q, k, was.gen + 1)
      && StillHolds(mid, q)
  {
    var q := Add(mid, limit, k.id, {k});
    AddKeepsWellFormed(mid, limit, k.id, {k});
    AddHolds(mid, limit, k.id, {k}, k, mid.gen + 1);
    HoldsEarlier(q, k, mid.gen + 1, was.gen + 1);
    forall x, g: nat | g <= mid.gen && Holds(mid, x, g) ensures Holds(q, x, g) {
      AddHolds(mid, limit, k.id, {k}, x, g);
    }
  }

  // deferBumps: one addition per key.
  method DeferAll(p: Bumps, failed: set<TokenKey>)
    requires p.Valid() && WellFormed(p.State())
    modifies p
    ensures p.Valid() && WellFormed(p.State()) && p.gen >= old(p.gen)
    ensures forall k :: k in failed ==> Holds(p.State(), k, old(p.gen) + 1)
    ensures StillHolds(old(p.State()), p.State())
  {
    ghost var was := p.State();
    var rest := failed;
    while rest != {}
      invariant p.Valid() && WellFormed(p.State()) && p.gen >= was.gen && rest <= failed
      invariant forall k :: k in failed && k !in rest ==> Holds(p.State(), k, was.gen + 1) && was.gen < p.gen
      invariant StillHolds(was, p.State())
      decreases rest
    {
      var k :| k in rest;
      ghost var mid := p.State();
      p.AddKeys(k.id, [k]);
      assert Elements([k]) == {k};
      DeferOne(mid, p.limit, k, was);
      rest := rest - {k};
    }
  }

  lemma HoldsEarlier(p: Pending, k: TokenKey, g: nat, f: nat)
    requires Holds(p, k, g) && f <= g
    ensures Holds(p, k, f)
  {
    var h :| HeldAs(p, k, h, g);
    assert HeldAs(p, k, h, f);
  }

  // bump: each key landed or is owed from now on, nothing owed before is forgotten, and success
  // is reported exactly when nothing was deferred.
  method Bump(p: Bumps, owner: set<TokenKey>, up: bool, reply: TokenKey -> bool) returns (ok: bool)
    requires p.Valid() && WellFormed(p.State())
    modifies p
    ensures p.Valid() && WellFormed(p.State())
    ensures forall k :: k in owner ==> (up && reply(k)) || Holds(p.State(), k, old(p.gen) + 1)
    ensures StillHolds(old(p.State()), p.State())
    ensures ok <==> owner == {} || (up && forall k :: k in owner ==> reply(k))
    ensures ok ==> p.State() == old(p.State())
  {
    if owner == {} {
      return true;
    }
    if !up {
      DeferAll(p, owner);
      return false;
    }
    var failed;
    ghost var sent;
    failed, ok, sent := SendAll(owner, reply);
    if !ok {
      DeferAll(p, failed);
    }
  }

  // One batch of a drain. ok when all of it landed.
  method DrainBatch(p: Bumps, owed: map<TokenKey, Held>, batch: seq<TokenKey>, reply: TokenKey -> bool) returns (took: set<TokenKey>, ok: bool)
    requires p.Valid() && forall k :: k in batch ==> k in owed && k in p.keys && p.keys[k] == owed[k]
    modifies p
    ensures p.Valid() && p.keys == old(p.keys) - took && p.gen == old(p.gen)
    ensures forall k :: k in took <==> k in batch && reply(k)
    ensures ok <==> forall k :: k in batch ==> k in took
  {
    var landed;
    landed, ok := SendBatch(batch, reply);
    took := set j | 0 <= j < |batch| && landed[j] :: batch[j];
    p.DoneKeys(map k | k in took :: owed[k].gen);
  }

  // drain: takes off exactly what the server confirmed, each as it was last added, and reports
  // whether nothing is owed any more.
  method DrainAll(p: Bumps, up: nat -> bool, reply: TokenKey -> bool) returns (drained: bool, sent: set<TokenKey>)
    requires p.Valid()
    modifies p
    ensures p.Valid() && sent <= old(p.keys).Keys && forall k :: k in sent ==> reply(k)
    ensures p.keys == old(p.keys) - sent && p.gen == old(p.gen)
    ensures drained <==> p.keys == map[]
    ensures !drained ==> (exists k :: k in old(p.keys) && !reply(k)) || exists turn :: !up(turn)
  {
    var owed := p.Owed();
    sent := {};
    var left, turn := owed.Keys, 0;
    while left != {}
      invariant p.Valid() && left <= owed.Keys && p.gen == old(p.gen)
      invariant sent <= owed.Keys && p.keys == owed - sent
      invariant forall k :: k in owed ==> (k in sent <==> k !in left)
      invariant forall k :: k in sent ==> reply(k)
      decreases left
    {
      var batch, rest := NextBatch(left);
      var took, ok := {}, false;
      if up(turn) {
        took, ok := DrainBatch(p, owed, batch, reply);
        Without(owed, sent, took);
        sent := sent + took;
      }
      if !ok {
        ghost var k :| k in batch && k !in took;
        assert k in owed && k !in sent;
        assert k in p.keys;
        return false, sent;
      }
      left, turn := rest, turn + 1;
    }
    drained := p.n == 0;
  }

  lemma Without<K, V>(m: map<K, V>, a: set<K>, b: set<K>)
    ensures (m - a) - b == m - (a + b)
  {}
}
