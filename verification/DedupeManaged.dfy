/** internal/dedupe/managed.go: the switch in front of a tenant's store, and the collapsing of
    keys repeated inside one Reserve. */
module DedupeManaged {
  import opened Common
  import opened Bytes
  import opened DedupeStore

  // The keys handed to the backend: each once, in order of first appearance.
  function Unique(keys: seq<Bytes>): (r: seq<Bytes>)
    ensures forall k :: k in r <==> k in keys
    ensures forall i, j :: 0 <= i < j < |r| ==> r[i] != r[j]
    ensures |r| <= |keys|
  {
    if keys == [] then [] else
      var n := |keys| - 1;
      var before := Unique(keys[..n]);
      if keys[n] in keys[..n] then before else before + [keys[n]]
  }

  function IndexOf(u: seq<Bytes>, k: Bytes): (r: nat)
    requires k in u
    ensures r < |u| && u[r] == k
  {
    if u[0] == k then 0 else 1 + IndexOf(u[1..], k)
  }

  function ByKey(u: seq<Bytes>, got: seq<Claim>): map<Bytes, Claim>
    requires |u| == |got|
  {
    map k | k in u :: got[IndexOf(u, k)]
  }

  // Reserve's answer for every key: the backend's for its first occurrence, Duplicate after.
  function Spread(keys: seq<Bytes>, answers: map<Bytes, Claim>): (r: seq<Claim>)
    requires forall i :: 0 <= i < |keys| ==> keys[i] in answers
    ensures |r| == |keys|
    ensures forall i :: 0 <= i < |keys| ==> r[i] == if keys[i] in keys[..i] then Claim(keys[i], Duplicate, 0) else answers[keys[i]]
  {
    seq(|keys|, i requires 0 <= i < |keys| => if keys[i] in keys[..i] then Claim(keys[i], Duplicate, 0) else answers[keys[i]])
  }

  // claimedOnly
  function ClaimedOnly(claims: seq<Claim>): (r: seq<Claim>)
    ensures forall i :: 0 <= i < |r| ==> r[i].status == Claimed && r[i] in claims
    ensures forall i :: 0 <= i < |claims| && claims[i].status == Claimed ==> claims[i] in r
  {
    if claims == [] then [] else
      var n := |claims| - 1;
      ClaimedOnly(claims[..n]) + (if claims[n].status == Claimed then [claims[n]] else [])
  }

  datatype ReserveResult = ErrDisabled | ErrUnavailable | ErrStore | Claims(claims: seq<Claim>)
  datatype Outcome = Done | Disabled | Unavailable | StoreFailed

  // Distinct keys are their own Unique: the repeats-free case returns the backend's answer as is.
  lemma {:induction false} UniqueOfDistinct(keys: seq<Bytes>)
    ensures |Unique(keys)| == |keys| ==> Unique(keys) == keys && forall i :: 0 <= i < |keys| ==> keys[i] !in keys[..i]
  {
    if keys != [] {
      var n := |keys| - 1;
      UniqueOfDistinct(keys[..n]);
      if |Unique(keys)| == |keys| {
        assert keys == keys[..n] + [keys[n]];
        forall i | 0 <= i < |keys| ensures keys[i] !in keys[..i] {
          FirstInPrefix(keys, n, i);
        }
      }
    }
  }

  lemma FirstInPrefix(keys: seq<Bytes>, n: nat, i: nat)
    requires i <= n < |keys|
    ensures keys[..n][..i] == keys[..i] && (i < n ==> keys[..n][i] == keys[i])
  {}

  lemma {:induction false} IndexIsPosition(u: seq<Bytes>, j: nat)
    requires j < |u|
    requires forall i, l :: 0 <= i < l < |u| ==> u[i] != u[l]
    ensures IndexOf(u, u[j]) == j
  {}

  lemma {:induction false} SpreadOfDistinct(keys: seq<Bytes>, got: seq<Claim>)
    requires |Unique(keys)| == |keys| == |got|
    ensures got == Spread(keys, ByKey(Unique(keys), got))
  {
    UniqueOfDistinct(keys);
    var r := Spread(keys, ByKey(keys, got));
    forall i | 0 <= i < |keys| ensures got[i] == r[i] {
      IndexIsPosition(keys, i);
    }
  }

  // Where the first n keys' answers are.
  ghost function Places(keys: seq<Bytes>, first: map<Bytes, nat>, n: nat): set<nat>
    requires n <= |keys| && forall k :: k in keys ==> k in first
  {
    set l | 0 <= l < n :: first[keys[l]]
  }

  // Where first points tells keys apart: a key was met before exactly when its answer was given.
  lemma AnsweredBefore(keys: seq<Bytes>, first: map<Bytes, nat>, unique: seq<Bytes>, i: nat)
    requires i < |keys|
    requires forall k :: k in keys ==> k in first
    requires forall k :: k in first ==> first[k] < |unique| && unique[first[k]] == k
    ensures first[keys[i]] in Places(keys, first, i) <==> keys[i] in keys[..i]
  {
    if keys[i] in keys[..i] {
      var l :| 0 <= l < i && keys[..i][l] == keys[i];
      assert first[keys[l]] == first[keys[i]];
    }
  }

  lemma SpreadAt(keys: seq<Bytes>, first: map<Bytes, nat>, unique: seq<Bytes>, got: seq<Claim>, i: nat)
    requires i < |keys| && |got| == |unique| && forall i, j :: 0 <= i < j < |unique| ==> unique[i] != unique[j]
    requires forall k :: k in keys ==> k in unique && k in first
    requires forall k :: k in first ==> first[k] < |unique| && unique[first[k]] == k
    ensures Spread(keys, ByKey(unique, got))[i]
         == if first[keys[i]] in Places(keys, first, i) then Claim(keys[i], Duplicate, 0) else got[first[keys[i]]]
    ensures Places(keys, first, i + 1) == Places(keys, first, i) + {first[keys[i]]}
  {
    AnsweredBefore(keys, first, unique, i);
    IndexIsPosition(unique, first[keys[i]]);
  }

  class Managed {
    var enabled: bool
    var db: Embedded?

    ghost predicate Valid()
      reads this, db
    {
      (!enabled ==> db == null) && (db != null ==> db.Valid())
    }

    constructor ()
      ensures Valid() && !enabled && db == null
    {
      enabled, db := false, null;
    }

    // Apply follows dedupe.enabled. store is what the opener returns, null when it fails; closing
    // may fail too, which is reported of a store that is gone all the same.
    method Apply(want: bool, store: Embedded?, closeFails: bool) returns (ok: bool)
      requires Valid() && (store != null ==> store.Valid())
      modifies this
      ensures Valid() && enabled == want
      ensures !want ==> db == null && (ok <==> !(old(db) != null && closeFails))
      ensures want && old(db) != null ==> db == old(db) && ok
      ensures want && old(db) == null ==> db == store && (ok <==> store != null)
    {
      if enabled == want && (!want || db != null) {
        return true;
      }
      enabled := want;
      if want && db == null {
        db := store;
        return store != null;
      }
      if !want && db != null {
        db := null;
        return !closeFails;
      }
      return true;
    }

    method Reserve(keys: seq<Bytes>, lease: int, now: int, readFails: Bytes -> bool) returns (r: ReserveResult)
      requires Valid()
      modifies db
      ensures Valid() && enabled == old(enabled) && db == old(db)
      ensures r.ErrDisabled? <==> !enabled
      ensures r.ErrUnavailable? <==> enabled && db == null
      ensures r.ErrStore? ==> exists k :: k in keys && readFails(k)
      ensures r.ErrStore? ==> db.db == old(db.db) && forall k :: k in db.pending ==> db.pending[k].token <= old(db.tokens)
      ensures r.ErrStore? ==> forall k :: k in old(db.pending) && now < old(db.pending)[k].expires ==> k in db.pending && db.pending[k] == old(db.pending)[k]
      ensures r.Claims? ==>
                var u := Unique(keys);
                var got := ReserveAll(db.shard, old(db.State()), u, now, if lease <= 0 then 30 * SECOND else lease);
                db.State() == got.store && r.claims == Spread(keys, ByKey(u, got.claims))
    {
      var wait := if lease <= 0 then DEFAULT_LEASE else lease;
      if !enabled {
        return ErrDisabled;
      }
      if db == null {
        return ErrUnavailable;
      }
      var first, unique := Collapse(keys);
      var got := db.Reserve(unique, now, wait, seq(|unique|, i requires 0 <= i < |unique| => readFails(unique[i])));
      if got.Err? {
        return ErrStore;
      }
      if |unique| == |keys| {
        SpreadOfDistinct(keys, got.value);
        return Claims(got.value);
      }
      var claims := Expand(keys, first, unique, got.value);
      return Claims(claims);
    }

    // The first loop of Reserve: where each key's answer will be.
    static method Collapse(keys: seq<Bytes>) returns (first: map<Bytes, nat>, unique: seq<Bytes>)
      ensures unique == Unique(keys)
      ensures first.Keys == set k | k in keys
      ensures forall k :: k in first ==> first[k] < |unique| && unique[first[k]] == k
    {
      first, unique := map[], [];
      for i := 0 to |keys|
        invariant unique == Unique(keys[..i])
        invariant forall k :: k in first <==> k in keys[..i]
        invariant forall k :: k in first ==> first[k] < |unique| && unique[first[k]] == k
      {
        assert keys[..i + 1] == keys[..i] + [keys[i]];
        if keys[i] !in first {
          first := first[keys[i] := |unique|];
          unique := unique + [keys[i]];
        }
      }
      assert keys[..|keys|] == keys;
    }

    // The second: each key's answer once, Duplicate from then on.
    static method Expand(keys: seq<Bytes>, first: map<Bytes, nat>, unique: seq<Bytes>, got: seq<Claim>) returns (claims: seq<Claim>)
      requires |got| == |unique| && forall i, j :: 0 <= i < j < |unique| ==> unique[i] != unique[j]
      requires forall k :: k in keys ==> k in unique && k in first
      requires forall k :: k in first ==> first[k] < |unique| && unique[first[k]] == k
      ensures claims == Spread(keys, ByKey(unique, got))
    {
      claims := [];
      var answered: set<nat> := {};
      ghost var want := Spread(keys, ByKey(unique, got));
      for i := 0 to |keys|
        invariant claims == want[..i]
        invariant answered == Places(keys, first, i)
      {
        var k := keys[i];
        var j := first[k];
        SpreadAt(keys, first, unique, got, i);
        claims := claims + [if j in answered then Claim(k, Duplicate, 0) else got[j]];
        answered := answered + {j};
      }
    }

    method Commit(claims: seq<Claim>, retention: int, now: int, writeFails: bool) returns (r: Outcome)
      requires Valid()
      modifies db
      ensures Valid() && enabled == old(enabled) && db == old(db)
      ensures r.Done? && db != null ==> CommittedAs(old(db.State()), db.State(), claims, now, retention)
      ensures r.Done? && (exists c :: c in claims && c.status == Claimed) ==> db != null
      ensures !r.Done? && db != null ==> db.State() == old(db.State())
      ensures r.Done? <==> (forall c :: c in claims ==> c.status != Claimed) || (enabled && db != null && !writeFails)
    {
      var claimed := ClaimedOnly(claims);
      assert forall c :: c in claimed <==> c in claims && c.status == Claimed;
      if claimed == [] {
        return Done;
      }
      assert claimed[0] in claims && claimed[0].status == Claimed;
      if !enabled {
        return Disabled;
      }
      if db == null {
        return Unavailable;
      }
      var ok := db.Commit(claimed, now, retention, writeFails);
      return if ok then Done else StoreFailed;
    }
  }
}
