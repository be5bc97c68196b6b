/** internal/cache/pending.go: the token bumps a process still owes the shared cache. */
module PendingBumps {
  import opened Common
  import opened Bytes
  import opened RedisKeys

  // gen says when the key was last added.
  datatype Held = Held(tenant: Bytes, gen: nat)

  datatype Pending = Pending(keys: map<TokenKey, Held>, gen: nat)

  const NOTHING_OWED := Pending(map[], 0)

  // Every key is held for the tenant it belongs to, since an addition made so far.
  ghost predicate WellFormed(p: Pending) {
    forall k :: k in p.keys ==> p.keys[k].tenant == k.id && 0 < p.keys[k].gen <= p.gen
  }

  function Noted(keys: map<TokenKey, Held>, added: set<TokenKey>, h: Held): map<TokenKey, Held> {
    map k | k in keys.Keys + added :: if k in added then h else keys[k]
  }

  function Tenants(keys: map<TokenKey, Held>): set<Bytes> {
    set k | k in keys :: keys[k].tenant
  }

  // One tenant token for all of a tenant's keys.
  function Collapse(keys: map<TokenKey, Held>, gen: nat): map<TokenKey, Held> {
    map t | t in Tenants(keys) :: TenantToken(t) := Held(t, gen)
  }

  function Bounded(keys: map<TokenKey, Held>, limit: nat, gen: nat): map<TokenKey, Held> {
    if |keys| > limit then Collapse(keys, gen) else keys
  }

  function Add(p: Pending, limit: nat, id: Bytes, added: set<TokenKey>): Pending {
    Pending(Bounded(Noted(p.keys, added, Held(id, p.gen + 1)), limit, p.gen + 1), p.gen + 1)
  }

  function Done(p: Pending, landed: map<TokenKey, nat>): Pending {
    p.(keys := map k | k in p.keys && !(k in landed && landed[k] == p.keys[k].gen) :: p.keys[k])
  }

  predicate OwesAny(p: Pending, keys: set<TokenKey>) {
    exists k :: k in keys && k in p.keys
  }

  /******* What is held is held until it lands *******/

  // k itself, or the tenant token standing in for it, is owed since addition g or later.
  predicate HeldAs(p: Pending, k: TokenKey, h: TokenKey, g: nat) {
    (h == k || h == TenantToken(k.id)) && h in p.keys && g <= p.keys[h].gen
  }

  ghost predicate Holds(p: Pending, k: TokenKey, g: nat) {
    exists h :: HeldAs(p, k, h, g)
  }

  lemma AddKeepsWellFormed(p: Pending, limit: nat, id: Bytes, added: set<TokenKey>)
    requires WellFormed(p) && forall k :: k in added ==> k.id == id
    ensures WellFormed(Add(p, limit, id, added))
  {}

  // An addition is held from then on, and displaces nothing but into its tenant's token.
  lemma AddHolds(p: Pending, limit: nat, id: Bytes, added: set<TokenKey>, k: TokenKey, g: nat)
    requires WellFormed(p) && (forall x :: x in added ==> x.id == id)
    requires (k in added && g == p.gen + 1) || (Holds(p, k, g) && g <= p.gen)
    ensures Holds(Add(p, limit, id, added), k, g)
  {
    var q := Add(p, limit, id, added);
    var keys := Noted(p.keys, added, Held(id, q.gen));
    var h := if k in added then k else var h :| HeldAs(p, k, h, g); h;
    assert h in keys && keys[h].tenant == k.id;
    if |keys| > limit {
      assert k.id in Tenants(keys);
      assert HeldAs(q, k, TenantToken(k.id), g);
    } else {
      assert HeldAs(q, k, h, g);
    }
  }

  // A drain takes k off only by landing k or its tenant's token, as they were last added.
  lemma DoneKeeps(p: Pending, landed: map<TokenKey, nat>, k: TokenKey, g: nat)
    requires Holds(p, k, g)
    ensures Holds(Done(p, landed), k, g)
      || exists h :: HeldAs(p, k, h, g) && h in landed && landed[h] == p.keys[h].gen
  {
    var h :| HeldAs(p, k, h, g);
    if !(h in landed && landed[h] == p.keys[h].gen) {
      assert HeldAs(Done(p, landed), k, h, g);
    }
  }

  // Whatever is held bypasses every lookup filed under it.
  lemma HeldIsBypassed(p: Pending, keys: set<TokenKey>, k: TokenKey, g: nat)
    requires Holds(p, k, g) && k in keys && TenantToken(k.id) in keys
    ensures OwesAny(p, keys)
  {
    var h :| HeldAs(p, k, h, g);
    assert h in keys && h in p.keys;
  }

  predicate HasTenant(keys: set<TokenKey>, t: Bytes) {
    exists k :: k in keys && k.id == t
  }

  // Up to limit keys are held one by one, the added ones as of now and the others as they were.
  lemma AddExactly(p: Pending, limit: nat, id: Bytes, added: set<TokenKey>)
    requires |p.keys.Keys + added| <= limit
    ensures var q := Add(p, limit, id, added);
      && q.gen == p.gen + 1 && q.keys.Keys == p.keys.Keys + added
      && forall k :: k in q.keys ==> q.keys[k] == if k in added then Held(id, p.gen + 1) else p.keys[k]
  {
    assert Noted(p.keys, added, Held(id, p.gen + 1)).Keys == p.keys.Keys + added;
  }

  // Past it, one tenant token stands for each tenant that has a key held or added.
  lemma AddCollapses(p: Pending, limit: nat, id: Bytes, added: set<TokenKey>)
    requires WellFormed(p) && (forall k :: k in added ==> k.id == id) && |p.keys.Keys + added| > limit
    ensures var q := Add(p, limit, id, added);
      && q.gen == p.gen + 1 && (forall t :: TenantToken(t) in q.keys <==> HasTenant(p.keys.Keys + added, t))
      && forall k :: k in q.keys ==> k == TenantToken(k.id) && q.keys[k] == Held(k.id, p.gen + 1)
  {
    var keys := Noted(p.keys, added, Held(id, p.gen + 1));
    assert keys.Keys == p.keys.Keys + added;
    TenantsAre(keys);
    CollapseExactly(keys, p.gen + 1);
  }

  lemma CollapseExactly(keys: map<TokenKey, Held>, gen: nat)
    ensures forall t :: TenantToken(t) in Collapse(keys, gen) <==> t in Tenants(keys)
    ensures forall k :: k in Collapse(keys, gen) ==> k == TenantToken(k.id) && Collapse(keys, gen)[k] == Held(k.id, gen)
  {}

  lemma TenantsAre(keys: map<TokenKey, Held>)
    requires forall k :: k in keys ==> keys[k].tenant == k.id
    ensures forall t :: t in Tenants(keys) <==> HasTenant(keys.Keys, t)
  {}

  function Gens(p: Pending): map<TokenKey, nat> {
    map k | k in p.keys :: p.keys[k].gen
  }

  lemma OwesExactly(p: Pending, keys: set<TokenKey>)
    ensures OwesAny(p, keys) <==> keys * p.keys.Keys != {}
  {
    if k :| k in keys && k in p.keys {
      assert k in keys * p.keys.Keys;
    }
  }

  lemma LaterStays(was: map<TokenKey, Held>, p: Pending, landed: map<TokenKey, nat>, added: set<TokenKey>)
    requires p.keys.Keys == was.Keys + added && landed.Keys == was.Keys
    requires forall k :: k in was ==> landed[k] == was[k].gen && (k in added ==> p.keys[k].gen != was[k].gen) && (k !in added ==> p.keys[k] == was[k])
    ensures Done(p, landed).keys.Keys == added
  {
    var q := Done(p, landed).keys;
    forall k ensures k in q <==> k in added {}
  }

  // A drain that lands all it set out to leaves owed exactly what was added meanwhile, and so
  // bypasses nothing else.
  lemma DrainLeavesLater(p: Pending, limit: nat, id: Bytes, added: set<TokenKey>, keys: set<TokenKey>)
    requires WellFormed(p) && |p.keys.Keys + added| <= limit
    ensures OwesAny(Done(Add(p, limit, id, added), Gens(p)), keys) <==> keys * added != {}
  {
    var more := Add(p, limit, id, added);
    AddExactly(p, limit, id, added);
    DrainLeaves(p, more, added, keys);
  }

  lemma DrainLeaves(p: Pending, more: Pending, added: set<TokenKey>, keys: set<TokenKey>)
    requires WellFormed(p) && more.gen == p.gen + 1 && more.keys.Keys == p.keys.Keys + added
    requires forall k :: k in more.keys ==> if k in added then more.keys[k].gen == p.gen + 1 else more.keys[k] == p.keys[k]
    ensures OwesAny(Done(more, Gens(p)), keys) <==> keys * added != {}
  {
    LaterStays(p.keys, more, Gens(p), added);
    OwesExactly(Done(more, Gens(p)), keys);
  }

  // The set never grows past limit keys, or one per tenant that it owes.
  lemma AddIsBounded(p: Pending, limit: nat, id: Bytes, added: set<TokenKey>)
    ensures var q := Add(p, limit, id, added);
      |q.keys| <= limit || forall k :: k in q.keys ==> k.TenantToken? && q.keys[k] == Held(k.id, q.gen)
  {}

  method NoteKeys(was: map<TokenKey, Held>, added: seq<TokenKey>, h: Held) returns (keys: map<TokenKey, Held>)
    ensures keys == Noted(was, Elements(added), h)
  {
    keys := was;
    for i := 0 to |added|
      invariant keys.Keys == was.Keys + Elements(added[..i])
      invariant forall k :: k in keys ==> keys[k] == if k in added[..i] then h else was[k]
    {
      keys := keys[added[i] := h];
      assert added[..i + 1] == added[..i] + [added[i]];
    }
    assert added[..|added|] == added;
  }

  method CollapseKeys(keys: map<TokenKey, Held>, gen: nat) returns (collapsed: map<TokenKey, Held>)
    ensures collapsed == Collapse(keys, gen)
  {
    collapsed := map[];
    var rest := keys;
    while rest != map[]
      invariant rest.Keys <= keys.Keys && forall k :: k in rest ==> rest[k] == keys[k]
      invariant collapsed == Collapse(map k | k in keys && k !in rest :: keys[k], gen)
      decreases |rest|
    {
      ghost var done := map k | k in keys && k !in rest :: keys[k];
      var k :| k in rest;
      var t := rest[k].tenant;
      collapsed := collapsed[TenantToken(t) := Held(t, gen)];
      rest := rest - {k};
      CollapseOne(done, k, keys[k], gen);
      assert (map k | k in keys && k !in rest :: keys[k]) == done[k := keys[k]];
    }
    assert (map k | k in keys && k !in rest :: keys[k]) == keys;
  }

  method Bound(keys: map<TokenKey, Held>, limit: nat, gen: nat) returns (kept: map<TokenKey, Held>)
    ensures kept == Bounded(keys, limit, gen)
  {
    kept := keys;
    if |keys| > limit {
      kept := CollapseKeys(keys, gen);
    }
  }

  class Bumps {
    const limit: nat
    var keys: map<TokenKey, Held>
    var gen: nat
    var n: nat

    ghost predicate Valid()
      reads this
    {
      n == |keys|
    }

    ghost function State(): Pending
      reads this
    {
      Pending(keys, gen)
    }

    constructor (limit: nat)
      ensures Valid() && State() == NOTHING_OWED && this.limit == limit
    {
      this.limit, keys, gen, n := limit, map[], 0, 0;
    }

    method AddKeys(id: Bytes, added: seq<TokenKey>)
      requires Valid()
      modifies this
      ensures Valid() && State() == Add(old(State()), limit, id, Elements(added))
    {
      gen := gen + 1;
      var noted := NoteKeys(keys, added, Held(id, gen));
      keys := Bound(noted, limit, gen);
      n := |keys|;
    }

    method Owed() returns (owed: map<TokenKey, Held>)
      requires Valid()
      ensures owed == keys
    {
      owed := keys;
    }

    method DoneKeys(landed: map<TokenKey, nat>)
      requires Valid()
      modifies this
      ensures Valid() && State() == Done(old(State()), landed)
    {
      ghost var was := State();
      var rest := landed;
      while rest != map[]
        invariant rest.Keys <= landed.Keys && forall k :: k in rest ==> rest[k] == landed[k]
        invariant gen == was.gen
        invariant keys == Done(was, map k | k in landed && k !in rest :: landed[k]).keys
        decreases |rest|
      {
        var k :| k in rest;
        if k in keys && keys[k].gen == rest[k] {
          keys := keys - {k};
        }
        rest := rest - {k};
      }
      assert (map k | k in landed && k !in rest :: landed[k]) == landed;
      n := |keys|;
    }

    method OwesSome(asked: seq<TokenKey>) returns (owes: bool)
      requires Valid()
      ensures owes <==> exists j :: 0 <= j < |asked| && asked[j] in keys
      ensures owes <==> OwesAny(State(), Elements(asked))
    {
      if n == 0 {
        return false;
      }
      for i := 0 to |asked|
        invariant forall j :: 0 <= j < i ==> asked[j] !in keys
      {
        if asked[i] in keys {
          return true;
        }
      }
      return false;
    }
  }

  lemma CollapseOne(keys: map<TokenKey, Held>, k: TokenKey, h: Held, gen: nat)
    requires k !in keys
    ensures Collapse(keys[k := h], gen) == Collapse(keys, gen)[TenantToken(h.tenant) := Held(h.tenant, gen)]
  {
    var more := keys[k := h];
    forall t ensures t in Tenants(more) <==> t == h.tenant || t in Tenants(keys) {
      if t in Tenants(keys) {
        var x :| x in keys && keys[x].tenant == t;
        assert x in more && more[x].tenant == t;
      }
      assert k in more && more[k].tenant == h.tenant;
    }
  }
}
