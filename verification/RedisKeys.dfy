/** internal/cache/redis_codec.go: the token keys of the shared cache, which of them an entry is
    filed under, and which an invalidation replaces. */
module RedisKeys {
  import opened Bytes
  import opened KeyEnc
  import opened VersionIndex

  const COLON: byte := 0x3A
  const OPEN: byte := 0x7B
  const CLOSE: byte := 0x7D
  const TENANT_TAG: byte := 0x54
  const TABLE_TAG: byte := 0x42
  const SCOPE_TAG: byte := 0x53

  // A version token's name. Its rendering below is injective, so the protocol can speak of
  // names where the server holds byte strings.
  datatype TokenKey =
    | TenantToken(id: Bytes)
    | TableToken(id: Bytes, table: Bytes)
    | ScopeToken(id: Bytes, table: Bytes, scope: Bytes)

  // tenantTokenKey, tableTokenKey and scopeTokenKey.
  function KeyTail(k: TokenKey): Bytes {
    match k
    case TenantToken(_) => [COLON, TENANT_TAG]
    case TableToken(_, table) => [COLON, TABLE_TAG, COLON] + Join(COLON, [table])
    case ScopeToken(_, table, scope) => [COLON, SCOPE_TAG, COLON] + Join(COLON, [table, scope])
  }

  function KeyBytes(prefix: Bytes, k: TokenKey): Bytes {
    prefix + [COLON, OPEN] + (k.id + [CLOSE] + KeyTail(k))
  }

  lemma Headed(prefix: Bytes, k: TokenKey, tail: Bytes)
    requires [CLOSE] + KeyTail(k) == tail
    ensures KeyBytes(prefix, k) == prefix + Chars(":{") + k.id + tail
  {
    assert Chars(":{") == [COLON, OPEN];
    Regrouped(prefix + [COLON, OPEN], k.id, [CLOSE], KeyTail(k));
  }

  lemma Regrouped(a: Bytes, b: Bytes, c: Bytes, d: Bytes)
    ensures a + (b + c + d) == a + b + (c + d)
  {}

  lemma TableTail(e: Bytes)
    ensures [CLOSE] + ([COLON, TABLE_TAG, COLON] + e) == Chars("}:B:") + e
  {
    assert Chars("}:B:") == [CLOSE] + [COLON, TABLE_TAG, COLON];
  }

  lemma ScopeTail(a: Bytes, b: Bytes)
    ensures [CLOSE] + ([COLON, SCOPE_TAG, COLON] + (a + [COLON] + b)) == Chars("}:S:") + a + Chars(":") + b
  {
    assert Chars("}:S:") == [CLOSE] + [COLON, SCOPE_TAG, COLON];
    assert Chars(":") == [COLON];
    assert [COLON, SCOPE_TAG, COLON] + (a + [COLON] + b) == ([COLON, SCOPE_TAG, COLON] + a) + [COLON] + b;
    assert [CLOSE] + ([COLON, SCOPE_TAG, COLON] + a) == Chars("}:S:") + a;
  }

  lemma {:induction false} JoinOfOne(a: Bytes)
    ensures Join(COLON, [a]) == Escape(a)
  {}

  lemma {:induction false} JoinOfTwo(a: Bytes, b: Bytes)
    ensures Join(COLON, [a, b]) == Escape(a) + [COLON] + Escape(b)
  {
    var parts := EscapeAll([a, b]);
    assert parts == [Escape(a), Escape(b)];
    assert parts[1..] == [Escape(b)];
    assert JoinParts(parts[1..], COLON) == Escape(b);
  }

  // The layout that builds sharing a server must agree on.
  lemma {:induction false} KeysAreLaidOut(prefix: Bytes, id: Bytes, table: Bytes, scope: Bytes)
    ensures KeyBytes(prefix, TenantToken(id)) == prefix + Chars(":{") + id + Chars("}:T")
    ensures KeyBytes(prefix, TableToken(id, table)) == prefix + Chars(":{") + id + (Chars("}:B:") + Escape(table))
    ensures KeyBytes(prefix, ScopeToken(id, table, scope)) == prefix + Chars(":{") + id + (Chars("}:S:") + Escape(table) + Chars(":") + Escape(scope))
  {
    assert [CLOSE] + KeyTail(TenantToken(id)) == Chars("}:T");
    JoinOfOne(table);
    TableTail(Escape(table));
    JoinOfTwo(table, scope);
    ScopeTail(Escape(table), Escape(scope));
    Headed(prefix, TenantToken(id), Chars("}:T"));
    Headed(prefix, TableToken(id, table), Chars("}:B:") + Escape(table));
    Headed(prefix, ScopeToken(id, table, scope), Chars("}:S:") + Escape(table) + Chars(":") + Escape(scope));
  }

  lemma KeyBytesInjective(prefix: Bytes, a: TokenKey, b: TokenKey)
    requires AllKept(a.id) && AllKept(b.id) && KeyBytes(prefix, a) == KeyBytes(prefix, b)
    ensures a == b
  {
    var n := |prefix| + 2;
    assert KeyBytes(prefix, a)[n..] == a.id + [CLOSE] + KeyTail(a);
    assert KeyBytes(prefix, b)[n..] == b.id + [CLOSE] + KeyTail(b);
    HeadTail(a.id, KeyTail(a), b.id, KeyTail(b), CLOSE);
    assert KeyTail(a)[1] == KeyTail(b)[1];
    match a
    case TenantToken(_) =>
    case TableToken(_, t) =>
      assert KeyTail(a)[3..] == Join(COLON, [t]) && KeyTail(b)[3..] == Join(COLON, [b.table]);
      JoinInjective(COLON, [t], [b.table]);
      assert [t][0] == [b.table][0];
    case ScopeToken(_, t, s) =>
      assert KeyTail(a)[3..] == Join(COLON, [t, s]) && KeyTail(b)[3..] == Join(COLON, [b.table, b.scope]);
      JoinInjective(COLON, [t, s], [b.table, b.scope]);
      assert [t, s][0] == [b.table, b.scope][0] && [t, s][1] == [b.table, b.scope][1];
  }

  /******* The canonical list of an entry's token keys *******/

  // slices.Compact
  function Compact(s: seq<Bytes>): seq<Bytes> {
    if |s| <= 1 then s
    else if s[0] == s[1] then Compact(s[1..])
    else [s[0]] + Compact(s[1..])
  }

  ghost predicate StrictlySorted(s: seq<Bytes>) {
    forall i, j :: 0 <= i < j < |s| ==> Less(s[i], s[j])
  }

  lemma {:induction false} CompactIncreases(s: seq<Bytes>)
    requires Sorted(s)
    ensures StrictlySorted(Compact(s)) && forall x :: x in Compact(s) <==> x in s
  {
    if |s| > 1 {
      CompactIncreases(s[1..]);
      assert s == [s[0]] + s[1..];
      if s[0] != s[1] {
        var r := Compact(s[1..]);
        forall j | 0 <= j < |r| ensures Less(s[0], r[j]) {
          assert r[j] in s[1..];
          var i :| 1 <= i < |s| && s[i] == r[j];
          assert Less(s[0], s[1]) && Leq(s[1], s[i]);
          if s[1] != s[i] {
            LessTransitive(s[0], s[1], s[i]);
          }
        }
      }
    }
  }

  lemma {:induction false} IncreasingUnique(a: seq<Bytes>, b: seq<Bytes>)
    requires StrictlySorted(a) && StrictlySorted(b) && forall x :: x in a <==> x in b
    ensures a == b
  {
    assert b != [] ==> b[0] in b;
    if a != [] {
      assert a[0] in b && b != [] && b[0] in a;
      LessTotal(a[0], b[0]);
      var i :| 0 <= i < |b| && b[i] == a[0];
      var j :| 0 <= j < |a| && a[j] == b[0];
      assert a[0] == b[0];
      forall x ensures x in a[1..] <==> x in b[1..] {
        LessTotal(a[0], a[0]);
        if x in a[1..] {
          assert Less(a[0], x) && x in b;
        }
        if x in b[1..] {
          assert Less(b[0], x) && x in a;
        }
      }
      IncreasingUnique(a[1..], b[1..]);
      assert a == [a[0]] + a[1..] && b == [b[0]] + b[1..];
    }
  }

  // The lists are built from the rendering alone, whatever it is.
  function DepKeys(name: TokenKey -> Bytes, id: Bytes, deps: seq<Namespace>): (r: seq<Bytes>) {
    if deps == [] then []
    else [name(TableToken(id, deps[0].table)), name(ScopeToken(id, deps[0].table, deps[0].scope))] + DepKeys(name, id, deps[1..])
  }

  // tokenKeys: the tenant's token, then every dependency's table and scope tokens, sorted,
  // each once.
  function TokenKeys(name: TokenKey -> Bytes, id: Bytes, deps: seq<Namespace>): seq<Bytes> {
    [name(TenantToken(id))] + Compact(Sort(DepKeys(name, id, deps)))
  }

  function BumpKeys(name: TokenKey -> Bytes, ns: Namespace): seq<Bytes> {
    if ns.scope == [] then [name(TableToken(ns.tenant, ns.table))]
    else [name(ScopeToken(ns.tenant, ns.table, ns.scope)), name(ScopeToken(ns.tenant, ns.table, []))]
  }

  // The rendering under a deployment's key prefix.
  function Naming(prefix: Bytes): TokenKey -> Bytes {
    k => KeyBytes(prefix, k)
  }

  ghost predicate TellsApart(name: TokenKey -> Bytes) {
    forall a: TokenKey, b: TokenKey :: AllKept(a.id) && AllKept(b.id) && name(a) == name(b) ==> a == b
  }

  lemma NamingTellsApart(prefix: Bytes)
    ensures TellsApart(Naming(prefix))
  {
    var name := Naming(prefix);
    forall a: TokenKey, b: TokenKey | AllKept(a.id) && AllKept(b.id) && name(a) == name(b) ensures a == b {
      KeyBytesInjective(prefix, a, b);
    }
  }

  // The same, by name.
  function FiledUnder(id: Bytes, deps: set<Namespace>): (r: set<TokenKey>)
    ensures TenantToken(id) in r
    ensures forall k :: k in r ==> k.id == id
  {
    {TenantToken(id)} + (set d | d in deps :: TableToken(id, d.table)) + (set d | d in deps :: ScopeToken(id, d.table, d.scope))
  }

  function Replaced(ns: Namespace): (r: set<TokenKey>)
    ensures forall k :: k in r ==> k.id == ns.tenant
  {
    if ns.scope == [] then {TableToken(ns.tenant, ns.table)}
    else {ScopeToken(ns.tenant, ns.table, ns.scope), ScopeToken(ns.tenant, ns.table, [])}
  }

  predicate NamesDep(name: TokenKey -> Bytes, id: Bytes, d: Namespace, x: Bytes) {
    x == name(TableToken(id, d.table)) || x == name(ScopeToken(id, d.table, d.scope))
  }

  lemma {:induction false} DepKeysHold(name: TokenKey -> Bytes, id: Bytes, deps: seq<Namespace>, x: Bytes)
    ensures x in DepKeys(name, id, deps) <==> exists d :: d in deps && NamesDep(name, id, d, x)
  {
    if deps != [] {
      var rest := deps[1..];
      DepKeysHold(name, id, rest, x);
      assert deps == [deps[0]] + rest;
      if d :| d in deps && NamesDep(name, id, d, x) {
        assert d == deps[0] || d in rest;
      }
      if d :| d in rest && NamesDep(name, id, d, x) {
        assert d in deps;
      }
      assert NamesDep(name, id, deps[0], x) ==> deps[0] in deps;
    }
  }

  lemma {:induction false} TokenKeysHold(name: TokenKey -> Bytes, id: Bytes, deps: seq<Namespace>, x: Bytes)
    ensures x in TokenKeys(name, id, deps) <==> x == name(TenantToken(id)) || x in DepKeys(name, id, deps)
  {
    var ks := DepKeys(name, id, deps);
    SortedOnce(ks);
  }

  // The bytes and the names agree.
  lemma TokenKeysByName(name: TokenKey -> Bytes, id: Bytes, deps: seq<Namespace>, k: TokenKey)
    requires TellsApart(name) && AllKept(id) && AllKept(k.id)
    ensures name(k) in TokenKeys(name, id, deps) <==> k in FiledUnder(id, set d | d in deps)
  {
    var x, names := name(k), set d | d in deps;
    TokenKeysHold(name, id, deps, x);
    DepKeysHold(name, id, deps, x);
    FiledWhen(id, names, k);
    if k in FiledUnder(id, names) && !k.TenantToken? {
      var d :| d in names && (k == TableToken(id, d.table) || k == ScopeToken(id, d.table, d.scope));
      assert NamesDep(name, id, d, x);
    }
  }

  lemma FiledWhen(id: Bytes, deps: set<Namespace>, k: TokenKey)
    ensures k in FiledUnder(id, deps) <==>
      k == TenantToken(id) || exists d :: d in deps && (k == TableToken(id, d.table) || k == ScopeToken(id, d.table, d.scope))
  {}

  lemma SameMembers<T>(a: seq<T>, b: seq<T>)
    requires (set d | d in a) == (set d | d in b)
    ensures forall d :: d in a <==> d in b
  {
    var sa, sb := set d | d in a, set d | d in b;
    forall d ensures d in a <==> d in b {
      assert d in sa <==> d in sb;
    }
  }

  lemma {:induction false} SortedOnce(s: seq<Bytes>)
    ensures StrictlySorted(Compact(Sort(s))) && forall x :: x in Compact(Sort(s)) <==> x in s
  {
    SortSorts(s);
    CompactIncreases(Sort(s));
    forall x ensures x in Sort(s) <==> x in s {
      assert x in Sort(s) <==> x in multiset(s);
    }
  }

  lemma {:induction false} CanonicalOf(a: seq<Bytes>, b: seq<Bytes>)
    requires forall x :: x in a <==> x in b
    ensures Compact(Sort(a)) == Compact(Sort(b))
  {
    SortedOnce(a);
    SortedOnce(b);
    IncreasingUnique(Compact(Sort(a)), Compact(Sort(b)));
  }

  // Neither order nor repetition of the dependencies changes the list, so the tokens two
  // lookups of one entry concatenate line up.
  lemma TokenKeysCanonical(name: TokenKey -> Bytes, id: Bytes, a: seq<Namespace>, b: seq<Namespace>)
    requires (set d | d in a) == (set d | d in b)
    ensures TokenKeys(name, id, a) == TokenKeys(name, id, b)
  {
    var ka, kb := DepKeys(name, id, a), DepKeys(name, id, b);
    forall x ensures x in ka <==> x in kb {
      DepKeysHold(name, id, a, x);
      DepKeysHold(name, id, b, x);
      SameMembers(a, b);
    }
    CanonicalOf(ka, kb);
  }

  /******* The two backends invalidate alike *******/

  predicate SomeReached(ns: Namespace, deps: set<Namespace>) {
    exists d :: d in deps && Reaches(ns, d)
  }

  lemma ReplacedReaches(ns: Namespace, id: Bytes, deps: set<Namespace>)
    requires forall d :: d in deps ==> d.tenant == id
    ensures !(Replaced(ns) !! FiledUnder(id, deps)) <==> SomeReached(ns, deps)
  {
    if k :| k in Replaced(ns) && k in FiledUnder(id, deps) {
      var d :| d in deps && (k == TableToken(id, d.table) || k == ScopeToken(id, d.table, d.scope));
      assert Reaches(ns, d);
    }
    if d :| d in deps && Reaches(ns, d) {
      var k := if ns.scope == [] then TableToken(id, d.table) else ScopeToken(id, d.table, d.scope);
      assert k in Replaced(ns) && k in FiledUnder(id, deps);
    }
  }

  // A Redis bump of ns replaces one of the entry's tokens exactly when it reaches a dependency.
  lemma RedisBumpReaches(name: TokenKey -> Bytes, ns: Namespace, id: Bytes, deps: seq<Namespace>)
    requires TellsApart(name) && AllKept(id) && AllKept(ns.tenant) && forall i :: 0 <= i < |deps| ==> deps[i].tenant == id
    ensures (exists x :: x in BumpKeys(name, ns) && x in TokenKeys(name, id, deps)) <==> SomeReached(ns, set d | d in deps)
  {
    var names := set d | d in deps;
    ReplacedReaches(ns, id, names);
    if x :| x in BumpKeys(name, ns) && x in TokenKeys(name, id, deps) {
      BumpedByName(name, ns, x);
      var k :| k in Replaced(ns) && name(k) == x;
      TokenKeysByName(name, id, deps, k);
    }
    if SomeReached(ns, names) {
      var k :| k in Replaced(ns) && k in FiledUnder(id, names);
      TokenKeysByName(name, id, deps, k);
      BumpedByName(name, ns, name(k));
    }
  }

  lemma BumpedByName(name: TokenKey -> Bytes, ns: Namespace, x: Bytes)
    ensures x in BumpKeys(name, ns) <==> exists k :: k in Replaced(ns) && name(k) == x
  {}

  lemma ReachedKeyMoves(ix: Index, ns: Namespace, id: Bytes, sha: Bytes, deps: seq<Namespace>, i: nat)
    requires VersionIndex.Valid(ix) && id in ix.tenants && (forall i :: 0 <= i < |deps| ==> deps[i].tenant == id)
    requires i < |deps| && Reaches(ns, deps[i])
    ensures Render(PartsOf(Apply(ix, Invalidate(ns)), id, sha, deps)) != Render(PartsOf(ix, id, sha, deps))
  {
    var after := Apply(ix, Invalidate(ns));
    var p, q := PartsOf(ix, id, sha, deps), PartsOf(after, id, sha, deps);
    SegStep(ix, Invalidate(ns), p.segs[i]);
    assert forall j :: 0 <= j < |q.segs| ==> SegLive(after, q.segs[j]);
    assert p.segs[i] !in q.segs;
    assert p.segs[i] in multiset(p.segs) && p.segs[i] !in multiset(q.segs);
    if Render(p) == Render(q) {
      RenderInjective(p, q);
    }
  }

  lemma UnreachedKeyStays(ix: Index, ns: Namespace, id: Bytes, sha: Bytes, deps: seq<Namespace>)
    requires VersionIndex.Valid(ix) && id in ix.tenants && (forall i :: 0 <= i < |deps| ==> deps[i].tenant == id)
    requires forall i :: 0 <= i < |deps| ==> !Reaches(ns, deps[i])
    ensures PartsOf(Apply(ix, Invalidate(ns)), id, sha, deps) == PartsOf(ix, id, sha, deps)
  {
    var p, q := PartsOf(ix, id, sha, deps), PartsOf(Apply(ix, Invalidate(ns)), id, sha, deps);
    forall i | 0 <= i < |deps| ensures p.segs[i] == q.segs[i] {
      SegStep(ix, Invalidate(ns), p.segs[i]);
    }
    assert p.segs == q.segs;
  }

  // The local index changes the entry's key exactly when the write reaches a dependency.
  lemma LocalBumpReaches(ix: Index, ns: Namespace, id: Bytes, sha: Bytes, deps: seq<Namespace>)
    requires VersionIndex.Valid(ix) && id in ix.tenants && forall i :: 0 <= i < |deps| ==> deps[i].tenant == id
    ensures Render(PartsOf(Apply(ix, Invalidate(ns)), id, sha, deps)) != Render(PartsOf(ix, id, sha, deps)) <==> SomeReached(ns, set d | d in deps)
  {
    if i :| 0 <= i < |deps| && Reaches(ns, deps[i]) {
      ReachedKeyMoves(ix, ns, id, sha, deps, i);
      assert deps[i] in (set d | d in deps);
    } else {
      UnreachedKeyStays(ix, ns, id, sha, deps);
    }
  }

  // So for one tenant's entry, and whatever the namespace written, the two agree.
  lemma BackendsInvalidateAlike(prefix: Bytes, ix: Index, ns: Namespace, id: Bytes, sha: Bytes, deps: seq<Namespace>)
    requires VersionIndex.Valid(ix) && id in ix.tenants && AllKept(id) && AllKept(ns.tenant)
    requires forall i :: 0 <= i < |deps| ==> deps[i].tenant == id
    ensures (exists x :: x in BumpKeys(Naming(prefix), ns) && x in TokenKeys(Naming(prefix), id, deps))
            <==> Render(PartsOf(Apply(ix, Invalidate(ns)), id, sha, deps)) != Render(PartsOf(ix, id, sha, deps))
  {
    NamingTellsApart(prefix);
    RedisBumpReaches(Naming(prefix), ns, id, deps);
    LocalBumpReaches(ix, ns, id, sha, deps);
  }
}
