/** internal/cache/version_manager.go: the invalidation index of the in-process cache, and the
    key that folds its versions. Counters are unbounded (uint64 in the code). */
module VersionIndex {
  import opened Bytes
  import opened KeyEnc
  import Decimal

  const DOT: byte := 0x2E
  const BAR: byte := 0x7C

  datatype Namespace = Namespace(tenant: Bytes, table: Bytes, scope: Bytes)

  datatype TableVersions = TableVersions(version: nat, scopes: map<Bytes, nat>)
  datatype TenantVersions = TenantVersions(gen: nat, tables: map<Bytes, TableVersions>)
  datatype Index = Index(tenants: map<Bytes, TenantVersions>, lastGen: nat)

  ghost predicate Valid(ix: Index) {
    forall t :: t in ix.tenants ==> ix.tenants[t].gen <= ix.lastGen
  }

  /******* Reading versions: a missing table or scope reads as 0 *******/

  function TableVersion(tv: TenantVersions, table: Bytes): nat {
    if table in tv.tables then tv.tables[table].version else 0
  }

  function ScopeVersion(tv: TenantVersions, table: Bytes, scope: Bytes): nat {
    if table in tv.tables && scope in tv.tables[table].scopes then tv.tables[table].scopes[scope] else 0
  }

  // One dependency with the three versions a key folds for it.
  datatype Seg = Seg(tenant: Bytes, gen: nat, table: Bytes, version: nat, scope: Bytes, scoped: nat)

  function SegOf(ix: Index, d: Namespace): Seg
    requires d.tenant in ix.tenants
  {
    var tv := ix.tenants[d.tenant];
    Seg(d.tenant, tv.gen, d.table, TableVersion(tv, d.table), d.scope, ScopeVersion(tv, d.table, d.scope))
  }

  // What a key is built from.
  datatype Parts = Parts(sha: Bytes, id: Bytes, gen: nat, segs: seq<Seg>)

  function PartsOf(ix: Index, id: Bytes, sha: Bytes, deps: seq<Namespace>): Parts
    requires id in ix.tenants && forall i :: 0 <= i < |deps| ==> deps[i].tenant in ix.tenants
  {
    Parts(sha, id, ix.tenants[id].gen, seq(|deps|, i requires 0 <= i < |deps| => SegOf(ix, deps[i])))
  }

  function SegBytes(s: Seg): Bytes {
    Join(DOT, [s.tenant, Decimal.Format(s.gen), s.table, Decimal.Format(s.version), s.scope, Decimal.Format(s.scoped)])
  }

  function Map<S, T>(f: S -> T, s: seq<S>): (r: seq<T>)
    ensures |r| == |s| && forall i :: 0 <= i < |s| ==> r[i] == f(s[i])
  {
    seq(|s|, i requires 0 <= i < |s| => f(s[i]))
  }

  // The rendered key: the escaped sha, the tenant's own segment and the sorted dependency
  // segments, separated by '|'.
  function Render(p: Parts): Bytes {
    JoinParts(Fields(p), BAR)
  }

  function Fields(p: Parts): (r: seq<Bytes>)
    ensures |r| >= 3
  {
    [Escape(p.sha), Join(DOT, [p.id, Decimal.Format(p.gen)])] + (if p.segs == [] then [[]] else Sort(Map(SegBytes, p.segs)))
  }

  /******* The key tells its parts apart *******/

  function SegDecode(b: Bytes): Seg {
    match Split(b, DOT)
    case Ok(f) =>
      if |f| == 6 then Seg(f[0], Number(f[1]), f[2], Number(f[3]), f[4], Number(f[5])) else Seg([], 0, [], 0, [], 0)
    case Err => Seg([], 0, [], 0, [], 0)
  }

  function Number(b: Bytes): nat {
    var n := Decimal.Parse(b);
    if n < 0 then 0 else n
  }

  lemma SegRoundTrip(s: Seg)
    ensures SegDecode(SegBytes(s)) == s
  {
    SplitJoin(DOT, [s.tenant, Decimal.Format(s.gen), s.table, Decimal.Format(s.version), s.scope, Decimal.Format(s.scoped)]);
    Decimal.ParseFormat(s.gen);
    Decimal.ParseFormat(s.version);
    Decimal.ParseFormat(s.scoped);
  }

  lemma SegBytesShape(s: Seg)
    ensures BAR !in SegBytes(s) && SegBytes(s) != []
  {
    var fields := [s.tenant, Decimal.Format(s.gen), s.table, Decimal.Format(s.version), s.scope, Decimal.Format(s.scoped)];
    if BAR in SegBytes(s) {
      JoinBytes(DOT, fields, BAR);
    }
    if SegBytes(s) == [] {
      SplitJoin(DOT, fields);
    }
  }

  lemma TakeOut<S>(s: seq<S>, x: S) returns (l: seq<S>, r: seq<S>)
    requires x in multiset(s)
    ensures s == l + [x] + r && multiset(l + r) == multiset(s) - multiset{x}
  {
    var i :| 0 <= i < |s| && s[i] == x;
    l, r := s[..i], s[i + 1..];
    assert s == l + [x] + r;
  }

  lemma MapOut<S, T>(f: S -> T, l: seq<S>, x: S, r: seq<S>)
    ensures multiset(Map(f, l + [x] + r)) == multiset(Map(f, l + r)) + multiset{f(x)}
  {
    assert Map(f, l + [x] + r) == Map(f, l) + [f(x)] + Map(f, r);
    assert Map(f, l + r) == Map(f, l) + Map(f, r);
  }

  lemma {:induction false} MapMultiset<S, T>(f: S -> T, a: seq<S>, b: seq<S>)
    requires multiset(a) == multiset(b)
    ensures multiset(Map(f, a)) == multiset(Map(f, b))
    decreases |a|
  {
    if a == [] {
      assert |b| == |multiset(a)| == 0;
    } else {
      var x := a[0];
      var la, ra := TakeOut(a, x);
      var lb, rb := TakeOut(b, x);
      MapMultiset(f, la + ra, lb + rb);
      MapOut(f, la, x, ra);
      MapOut(f, lb, x, rb);
    }
  }

  lemma FieldsHoldNoBar(p: Parts)
    ensures forall i :: 0 <= i < |Fields(p)| ==> BAR !in Fields(p)[i]
  {
    var fs := Fields(p);
    forall i | 0 <= i < |fs| ensures BAR !in fs[i] {
      if i == 1 && BAR in fs[1] {
        JoinBytes(DOT, [p.id, Decimal.Format(p.gen)], BAR);
      }
      if i >= 2 && p.segs != [] {
        var segs := Map(SegBytes, p.segs);
        SortSorts(segs);
        assert fs[i] == Sort(segs)[i - 2];
        assert fs[i] in multiset(segs);
        var j :| 0 <= j < |segs| && segs[j] == fs[i];
        SegBytesShape(p.segs[j]);
      }
    }
  }

  lemma RenderInjective(p: Parts, q: Parts)
    requires Render(p) == Render(q)
    ensures p.sha == q.sha && p.id == q.id && p.gen == q.gen && multiset(p.segs) == multiset(q.segs)
  {
    FieldsHoldNoBar(p);
    FieldsHoldNoBar(q);
    SplitJoinParts(Fields(p), BAR);
    SplitJoinParts(Fields(q), BAR);
    var f, g := Fields(p), Fields(q);
    assert f == g;
    EscapeInjective(p.sha, q.sha);
    JoinInjective(DOT, [p.id, Decimal.Format(p.gen)], [q.id, Decimal.Format(q.gen)]);
    assert [p.id, Decimal.Format(p.gen)][1] == [q.id, Decimal.Format(q.gen)][1];
    Decimal.FormatInjective(p.gen, q.gen);
    TailInjective(p.segs, q.segs, f[2..]);
  }

  lemma TailInjective(a: seq<Seg>, b: seq<Seg>, tail: seq<Bytes>)
    requires tail == if a == [] then [[]] else Sort(Map(SegBytes, a))
    requires tail == if b == [] then [[]] else Sort(Map(SegBytes, b))
    ensures multiset(a) == multiset(b)
  {
    if a != [] && b != [] {
      SortCanonical(Map(SegBytes, a), Map(SegBytes, b));
      MapMultiset(SegDecode, Map(SegBytes, a), Map(SegBytes, b));
      forall s: Seg { SegRoundTrip(s); }
      assert Map(SegDecode, Map(SegBytes, a)) == a;
      assert Map(SegDecode, Map(SegBytes, b)) == b;
    } else if a != [] {
      NotTheEmptyTail(a);
    } else if b != [] {
      NotTheEmptyTail(b);
    }
  }

  lemma NotTheEmptyTail(a: seq<Seg>)
    requires a != []
    ensures Sort(Map(SegBytes, a)) != [[]]
  {
    var segs := Map(SegBytes, a);
    SortSorts(segs);
    if Sort(segs) == [[]] {
      assert segs[0] in multiset(segs);
      SegBytesShape(a[0]);
    }
  }

  // The order of the dependencies never changes the key.
  lemma RenderCanonical(p: Parts, q: Parts)
    requires p.sha == q.sha && p.id == q.id && p.gen == q.gen && multiset(p.segs) == multiset(q.segs)
    ensures Render(p) == Render(q)
  {
    assert |p.segs| == |multiset(p.segs)| == |q.segs|;
    MapMultiset(SegBytes, p.segs, q.segs);
    SortCanonical(Map(SegBytes, p.segs), Map(SegBytes, q.segs));
  }

  /******* The operations *******/

  // newTenantLocked, when the tenant has no index.
  function Touch(ix: Index, id: Bytes): (r: Index)
    ensures id in r.tenants
    ensures ix.tenants.Keys <= r.tenants.Keys
  {
    if id in ix.tenants then ix
    else Index(ix.tenants[id := TenantVersions(ix.lastGen + 1, map[])], ix.lastGen + 1)
  }

  // The index once a key for tenant id over deps has been built: each tenant it names, in turn.
  function TouchFor(ix: Index, id: Bytes, deps: seq<Namespace>): (r: Index)
    ensures id in r.tenants && forall i :: 0 <= i < |deps| ==> deps[i].tenant in r.tenants
    ensures ix.tenants.Keys <= r.tenants.Keys
  {
    if deps == [] then Touch(ix, id) else Touch(TouchFor(ix, id, deps[..|deps| - 1]), deps[|deps| - 1].tenant)
  }

  function Table(tv: TenantVersions, table: Bytes): TableVersions {
    if table in tv.tables then tv.tables[table] else TableVersions(0, map[])
  }

  function BumpTable(ix: Index, id: Bytes, table: Bytes): Index {
    if id !in ix.tenants then ix else
      var tv := ix.tenants[id];
      var t := Table(tv, table);
      ix.(tenants := ix.tenants[id := tv.(tables := tv.tables[table := TableVersions(t.version + 1, map[])])])
  }

  function Incremented(m: map<Bytes, nat>, k: Bytes): map<Bytes, nat> {
    m[k := (if k in m then m[k] else 0) + 1]
  }

  function BumpNamespace(ix: Index, ns: Namespace): Index {
    if ns.tenant !in ix.tenants then ix else
      var tv := ix.tenants[ns.tenant];
      var t := Table(tv, ns.table);
      var one := Incremented(t.scopes, ns.scope);
      var both := if ns.scope != [] then Incremented(one, []) else one;
      ix.(tenants := ix.tenants[ns.tenant := tv.(tables := tv.tables[ns.table := t.(scopes := both)])])
  }

  function BumpTenant(ix: Index, id: Bytes): Index {
    ix.(tenants := ix.tenants - {id})
  }

  function Prune(ix: Index, keep: Bytes -> bool): Index {
    ix.(tenants := map t | t in ix.tenants && keep(t) :: ix.tenants[t])
  }

  /******* Which keys an operation orphans *******/

  datatype Op =
    | Create(id: Bytes)                 // the first key built for a tenant
    | Invalidate(ns: Namespace)         // LocalCache.Invalidate of one namespace
    | InvalidateTenant(id: Bytes)
    | PruneTo(keep: set<Bytes>)

  function Apply(ix: Index, op: Op): Index {
    match op
    case Create(id) => Touch(ix, id)
    case Invalidate(ns) => if ns.scope == [] then BumpTable(ix, ns.tenant, ns.table) else BumpNamespace(ix, ns)
    case InvalidateTenant(id) => BumpTenant(ix, id)
    case PruneTo(keep) => Prune(ix, t => t in keep)
  }

  // A write to ns changes what a reader of d sees: the same table, and a whole-table write,
  // the reader's own scope, or a reader of the whole table.
  predicate Reaches(ns: Namespace, d: Namespace) {
    ns.tenant == d.tenant && ns.table == d.table && (ns.scope == [] || ns.scope == d.scope || d.scope == [])
  }

  predicate OpReachesTenant(op: Op, id: Bytes) {
    (op.InvalidateTenant? && op.id == id) || (op.PruneTo? && id !in op.keep)
  }

  predicate OpReaches(op: Op, d: Namespace) {
    OpReachesTenant(op, d.tenant) || (op.Invalidate? && Reaches(op.ns, d))
  }

  function NsOf(s: Seg): Namespace {
    Namespace(s.tenant, s.table, s.scope)
  }

  // The versions a segment was built from are the current ones, or are gone for good.
  predicate SegLive(ix: Index, s: Seg) {
    s.tenant in ix.tenants && SegOf(ix, NsOf(s)) == s
  }

  predicate SegDead(ix: Index, s: Seg) {
    && s.gen <= ix.lastGen
    && (s.tenant in ix.tenants ==>
          var tv := ix.tenants[s.tenant];
          var v, sv := TableVersion(tv, s.table), ScopeVersion(tv, s.table, s.scope);
          tv.gen > s.gen || (tv.gen == s.gen && (v > s.version || (v == s.version && sv > s.scoped))))
  }

  predicate GenLive(ix: Index, id: Bytes, gen: nat) {
    id in ix.tenants && ix.tenants[id].gen == gen
  }

  predicate GenDead(ix: Index, id: Bytes, gen: nat) {
    gen <= ix.lastGen && (id in ix.tenants ==> ix.tenants[id].gen > gen)
  }

  lemma ValidStep(ix: Index, op: Op)
    requires Valid(ix)
    ensures Valid(Apply(ix, op)) && Apply(ix, op).lastGen >= ix.lastGen
  {}

  // An operation kills exactly the segments it reaches, and nothing dead comes back.
  lemma SegStep(ix: Index, op: Op, s: Seg)
    requires Valid(ix) && (SegLive(ix, s) || SegDead(ix, s))
    ensures SegLive(Apply(ix, op), s) <==> SegLive(ix, s) && !OpReaches(op, NsOf(s))
    ensures SegLive(Apply(ix, op), s) || SegDead(Apply(ix, op), s)
  {}

  lemma GenStep(ix: Index, op: Op, id: Bytes, gen: nat)
    requires Valid(ix) && (GenLive(ix, id, gen) || GenDead(ix, id, gen))
    ensures GenLive(Apply(ix, op), id, gen) <==> GenLive(ix, id, gen) && !OpReachesTenant(op, id)
    ensures GenLive(Apply(ix, op), id, gen) || GenDead(Apply(ix, op), id, gen)
  {}

  // The versions a key would fold for d now; the generation a dropped tenant comes back at
  // is one it has never had.
  datatype Stamp = Stamp(gen: nat, version: nat, scoped: nat)

  function StampOf(ix: Index, d: Namespace): Stamp {
    if d.tenant in ix.tenants then
      var s := SegOf(ix, d);
      Stamp(s.gen, s.version, s.scoped)
    else Stamp(ix.lastGen + 1, 0, 0)
  }

  predicate NotAfter(a: Stamp, b: Stamp) {
    a.gen < b.gen || (a.gen == b.gen && (a.version < b.version || (a.version == b.version && a.scoped <= b.scoped)))
  }

  function ApplyAll(ix: Index, ops: seq<Op>): Index
    decreases |ops|
  {
    if ops == [] then ix else ApplyAll(Apply(ix, ops[0]), ops[1..])
  }

  // Over every run, and though scopes and tenants are dropped and read as 0 again, no
  // dependency's versions ever go back; an operation that reaches it moves them forward.
  lemma {:induction false} VersionsNeverGoBack(ix: Index, ops: seq<Op>, d: Namespace)
    requires Valid(ix)
    ensures Valid(ApplyAll(ix, ops))
    ensures NotAfter(StampOf(ix, d), StampOf(ApplyAll(ix, ops), d))
    ensures d.tenant in ix.tenants && (exists i :: 0 <= i < |ops| && OpReaches(ops[i], d)) ==>
              StampOf(ix, d) != StampOf(ApplyAll(ix, ops), d)
    decreases |ops|
  {
    if ops != [] {
      var next := Apply(ix, ops[0]);
      ValidStep(ix, ops[0]);
      VersionsNeverGoBack(next, ops[1..], d);
      assert NotAfter(StampOf(ix, d), StampOf(next, d));
      if d.tenant in ix.tenants && exists i :: 0 <= i < |ops| && OpReaches(ops[i], d) {
        if OpReaches(ops[0], d) {
          assert StampOf(ix, d) != StampOf(next, d);
        } else {
          assert d.tenant in next.tenants;
          var i :| 0 <= i < |ops| && OpReaches(ops[i], d);
          assert OpReaches(ops[1..][i - 1], d);
        }
      }
    }
  }

  /******* The object *******/

  class VersionManager {
    var tenants: map<Bytes, TenantVersions>
    var lastGen: nat

    constructor ()
      ensures State() == Index(map[], 0)
    {
      tenants, lastGen := map[], 0;
    }

    function State(): Index
      reads this
    {
      Index(tenants, lastGen)
    }

    method QueryKey(id: Bytes, sha: Bytes, deps: seq<Namespace>) returns (key: Bytes)
      modifies this
      ensures State() == TouchFor(old(State()), id, deps)
      ensures key == Render(PartsOf(State(), id, sha, deps))
    {
      CreateMissing(id, deps);
      var segs := Segments(id, sha, deps);
      key := JoinParts([Escape(sha), Join(DOT, [id, Decimal.Format(tenants[id].gen)])] + (if segs == [] then [[]] else Sort(segs)), BAR);
    }

    // The indexes the key's tenants lack, each at a fresh generation.
    method CreateMissing(id: Bytes, deps: seq<Namespace>)
      modifies this
      ensures State() == TouchFor(old(State()), id, deps)
    {
      if id !in tenants {
        NewTenant(id);
      }
      for i := 0 to |deps|
        invariant State() == TouchFor(old(State()), id, deps[..i])
      {
        assert deps[..i + 1][..i] == deps[..i];
        if deps[i].tenant !in tenants {
          NewTenant(deps[i].tenant);
        }
      }
      assert deps[..|deps|] == deps;
    }

    method Segments(ghost id: Bytes, ghost sha: Bytes, deps: seq<Namespace>) returns (segs: seq<Bytes>)
      requires id in tenants && forall i :: 0 <= i < |deps| ==> deps[i].tenant in tenants
      ensures segs == Map(SegBytes, PartsOf(State(), id, sha, deps).segs)
    {
      segs := [];
      ghost var p := PartsOf(State(), id, sha, deps);
      for i := 0 to |deps|
        invariant segs == Map(SegBytes, p.segs)[..i]
      {
        var d := deps[i];
        var tv := tenants[d.tenant];
        var table, scope := 0, 0;
        if d.table in tv.tables {
          table := tv.tables[d.table].version;
          if d.scope in tv.tables[d.table].scopes {
            scope := tv.tables[d.table].scopes[d.scope];
          }
        }
        assert p.segs[i] == Seg(d.tenant, tv.gen, d.table, table, d.scope, scope);
        segs := segs + [Join(DOT, [d.tenant, Decimal.Format(tv.gen), d.table, Decimal.Format(table), d.scope, Decimal.Format(scope)])];
      }
    }

    method NewTenant(id: Bytes)
      requires id !in tenants
      modifies this
      ensures State() == Touch(old(State()), id)
    {
      lastGen := lastGen + 1;
      tenants := tenants[id := TenantVersions(lastGen, map[])];
    }

    method DoBumpTable(id: Bytes, table: Bytes)
      modifies this
      ensures State() == BumpTable(old(State()), id, table)
    {
      if id in tenants {
        var tv := tenants[id];
        var t := if table in tv.tables then tv.tables[table] else TableVersions(0, map[]);
        t := t.(version := t.version + 1);
        t := t.(scopes := map[]);
        tenants := tenants[id := tv.(tables := tv.tables[table := t])];
      }
    }

    method DoBumpNamespace(ns: Namespace)
      modifies this
      ensures State() == BumpNamespace(old(State()), ns)
    {
      if ns.tenant !in tenants {
        return;
      }
      var tv := tenants[ns.tenant];
      var t := if ns.table in tv.tables then tv.tables[ns.table] else TableVersions(0, map[]);
      t := t.(scopes := Incremented(t.scopes, ns.scope));
      if ns.scope != [] {
        t := t.(scopes := Incremented(t.scopes, []));
      }
      tenants := tenants[ns.tenant := tv.(tables := tv.tables[ns.table := t])];
    }

    method DoBumpTenant(id: Bytes)
      modifies this
      ensures State() == BumpTenant(old(State()), id)
    {
      tenants := tenants - {id};
    }

    method DoPrune(keep: Bytes -> bool)
      modifies this
      ensures State() == Prune(old(State()), keep)
    {
      var ids := tenants.Keys;
      while ids != {}
        invariant ids <= old(tenants.Keys) && lastGen == old(lastGen)
        invariant tenants == map t | t in old(tenants) && (t in ids || keep(t)) :: old(tenants)[t]
        decreases ids
      {
        var id :| id in ids;
        if !keep(id) {
          tenants := tenants - {id};
        }
        ids := ids - {id};
      }
    }
  }
}
