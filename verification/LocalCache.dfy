/** internal/cache/local.go over the version index, refined to the simple cache in which an
    invalidation erases every entry it reaches and a fill taken before it is thrown away. */
module LocalCache {
  import opened Common
  import opened Bytes
  import opened VersionIndex

  type Value = Bytes

  // What a cached result is the result of: dependencies count whatever their order.
  datatype EntryId = EntryId(id: Bytes, sha: Bytes, deps: multiset<Namespace>)

  // A Snapshot handed out by a Lookup, whose key it read when there had been at bumps. current is
  // the simple cache's view of it: no invalidation has reached the entry since.
  datatype Snap = Snap(parts: Parts, deps: seq<Namespace>, at: nat, current: bool)

  // A stored value, and the snapshot it was filled from.
  datatype Item = Item(value: Value, source: nat)

  function Entry(s: Snap): EntryId {
    EntryId(s.parts.id, s.parts.sha, multiset(s.deps))
  }

  // ix and store are the cache; simple is the specification running beside it. whole holds
  // until Ristretto has evicted or declined something.
  datatype State = State(ix: Index, store: map<Bytes, Item>, snaps: seq<Snap>, simple: map<EntryId, Item>, whole: bool, bumps: seq<Op>)

  // A Lookup reads its key, and later, with no lock held across the two, the store under it:
  // Found, in whatever state it is by then.
  datatype Event =
    | ReadKey(id: Bytes, sha: Bytes, deps: seq<Namespace>)
    | Fill(snap: nat, value: Value)
    | Bump(op: Op)
    | Evict(keys: set<Bytes>)

  predicate Enabled(st: State, e: Event) {
    match e
    case ReadKey(id, _, deps) => forall i :: 0 <= i < |deps| ==> deps[i].tenant == id
    case Fill(snap, _) => snap < |st.snaps|
    case Bump(op) => !op.Create?
    case Evict(_) => true
  }

  predicate Orphans(op: Op, e: EntryId) {
    OpReachesTenant(op, e.id) || exists d :: d in e.deps && OpReaches(op, d)
  }

  function SnapAt(ix: Index, id: Bytes, sha: Bytes, deps: seq<Namespace>, at: nat): Snap
    requires forall i :: 0 <= i < |deps| ==> deps[i].tenant == id
  {
    Snap(PartsOf(Touch(ix, id), id, sha, deps), deps, at, true)
  }

  function Aged(snaps: seq<Snap>, op: Op): (r: seq<Snap>)
    ensures |r| == |snaps|
    ensures forall i :: 0 <= i < |r| ==> r[i] == snaps[i].(current := snaps[i].current && !Orphans(op, Entry(snaps[i])))
  {
    seq(|snaps|, i requires 0 <= i < |snaps| => snaps[i].(current := snaps[i].current && !Orphans(op, Entry(snaps[i]))))
  }

  function Next(st: State, e: Event): State
    requires Enabled(st, e)
  {
    match e
    case ReadKey(id, sha, deps) => st.(ix := Touch(st.ix, id), snaps := st.snaps + [SnapAt(st.ix, id, sha, deps, |st.bumps|)])
    case Fill(i, v) =>
      var s := st.snaps[i];
      st.(store := st.store[Render(s.parts) := Item(v, i)], simple := if s.current then st.simple[Entry(s) := Item(v, i)] else st.simple)
    case Bump(op) =>
      st.(ix := Apply(st.ix, op), snaps := Aged(st.snaps, op), bumps := st.bumps + [op],
          simple := map e | e in st.simple && !Orphans(op, e) :: st.simple[e])
    case Evict(keys) => st.(store := st.store - keys, whole := false)
  }

  const EMPTY := State(Index(map[], 0), map[], [], map[], true, [])

  // What a Lookup finds under the key it read, and what the simple cache would answer.
  function Found(st: State, i: nat): Option<Item>
    requires i < |st.snaps|
  {
    var key := Render(st.snaps[i].parts);
    if key in st.store then Some(st.store[key]) else None
  }

  function SimplyFound(st: State, e: EntryId): Option<Item> {
    if e in st.simple then Some(st.simple[e]) else None
  }

  /******* The coupling *******/

  predicate PartsLive(ix: Index, p: Parts) {
    GenLive(ix, p.id, p.gen) && forall i :: 0 <= i < |p.segs| ==> SegLive(ix, p.segs[i])
  }

  ghost predicate SnapOK(ix: Index, s: Snap) {
    && |s.parts.segs| == |s.deps|
    && (forall i :: 0 <= i < |s.deps| ==> NsOf(s.parts.segs[i]) == s.deps[i])
    && (forall i :: 0 <= i < |s.deps| ==> SegLive(ix, s.parts.segs[i]) || SegDead(ix, s.parts.segs[i]))
    && (GenLive(ix, s.parts.id, s.parts.gen) || GenDead(ix, s.parts.id, s.parts.gen))
    && (s.current <==> PartsLive(ix, s.parts))
  }

  ghost predicate Stored(st: State, key: Bytes) {
    exists i :: 0 <= i < |st.snaps| && Render(st.snaps[i].parts) == key
  }

  ghost predicate Backed(st: State, e: EntryId) {
    exists i :: 0 <= i < |st.snaps| && st.snaps[i].current && Entry(st.snaps[i]) == e && (st.whole ==> Render(st.snaps[i].parts) in st.store)
  }

  ghost predicate Coupled(st: State, s: Snap) {
    s.current && Render(s.parts) in st.store ==> Entry(s) in st.simple && st.simple[Entry(s)] == st.store[Render(s.parts)]
  }

  ghost predicate Inv(st: State) {
    && VersionIndex.Valid(st.ix)
    && (forall i :: 0 <= i < |st.snaps| ==> SnapOK(st.ix, st.snaps[i]) && Coupled(st, st.snaps[i]))
    && (forall k :: k in st.store ==> Stored(st, k))
    && (forall e :: e in st.simple ==> Backed(st, e))
  }

  lemma NsBack(s: Snap, ix: Index)
    requires SnapOK(ix, s)
    ensures Map(NsOf, s.parts.segs) == s.deps
  {}

  lemma LiveTransfers(ix: Index, p: Parts, q: Parts)
    requires p.id == q.id && p.gen == q.gen && multiset(p.segs) == multiset(q.segs) && PartsLive(ix, p)
    ensures PartsLive(ix, q)
  {
    forall i | 0 <= i < |q.segs| ensures SegLive(ix, q.segs[i]) {
      assert q.segs[i] in multiset(p.segs);
    }
  }

  // One key, one entry, and both snapshots current or neither.
  lemma SameKey(ix: Index, a: Snap, b: Snap)
    requires SnapOK(ix, a) && SnapOK(ix, b) && Render(a.parts) == Render(b.parts)
    ensures Entry(a) == Entry(b) && a.current == b.current
  {
    RenderInjective(a.parts, b.parts);
    MapMultiset(NsOf, a.parts.segs, b.parts.segs);
    NsBack(a, ix);
    NsBack(b, ix);
    if a.current {
      LiveTransfers(ix, a.parts, b.parts);
    }
    if b.current {
      LiveTransfers(ix, b.parts, a.parts);
    }
  }

  function SegNow(ix: Index, d: Namespace): Seg {
    if d.tenant in ix.tenants then SegOf(ix, d) else Seg(d.tenant, 0, d.table, 0, d.scope, 0)
  }

  // One entry, and one key among the current.
  lemma SameEntry(ix: Index, a: Snap, b: Snap)
    requires SnapOK(ix, a) && SnapOK(ix, b) && a.current && b.current && Entry(a) == Entry(b)
    ensures Render(a.parts) == Render(b.parts)
  {
    var now := (d: Namespace) => SegNow(ix, d);
    MapMultiset(now, a.deps, b.deps);
    assert Map(now, a.deps) == a.parts.segs;
    assert Map(now, b.deps) == b.parts.segs;
    RenderCanonical(a.parts, b.parts);
  }

  lemma SegsBump(ix: Index, op: Op, s: Snap)
    requires VersionIndex.Valid(ix) && SnapOK(ix, s)
    ensures forall i :: 0 <= i < |s.deps| ==> (SegLive(Apply(ix, op), s.parts.segs[i]) <==> SegLive(ix, s.parts.segs[i]) && !OpReaches(op, s.deps[i]))
    ensures forall i :: 0 <= i < |s.deps| ==> SegLive(Apply(ix, op), s.parts.segs[i]) || SegDead(Apply(ix, op), s.parts.segs[i])
  {
    forall i | 0 <= i < |s.deps|
      ensures SegLive(Apply(ix, op), s.parts.segs[i]) <==> SegLive(ix, s.parts.segs[i]) && !OpReaches(op, s.deps[i])
      ensures SegLive(Apply(ix, op), s.parts.segs[i]) || SegDead(Apply(ix, op), s.parts.segs[i])
    {
      SegStep(ix, op, s.parts.segs[i]);
    }
  }

  lemma SnapBump(ix: Index, op: Op, s: Snap)
    requires VersionIndex.Valid(ix) && SnapOK(ix, s)
    ensures SnapOK(Apply(ix, op), s.(current := s.current && !Orphans(op, Entry(s))))
  {
    GenStep(ix, op, s.parts.id, s.parts.gen);
    SegsBump(ix, op, s);
    OrphansSome(op, s);
  }

  lemma OrphansSome(op: Op, s: Snap)
    ensures Orphans(op, Entry(s)) <==> OpReachesTenant(op, s.parts.id) || exists i :: 0 <= i < |s.deps| && OpReaches(op, s.deps[i])
  {
    if d :| d in multiset(s.deps) && OpReaches(op, d) {
      var i :| 0 <= i < |s.deps| && s.deps[i] == d;
    }
    if i :| 0 <= i < |s.deps| && OpReaches(op, s.deps[i]) {
      assert s.deps[i] in multiset(s.deps);
    }
  }

  lemma NewSnapOK(ix: Index, id: Bytes, sha: Bytes, deps: seq<Namespace>, at: nat)
    requires VersionIndex.Valid(ix) && forall i :: 0 <= i < |deps| ==> deps[i].tenant == id
    ensures SnapOK(Touch(ix, id), SnapAt(ix, id, sha, deps, at))
  {}

  lemma OrphansNothing(ix: Index, id: Bytes, s: Snap)
    requires VersionIndex.Valid(ix) && SnapOK(ix, s)
    ensures SnapOK(Touch(ix, id), s)
  {
    SnapBump(ix, Create(id), s);
    assert !Orphans(Create(id), Entry(s));
    assert s.(current := s.current) == s;
  }

  // A snapshot whose key is stored already is of the entry some earlier one filled.
  lemma NewCoupled(st: State, ix: Index, s: Snap)
    requires Inv(st) && SnapOK(ix, s) && forall i :: 0 <= i < |st.snaps| ==> SnapOK(ix, st.snaps[i])
    ensures Coupled(st, s)
  {
    if Render(s.parts) in st.store {
      assert Stored(st, Render(s.parts));
      var i :| 0 <= i < |st.snaps| && Render(st.snaps[i].parts) == Render(s.parts);
      SameKey(ix, st.snaps[i], s);
      assert Coupled(st, st.snaps[i]);
    }
  }

  lemma OneMoreSnap(st: State, t: State, s: Snap)
    requires Inv(st) && t == st.(ix := t.ix, snaps := st.snaps + [s]) && VersionIndex.Valid(t.ix)
    requires (forall i :: 0 <= i < |t.snaps| ==> SnapOK(t.ix, t.snaps[i])) && Coupled(st, s)
    ensures Inv(t)
  {
    forall i | 0 <= i < |t.snaps| ensures Coupled(t, t.snaps[i]) {
      assert i < |st.snaps| ==> t.snaps[i] == st.snaps[i] && Coupled(st, st.snaps[i]);
    }
    forall k | k in t.store ensures Stored(t, k) {
      assert Stored(st, k);
      var i :| 0 <= i < |st.snaps| && Render(st.snaps[i].parts) == k;
      assert t.snaps[i] == st.snaps[i];
    }
    forall x | x in t.simple ensures Backed(t, x) {
      StillBacked(st, t, s, x);
    }
  }

  lemma StillBacked(st: State, t: State, s: Snap, x: EntryId)
    requires t == st.(ix := t.ix, snaps := st.snaps + [s]) && Backed(st, x)
    ensures Backed(t, x)
  {
    var i :| 0 <= i < |st.snaps| && st.snaps[i].current && Entry(st.snaps[i]) == x && (st.whole ==> Render(st.snaps[i].parts) in st.store);
    assert t.snaps[i] == st.snaps[i];
  }

  lemma ReadKeyKeepsInv(st: State, e: Event)
    requires Inv(st) && Enabled(st, e) && e.ReadKey?
    ensures Inv(Next(st, e))
  {
    var t := Next(st, e);
    var s := SnapAt(st.ix, e.id, e.sha, e.deps, |st.bumps|);
    NewSnapOK(st.ix, e.id, e.sha, e.deps, |st.bumps|);
    ValidStep(st.ix, Create(e.id));
    forall i | 0 <= i < |st.snaps| ensures SnapOK(t.ix, st.snaps[i]) {
      OrphansNothing(st.ix, e.id, st.snaps[i]);
    }
    NewCoupled(st, t.ix, s);
    OneMoreSnap(st, t, s);
  }

  lemma FillCoupled(st: State, e: Event, i: nat)
    requires Inv(st) && Enabled(st, e) && e.Fill? && i < |st.snaps|
    ensures Coupled(Next(st, e), st.snaps[i])
  {
    var s, o := st.snaps[e.snap], st.snaps[i];
    assert SnapOK(st.ix, s) && SnapOK(st.ix, o) && Coupled(st, o);
    if Render(o.parts) == Render(s.parts) {
      SameKey(st.ix, o, s);
    } else if o.current && s.current && Entry(o) == Entry(s) {
      SameEntry(st.ix, o, s);
    }
  }

  lemma FillBacked(st: State, e: Event, x: EntryId)
    requires Enabled(st, e) && e.Fill? && x in Next(st, e).simple && (x in st.simple ==> Backed(st, x))
    ensures Backed(Next(st, e), x)
  {
    var t := Next(st, e);
    if x in st.simple {
      StoreGrowsBacked(st, t, x);
    } else {
      assert t.snaps[e.snap].current && Entry(t.snaps[e.snap]) == x;
    }
  }

  lemma StoreGrowsBacked(st: State, t: State, x: EntryId)
    requires Backed(st, x) && t.snaps == st.snaps && t.whole == st.whole && st.store.Keys <= t.store.Keys
    ensures Backed(t, x)
  {
    var i :| 0 <= i < |st.snaps| && st.snaps[i].current && Entry(st.snaps[i]) == x && (st.whole ==> Render(st.snaps[i].parts) in st.store);
    assert t.snaps[i].current && Entry(t.snaps[i]) == x && (t.whole ==> Render(t.snaps[i].parts) in t.store);
  }

  lemma FillKeepsInv(st: State, e: Event)
    requires Inv(st) && Enabled(st, e) && e.Fill?
    ensures Inv(Next(st, e))
  {
    var t := Next(st, e);
    forall i | 0 <= i < |t.snaps| ensures Coupled(t, t.snaps[i]) {
      FillCoupled(st, e, i);
    }
    forall k | k in t.store ensures Stored(t, k) {
      if k in st.store {
        assert Stored(st, k);
      } else {
        assert Render(t.snaps[e.snap].parts) == k;
      }
    }
    forall x | x in t.simple ensures Backed(t, x) {
      FillBacked(st, e, x);
    }
  }

  lemma BumpKeepsInv(st: State, e: Event)
    requires Inv(st) && Enabled(st, e) && e.Bump?
    ensures Inv(Next(st, e))
  {
    var t := Next(st, e);
    ValidStep(st.ix, e.op);
    forall i | 0 <= i < |t.snaps| ensures SnapOK(t.ix, t.snaps[i]) && Coupled(t, t.snaps[i]) {
      SnapBump(st.ix, e.op, st.snaps[i]);
      assert Coupled(st, st.snaps[i]);
    }
    forall k | k in t.store ensures Stored(t, k) {
      assert Stored(st, k);
      var i :| 0 <= i < |st.snaps| && Render(st.snaps[i].parts) == k;
      assert Render(t.snaps[i].parts) == k;
    }
    forall x | x in t.simple ensures Backed(t, x) {
      BumpedBacked(st, e, x);
    }
  }

  lemma BumpedBacked(st: State, e: Event, x: EntryId)
    requires Enabled(st, e) && e.Bump? && Backed(st, x) && x in Next(st, e).simple
    ensures Backed(Next(st, e), x)
  {
    var t := Next(st, e);
    var i :| 0 <= i < |st.snaps| && st.snaps[i].current && Entry(st.snaps[i]) == x && (st.whole ==> Render(st.snaps[i].parts) in st.store);
    assert t.snaps[i].current && Entry(t.snaps[i]) == x;
  }

  lemma EvictKeepsInv(st: State, e: Event)
    requires Inv(st) && e.Evict?
    ensures Inv(Next(st, e))
  {
    var t := Next(st, e);
    forall i | 0 <= i < |t.snaps| ensures Coupled(t, t.snaps[i]) {
      assert Coupled(st, st.snaps[i]);
    }
    forall k | k in t.store ensures Stored(t, k) {
      assert Stored(st, k);
    }
    forall x | x in t.simple ensures Backed(t, x) {
      assert Backed(st, x);
      var i :| 0 <= i < |st.snaps| && st.snaps[i].current && Entry(st.snaps[i]) == x;
      assert t.snaps[i].current;
    }
  }

  ghost predicate Valid(st: State, events: seq<Event>)
    decreases |events|
  {
    events == [] || (Enabled(st, events[0]) && Valid(Next(st, events[0]), events[1..]))
  }

  ghost function Run(st: State, events: seq<Event>): State
    requires Valid(st, events)
    decreases |events|
  {
    if events == [] then st else Run(Next(st, events[0]), events[1..])
  }

  lemma {:induction false} RunKeepsInv(st: State, events: seq<Event>)
    requires Inv(st) && Valid(st, events)
    ensures Inv(Run(st, events))
    decreases |events|
  {
    if events != [] {
      match events[0] {
        case ReadKey(_, _, _) => ReadKeyKeepsInv(st, events[0]);
        case Fill(_, _) => FillKeepsInv(st, events[0]);
        case Bump(_) => BumpKeepsInv(st, events[0]);
        case Evict(_) => EvictKeepsInv(st, events[0]);
      }
      RunKeepsInv(Next(st, events[0]), events[1..]);
    }
  }

  /******* Which fill a lookup finds *******/

  // No bump in [from, to) reached the entry.
  ghost predicate Spared(bumps: seq<Op>, e: EntryId, from: nat, to: nat) {
    to <= |bumps| && forall n :: from <= n < to ==> !Orphans(bumps[n], e)
  }

  ghost predicate SparedBetween(st: State, i: nat, j: nat)
    requires i < |st.snaps| && j < |st.snaps|
  {
    Spared(st.bumps, Entry(st.snaps[i]), Smaller(st.snaps[i].at, st.snaps[j].at), Larger(st.snaps[i].at, st.snaps[j].at))
  }

  // A snapshot is current until a bump reaches its entry.
  ghost predicate Dated(bumps: seq<Op>, s: Snap) {
    s.at <= |bumps| && (s.current <==> Spared(bumps, Entry(s), s.at, |bumps|))
  }

  // Those with one key were read with no such bump in between.
  ghost predicate KeysApart(st: State) {
    forall i, j :: 0 <= i < |st.snaps| && 0 <= j < |st.snaps| && Render(st.snaps[i].parts) == Render(st.snaps[j].parts) ==> SparedBetween(st, i, j)
  }

  // Every value is known by the snapshot it was filled from, in the simple cache a current one.
  ghost predicate Sourced(st: State) {
    && (forall k :: k in st.store ==> st.store[k].source < |st.snaps| && Render(st.snaps[st.store[k].source].parts) == k)
    && (forall e :: e in st.simple ==> FilledBy(st, e, st.simple[e].source))
  }

  ghost predicate FilledBy(st: State, e: EntryId, i: nat) {
    i < |st.snaps| && st.snaps[i].current && Entry(st.snaps[i]) == e
  }

  ghost predicate History(st: State) {
    (forall i :: 0 <= i < |st.snaps| ==> Dated(st.bumps, st.snaps[i])) && KeysApart(st) && Sourced(st)
  }

  lemma OneKeyOneEpoch(st: State, t: State, i: nat)
    requires i < |st.snaps| && Dated(st.bumps, st.snaps[i]) && t.bumps == st.bumps && |t.snaps| == |st.snaps| + 1 && t.snaps[i] == st.snaps[i]
    requires SnapOK(t.ix, st.snaps[i]) && SnapOK(t.ix, t.snaps[|st.snaps|]) && Render(st.snaps[i].parts) == Render(t.snaps[|st.snaps|].parts)
    requires t.snaps[|st.snaps|].current && t.snaps[|st.snaps|].at == |st.bumps|
    ensures SparedBetween(t, i, |st.snaps|) && SparedBetween(t, |st.snaps|, i)
  {
    SameKey(t.ix, st.snaps[i], t.snaps[|st.snaps|]);
  }

  lemma ReadKeyKeepsHistory(st: State, e: Event)
    requires Inv(st) && History(st) && Enabled(st, e) && e.ReadKey?
    ensures History(Next(st, e))
  {
    var t, n := Next(st, e), |st.snaps|;
    NewSnapOK(st.ix, e.id, e.sha, e.deps, |st.bumps|);
    forall i | 0 <= i < n && Render(t.snaps[i].parts) == Render(t.snaps[n].parts) ensures SparedBetween(t, i, n) && SparedBetween(t, n, i) {
      assert Dated(st.bumps, st.snaps[i]);
      OrphansNothing(st.ix, e.id, st.snaps[i]);
      OneKeyOneEpoch(st, t, i);
    }
    forall i, j | 0 <= i < |t.snaps| && 0 <= j < |t.snaps| && Render(t.snaps[i].parts) == Render(t.snaps[j].parts) ensures SparedBetween(t, i, j) {
      if i < n && j < n {
        assert SparedBetween(st, i, j);
      }
    }
    forall x | x in t.simple ensures FilledBy(t, x, t.simple[x].source) {
      assert FilledBy(st, x, st.simple[x].source);
    }
    forall i | 0 <= i < |t.snaps| ensures Dated(t.bumps, t.snaps[i]) {
      assert i < n ==> Dated(st.bumps, st.snaps[i]);
    }
  }

  lemma DatedOn(bumps: seq<Op>, op: Op, s: Snap)
    requires Dated(bumps, s)
    ensures Dated(bumps + [op], s.(current := s.current && !Orphans(op, Entry(s))))
  {
    SparedOneMore(bumps, op, Entry(s), s.at);
  }

  lemma BumpSourced(st: State, e: Event)
    requires Sourced(st) && Enabled(st, e) && e.Bump?
    ensures Sourced(Next(st, e))
  {
    var t := Next(st, e);
    forall x | x in t.simple ensures FilledBy(t, x, t.simple[x].source) {
      assert FilledBy(st, x, st.simple[x].source);
    }
  }

  lemma BumpKeepsHistory(st: State, e: Event)
    requires Inv(st) && History(st) && Enabled(st, e) && e.Bump?
    ensures History(Next(st, e))
  {
    var t := Next(st, e);
    forall i | 0 <= i < |t.snaps| ensures Dated(t.bumps, t.snaps[i]) {
      DatedOn(st.bumps, e.op, st.snaps[i]);
    }
    BumpSourced(st, e);
    forall i, j | 0 <= i < |t.snaps| && 0 <= j < |t.snaps| && Render(t.snaps[i].parts) == Render(t.snaps[j].parts) ensures SparedBetween(t, i, j) {
      assert Dated(st.bumps, st.snaps[i]) && Dated(st.bumps, st.snaps[j]);
      SparedBefore(st, t, e.op, i, j);
    }
  }

  lemma SparedBefore(st: State, t: State, op: Op, i: nat, j: nat)
    requires i < |st.snaps| && j < |st.snaps| && SparedBetween(st, i, j) && t.bumps == st.bumps + [op] && |t.snaps| == |st.snaps|
    requires t.snaps[i] == st.snaps[i].(current := t.snaps[i].current) && t.snaps[j] == st.snaps[j].(current := t.snaps[j].current)
    ensures SparedBetween(t, i, j)
  {
    assert forall n :: 0 <= n < |st.bumps| ==> t.bumps[n] == st.bumps[n];
  }

  lemma SparedOneMore(bumps: seq<Op>, op: Op, e: EntryId, from: nat)
    requires from <= |bumps|
    ensures Spared(bumps + [op], e, from, |bumps| + 1) <==> Spared(bumps, e, from, |bumps|) && !Orphans(op, e)
  {
    var more := bumps + [op];
    assert more[|bumps|] == op && forall n :: 0 <= n < |bumps| ==> more[n] == bumps[n];
    if Spared(more, e, from, |more|) {
      forall n | from <= n < |bumps| ensures !Orphans(bumps[n], e) {
        assert !Orphans(more[n], e);
      }
    }
  }

  lemma SameSnapsApart(st: State, t: State)
    requires KeysApart(st) && t.snaps == st.snaps && t.bumps == st.bumps
    ensures KeysApart(t)
  {
    forall i, j | 0 <= i < |t.snaps| && 0 <= j < |t.snaps| && Render(t.snaps[i].parts) == Render(t.snaps[j].parts) ensures SparedBetween(t, i, j) {
      assert SparedBetween(st, i, j);
    }
  }

  lemma FillKeepsHistory(st: State, e: Event)
    requires History(st) && Enabled(st, e) && (e.Fill? || e.Evict?)
    ensures History(Next(st, e))
  {
    var t := Next(st, e);
    SameSnapsApart(st, t);
    forall x | x in t.simple ensures FilledBy(t, x, t.simple[x].source) {
      assert x in st.simple ==> FilledBy(st, x, st.simple[x].source);
    }
  }

  lemma {:induction false} RunKeepsHistory(st: State, events: seq<Event>)
    requires Inv(st) && History(st) && Valid(st, events)
    ensures History(Run(st, events)) && Inv(Run(st, events))
    decreases |events|
  {
    if events != [] {
      match events[0] {
        case ReadKey(_, _, _) => ReadKeyKeepsHistory(st, events[0]); ReadKeyKeepsInv(st, events[0]);
        case Bump(_) => BumpKeepsHistory(st, events[0]); BumpKeepsInv(st, events[0]);
        case Fill(_, _) => FillKeepsHistory(st, events[0]); FillKeepsInv(st, events[0]);
        case Evict(_) => FillKeepsHistory(st, events[0]); EvictKeepsInv(st, events[0]);
      }
      RunKeepsHistory(Next(st, events[0]), events[1..]);
    }
  }

  // Over every run, and however long after it read its key a Lookup reads the store: what it
  // finds was filled from a snapshot of the same entry, with no bump reaching the entry between
  // the two key reads. It is what the simple cache holds if and only if none has reached the
  // entry since this Lookup's own key read.
  lemma {:induction false} LookupRefinesSimple(events: seq<Event>, i: nat)
    requires Valid(EMPTY, events) && i < |Run(EMPTY, events).snaps| && Found(Run(EMPTY, events), i).Some?
    ensures var st := Run(EMPTY, events);
            var item, e := Found(st, i).value, Entry(st.snaps[i]);
            && item.source < |st.snaps| && Entry(st.snaps[item.source]) == e && SparedBetween(st, item.source, i)
            && (SimplyFound(st, e) == Some(item) <==> Spared(st.bumps, e, st.snaps[i].at, |st.bumps|))
  {
    RunKeepsHistory(EMPTY, events);
    var st := Run(EMPTY, events);
    var item := Found(st, i).value;
    assert SnapOK(st.ix, st.snaps[i]) && SnapOK(st.ix, st.snaps[item.source]) && Coupled(st, st.snaps[i]) && Dated(st.bumps, st.snaps[i]);
    SameKey(st.ix, st.snaps[item.source], st.snaps[i]);
    if SimplyFound(st, Entry(st.snaps[i])) == Some(item) {
      assert FilledBy(st, Entry(st.snaps[i]), item.source);
    }
  }

  // Until something is evicted, a Lookup no bump has reached since its key read answers exactly as
  // the simple cache would, misses too: nothing unreached is ever orphaned.
  lemma {:induction false} NothingElseIsOrphaned(events: seq<Event>, i: nat)
    requires Valid(EMPTY, events) && i < |Run(EMPTY, events).snaps|
    requires var st := Run(EMPTY, events); st.whole && Spared(st.bumps, Entry(st.snaps[i]), st.snaps[i].at, |st.bumps|)
    ensures var st := Run(EMPTY, events); Found(st, i) == SimplyFound(st, Entry(st.snaps[i]))
  {
    RunKeepsHistory(EMPTY, events);
    var st := Run(EMPTY, events);
    var s := st.snaps[i];
    assert SnapOK(st.ix, s) && Coupled(st, s) && Dated(st.bumps, s);
    if Entry(s) in st.simple {
      assert Backed(st, Entry(s));
      var j :| 0 <= j < |st.snaps| && st.snaps[j].current && Entry(st.snaps[j]) == Entry(s) && (st.whole ==> Render(st.snaps[j].parts) in st.store);
      assert SnapOK(st.ix, st.snaps[j]);
      SameEntry(st.ix, st.snaps[j], s);
    }
  }

  // So one in progress when an invalidation comes may be given a fill the simple cache throws
  // away: it read its key before, and the fill it finds was taken before too.
  lemma InterruptedLookupMayFindVoidedFill(id: Bytes, sha: Bytes, d: Namespace, v: Value) returns (events: seq<Event>)
    requires d.tenant == id
    ensures Valid(EMPTY, events)
    ensures var st := Run(EMPTY, events); |st.snaps| == 2 && Found(st, 1) == Some(Item(v, 0)) && st.simple == map[]
  {
    var read := ReadKey(id, sha, [d]);
    events := [read, read, Bump(Invalidate(d)), Fill(0, v)];
    var one := Next(EMPTY, read);
    var two := Next(one, read);
    var three := Next(two, events[2]);
    var four := Next(three, events[3]);
    assert two.snaps[0].parts == two.snaps[1].parts;
    assert d in multiset([d]) && OpReaches(Invalidate(d), d);
    assert !three.snaps[0].current;
    OneStep(three, events[3..], four);
    assert events[2..][1..] == events[3..] && events[2..][0] == events[2];
    assert events[1..][1..] == events[2..] && events[1..][0] == events[1];
    assert Valid(two, events[2..]) && Run(two, events[2..]) == four;
    assert Valid(one, events[1..]) && Run(one, events[1..]) == four;
  }

  lemma {:induction false} OneStep(st: State, events: seq<Event>, t: State)
    requires |events| == 1 && Enabled(st, events[0]) && t == Next(st, events[0])
    ensures Valid(st, events) && Run(st, events) == t
  {
    assert events[1..] == [];
    assert Run(t, []) == t;
  }

  /******* The object *******/

  lemma {:induction false} TouchForOwn(ix: Index, id: Bytes, deps: seq<Namespace>)
    requires forall i :: 0 <= i < |deps| ==> deps[i].tenant == id
    ensures TouchFor(ix, id, deps) == Touch(ix, id)
  {
    if deps != [] {
      TouchForOwn(ix, id, deps[..|deps| - 1]);
    }
  }

  function InvalidateAll(ix: Index, namespaces: seq<Namespace>): Index {
    if namespaces == [] then ix
    else Apply(InvalidateAll(ix, namespaces[..|namespaces| - 1]), Invalidate(namespaces[|namespaces| - 1]))
  }

  datatype LookupResult = ForeignDependency | Looked(hit: Option<Value>, key: Bytes)

  class Local {
    var cache: map<Bytes, Value>
    const vm: VersionManager
    const maxCost: nat

    constructor (maxCost: nat)
      ensures cache == map[] && vm.State() == Index(map[], 0) && fresh(vm) && this.maxCost == maxCost
    {
      this.maxCost, cache := maxCost, map[];
      vm := new VersionManager();
    }

    method Find(id: Bytes, sha: Bytes, deps: seq<Namespace>) returns (r: LookupResult)
      modifies vm
      ensures r.ForeignDependency? <==> exists i :: 0 <= i < |deps| && deps[i].tenant != id
      ensures r.ForeignDependency? ==> vm.State() == old(vm.State())
      ensures r.Looked? ==>
                && vm.State() == Touch(old(vm.State()), id)
                && r.key == Render(PartsOf(Touch(old(vm.State()), id), id, sha, deps))
                && r.hit == if r.key in cache then Some(cache[r.key]) else None
    {
      for i := 0 to |deps|
        invariant forall j :: 0 <= j < i ==> deps[j].tenant == id
      {
        if deps[i].tenant != id {
          return ForeignDependency;
        }
      }
      TouchForOwn(vm.State(), id, deps);
      var key := vm.QueryKey(id, sha, deps);
      return Looked(if key in cache then Some(cache[key]) else None, key);
    }

    method Set(key: Bytes, value: Value, ttl: int, admitted: bool)
      modifies this
      ensures cache == if key != [] && ttl > 0 && |value| <= maxCost && admitted then old(cache)[key := value] else old(cache)
    {
      if key == [] || ttl <= 0 || |value| > maxCost || !admitted {
        return;
      }
      cache := cache[key := value];
    }

    method InvalidateNamespaces(namespaces: seq<Namespace>)
      modifies vm
      ensures vm.State() == InvalidateAll(old(vm.State()), namespaces)
    {
      for i := 0 to |namespaces|
        invariant vm.State() == InvalidateAll(old(vm.State()), namespaces[..i])
      {
        var ns := namespaces[i];
        assert namespaces[..i + 1][..i] == namespaces[..i];
        if ns.scope == [] {
          vm.DoBumpTable(ns.tenant, ns.table);
        } else {
          vm.DoBumpNamespace(ns);
        }
      }
      assert namespaces[..|namespaces|] == namespaces;
    }
  }
}
