/** internal/chconn/chconn.go: the walk and the pools as the objects that change. */
module Pools {
  import opened Common
  import opened Bytes
  import opened Ordered
  import opened PoolWalk
  import opened PoolReconcile

  // tuple.sizes
  method LargestAsk(members: map<Bytes, Params>) returns (s: Sizes)
    ensures s == SizesOf(members)
  {
    s := Sizes(0, 0);
    var rest := members;
    while rest != map[]
      invariant SizesOf(members) == Max(s, SizesOf(rest))
      decreases |rest|
    {
      var t :| t in rest;
      SizesOfPick(rest, t);
      s := Max(s, Ask(rest[t]));
      rest := rest - {t};
    }
  }

  method SumOf(m: map<Ident, nat>) returns (sum: nat)
    ensures sum == Sum(m)
  {
    sum := 0;
    var rest := m;
    while rest != map[]
      invariant sum + Sum(rest) == Sum(m)
      decreases |rest|
    {
      var k :| k in rest;
      SumPick(rest, k);
      sum := sum + rest[k];
      rest := rest - {k};
    }
  }

  class Walker {
    const ceiling: int
    const asks: map<Ident, Sizes>
    var tuples: map<Ident, Tuple>
    var tenants: map<Bytes, Ident>
    var planned: map<Ident, Sizes>
    var created: set<Ident>
    var marked: set<Ident>
    var errs: seq<Refusal>

    ghost function State(): Walk
      reads this
    {
      Walk(tuples, tenants, planned, created, marked, errs)
    }

    constructor (ceiling: int, asks: map<Ident, Sizes>, cur: Snapshot)
      ensures this.ceiling == ceiling && this.asks == asks && State() == Begin(cur)
    {
      this.ceiling, this.asks := ceiling, asks;
      tuples, tenants, planned := cur.tuples, cur.tenants, map i | i in cur.tuples :: cur.tuples[i].pool;
      created, marked, errs := {}, {}, [];
    }

    method FitsAt(i: Ident, s: Sizes) returns (ok: bool)
      requires planned.Keys == tuples.Keys
      ensures ok <==> Fits(ceiling, State(), i, s)
    {
      var others := map x | x in tuples && x != i && tuples[x].members != map[] :: planned[x].open;
      assert others == Counted(State()) - {i};
      var sum := SumOf(others);
      ok := ceiling <= 0 || s.open + sum <= ceiling;
    }

    method LeaveTuple(t: Bytes)
      requires WellFormed(State())
      modifies this
      ensures State() == Leave(old(State()), t)
    {
      if t !in tenants {
        return;
      }
      var i := tenants[t];
      tenants := tenants - {t};
      tuples := tuples[i := tuples[i].(members := tuples[i].members - {t})];
      var s := LargestAsk(tuples[i].members);
      if s.open <= planned[i].open {
        planned := planned[i := s];
      }
    }

    method GrowTuple(i: Ident) returns (ok: bool)
      requires planned.Keys == tuples.Keys && i in tuples
      modifies this
      ensures Placed(State(), ok) == Grow(ceiling, old(State()), i, SizesOf(old(tuples[i].members)))
    {
      var s := LargestAsk(tuples[i].members);
      if s.open <= planned[i].open {
        planned := planned[i := s];
        return true;
      }
      var fits := FitsAt(i, s);
      if !fits {
        if i !in marked {
          marked := marked + {i};
          errs := errs + [NotResized(i)];
        }
        return false;
      }
      planned := planned[i := s];
      return true;
    }

    method OpenTuple(m: Member, opens: bool) returns (err: Option<Refusal>)
      requires planned.Keys == tuples.Keys && Identity(m.params) !in tuples
      modifies this
      ensures var was := old(State());
        if Admits(ceiling, was, m, opens) then err == None && State() == Join(was, m, OpensAt(ceiling, was, asks, m))
        else err == Some(WhyNot(was, m)) && State() == was
    {
      var i, s := Identity(m.params), Ask(m.params);
      var ok := FitsAt(i, s);
      if !ok {
        return Some(NotOpened(m.tenant, i));
      }
      var pool := AskFor(asks, i);
      ok := FitsAt(i, pool);
      if !ok {
        pool := s;
      }
      if !opens {
        return Some(NotOpened(m.tenant, i));
      }
      tuples := tuples[i := Tuple(pool, map[m.tenant := m.params])];
      tenants := tenants[m.tenant := i];
      planned := planned[i := s];
      created := created + {i};
      ghost var nobody: map<Bytes, Params> := map[];
      assert nobody[m.tenant := m.params] == map[m.tenant := m.params];
      return None;
    }

    method JoinTuple(m: Member, opens: bool) returns (err: Option<Refusal>)
      requires planned.Keys == tuples.Keys
      modifies this
      ensures var was := old(State());
        if Admits(ceiling, was, m, opens) then err == None && State() == Join(was, m, OpensAt(ceiling, was, asks, m))
        else err == Some(WhyNot(was, m)) && State() == was
    {
      var i := Identity(m.params);
      if i !in tuples {
        err := OpenTuple(m, opens);
        return;
      }
      var s := Max(planned[i], Ask(m.params));
      if s.open > planned[i].open {
        var ok := FitsAt(i, s);
        if !ok {
          return Some(NotGrown(m.tenant, i));
        }
      }
      planned := planned[i := s];
      tuples := tuples[i := tuples[i].(members := tuples[i].members[m.tenant := m.params])];
      tenants := tenants[m.tenant := i];
      return None;
    }

    method PlaceMember(m: Member, opens: bool) returns (ok: bool)
      requires WellFormed(State())
      modifies this
      ensures Placed(State(), ok) == Place(ceiling, old(State()), asks, m, opens)
    {
      var i := Identity(m.params);
      if m.tenant in tenants && tenants[m.tenant] == i {
        tuples := tuples[i := tuples[i].(members := tuples[i].members[m.tenant := m.params])];
        ok := GrowTuple(i);
        return;
      }
      ok := MoveMember(m, opens);
    }

    method MoveMember(m: Member, opens: bool) returns (ok: bool)
      requires WellFormed(State())
      modifies this
      ensures Placed(State(), ok) == Move(ceiling, old(State()), asks, m, opens)
    {
      var had := m.tenant in tenants;
      var prev, prevParams, prevPlan := Identity(m.params), m.params, Sizes(0, 0);
      if had {
        prev := tenants[m.tenant];
        prevParams, prevPlan := tuples[prev].members[m.tenant], planned[prev];
        LeaveTuple(m.tenant);
      }
      var err := JoinTuple(m, opens);
      if err.None? {
        return true;
      }
      var why := err.value;
      if had {
        tuples := tuples[prev := tuples[prev].(members := tuples[prev].members[m.tenant := prevParams])];
        tenants := tenants[m.tenant := prev];
        planned := planned[prev := prevPlan];
        why := KeepsPrevious(why, prev);
      }
      errs := errs + [why];
      return false;
    }
  }

  class PoolSet {
    const ceiling: int
    var tuples: map<Ident, Tuple>
    var tenants: map<Bytes, Ident>

    ghost function Current(): Snapshot
      reads this
    {
      Snapshot(tuples, tenants)
    }

    constructor (ceiling: int)
      ensures this.ceiling == ceiling && Current() == NO_POOLS
    {
      this.ceiling, tuples, tenants := ceiling, map[], map[];
    }

    method Refit(want: seq<Member>, dials: Dials) returns (stale: seq<Bytes>, errs: seq<Refusal>)
      requires Consistent(Current())
      modifies this
      ensures Current() == Reconcile(ceiling, old(Current()), want, dials) && Consistent(Current())
      ensures errs == [] <==> Succeeds(ceiling, old(Current()), want, dials)
      ensures Sorted(stale)
      ensures forall t :: t in stale <==>
        (t in tenants && (t !in old(tenants) || old(tenants)[t].addr != tenants[t].addr || old(tenants)[t].database != tenants[t].database))
    {
      ghost var cur := Current();
      var asks := LargestAsks(want);
      var w := new Walker(ceiling, asks, Snapshot(tuples, tenants));
      PlanAll(w, cur, want, dials);
      ghost var plan := w.State();
      var sized, kept := ApplyPlan(w.tuples, w.planned, dials.resize);
      AppliedPlan(plan, dials.resize, sized);
      NoneKept(plan, dials.resize);
      errs := w.errs + kept;
      var was := tenants;
      tuples, tenants := sized, w.tenants;
      ApplyConsistent(plan, dials.resize);
      stale := StaleTenants(was, tenants);
    }
  }

  method PlanAll(w: Walker, ghost cur: Snapshot, want: seq<Member>, dials: Dials)
    requires Consistent(cur) && w.State() == Begin(cur) && w.asks == AsksOf(want)
    modifies w
    ensures w.State() == Plan(w.ceiling, cur, want, dials)
  {
    SendAway(w, Wanted(want));
    assert w.State() == Left(cur, want);
    var refused := PlaceAll(w, want, dials.first);
    if refused != [] {
      w.errs, w.marked := [], {};
      var _ := PlaceAll(w, refused, dials.second);
    }
  }

  method LargestAsks(want: seq<Member>) returns (asks: map<Ident, Sizes>)
    ensures asks == AsksOf(want)
  {
    asks := map[];
    for n := 0 to |want|
      invariant asks == AsksOf(want[..n])
    {
      var i := Identity(want[n].params);
      asks := asks[i := Max(AskFor(asks, i), Ask(want[n].params))];
      assert want[..n + 1][..n] == want[..n];
    }
    assert want[..|want|] == want;
  }

  lemma {:induction false} LeaveNext(w: Walk, ids: seq<Bytes>, n: nat, wanted: set<Bytes>)
    requires WellFormed(w) && n < |ids|
    ensures var v := LeaveEach(w, ids[..n], wanted); LeaveEach(w, ids[..n + 1], wanted) == if ids[n] in wanted then v else Leave(v, ids[n])
  {
    assert ids[..n + 1][..n] == ids[..n];
  }

  method SendAway(w: Walker, wanted: set<Bytes>)
    requires WellFormed(w.State())
    modifies w
    ensures w.State() == LeaveEach(old(w.State()), InOrder(old(w.tenants).Keys), wanted)
  {
    ghost var was := w.State();
    var ids := SortedKeys(w.tenants.Keys);
    for n := 0 to |ids|
      invariant w.State() == LeaveEach(was, ids[..n], wanted)
    {
      LeaveNext(was, ids, n, wanted);
      if ids[n] !in wanted {
        w.LeaveTuple(ids[n]);
      }
    }
    assert ids[..|ids|] == ids;
  }

  method PlaceAll(w: Walker, want: seq<Member>, opens: nat -> bool) returns (refused: seq<Member>)
    requires WellFormed(w.State())
    modifies w
    ensures Passed(w.State(), refused) == Pass(w.ceiling, old(w.State()), w.asks, want, opens)
  {
    ghost var was := w.State();
    refused := [];
    for n := 0 to |want|
      invariant Passed(w.State(), refused) == Pass(w.ceiling, was, w.asks, want[..n], opens)
    {
      assert want[..n + 1][..n] == want[..n];
      var ok := w.PlaceMember(want[n], opens(n));
      if !ok {
        refused := refused + [want[n]];
      }
    }
    assert want[..|want|] == want;
  }

  // Releasing or resizing one tuple's pool at a time.
  method ApplyPlan(tuples: map<Ident, Tuple>, planned: map<Ident, Sizes>, resize: Ident -> bool)
    returns (sized: map<Ident, Tuple>, kept: seq<Refusal>)
    requires planned.Keys == tuples.Keys
    ensures forall i :: i in sized <==> i in tuples && tuples[i].members != map[]
    ensures forall i :: i in sized ==> sized[i] == Resized(tuples[i], planned[i], resize(i))
    ensures kept == [] <==> forall i :: i in tuples ==> !FailsAt(tuples[i], planned[i], resize(i))
  {
    sized, kept := map[], [];
    var rest := tuples;
    while rest != map[]
      invariant rest.Keys <= tuples.Keys && forall i :: i in rest ==> rest[i] == tuples[i]
      invariant forall i :: i in sized <==> i in tuples && tuples[i].members != map[] && i !in rest
      invariant forall i :: i in sized ==> sized[i] == Resized(tuples[i], planned[i], resize(i))
      invariant kept == [] <==> forall i :: i in tuples && i !in rest ==> !FailsAt(tuples[i], planned[i], resize(i))
      decreases |rest|
    {
      var i :| i in rest;
      var t := rest[i];
      rest := rest - {i};
      if t.members != map[] {
        sized := sized[i := Resized(t, planned[i], resize(i))];
      }
      if FailsAt(t, planned[i], resize(i)) {
        kept := kept + [ResizeFailed(i)];
      }
    }
  }

  predicate FailsAt(t: Tuple, plan: Sizes, dialed: bool) {
    t.members != map[] && plan != t.pool && !dialed
  }

  // Manager.Resize
  function Resized(t: Tuple, plan: Sizes, dialed: bool): Tuple {
    if plan != t.pool && dialed then t.(pool := plan) else t
  }

  lemma AppliedPlan(w: Walk, resize: Ident -> bool, sized: map<Ident, Tuple>)
    requires WellFormed(w) && forall i :: i in sized <==> i in w.tuples && w.tuples[i].members != map[]
    requires forall i :: i in sized ==> sized[i] == Resized(w.tuples[i], w.planned[i], resize(i))
    ensures Snapshot(sized, w.tenants) == Apply(w, resize)
  {}

  lemma NoneKept(w: Walk, resize: Ident -> bool)
    requires WellFormed(w)
    ensures Kept(w, resize) == {} <==> forall i :: i in w.tuples ==> !FailsAt(w.tuples[i], w.planned[i], resize(i))
  {
    if i :| i in w.tuples && FailsAt(w.tuples[i], w.planned[i], resize(i)) {
      assert i in Kept(w, resize);
    }
  }

  lemma SortedPart(ids: seq<Bytes>, n: nat, part: seq<Bytes>)
    requires Sorted(ids) && n < |ids| && Sorted(part) && forall x :: x in part ==> x in ids[..n]
    ensures Sorted(part + [ids[n]])
  {
    forall k | 0 <= k < |part| ensures Leq(part[k], ids[n]) {
      assert part[k] in ids[..n];
    }
  }

  method Those(ids: seq<Bytes>, pick: Bytes -> bool) returns (part: seq<Bytes>)
    requires Sorted(ids)
    ensures Sorted(part) && forall t :: t in part <==> t in ids && pick(t)
  {
    part := [];
    for n := 0 to |ids|
      invariant Sorted(part) && forall t :: t in part <==> t in ids[..n] && pick(t)
    {
      assert ids[..n + 1] == ids[..n] + [ids[n]];
      if pick(ids[n]) {
        SortedPart(ids, n, part);
        part := part + [ids[n]];
      }
    }
    assert ids[..|ids|] == ids;
  }

  predicate MovedTables(was: map<Bytes, Ident>, now: map<Bytes, Ident>, t: Bytes) {
    t in now && (t !in was || was[t].addr != now[t].addr || was[t].database != now[t].database)
  }

  method StaleTenants(was: map<Bytes, Ident>, now: map<Bytes, Ident>) returns (stale: seq<Bytes>)
    ensures Sorted(stale)
    ensures forall t :: t in stale <==>
      (t in now && (t !in was || was[t].addr != now[t].addr || was[t].database != now[t].database))
  {
    var ids := SortedKeys(now.Keys);
    InOrderSorts(now.Keys);
    InOrderHolds(now.Keys);
    stale := Those(ids, t => MovedTables(was, now, t));
  }
}
