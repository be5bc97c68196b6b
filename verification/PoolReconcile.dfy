/** internal/chconn/chconn.go: a whole Reconcile, and every sequence of them. */
module PoolReconcile {
  import opened Bytes
  import opened Ordered
  import opened PoolWalk

  datatype Snapshot = Snapshot(tuples: map<Ident, Tuple>, tenants: map<Bytes, Ident>)

  // How the pools this Reconcile opens or resizes turn out: a pool opened for the n-th member of
  // the first pass, for the n-th of the second, and a resize.
  datatype Dials = Dials(first: nat -> bool, second: nat -> bool, resize: Ident -> bool)

  ghost function Begin(cur: Snapshot): Walk {
    Walk(cur.tuples, cur.tenants, map i | i in cur.tuples :: cur.tuples[i].pool, {}, {}, [])
  }

  // Between reconciles every pool has members, and everybody is where their Params say.
  ghost predicate Consistent(cur: Snapshot) {
    WellFormed(Begin(cur)) && forall i :: i in cur.tuples ==> cur.tuples[i].members != map[]
  }

  ghost function OpenAt(cur: Snapshot): map<Ident, nat> {
    map i | i in cur.tuples :: cur.tuples[i].pool.open
  }

  ghost function PoolSum(cur: Snapshot): nat {
    Sum(OpenAt(cur))
  }

  // The largest ask of each tuple among the wanted.
  function AsksOf(want: seq<Member>): map<Ident, Sizes> {
    if want == [] then map[] else
      var asks, m := AsksOf(want[..|want| - 1]), want[|want| - 1];
      asks[Identity(m.params) := Max(AskFor(asks, Identity(m.params)), Ask(m.params))]
  }

  ghost predicate DistinctTenants(want: seq<Member>) {
    forall i, j :: 0 <= i < j < |want| ==> want[i].tenant != want[j].tenant
  }

  function Wanted(want: seq<Member>): set<Bytes> {
    set m | m in want :: m.tenant
  }

  /******* Leaving *******/

  ghost predicate Walking(ceiling: int, w: Walk) {
    WellFormed(w) && Under(ceiling, w)
  }

  lemma LeaveWalks(w: Walk, t: Bytes)
    requires WellFormed(w)
    ensures WellFormed(Leave(w, t)) && t !in Leave(w, t).tenants
  {
    EmptyAsksNothing(w, t);
    LeaveKeeps(w, t, AskWithout(w, t));
  }

  // Of the tenants in ids, those not wanted leave.
  ghost function LeaveEach(w: Walk, ids: seq<Bytes>, wanted: set<Bytes>): (r: Walk)
    requires WellFormed(w)
    ensures WellFormed(r)
  {
    if ids == [] then w else
      var v, t := LeaveEach(w, ids[..|ids| - 1], wanted), ids[|ids| - 1];
      LeaveWalks(v, t);
      if t in wanted then v else Leave(v, t)
  }

  lemma {:induction false} LeaveEachWalks(ceiling: int, w: Walk, ids: seq<Bytes>, wanted: set<Bytes>)
    requires Walking(ceiling, w)
    ensures var v := LeaveEach(w, ids, wanted);
      Under(ceiling, v) && v.errs == w.errs && v.marked == w.marked
  {
    if ids != [] {
      var v, t := LeaveEach(w, ids[..|ids| - 1], wanted), ids[|ids| - 1];
      LeaveEachWalks(ceiling, w, ids[..|ids| - 1], wanted);
      LeaveUnder(ceiling, v, t, AskWithout(v, t));
    }
  }

  // t sits in v as it sat in w, or on nothing in both.
  ghost predicate SameSeat(w: Walk, v: Walk, t: Bytes) {
    if t in w.tenants && w.tenants[t] in w.tuples && t in w.tuples[w.tenants[t]].members
    then SeatedAs(v, t, w.tenants[t], w.tuples[w.tenants[t]].members[t])
    else t !in v.tenants
  }

  lemma {:induction false} LeaveEachSpares(w: Walk, ids: seq<Bytes>, wanted: set<Bytes>, t: Bytes)
    requires WellFormed(w)
    ensures t in wanted ==> SameSeat(w, LeaveEach(w, ids, wanted), t)
    ensures t !in wanted && (t in ids || t !in w.tenants) ==> t !in LeaveEach(w, ids, wanted).tenants
  {
    if ids != [] {
      LeaveEachSpares(w, ids[..|ids| - 1], wanted, t);
      assert ids == ids[..|ids| - 1] + [ids[|ids| - 1]];
      LeaveSparesOthers(w, LeaveEach(w, ids[..|ids| - 1], wanted), ids[|ids| - 1], t);
    }
  }

  lemma LeaveSparesOthers(w: Walk, v: Walk, gone: Bytes, t: Bytes)
    requires WellFormed(v)
    ensures t != gone && SameSeat(w, v, t) ==> SameSeat(w, Leave(v, gone), t)
    ensures t !in v.tenants || t == gone ==> t !in Leave(v, gone).tenants
  {}

  /******* A pass *******/

  datatype Passed = Passed(w: Walk, refused: seq<Member>)

  ghost function Pass(ceiling: int, w: Walk, asks: map<Ident, Sizes>, want: seq<Member>, opens: nat -> bool): (r: Passed)
    requires WellFormed(w)
    ensures WellFormed(r.w)
  {
    if want == [] then Passed(w, []) else
      var n := |want| - 1;
      var before := Pass(ceiling, w, asks, want[..n], opens);
      var p := Place(ceiling, before.w, asks, want[n], opens(n));
      PlaceKeeps(ceiling, before.w, asks, want[n], opens(n));
      Passed(p.w, if p.ok then before.refused else before.refused + [want[n]])
  }

  lemma {:induction false} PassUnder(ceiling: int, w: Walk, asks: map<Ident, Sizes>, want: seq<Member>, opens: nat -> bool)
    requires Walking(ceiling, w)
    ensures Under(ceiling, Pass(ceiling, w, asks, want, opens).w)
  {
    if want != [] {
      var n := |want| - 1;
      PassUnder(ceiling, w, asks, want[..n], opens);
      PlaceUnder(ceiling, Pass(ceiling, w, asks, want[..n], opens).w, asks, want[n], opens(n));
    }
  }

  // Errors are on record exactly when somebody was refused.
  lemma {:induction false} PassReports(ceiling: int, w: Walk, asks: map<Ident, Sizes>, want: seq<Member>, opens: nat -> bool)
    requires WellFormed(w) && w.marked == {} && w.errs == []
    ensures var p := Pass(ceiling, w, asks, want, opens);
      (p.w.errs == [] <==> p.refused == []) && (p.w.marked != {} ==> p.w.errs != [])
  {
    if want != [] {
      var n := |want| - 1;
      PassReports(ceiling, w, asks, want[..n], opens);
      RefusalIsReported(ceiling, Pass(ceiling, w, asks, want[..n], opens).w, asks, want[n], opens(n));
    }
  }

  lemma {:induction false} RefusedAmong(ceiling: int, w: Walk, asks: map<Ident, Sizes>, want: seq<Member>, opens: nat -> bool)
    requires WellFormed(w) && DistinctTenants(want)
    ensures var r := Pass(ceiling, w, asks, want, opens).refused;
      DistinctTenants(r) && forall i :: 0 <= i < |r| ==> r[i] in want
  {
    if want != [] {
      var n := |want| - 1;
      RefusedAmong(ceiling, w, asks, want[..n], opens);
      var r := Pass(ceiling, w, asks, want[..n], opens).refused;
      forall i | 0 <= i < |r| ensures r[i] in want && r[i].tenant != want[n].tenant {
        assert r[i] in want[..n];
      }
    }
  }

  /******* Everybody wanted is where they asked, or where they were *******/

  ghost predicate Stands(w: Walk, v: Walk, m: Member) {
    SeatedAs(v, m.tenant, Identity(m.params), m.params) || SameSeat(w, v, m.tenant)
  }

  lemma PlaceAddsNobody(ceiling: int, w: Walk, asks: map<Ident, Sizes>, m: Member, opens: bool, t: Bytes)
    requires WellFormed(w) && t !in w.tenants && t != m.tenant
    ensures t !in Place(ceiling, w, asks, m, opens).w.tenants
  {
    if !InPlace(w, m) && !Place(ceiling, w, asks, m, opens).ok {
      RefusedMoveRestores(ceiling, w, asks, m, opens);
    }
  }

  lemma PlaceStandsOther(ceiling: int, start: Walk, w: Walk, asks: map<Ident, Sizes>, m: Member, opens: bool, x: Member)
    requires WellFormed(w) && Stands(start, w, x) && x.tenant != m.tenant
    ensures Stands(start, Place(ceiling, w, asks, m, opens).w, x)
  {
    if x.tenant in w.tenants {
      var i := w.tenants[x.tenant];
      PlaceSpares(ceiling, w, asks, m, opens, x.tenant, i, w.tuples[i].members[x.tenant]);
    } else {
      PlaceAddsNobody(ceiling, w, asks, m, opens, x.tenant);
    }
  }

  lemma PlaceStandsSelf(ceiling: int, start: Walk, w: Walk, asks: map<Ident, Sizes>, m: Member, opens: bool)
    requires WellFormed(w) && Stands(start, w, m)
    ensures Stands(start, Place(ceiling, w, asks, m, opens).w, m)
  {
    if Place(ceiling, w, asks, m, opens).ok {
      PlacedIsNamed(ceiling, w, asks, m, opens);
    } else if InPlace(w, m) {
      RefusedResizeKeepsPlan(ceiling, w, asks, m, opens);
    } else {
      RefusedMoveRestores(ceiling, w, asks, m, opens);
    }
  }

  lemma PlaceStands(ceiling: int, start: Walk, w: Walk, asks: map<Ident, Sizes>, m: Member, opens: bool, x: Member)
    requires WellFormed(w) && Stands(start, w, x) && (m.tenant == x.tenant ==> m == x)
    ensures Stands(start, Place(ceiling, w, asks, m, opens).w, x)
  {
    if m == x {
      PlaceStandsSelf(ceiling, start, w, asks, m, opens);
    } else {
      PlaceStandsOther(ceiling, start, w, asks, m, opens, x);
    }
  }

  // Nobody in want but x itself asks for x's tenant.
  ghost predicate Sole(want: seq<Member>, x: Member) {
    forall i :: 0 <= i < |want| && want[i].tenant == x.tenant ==> want[i] == x
  }

  lemma {:induction false} PassStands(ceiling: int, start: Walk, w: Walk, asks: map<Ident, Sizes>, want: seq<Member>, opens: nat -> bool, x: Member)
    requires WellFormed(w) && Stands(start, w, x) && Sole(want, x)
    ensures Stands(start, Pass(ceiling, w, asks, want, opens).w, x)
  {
    if want != [] {
      var n := |want| - 1;
      assert Sole(want[..n], x);
      PassStands(ceiling, start, w, asks, want[..n], opens, x);
      PlaceStands(ceiling, start, Pass(ceiling, w, asks, want[..n], opens).w, asks, want[n], opens(n), x);
    }
  }

  lemma {:induction false} PassAddsNobody(ceiling: int, w: Walk, asks: map<Ident, Sizes>, want: seq<Member>, opens: nat -> bool, t: Bytes)
    requires WellFormed(w) && t !in w.tenants && forall i :: 0 <= i < |want| ==> want[i].tenant != t
    ensures t !in Pass(ceiling, w, asks, want, opens).w.tenants
  {
    if want != [] {
      var n := |want| - 1;
      PassAddsNobody(ceiling, w, asks, want[..n], opens, t);
      PlaceAddsNobody(ceiling, Pass(ceiling, w, asks, want[..n], opens).w, asks, want[n], opens(n), t);
    }
  }

  /******* Exactness across a pass *******/

  // Everybody in want that is not in refused, as they asked.
  ghost function Taken(done: map<Bytes, Params>, want: seq<Member>, refused: seq<Member>): map<Bytes, Params>
    requires DistinctTenants(want)
  {
    if want == [] then done else
      var n := |want| - 1;
      var before := Taken(done, want[..n], refused);
      if want[n] in refused then before else before[want[n].tenant := want[n].params]
  }

  // Somebody in want and not in refused is of tenant t.
  ghost predicate TakenIn(want: seq<Member>, refused: seq<Member>, t: Bytes) {
    exists m :: m in want && m !in refused && m.tenant == t
  }

  lemma TakenInNext(want: seq<Member>, refused: seq<Member>, t: Bytes)
    requires want != []
    ensures var n := |want| - 1;
      TakenIn(want, refused, t) <==> TakenIn(want[..n], refused, t) || (want[n] !in refused && want[n].tenant == t)
  {
    var n := |want| - 1;
    assert want == want[..n] + [want[n]];
    if m :| m in want[..n] && m !in refused && m.tenant == t {
      assert m in want;
    }
    assert want[n] in want;
  }

  lemma {:induction false} TakenHolds(done: map<Bytes, Params>, want: seq<Member>, refused: seq<Member>, t: Bytes)
    requires DistinctTenants(want)
    ensures t in Taken(done, want, refused) <==> t in done || TakenIn(want, refused, t)
  {
    if want != [] {
      TakenHolds(done, want[..|want| - 1], refused, t);
      TakenInNext(want, refused, t);
    }
  }

  lemma {:induction false} TakenParams(done: map<Bytes, Params>, want: seq<Member>, refused: seq<Member>, m: Member)
    requires DistinctTenants(want)
    requires if m in want then m !in refused else m.tenant in done && done[m.tenant] == m.params && forall x :: x in want ==> x.tenant != m.tenant
    ensures m.tenant in Taken(done, want, refused) && Taken(done, want, refused)[m.tenant] == m.params
  {
    if want != [] {
      var n := |want| - 1;
      NewcomerIsNew(want);
      assert want == want[..n] + [want[n]];
      if m != want[n] {
        TakenParams(done, want[..n], refused, m);
        assert want[n].tenant != m.tenant;
      }
    }
  }

  lemma {:induction false} TakenPrefix(done: map<Bytes, Params>, want: seq<Member>, refused: seq<Member>, m: Member)
    requires DistinctTenants(want) && m !in want
    ensures Taken(done, want, refused + [m]) == Taken(done, want, refused)
  {
    if want != [] {
      var n := |want| - 1;
      assert want[n] in want && forall x :: x in want[..n] ==> x in want;
      TakenPrefix(done, want[..n], refused, m);
    }
  }

  lemma NewcomerIsNew(want: seq<Member>)
    requires DistinctTenants(want) && want != []
    ensures var n := |want| - 1; DistinctTenants(want[..n]) && forall m :: m in want[..n] ==> m.tenant != want[n].tenant
  {}

  lemma {:induction false} PassExact(ceiling: int, w: Walk, asks: map<Ident, Sizes>, want: seq<Member>, opens: nat -> bool, done: map<Bytes, Params>)
    requires WellFormed(w) && Exact(w, done) && DistinctTenants(want) && forall m :: m in want ==> m.tenant !in done
    ensures var p := Pass(ceiling, w, asks, want, opens); Exact(p.w, Taken(done, want, p.refused))
  {
    if want != [] {
      var n := |want| - 1;
      var m := want[n];
      NewcomerIsNew(want);
      assert m in want && forall x :: x in want[..n] ==> x in want;
      PassExact(ceiling, w, asks, want[..n], opens, done);
      RefusedAmong(ceiling, w, asks, want[..n], opens);
      var before := Pass(ceiling, w, asks, want[..n], opens);
      var taken := Taken(done, want[..n], before.refused);
      TakenHolds(done, want[..n], before.refused, m.tenant);
      PlaceExact(ceiling, before.w, asks, m, opens(n), taken);
      assert m !in before.refused;
      if !Place(ceiling, before.w, asks, m, opens(n)).ok {
        TakenPrefix(done, want[..n], before.refused, m);
      }
    }
  }

  /******* The whole plan *******/

  ghost function Left(cur: Snapshot, want: seq<Member>): (r: Walk)
    requires Consistent(cur)
    ensures WellFormed(r)
  {
    LeaveEach(Begin(cur), InOrder(cur.tenants.Keys), Wanted(want))
  }

  ghost function FirstPass(ceiling: int, cur: Snapshot, want: seq<Member>, dials: Dials): (r: Passed)
    requires Consistent(cur)
    ensures WellFormed(r.w)
  {
    Pass(ceiling, Left(cur, want), AsksOf(want), want, dials.first)
  }

  // What is on record starts afresh.
  ghost function Cleared(w: Walk): (r: Walk)
    requires WellFormed(w)
    ensures WellFormed(r)
  {
    w.(errs := [], marked := {})
  }

  // What the first pass refused is placed once more, and only those refusals are reported.
  ghost function Plan(ceiling: int, cur: Snapshot, want: seq<Member>, dials: Dials): (r: Walk)
    requires Consistent(cur)
    ensures WellFormed(r)
  {
    var p := FirstPass(ceiling, cur, want, dials);
    if p.refused == [] then p.w
    else Pass(ceiling, Cleared(p.w), AsksOf(want), p.refused, dials.second).w
  }

  // Pools everybody has left are closed, and the rest resized to their plan.
  predicate ResizeFails(w: Walk, i: Ident, resize: Ident -> bool)
    requires i in w.tuples && i in w.planned
  {
    w.tuples[i].members != map[] && w.planned[i] != w.tuples[i].pool && !resize(i)
  }

  ghost function Apply(w: Walk, resize: Ident -> bool): Snapshot
    requires WellFormed(w)
  {
    Snapshot(map i | i in w.tuples && w.tuples[i].members != map[] ::
               w.tuples[i].(pool := if ResizeFails(w, i, resize) then w.tuples[i].pool else w.planned[i]),
             w.tenants)
  }

  ghost function Kept(w: Walk, resize: Ident -> bool): set<Ident>
    requires WellFormed(w)
  {
    set i | i in w.tuples && ResizeFails(w, i, resize)
  }

  ghost function Reconcile(ceiling: int, cur: Snapshot, want: seq<Member>, dials: Dials): Snapshot
    requires Consistent(cur)
  {
    Apply(Plan(ceiling, cur, want, dials), dials.resize)
  }

  ghost predicate Succeeds(ceiling: int, cur: Snapshot, want: seq<Member>, dials: Dials)
    requires Consistent(cur)
  {
    var w := Plan(ceiling, cur, want, dials);
    w.errs == [] && Kept(w, dials.resize) == {}
  }

  lemma ClearedUnder(ceiling: int, w: Walk)
    requires WellFormed(w) && Under(ceiling, w)
    ensures Under(ceiling, Cleared(w))
  {
    assert Counted(Cleared(w)) == Counted(w);
  }

  lemma BeginWalks(ceiling: int, cur: Snapshot)
    requires Consistent(cur) && (ceiling <= 0 || PoolSum(cur) <= ceiling)
    ensures Walking(ceiling, Begin(cur))
  {
    assert Counted(Begin(cur)) == OpenAt(cur);
  }

  // From pools within the ceiling, the plan is within it too.
  lemma PlanUnder(ceiling: int, cur: Snapshot, want: seq<Member>, dials: Dials)
    requires Consistent(cur) && (ceiling <= 0 || PoolSum(cur) <= ceiling)
    ensures Under(ceiling, Plan(ceiling, cur, want, dials))
  {
    BeginWalks(ceiling, cur);
    LeaveEachWalks(ceiling, Begin(cur), InOrder(cur.tenants.Keys), Wanted(want));
    PassUnder(ceiling, Left(cur, want), AsksOf(want), want, dials.first);
    var p := FirstPass(ceiling, cur, want, dials);
    if p.refused != [] {
      ClearedUnder(ceiling, p.w);
      PassUnder(ceiling, Cleared(p.w), AsksOf(want), p.refused, dials.second);
    }
  }

  lemma ApplyConsistent(w: Walk, resize: Ident -> bool)
    requires WellFormed(w)
    ensures Consistent(Apply(w, resize))
  {
    var v := Begin(Apply(w, resize));
    forall t | t in v.tenants ensures v.tenants[t] in v.tuples && t in v.tuples[v.tenants[t]].members {
      assert w.tuples[v.tenants[t]].members != map[];
    }
    forall i, t | i in v.tuples && t in v.tuples[i].members
      ensures t in v.tenants && v.tenants[t] == i && Identity(v.tuples[i].members[t]) == i
    {
      assert t in w.tuples[i].members;
    }
  }

  // A resize that fails leaves its pool no larger than planned unless it was to shrink.
  ghost predicate NoShrinkFails(w: Walk, resize: Ident -> bool)
    requires WellFormed(w)
  {
    forall i :: i in w.tuples && ResizeFails(w, i, resize) ==> w.tuples[i].pool.open <= w.planned[i].open
  }

  lemma ApplyUnder(ceiling: int, w: Walk, resize: Ident -> bool)
    requires Walking(ceiling, w) && NoShrinkFails(w, resize)
    ensures ceiling <= 0 || PoolSum(Apply(w, resize)) <= ceiling
  {
    var now := Apply(w, resize);
    SumMonotone(OpenAt(now), Counted(w));
  }

  // What the pools that could not be resized are kept at.
  ghost function KeptSizes(w: Walk, resize: Ident -> bool): map<Ident, nat>
    requires WellFormed(w)
  {
    map i | i in Kept(w, resize) :: w.tuples[i].pool.open
  }

  lemma {:induction false} SumSplit(m: map<Ident, nat>, ks: set<Ident>)
    requires ks <= m.Keys
    ensures Sum(m) == Sum(map k | k in ks :: m[k]) + Sum(m - ks)
    decreases ks
  {
    var part := map k | k in ks :: m[k];
    if ks == {} {
      assert part == map[] && m - ks == m;
    } else {
      var k :| k in ks;
      SumSplit(m - {k}, ks - {k});
      SumPick(m, k);
      SumPick(part, k);
      assert part - {k} == map x | x in ks - {k} :: (m - {k})[x];
      assert (m - {k}) - (ks - {k}) == m - ks;
    }
  }

  lemma KeptAsTheyAre(w: Walk, resize: Ident -> bool)
    requires WellFormed(w)
    ensures Kept(w, resize) <= OpenAt(Apply(w, resize)).Keys
    ensures forall i :: i in Kept(w, resize) ==> OpenAt(Apply(w, resize))[i] == w.tuples[i].pool.open
  {}

  lemma OthersAsPlanned(w: Walk, resize: Ident -> bool)
    requires WellFormed(w)
    ensures OpenAt(Apply(w, resize)) - Kept(w, resize) == Counted(w) - Kept(w, resize)
  {}

  // Whatever resizes fail, the ceiling holds afterwards exactly when the sizes their pools are
  // kept at fit beside the plan of the others.
  lemma CeilingExactlyWhen(ceiling: int, w: Walk, resize: Ident -> bool)
    requires WellFormed(w) && ceiling > 0
    ensures PoolSum(Apply(w, resize)) <= ceiling <==> Sum(KeptSizes(w, resize)) + Sum(Counted(w) - Kept(w, resize)) <= ceiling
  {
    KeptAsTheyAre(w, resize);
    OthersAsPlanned(w, resize);
    SumApart(OpenAt(Apply(w, resize)), Kept(w, resize), KeptSizes(w, resize), Counted(w) - Kept(w, resize));
  }

  lemma {:induction false} SumApart(m: map<Ident, nat>, ks: set<Ident>, part: map<Ident, nat>, rest: map<Ident, nat>)
    requires ks <= m.Keys && part.Keys == ks && (forall k :: k in ks ==> part[k] == m[k]) && rest == m - ks
    ensures Sum(m) == Sum(part) + Sum(rest)
  {
    SumSplit(m, ks);
    assert part == map k | k in ks :: m[k];
  }

  // Where one fails, that is the test a placement makes.
  lemma OneFailedResize(ceiling: int, w: Walk, resize: Ident -> bool, i: Ident)
    requires WellFormed(w) && Kept(w, resize) == {i} && ceiling > 0
    ensures PoolSum(Apply(w, resize)) <= ceiling <==> Fits(ceiling, w, i, w.tuples[i].pool)
  {
    CeilingExactlyWhen(ceiling, w, resize);
    var sizes := KeptSizes(w, resize);
    assert i in Kept(w, resize);
    assert sizes.Keys == {i};
    SumPick(sizes, i);
    assert sizes - {i} == map[];
  }

  /******* Every sequence of reconciles *******/

  datatype Round = Round(want: seq<Member>, dials: Dials)

  const NO_POOLS := Snapshot(map[], map[])

  ghost function After(ceiling: int, rounds: seq<Round>): (r: Snapshot)
    ensures Consistent(r)
  {
    if rounds == [] then NO_POOLS else
      var n := |rounds| - 1;
      var cur := After(ceiling, rounds[..n]);
      ApplyConsistent(Plan(ceiling, cur, rounds[n].want, rounds[n].dials), rounds[n].dials.resize);
      Reconcile(ceiling, cur, rounds[n].want, rounds[n].dials)
  }

  ghost predicate ShrinksLand(ceiling: int, rounds: seq<Round>) {
    rounds == [] ||
    var n := |rounds| - 1;
    && ShrinksLand(ceiling, rounds[..n])
    && NoShrinkFails(Plan(ceiling, After(ceiling, rounds[..n]), rounds[n].want, rounds[n].dials), rounds[n].dials.resize)
  }

  lemma RoundUnder(ceiling: int, cur: Snapshot, want: seq<Member>, dials: Dials)
    requires Consistent(cur) && (ceiling <= 0 || PoolSum(cur) <= ceiling)
    requires NoShrinkFails(Plan(ceiling, cur, want, dials), dials.resize)
    ensures ceiling <= 0 || PoolSum(Reconcile(ceiling, cur, want, dials)) <= ceiling
  {
    PlanUnder(ceiling, cur, want, dials);
    ApplyUnder(ceiling, Plan(ceiling, cur, want, dials), dials.resize);
  }

  // The ceiling holds after every sequence of reconciles in which no shrink's dial fails.
  lemma {:induction false} CeilingHolds(ceiling: int, rounds: seq<Round>)
    requires ShrinksLand(ceiling, rounds)
    ensures ceiling <= 0 || PoolSum(After(ceiling, rounds)) <= ceiling
  {
    if rounds == [] {
      assert OpenAt(NO_POOLS) == map[];
    } else {
      var n := |rounds| - 1;
      CeilingHolds(ceiling, rounds[..n]);
      RoundUnder(ceiling, After(ceiling, rounds[..n]), rounds[n].want, rounds[n].dials);
    }
  }

  /******* What one reconcile achieves *******/

  lemma LeftStands(cur: Snapshot, want: seq<Member>, t: Bytes)
    requires Consistent(cur)
    ensures if t in Wanted(want) then SameSeat(Begin(cur), Left(cur, want), t) else t !in Left(cur, want).tenants
  {
    InOrderHolds(cur.tenants.Keys);
    LeaveEachSpares(Begin(cur), InOrder(cur.tenants.Keys), Wanted(want), t);
  }

  lemma NobodyElse(want: seq<Member>, part: seq<Member>, t: Bytes)
    requires t !in Wanted(want) && forall i :: 0 <= i < |part| ==> part[i] in want
    ensures forall i :: 0 <= i < |part| ==> part[i].tenant != t
  {}

  lemma UnwantedLeaves(ceiling: int, cur: Snapshot, want: seq<Member>, dials: Dials, t: Bytes)
    requires Consistent(cur) && DistinctTenants(want) && t !in Wanted(want)
    ensures t !in Plan(ceiling, cur, want, dials).tenants
  {
    var p := FirstPass(ceiling, cur, want, dials);
    LeftStands(cur, want, t);
    RefusedAmong(ceiling, Left(cur, want), AsksOf(want), want, dials.first);
    NobodyElse(want, want, t);
    NobodyElse(want, p.refused, t);
    PassAddsNobody(ceiling, Left(cur, want), AsksOf(want), want, dials.first, t);
    PassAddsNobody(ceiling, Cleared(p.w), AsksOf(want), p.refused, dials.second, t);
  }

  lemma SoleAmong(want: seq<Member>, part: seq<Member>, m: Member)
    requires DistinctTenants(want) && m in want && forall i :: 0 <= i < |part| ==> part[i] in want
    ensures Sole(part, m)
  {}

  lemma FirstStands(ceiling: int, cur: Snapshot, want: seq<Member>, dials: Dials, m: Member)
    requires Consistent(cur) && DistinctTenants(want) && m in want
    ensures Stands(Begin(cur), FirstPass(ceiling, cur, want, dials).w, m)
  {
    LeftStands(cur, want, m.tenant);
    SoleAmong(want, want, m);
    PassStands(ceiling, Begin(cur), Left(cur, want), AsksOf(want), want, dials.first, m);
  }

  lemma WantedStands(ceiling: int, cur: Snapshot, want: seq<Member>, dials: Dials, m: Member)
    requires Consistent(cur) && DistinctTenants(want) && m in want
    ensures Stands(Begin(cur), Plan(ceiling, cur, want, dials), m)
  {
    var p := FirstPass(ceiling, cur, want, dials);
    FirstStands(ceiling, cur, want, dials, m);
    RefusedAmong(ceiling, Left(cur, want), AsksOf(want), want, dials.first);
    SecondStands(ceiling, Begin(cur), p.w, AsksOf(want), want, p.refused, dials.second, m);
  }

  lemma {:induction false} SecondStands(ceiling: int, start: Walk, w: Walk, asks: map<Ident, Sizes>, want: seq<Member>, refused: seq<Member>, opens: nat -> bool, m: Member)
    requires WellFormed(w) && Stands(start, w, m) && DistinctTenants(want) && m in want
    requires forall i :: 0 <= i < |refused| ==> refused[i] in want
    ensures Stands(start, Pass(ceiling, Cleared(w), asks, refused, opens).w, m)
  {
    SoleAmong(want, refused, m);
    ClearedStands(start, w, m);
    PassStands(ceiling, start, Cleared(w), asks, refused, opens, m);
  }

  lemma ClearedStands(start: Walk, w: Walk, m: Member)
    requires WellFormed(w) && Stands(start, w, m)
    ensures Stands(start, Cleared(w), m)
  {}

  // Nobody unwanted keeps a pool. A wanted tenant ends on the tuple it names with the Params it
  // asked for, or exactly where it was before, so that none that had a pool loses it.
  lemma NobodyLosesAPool(ceiling: int, cur: Snapshot, want: seq<Member>, dials: Dials)
    requires Consistent(cur) && DistinctTenants(want)
    ensures var w := Plan(ceiling, cur, want, dials);
      && w.tenants == Reconcile(ceiling, cur, want, dials).tenants
      && w.tenants.Keys <= Wanted(want)
      && (forall m :: m in want ==> Stands(Begin(cur), w, m))
      && Wanted(want) * cur.tenants.Keys <= w.tenants.Keys
  {
    var w := Plan(ceiling, cur, want, dials);
    forall t | t in w.tenants ensures t in Wanted(want) {
      if t !in Wanted(want) {
        UnwantedLeaves(ceiling, cur, want, dials, t);
      }
    }
    forall m | m in want ensures Stands(Begin(cur), w, m) {
      WantedStands(ceiling, cur, want, dials, m);
    }
  }

  // Nobody has been placed yet, and nobody has left anything behind that is not planned away.
  lemma StartsExact(w: Walk)
    requires WellFormed(w)
    ensures Exact(w, map[])
  {
    var nobody: map<Bytes, Params> := map[];
    forall i | i in w.tuples && w.tuples[i].members.Keys <= nobody.Keys ensures PlanAt(w, i) == SizesOf(w.tuples[i].members) {
      assert w.tuples[i].members == map[];
    }
  }

  lemma {:induction false} PlanReports(ceiling: int, cur: Snapshot, want: seq<Member>, dials: Dials)
    requires Consistent(cur)
    ensures var p := FirstPass(ceiling, cur, want, dials);
      var second := Pass(ceiling, Cleared(p.w), AsksOf(want), p.refused, dials.second);
      Plan(ceiling, cur, want, dials).errs == [] <==> p.refused == [] || second.refused == []
  {
    var left := Left(cur, want);
    LeaveEachWalks(0, Begin(cur), InOrder(cur.tenants.Keys), Wanted(want));
    PassReports(ceiling, left, AsksOf(want), want, dials.first);
    var p := FirstPass(ceiling, cur, want, dials);
    PassReports(ceiling, Cleared(p.w), AsksOf(want), p.refused, dials.second);
  }

  lemma ClearedExact(w: Walk, done: map<Bytes, Params>)
    requires WellFormed(w) && Exact(w, done)
    ensures Exact(Cleared(w), done)
  {
    forall t | t in done ensures Fitted(Cleared(w), t, done[t]) {
      assert Fitted(w, t, done[t]);
    }
  }

  // Whom both passes together have placed, when the second refuses nobody.
  lemma PlanExact(ceiling: int, cur: Snapshot, want: seq<Member>, dials: Dials) returns (done: map<Bytes, Params>)
    requires Consistent(cur) && DistinctTenants(want) && Plan(ceiling, cur, want, dials).errs == []
    ensures Exact(Plan(ceiling, cur, want, dials), done)
    ensures forall m :: m in want ==> m.tenant in done && done[m.tenant] == m.params
  {
    var left, asks := Left(cur, want), AsksOf(want);
    StartsExact(left);
    PassExact(ceiling, left, asks, want, dials.first, map[]);
    RefusedAmong(ceiling, left, asks, want, dials.first);
    PlanReports(ceiling, cur, want, dials);
    var p := FirstPass(ceiling, cur, want, dials);
    var first := Taken(map[], want, p.refused);
    forall m | m in want && m !in p.refused ensures m.tenant in first && first[m.tenant] == m.params {
      TakenParams(map[], want, p.refused, m);
    }
    if p.refused == [] {
      done := first;
    } else {
      OnlyOnce(want, p.refused);
      forall m | m in p.refused ensures m.tenant !in first {
        TakenHolds(map[], want, p.refused, m.tenant);
      }
      ClearedExact(p.w, first);
      PassExact(ceiling, Cleared(p.w), asks, p.refused, dials.second, first);
      done := Taken(first, p.refused, []);
      forall m | m in want ensures m.tenant in done && done[m.tenant] == m.params {
        TakenParams(first, p.refused, [], m);
      }
    }
  }

  lemma OnlyOnce(want: seq<Member>, refused: seq<Member>)
    requires DistinctTenants(want) && forall i :: 0 <= i < |refused| ==> refused[i] in want
    ensures forall m, r :: m in want && m !in refused && r in refused ==> m.tenant != r.tenant
  {}

  ghost predicate On(now: Snapshot, m: Member) {
    var i := Identity(m.params);
    && m.tenant in now.tenants && now.tenants[m.tenant] == i
    && i in now.tuples && m.tenant in now.tuples[i].members && now.tuples[i].members[m.tenant] == m.params
  }

  lemma ApplySeats(w: Walk, resize: Ident -> bool, m: Member)
    requires WellFormed(w) && SeatedAs(w, m.tenant, Identity(m.params), m.params)
    ensures On(Apply(w, resize), m)
  {}

  lemma MembersDone(w: Walk, done: map<Bytes, Params>, i: Ident)
    requires MembersNamed(w) && w.tenants.Keys <= done.Keys && i in w.tuples
    ensures w.tuples[i].members.Keys <= done.Keys
  {
    forall t | t in w.tuples[i].members.Keys ensures t in done.Keys {
      assert t in w.tenants;
    }
  }

  lemma ResizedToPlan(w: Walk, resize: Ident -> bool, i: Ident)
    requires WellFormed(w) && Kept(w, resize) == {} && i in Apply(w, resize).tuples
    ensures i in w.tuples && i in w.planned && Apply(w, resize).tuples[i] == Tuple(w.planned[i], w.tuples[i].members)
  {
    assert i !in Kept(w, resize);
  }

  lemma ApplySizes(w: Walk, resize: Ident -> bool, i: Ident)
    requires WellFormed(w) && Kept(w, resize) == {} && i in Apply(w, resize).tuples && Settled(w, i)
    ensures Apply(w, resize).tuples[i].pool == SizesOf(Apply(w, resize).tuples[i].members)
  {
    ResizedToPlan(w, resize, i);
  }

  // A reconcile that reports no error leaves every wanted tenant on the tuple its Params name,
  // with those Params, nobody else anywhere, and each pool at exactly its members' largest asks.
  lemma SuccessIsExact(ceiling: int, cur: Snapshot, want: seq<Member>, dials: Dials)
    requires Consistent(cur) && DistinctTenants(want) && Succeeds(ceiling, cur, want, dials)
    ensures var now := Reconcile(ceiling, cur, want, dials);
      && now.tenants.Keys == Wanted(want)
      && (forall m :: m in want ==> On(now, m))
      && (forall i :: i in now.tuples ==> now.tuples[i].pool == SizesOf(now.tuples[i].members))
  {
    var w := Plan(ceiling, cur, want, dials);
    var done := PlanExact(ceiling, cur, want, dials);
    NobodyLosesAPool(ceiling, cur, want, dials);
    forall t | t in Wanted(want) ensures t in done {
      var m :| m in want && m.tenant == t;
    }
    forall m | m in want ensures On(Reconcile(ceiling, cur, want, dials), m) {
      assert Fitted(w, m.tenant, done[m.tenant]);
      ApplySeats(w, dials.resize, m);
    }
    forall i | i in Apply(w, dials.resize).tuples ensures Apply(w, dials.resize).tuples[i].pool == SizesOf(Apply(w, dials.resize).tuples[i].members) {
      ResizedToPlan(w, dials.resize, i);
      MembersDone(w, done, i);
      assert Settled(w, i);
      ApplySizes(w, dials.resize, i);
    }
  }

  /******* Once above the ceiling *******/

  // What the wanted ask for in all, one pool per tuple.
  function Asked(want: seq<Member>): map<Ident, nat> {
    map i | i in AsksOf(want) :: AsksOf(want)[i].open
  }

  lemma {:induction false} AskedIsMaximum(want: seq<Member>, i: Ident)
    ensures i in Asked(want) <==> exists m :: m in want && Identity(m.params) == i
    ensures forall m :: m in want && Identity(m.params) == i ==> i in Asked(want) && m.params.open <= Asked(want)[i]
    ensures i in Asked(want) ==> exists m :: m in want && Identity(m.params) == i && m.params.open == Asked(want)[i]
  {
    if want != [] {
      var n := |want| - 1;
      AskedIsMaximum(want[..n], i);
      assert want == want[..n] + [want[n]];
      assert forall m :: m in want <==> m in want[..n] || m == want[n];
    }
  }

  // A seated tuple's largest ask is the wanted's.
  lemma {:induction false} SeatedAsAsked(want: seq<Member>, members: map<Bytes, Params>, i: Ident)
    requires forall m :: m in want && Identity(m.params) == i ==> m.tenant in members && members[m.tenant] == m.params
    requires forall t :: t in members ==> exists m :: m in want && m.tenant == t && m.params == members[t] && Identity(m.params) == i
    requires members != map[]
    ensures i in Asked(want) && SizesOf(members).open == Asked(want)[i]
  {
    AskedIsMaximum(want, i);
    SizesOfIsMaximum(members);
    var t :| t in members;
    var m :| m in want && m.tenant == t && m.params == members[t] && Identity(m.params) == i;
    if SizesOf(members).open != 0 {
      var x :| x in members && members[x].open == SizesOf(members).open;
      var y :| y in want && y.tenant == x && y.params == members[x] && Identity(y.params) == i;
    }
  }

  lemma SeatedByWant(now: Snapshot, want: seq<Member>, i: Ident)
    requires Consistent(now) && now.tenants.Keys == Wanted(want) && (forall m :: m in want ==> On(now, m))
    requires i in now.tuples
    ensures i in Asked(want) && SizesOf(now.tuples[i].members).open == Asked(want)[i]
  {
    var members := now.tuples[i].members;
    forall t | t in members ensures exists m :: m in want && m.tenant == t && m.params == members[t] && Identity(m.params) == i {
      assert MembersNamed(Begin(now)) && t in now.tenants && now.tenants[t] == i;
      var m :| m in want && m.tenant == t;
      assert On(now, m);
    }
    SeatedAsAsked(want, members, i);
  }

  lemma OpenAsAsked(now: Snapshot, want: seq<Member>)
    requires Consistent(now) && now.tenants.Keys == Wanted(want) && (forall m :: m in want ==> On(now, m))
    requires forall i :: i in now.tuples ==> now.tuples[i].pool == SizesOf(now.tuples[i].members)
    ensures OpenAt(now) == Asked(want)
  {
    forall i | i in now.tuples ensures i in Asked(want) && now.tuples[i].pool.open == Asked(want)[i] {
      SeatedByWant(now, want, i);
    }
    forall i | i in Asked(want) ensures i in now.tuples {
      AskedIsMaximum(want, i);
      var m :| m in want && Identity(m.params) == i;
      assert On(now, m);
    }
  }

  // Whatever the pools were at, an error-free reconcile leaves them at what is asked in all; so it
  // ends within the ceiling exactly when that is.
  lemma SuccessSumsTheAsks(ceiling: int, cur: Snapshot, want: seq<Member>, dials: Dials)
    requires Consistent(cur) && DistinctTenants(want) && Succeeds(ceiling, cur, want, dials)
    ensures PoolSum(Reconcile(ceiling, cur, want, dials)) == Sum(Asked(want))
  {
    SuccessIsExact(ceiling, cur, want, dials);
    ApplyConsistent(Plan(ceiling, cur, want, dials), dials.resize);
    OpenAsAsked(Reconcile(ceiling, cur, want, dials), want);
  }

  // Asking again for what is there changes nothing and reports nothing, whatever the ceiling:
  // pools a failed shrink has left above it may stay there without an error.
  lemma SettledStays(ceiling: int, cur: Snapshot, want: seq<Member>, dials: Dials)
    requires Consistent(cur) && cur.tenants.Keys == Wanted(want) && (forall m :: m in want ==> On(cur, m))
    requires forall i :: i in cur.tuples ==> cur.tuples[i].pool == SizesOf(cur.tuples[i].members)
    ensures Succeeds(ceiling, cur, want, dials) && Reconcile(ceiling, cur, want, dials) == cur
  {
    SettledPlan(ceiling, cur, want, dials);
    AppliedUnchanged(cur, dials.resize);
  }

  lemma SettledPlan(ceiling: int, cur: Snapshot, want: seq<Member>, dials: Dials)
    requires Consistent(cur) && cur.tenants.Keys == Wanted(want) && (forall m :: m in want ==> On(cur, m))
    requires forall i :: i in cur.tuples ==> cur.tuples[i].pool == SizesOf(cur.tuples[i].members)
    ensures Plan(ceiling, cur, want, dials) == Begin(cur)
  {
    var w := Begin(cur);
    InOrderHolds(cur.tenants.Keys);
    NobodyLeaves(w, InOrder(cur.tenants.Keys), Wanted(want));
    forall m | m in want ensures SeatedAs(w, m.tenant, Identity(m.params), m.params) && Settled(w, Identity(m.params)) {
      assert On(cur, m);
    }
    PassSettled(ceiling, w, AsksOf(want), want, dials.first);
  }

  lemma AppliedUnchanged(cur: Snapshot, resize: Ident -> bool)
    requires Consistent(cur)
    ensures Kept(Begin(cur), resize) == {} && Apply(Begin(cur), resize) == cur
  {
    assert Apply(Begin(cur), resize).tuples == cur.tuples;
  }

  lemma PlaceSettled(ceiling: int, w: Walk, asks: map<Ident, Sizes>, m: Member, opens: bool)
    requires WellFormed(w) && SeatedAs(w, m.tenant, Identity(m.params), m.params) && Settled(w, Identity(m.params))
    ensures Place(ceiling, w, asks, m, opens) == Placed(w, true)
  {
    var i := Identity(m.params);
    assert w.tuples[i].members[m.tenant := m.params] == w.tuples[i].members;
    assert w.tuples[i := w.tuples[i]] == w.tuples;
    assert Update(w, m) == w;
    assert w.planned[i := w.planned[i]] == w.planned;
  }

  lemma {:induction false} PassSettled(ceiling: int, w: Walk, asks: map<Ident, Sizes>, want: seq<Member>, opens: nat -> bool)
    requires WellFormed(w) && forall m :: m in want ==> SeatedAs(w, m.tenant, Identity(m.params), m.params) && Settled(w, Identity(m.params))
    ensures Pass(ceiling, w, asks, want, opens) == Passed(w, [])
  {
    if want != [] {
      var n := |want| - 1;
      assert want[n] in want && forall m :: m in want[..n] ==> m in want;
      PassSettled(ceiling, w, asks, want[..n], opens);
      PlaceSettled(ceiling, w, asks, want[n], opens(n));
    }
  }

  /******* Where the ceiling is broken *******/

  const ONE: Bytes := [1]
  const TWO: Bytes := [2]

  lemma Apart()
    ensures ONE != TWO
  {
    assert ONE[0] != TWO[0];
  }

  function Asking(host: Bytes, open: nat): Params {
    Params(host, [], [], [], [], open, 0, [])
  }

  // Tenants 1 and 2, each alone on a pool of 5, asking for a and b and planned at planA and planB.
  function Two(a: nat, b: nat, planA: nat, planB: nat): Walk {
    var i, j := Identity(Asking(ONE, a)), Identity(Asking(TWO, b));
    Walk(map[i := Tuple(Sizes(5, 0), map[ONE := Asking(ONE, a)]), j := Tuple(Sizes(5, 0), map[TWO := Asking(TWO, b)])],
         map[ONE := i, TWO := j], map[i := Sizes(planA, 0), j := Sizes(planB, 0)], {}, {}, [])
  }

  lemma OneAsk(t: Bytes, p: Params)
    ensures SizesOf(map[t := p]) == Ask(p)
  {
    var none: map<Bytes, Params> := map[];
    SizesOfWith(none, t, p);
    assert none[t := p] == map[t := p] && none - {t} == none;
  }

  lemma TwoSum(i: Ident, j: Ident, x: nat, y: nat)
    requires i != j
    ensures Sum(map[i := x, j := y]) == x + y && Sum(map[i := x, j := y] - {j}) == x
  {
    var m := map[i := x, j := y];
    SumPick(m, j);
    SumPick(m - {j}, i);
    assert m - {j} - {i} == map[];
  }

  lemma TwoWellFormed(a: nat, b: nat, planA: nat, planB: nat)
    ensures WellFormed(Two(a, b, planA, planB))
  {
    var w := Two(a, b, planA, planB);
    assert ONE in w.tuples[Identity(Asking(ONE, a))].members && TWO in w.tuples[Identity(Asking(TWO, b))].members;
    Apart();
  }

  lemma TwoCounted(a: nat, b: nat, planA: nat, planB: nat)
    ensures Counted(Two(a, b, planA, planB)) == map[Identity(Asking(ONE, a)) := planA, Identity(Asking(TWO, b)) := planB]
    ensures Identity(Asking(ONE, a)) != Identity(Asking(TWO, b))
  {
    var w := Two(a, b, planA, planB);
    assert ONE in w.tuples[Identity(Asking(ONE, a))].members && TWO in w.tuples[Identity(Asking(TWO, b))].members;
    Apart();
  }

  lemma FirstShrinks(asks: map<Ident, Sizes>, opens: bool)
    ensures WellFormed(Two(5, 5, 5, 5)) && Place(10, Two(5, 5, 5, 5), asks, Member(ONE, Asking(ONE, 2)), opens) == Placed(Two(2, 5, 2, 5), true)
  {
    TwoWellFormed(5, 5, 5, 5);
    var w, m := Two(5, 5, 5, 5), Member(ONE, Asking(ONE, 2));
    var i, s := Identity(m.params), Sizes(2, 0);
    Apart();
    assert InPlace(w, m);
    var v := Update(w, m);
    assert v.tuples[i].members == map[ONE := m.params];
    OneAsk(ONE, m.params);
    assert Grow(10, v, i, s) == Placed(v.(planned := v.planned[i := s]), true);
    UpdatedFirst(v);
  }

  lemma UpdatedFirst(v: Walk)
    requires WellFormed(Two(5, 5, 5, 5)) && InPlace(Two(5, 5, 5, 5), Member(ONE, Asking(ONE, 2)))
    requires v == Update(Two(5, 5, 5, 5), Member(ONE, Asking(ONE, 2)))
    ensures v.(planned := v.planned[Identity(Asking(ONE, 2)) := Sizes(2, 0)]) == Two(2, 5, 2, 5)
  {
    var i, j, w := Identity(Asking(ONE, 2)), Identity(Asking(TWO, 5)), Two(5, 5, 5, 5);
    Apart();
    assert w.tuples[i].members[ONE := Asking(ONE, 2)] == map[ONE := Asking(ONE, 2)];
    PairUpdated(i, j, w.tuples[i], w.tuples[j], Tuple(Sizes(5, 0), map[ONE := Asking(ONE, 2)]));
    PairUpdated(i, j, Sizes(5, 0), Sizes(5, 0), Sizes(2, 0));
  }

  lemma PairUpdated<K, V>(i: K, j: K, x: V, y: V, z: V)
    requires i != j
    ensures map[i := x, j := y][i := z] == map[i := z, j := y]
  {}

  lemma SecondGrows(asks: map<Ident, Sizes>, opens: bool)
    ensures WellFormed(Two(2, 5, 2, 5)) && Place(10, Two(2, 5, 2, 5), asks, Member(TWO, Asking(TWO, 8)), opens) == Placed(Two(2, 8, 2, 8), true)
  {
    TwoWellFormed(2, 5, 2, 5);
    var w, m := Two(2, 5, 2, 5), Member(TWO, Asking(TWO, 8));
    var i, j := Identity(Asking(ONE, 2)), Identity(m.params);
    TwoCounted(2, 5, 2, 5);
    var v := Update(w, m);
    assert v.tuples[j].members == map[TWO := m.params];
    OneAsk(TWO, m.params);
    assert Counted(v) == Counted(w);
    TwoSum(i, j, 2, 5);
    assert Fits(10, v, j, Sizes(8, 0));
    assert v.tuples == Two(2, 8, 2, 8).tuples;
    assert v.planned[j := Sizes(8, 0)] == Two(2, 8, 2, 8).planned;
  }

  lemma {:induction false} NobodyLeaves(w: Walk, ids: seq<Bytes>, wanted: set<Bytes>)
    requires WellFormed(w) && forall t :: t in ids ==> t in wanted
    ensures LeaveEach(w, ids, wanted) == w
  {
    if ids != [] {
      NobodyLeaves(w, ids[..|ids| - 1], wanted);
    }
  }

  lemma {:induction false} PassOfTwo(w: Walk, asks: map<Ident, Sizes>, want: seq<Member>, opens: nat -> bool)
    requires w == Two(5, 5, 5, 5) && want == [Member(ONE, Asking(ONE, 2)), Member(TWO, Asking(TWO, 8))]
    ensures WellFormed(w) && Pass(10, w, asks, want, opens) == Passed(Two(2, 8, 2, 8), [])
  {
    FirstShrinks(asks, opens(0));
    SecondGrows(asks, opens(1));
    assert want[..1] == [want[0]] && want[..1][..0] == [];
    assert Pass(10, w, asks, want[..1][..0], opens) == Passed(w, []);
    assert Pass(10, w, asks, want[..1], opens) == Passed(Two(2, 5, 2, 5), []);
  }

  lemma TwoResizes(resize: Ident -> bool, i: Ident, j: Ident)
    requires forall x :: resize(x) <==> x.addr == TWO
    requires i == Identity(Asking(ONE, 2)) && j == Identity(Asking(TWO, 8))
    ensures var w := Two(2, 8, 2, 8); ResizeFails(w, i, resize) && !ResizeFails(w, j, resize)
    ensures var w := Two(2, 8, 2, 8); w.tuples[i].members != map[] && w.tuples[j].members != map[] && w.tuples.Keys == {i, j} && i != j
    ensures var w := Two(2, 8, 2, 8); w.tuples[i].pool.open == 5 && w.planned[j].open == 8
  {
    Apart();
    assert ONE in Two(2, 8, 2, 8).tuples[i].members && TWO in Two(2, 8, 2, 8).tuples[j].members;
  }

  lemma TwoOpen(w: Walk, resize: Ident -> bool, i: Ident, j: Ident)
    requires WellFormed(w) && w.tuples.Keys == {i, j} && i != j && ResizeFails(w, i, resize) && !ResizeFails(w, j, resize)
    requires w.tuples[j].members != map[]
    ensures PoolSum(Apply(w, resize)) == w.tuples[i].pool.open + w.planned[j].open
  {
    var x, y, now := w.tuples[i].pool.open, w.planned[j].open, Apply(w, resize);
    assert i in now.tuples && now.tuples[i].pool.open == x;
    assert j in now.tuples && now.tuples[j].pool.open == y;
    assert now.tuples.Keys == {i, j};
    TwoAre(OpenAt(now), i, j);
    TwoSum(i, j, x, y);
  }

  lemma TwoAre(m: map<Ident, nat>, i: Ident, j: Ident)
    requires m.Keys == {i, j}
    ensures m == map[i := m[i], j := m[j]]
  {}

  lemma TwoApplied(resize: Ident -> bool)
    requires forall x :: resize(x) <==> x.addr == TWO
    ensures WellFormed(Two(2, 8, 2, 8)) && PoolSum(Apply(Two(2, 8, 2, 8), resize)) == 13
  {
    TwoWellFormed(2, 8, 2, 8);
    var i, j := Identity(Asking(ONE, 2)), Identity(Asking(TWO, 8));
    TwoResizes(resize, i, j);
    TwoOpen(Two(2, 8, 2, 8), resize, i, j);
  }

  // Two pools of 5 under a ceiling of 10. The first is to shrink to 2, and so the second may grow
  // to 8; the shrink's dial fails and the growth's does not.
  lemma FailedShrinkBreaksCeiling() returns (cur: Snapshot, want: seq<Member>, dials: Dials)
    ensures Consistent(cur) && DistinctTenants(want) && PoolSum(cur) == 10
    ensures PoolSum(Reconcile(10, cur, want, dials)) == 13
  {
    cur := Snapshot(Two(5, 5, 5, 5).tuples, Two(5, 5, 5, 5).tenants);
    want := [Member(ONE, Asking(ONE, 2)), Member(TWO, Asking(TWO, 8))];
    dials := Dials((n: nat) => true, (n: nat) => true, (x: Ident) => x.addr == TWO);
    TwoStart(cur);
    TwoWanted(want);
    TwoReconciled(cur, want, dials);
  }

  lemma TwoWanted(want: seq<Member>)
    requires want == [Member(ONE, Asking(ONE, 2)), Member(TWO, Asking(TWO, 8))]
    ensures DistinctTenants(want)
  {
    Apart();
  }

  lemma TwoReconciled(cur: Snapshot, want: seq<Member>, dials: Dials)
    requires cur == Snapshot(Two(5, 5, 5, 5).tuples, Two(5, 5, 5, 5).tenants)
    requires want == [Member(ONE, Asking(ONE, 2)), Member(TWO, Asking(TWO, 8))] && forall x :: dials.resize(x) <==> x.addr == TWO
    ensures Consistent(cur) && PoolSum(Reconcile(10, cur, want, dials)) == 13
  {
    TwoPlan(cur, want, dials);
    TwoApplied(dials.resize);
  }

  lemma TwoLeft(cur: Snapshot, want: seq<Member>)
    requires cur == Snapshot(Two(5, 5, 5, 5).tuples, Two(5, 5, 5, 5).tenants)
    requires want == [Member(ONE, Asking(ONE, 2)), Member(TWO, Asking(TWO, 8))]
    ensures Consistent(cur) && Left(cur, want) == Two(5, 5, 5, 5)
  {
    TwoStart(cur);
    assert want[0] in want && want[1] in want;
    assert ONE in Wanted(want) && TWO in Wanted(want);
    InOrderHolds(cur.tenants.Keys);
    NobodyLeaves(Begin(cur), InOrder(cur.tenants.Keys), Wanted(want));
  }

  lemma TwoPlan(cur: Snapshot, want: seq<Member>, dials: Dials)
    requires cur == Snapshot(Two(5, 5, 5, 5).tuples, Two(5, 5, 5, 5).tenants)
    requires want == [Member(ONE, Asking(ONE, 2)), Member(TWO, Asking(TWO, 8))]
    ensures Consistent(cur) && Plan(10, cur, want, dials) == Two(2, 8, 2, 8)
  {
    TwoLeft(cur, want);
    PassOfTwo(Left(cur, want), AsksOf(want), want, dials.first);
  }

  lemma TwoStart(cur: Snapshot)
    requires cur == Snapshot(Two(5, 5, 5, 5).tuples, Two(5, 5, 5, 5).tenants)
    ensures Begin(cur) == Two(5, 5, 5, 5) && Consistent(cur) && PoolSum(cur) == 10
  {
    var w := Two(5, 5, 5, 5);
    TwoWellFormed(5, 5, 5, 5);
    TwoCounted(5, 5, 5, 5);
    assert Begin(cur).planned == w.planned;
    TwoSum(Identity(Asking(ONE, 5)), Identity(Asking(TWO, 5)), 5, 5);
    assert OpenAt(cur) == Counted(w);
  }
}
