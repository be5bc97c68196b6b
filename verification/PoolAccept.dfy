/** internal/chconn/chconn.go: which placements a reconcile accepts, and which reconciles succeed. */
module PoolAccept {
  import opened Common
  import opened Bytes
  import opened Ordered
  import opened PoolWalk
  import opened PoolReconcile

  /******* One placement *******/

  // What the tuples other than i are planned at without t: those that still have members, and the
  // one t is on no larger than the others on it ask for.
  ghost function PlannedWithout(w: Walk, t: Bytes, i: Ident): map<Ident, nat> {
    map x | x in w.tuples && x in w.planned && x != i && w.tuples[x].members - {t} != map[] ::
      if t in w.tuples[x].members then Smaller(SizesOf(w.tuples[x].members - {t}).open, w.planned[x].open) else w.planned[x].open
  }

  // What m needs its tuple to be planned at: its ask, and where it is there already, the others'.
  ghost function Needs(w: Walk, m: Member): nat {
    var i := Identity(m.params);
    if i in w.tuples && m.tenant in w.tuples[i].members
    then Larger(m.params.open, SizesOf(w.tuples[i].members - {m.tenant}).open) else m.params.open
  }

  lemma OffEverySeat(w: Walk, t: Bytes)
    requires WellFormed(w)
    ensures forall x :: x in w.tuples && (t !in w.tenants || w.tenants[t] != x) ==> t !in w.tuples[x].members && w.tuples[x].members - {t} == w.tuples[x].members
  {
    forall x | x in w.tuples && (t !in w.tenants || w.tenants[t] != x) ensures t !in w.tuples[x].members && w.tuples[x].members - {t} == w.tuples[x].members {
      assert MembersNamed(w);
    }
  }

  lemma LeftCounted(w: Walk, t: Bytes, i: Ident)
    requires WellFormed(w)
    ensures Counted(Leave(w, t)) - {i} == PlannedWithout(w, t, i)
  {
    OffEverySeat(w, t);
    if t in w.tenants {
      LeftCountedTo(w, t, i, AskWithout(w, t), PlannedWithout(w, t, i));
    } else {
      assert Counted(w) - {i} == PlannedWithout(w, t, i);
    }
  }

  lemma LeftCountedTo(w: Walk, t: Bytes, i: Ident, rest: Sizes, plans: map<Ident, nat>)
    requires WellFormed(w) && t in w.tenants
    requires forall x :: x in plans <==> x in w.tuples && x != i && (if x == w.tenants[t] then w.tuples[x].members - {t} else w.tuples[x].members) != map[]
    requires forall x :: x in plans ==> plans[x] == if x == w.tenants[t] then Smaller(rest.open, w.planned[x].open) else w.planned[x].open
    ensures Counted(LeaveTo(w, t, rest)) - {i} == plans
  {
    var left := Counted(LeaveTo(w, t, rest)) - {i};
    forall x ensures x in left <==> x in plans {}
  }

  lemma StayedCounted(w: Walk, m: Member)
    requires WellFormed(w) && InPlace(w, m)
    ensures Counted(Update(w, m)) - {Identity(m.params)} == PlannedWithout(w, m.tenant, Identity(m.params))
  {
    OffEverySeat(w, m.tenant);
  }

  lemma ResettledExactlyWhen(ceiling: int, w: Walk, m: Member)
    requires WellFormed(w) && InPlace(w, m)
    ensures var i, beside := Identity(m.params), PlannedWithout(w, m.tenant, Identity(m.params));
      Resettle(ceiling, w, m).ok <==> ceiling <= 0 || Needs(w, m) + Sum(beside) <= ceiling || Needs(w, m) <= w.planned[i].open
  {
    StayedCounted(w, m);
    SizesOfWith(w.tuples[Identity(m.params)].members, m.tenant, m.params);
  }

  // left is w once m has left its own tuple.
  lemma {:induction false} AdmittedExactlyWhen(ceiling: int, left: Walk, m: Member, opens: bool, beside: map<Ident, nat>)
    requires left.planned.Keys == left.tuples.Keys && Counted(left) - {Identity(m.params)} == beside
    ensures var i := Identity(m.params);
      Admits(ceiling, left, m, opens) <==>
        ((i in left.tuples || opens)
         && (ceiling <= 0 || m.params.open + Sum(beside) <= ceiling || (i in left.tuples && m.params.open <= PlanAt(left, i).open)))
  {}

  // A placement is accepted exactly when the tuple is open already or its pool opens, and there is
  // no ceiling, or what m needs fits it beside the plans of the other tuples once m has left its
  // own, or an open tuple's plan is that large already.
  lemma PlacedExactlyWhen(ceiling: int, w: Walk, asks: map<Ident, Sizes>, m: Member, opens: bool)
    requires WellFormed(w)
    ensures var i := Identity(m.params);
      Place(ceiling, w, asks, m, opens).ok <==>
        ((i in w.tuples || opens)
         && (ceiling <= 0 || Needs(w, m) + Sum(PlannedWithout(w, m.tenant, i)) <= ceiling || (i in w.tuples && Needs(w, m) <= w.planned[i].open)))
  {
    var i := Identity(m.params);
    if InPlace(w, m) {
      ResettledExactlyWhen(ceiling, w, m);
    } else {
      LeftCounted(w, m.tenant, i);
      OffEverySeat(w, m.tenant);
      AdmittedExactlyWhen(ceiling, Leave(w, m.tenant), m, opens, PlannedWithout(w, m.tenant, i));
    }
  }

  lemma {:induction false} OpensAtAsks(ceiling: int, left: Walk, asks: map<Ident, Sizes>, m: Member, beside: map<Ident, nat>)
    requires Counted(left) - {Identity(m.params)} == beside
    ensures OpensAt(ceiling, left, asks, m) ==
      if ceiling <= 0 || AskFor(asks, Identity(m.params)).open + Sum(beside) <= ceiling then AskFor(asks, Identity(m.params)) else Ask(m.params)
  {}

  // A new pool opens at the largest ask of all who want it where that fits, and otherwise at m's.
  lemma OpenedAt(ceiling: int, w: Walk, asks: map<Ident, Sizes>, m: Member, opens: bool)
    requires WellFormed(w) && Identity(m.params) !in w.tuples && Place(ceiling, w, asks, m, opens).ok
    ensures var i, v := Identity(m.params), Place(ceiling, w, asks, m, opens).w;
      var ask := if i in asks then asks[i] else Sizes(0, 0);
      && v.tuples.Keys == w.tuples.Keys + {i} && v.planned[i] == Ask(m.params)
      && v.tuples[i] == Tuple(if ceiling <= 0 || ask.open + Sum(PlannedWithout(w, m.tenant, i)) <= ceiling then ask else Ask(m.params),
                              map[m.tenant := m.params])
  {
    LeftCounted(w, m.tenant, Identity(m.params));
    OpensAtAsks(ceiling, Leave(w, m.tenant), asks, m, PlannedWithout(w, m.tenant, Identity(m.params)));
  }

  /******* Reconciles that must succeed *******/

  // Every pool this reconcile opens or resizes turns out well.
  ghost predicate EverythingDials(dials: Dials) {
    (forall n :: dials.first(n) && dials.second(n)) && forall i :: dials.resize(i)
  }

  lemma AllResized(w: Walk, resize: Ident -> bool)
    requires WellFormed(w) && forall i :: resize(i)
    ensures Kept(w, resize) == {}
  {}

  lemma {:induction false} UncappedPass(ceiling: int, w: Walk, asks: map<Ident, Sizes>, want: seq<Member>, opens: nat -> bool)
    requires WellFormed(w) && ceiling <= 0 && forall n :: opens(n)
    ensures Pass(ceiling, w, asks, want, opens).refused == []
  {
    if want != [] {
      var n := |want| - 1;
      UncappedPass(ceiling, w, asks, want[..n], opens);
      PlacedExactlyWhen(ceiling, Pass(ceiling, w, asks, want[..n], opens).w, asks, want[n], opens(n));
    }
  }

  // Without a ceiling nothing is refused.
  lemma NoCeilingSucceeds(ceiling: int, cur: Snapshot, want: seq<Member>, dials: Dials)
    requires Consistent(cur) && ceiling <= 0 && EverythingDials(dials)
    ensures Succeeds(ceiling, cur, want, dials)
  {
    UncappedPass(ceiling, Left(cur, want), AsksOf(want), want, dials.first);
    PlanReports(ceiling, cur, want, dials);
    AllResized(Plan(ceiling, cur, want, dials), dials.resize);
  }

  // Plans no larger than what is asked leave room for any one tuple's ask.
  lemma {:induction false} AskFits(beside: map<Ident, nat>, asked: map<Ident, nat>, i: Ident, need: nat)
    requires i in asked && need <= asked[i]
    requires forall x :: x in beside ==> x != i && x in asked && beside[x] <= asked[x]
    ensures need + Sum(beside) <= Sum(asked)
  {
    SumPick(asked, i);
    SumMonotone(beside, asked - {i});
  }

  /******* The first pools *******/

  lemma {:induction false} AsksKeys(want: seq<Member>)
    ensures forall i :: i in AsksOf(want) <==> exists m :: m in want && Identity(m.params) == i
  {
    forall i ensures i in AsksOf(want) <==> exists m :: m in want && Identity(m.params) == i {
      AskedIsMaximum(want, i);
    }
  }

  lemma AsksGrow(want: seq<Member>, n: nat, i: Ident)
    requires n <= |want| && i in Asked(want[..n])
    ensures i in Asked(want) && Asked(want[..n])[i] <= Asked(want)[i]
  {
    AskedIsMaximum(want[..n], i);
    AskedIsMaximum(want, i);
    var m :| m in want[..n] && Identity(m.params) == i && m.params.open == Asked(want[..n])[i];
    assert m in want;
  }

  // Planned as given for the tenants given, on new pools opened at what all ask.
  ghost predicate FreshAs(w: Walk, asks: map<Ident, Sizes>, planned: map<Ident, Sizes>, tenants: set<Bytes>) {
    && w.planned == planned && w.tuples.Keys == planned.Keys && w.tenants.Keys <= tenants
    && forall i :: i in w.tuples ==> w.tuples[i].members != map[] && w.tuples[i].pool == AskFor(asks, i)
  }

  // Only members of part have been placed, on new pools opened at what all of want ask.
  ghost predicate Fresh(w: Walk, want: seq<Member>, part: seq<Member>) {
    FreshAs(w, AsksOf(want), AsksOf(part), Wanted(part))
  }

  lemma FreshBeside(w: Walk, want: seq<Member>, n: nat, t: Bytes, i: Ident, need: nat)
    requires WellFormed(w) && n <= |want| && Fresh(w, want, want[..n]) && t !in w.tenants
    requires i in Asked(want) && need <= Asked(want)[i]
    ensures need + Sum(PlannedWithout(w, t, i)) <= Sum(Asked(want))
  {
    OffEverySeat(w, t);
    var beside := PlannedWithout(w, t, i);
    forall x | x in beside ensures x != i && x in Asked(want) && beside[x] <= Asked(want)[x] {
      assert beside[x] == Asked(want[..n])[x];
      AsksGrow(want, n, x);
    }
    AskFits(beside, Asked(want), i, need);
  }

  lemma FreshTenant(w: Walk, want: seq<Member>, n: nat)
    requires DistinctTenants(want) && n < |want| && w.tenants.Keys <= Wanted(want[..n])
    ensures want[n].tenant !in w.tenants && Wanted(want[..n + 1]) == Wanted(want[..n]) + {want[n].tenant}
  {
    assert want[..n + 1] == want[..n] + [want[n]];
    forall m | m in want[..n] ensures m.tenant != want[n].tenant {}
  }

  lemma {:induction false} FreshPlaced(ceiling: int, w: Walk, want: seq<Member>, n: nat)
    requires WellFormed(w) && DistinctTenants(want) && n < |want| && Fresh(w, want, want[..n])
    requires ceiling <= 0 || Sum(Asked(want)) <= ceiling
    ensures Place(ceiling, w, AsksOf(want), want[n], true).ok
    ensures Identity(want[n].params) !in w.tuples ==>
      Place(ceiling, w, AsksOf(want), want[n], true).w.tuples[Identity(want[n].params)].pool == AskFor(AsksOf(want), Identity(want[n].params))
  {
    var m, i := want[n], Identity(want[n].params);
    FreshTenant(w, want, n);
    AskedIsMaximum(want, i);
    assert m in want;
    FreshBeside(w, want, n, m.tenant, i, m.params.open);
    FreshBeside(w, want, n, m.tenant, i, Asked(want)[i]);
    OffEverySeat(w, m.tenant);
    PlacedExactlyWhen(ceiling, w, AsksOf(want), m, true);
    if i !in w.tuples {
      OpenedAt(ceiling, w, AsksOf(want), m, true);
    }
  }

  // m, a newcomer to w, has joined its tuple in v: its ask is in the plan, it among the members.
  ghost predicate Joined(w: Walk, v: Walk, m: Member) {
    var i := Identity(m.params);
    && v.planned == w.planned[i := Max(PlanAt(w, i), Ask(m.params))] && v.tenants == w.tenants[m.tenant := i]
    && v.tuples.Keys == w.tuples.Keys + {i} && (forall x :: x in w.tuples && x != i ==> v.tuples[x] == w.tuples[x])
    && v.tuples[i].members == (if i in w.tuples then w.tuples[i].members else map[])[m.tenant := m.params]
    && (i in w.tuples ==> v.tuples[i].pool == w.tuples[i].pool)
  }

  lemma NewcomerJoins(ceiling: int, w: Walk, asks: map<Ident, Sizes>, m: Member, opens: bool)
    requires WellFormed(w) && m.tenant !in w.tenants && Place(ceiling, w, asks, m, opens).ok
    ensures Joined(w, Place(ceiling, w, asks, m, opens).w, m)
  {}

  lemma {:induction false} FreshStep(ceiling: int, w: Walk, want: seq<Member>, n: nat)
    requires WellFormed(w) && DistinctTenants(want) && n < |want| && Fresh(w, want, want[..n])
    requires ceiling <= 0 || Sum(Asked(want)) <= ceiling
    ensures var p := Place(ceiling, w, AsksOf(want), want[n], true); p.ok && Fresh(p.w, want, want[..n + 1])
  {
    FreshPlaced(ceiling, w, want, n);
    FreshTenant(w, want, n);
    NewcomerJoins(ceiling, w, AsksOf(want), want[n], true);
    FreshNext(w, Place(ceiling, w, AsksOf(want), want[n], true).w, want, n);
  }

  lemma {:induction false} FreshNext(w: Walk, v: Walk, want: seq<Member>, n: nat)
    requires n < |want| && Fresh(w, want, want[..n]) && Joined(w, v, want[n])
    requires Wanted(want[..n + 1]) == Wanted(want[..n]) + {want[n].tenant}
    requires Identity(want[n].params) !in w.tuples ==> v.tuples[Identity(want[n].params)].pool == AskFor(AsksOf(want), Identity(want[n].params))
    ensures Fresh(v, want, want[..n + 1])
  {
    assert want[..n + 1][..n] == want[..n];
    FreshJoined(w, v, AsksOf(want), AsksOf(want[..n]), Wanted(want[..n]), want[n]);
  }

  lemma FreshJoined(w: Walk, v: Walk, asks: map<Ident, Sizes>, planned: map<Ident, Sizes>, tenants: set<Bytes>, m: Member)
    requires FreshAs(w, asks, planned, tenants) && Joined(w, v, m)
    requires Identity(m.params) !in w.tuples ==> v.tuples[Identity(m.params)].pool == AskFor(asks, Identity(m.params))
    ensures FreshAs(v, asks, planned[Identity(m.params) := Max(AskFor(planned, Identity(m.params)), Ask(m.params))], tenants + {m.tenant})
  {
    forall x | x in v.tuples ensures v.tuples[x].members != map[] && v.tuples[x].pool == AskFor(asks, x) {
      if x == Identity(m.params) {
        assert m.tenant in v.tuples[x].members;
      } else {
        assert x in w.tuples;
      }
    }
  }

  lemma {:induction false} FreshPass(ceiling: int, w: Walk, want: seq<Member>, n: nat, opens: nat -> bool)
    requires WellFormed(w) && Fresh(w, want, []) && DistinctTenants(want) && n <= |want| && forall k :: opens(k)
    requires ceiling <= 0 || Sum(Asked(want)) <= ceiling
    ensures var p := Pass(ceiling, w, AsksOf(want), want[..n], opens); p.refused == [] && Fresh(p.w, want, want[..n])
  {
    if n > 0 {
      FreshPass(ceiling, w, want, n - 1, opens);
      assert want[..n][..n - 1] == want[..n - 1];
      FreshStep(ceiling, Pass(ceiling, w, AsksOf(want), want[..n - 1], opens).w, want, n - 1);
    }
  }

  // The first pools all open, within a ceiling that has room for what is asked in all; and each
  // opens at the size it is to have, so that none has to be resized.
  lemma FirstPoolsOpen(ceiling: int, want: seq<Member>, dials: Dials)
    requires DistinctTenants(want) && forall n :: dials.first(n)
    requires ceiling <= 0 || Sum(Asked(want)) <= ceiling
    ensures Consistent(NO_POOLS) && Succeeds(ceiling, NO_POOLS, want, dials)
  {
    var w := Begin(NO_POOLS);
    assert Left(NO_POOLS, want) == w by {
      InOrderHolds(NO_POOLS.tenants.Keys);
      assert InOrder(NO_POOLS.tenants.Keys) == [];
    }
    FreshPass(ceiling, w, want, |want|, dials.first);
    assert want[..|want|] == want;
    PlanReports(ceiling, NO_POOLS, want, dials);
  }

  /******* Tenants that stay on their tuples *******/

  // Some of the wanted are on pools, each on the tuple it wants, and of done as it wants to be; a
  // tuple with only those of done is planned no larger than is asked.
  ghost predicate Tidy(w: Walk, want: seq<Member>, done: set<Bytes>) {
    && w.tenants.Keys <= Wanted(want)
    && (forall m :: m in want && m.tenant in w.tenants ==> InPlace(w, m))
    && (forall m :: m in want && m.tenant in w.tenants && m.tenant in done ==> SeatedAs(w, m.tenant, Identity(m.params), m.params))
    && (forall i :: i in w.tuples && w.tuples[i].members != map[] && w.tuples[i].members.Keys <= done ==> Modest(w, want, i))
  }

  ghost predicate Modest(w: Walk, want: seq<Member>, i: Ident) {
    i in Asked(want) && PlanAt(w, i).open <= Asked(want)[i]
  }

  // Members all as some of the wanted ask to be.
  lemma {:induction false} MembersAsk(want: seq<Member>, members: map<Bytes, Params>, i: Ident)
    requires members != map[]
    requires forall t :: t in members ==> exists m :: m in want && m.tenant == t && m.params == members[t] && Identity(m.params) == i
    ensures i in Asked(want) && SizesOf(members).open <= Asked(want)[i]
  {
    AskedIsMaximum(want, i);
    SizesOfIsMaximum(members);
    var t :| t in members;
    var m :| m in want && m.tenant == t && m.params == members[t] && Identity(m.params) == i;
    if SizesOf(members).open != 0 {
      var x :| x in members && members[x].open == SizesOf(members).open;
      var y :| y in want && y.tenant == x && y.params == members[x] && Identity(y.params) == i;
    }
  }

  // Those of done on one tuple sit there as they want to be.
  lemma TidySeats(w: Walk, want: seq<Member>, done: set<Bytes>, i: Ident, t: Bytes)
    requires WellFormed(w) && Tidy(w, want, done) && i in w.tuples && t in w.tuples[i].members && t in done
    ensures exists m :: m in want && m.tenant == t && m.params == w.tuples[i].members[t] && Identity(m.params) == i
  {
    assert MembersNamed(w) && t in w.tenants && w.tenants[t] == i;
    var m :| m in want && m.tenant == t;
    assert SeatedAs(w, t, Identity(m.params), m.params);
  }

  // m's tuple with m's new Params on it.
  lemma {:induction false} UpdatedAsk(w: Walk, want: seq<Member>, m: Member, done: set<Bytes>, members: map<Bytes, Params>)
    requires WellFormed(w) && Tidy(w, want, done) && m in want && InPlace(w, m)
    requires members == w.tuples[Identity(m.params)].members[m.tenant := m.params] && members.Keys <= done + {m.tenant}
    ensures Identity(m.params) in Asked(want) && SizesOf(members).open <= Asked(want)[Identity(m.params)]
  {
    var i := Identity(m.params);
    forall t | t in members ensures exists x :: x in want && x.tenant == t && x.params == members[t] && Identity(x.params) == i {
      if t == m.tenant {
        assert m.tenant == t && m.params == members[t];
      } else {
        TidySeats(w, want, done, i, t);
      }
    }
    MembersAsk(want, members, i);
  }

  // m has been updated where it is in v, its tuple planned no larger than its members then ask.
  ghost predicate Resettled(w: Walk, v: Walk, m: Member) {
    var i := Identity(m.params);
    && v.tenants == w.tenants && v.tuples.Keys == w.tuples.Keys && i in w.tuples
    && (forall x :: x in w.tuples && x != i ==> v.tuples[x] == w.tuples[x] && PlanAt(v, x) == PlanAt(w, x))
    && v.tuples[i].members == w.tuples[i].members[m.tenant := m.params]
    && PlanAt(v, i).open <= SizesOf(v.tuples[i].members).open
  }

  lemma GrowPlans(ceiling: int, w: Walk, i: Ident, s: Sizes)
    requires i in w.tuples
    ensures var v := Grow(ceiling, w, i, s).w;
      && v.tuples == w.tuples && v.tenants == w.tenants && PlanAt(v, i).open <= s.open
      && forall x :: x != i ==> PlanAt(v, x) == PlanAt(w, x)
  {}

  lemma InPlaceResettles(ceiling: int, w: Walk, asks: map<Ident, Sizes>, m: Member, opens: bool)
    requires WellFormed(w) && InPlace(w, m)
    ensures Resettled(w, Place(ceiling, w, asks, m, opens).w, m)
  {
    var u, i := Update(w, m), Identity(m.params);
    assert forall x :: PlanAt(u, x) == PlanAt(w, x);
    GrowPlans(ceiling, u, i, SizesOf(u.tuples[i].members));
  }

  // t sits in v as it did in w, if it is anyone but m.
  lemma TidySeated(want: seq<Member>, w: Walk, v: Walk, m: Member, done: set<Bytes>)
    requires DistinctTenants(want) && m in want && Tidy(w, want, done)
    requires m.tenant in v.tenants ==> SeatedAs(v, m.tenant, Identity(m.params), m.params)
    requires forall t :: t in v.tenants && t != m.tenant ==> t in w.tenants && v.tenants[t] == w.tenants[t]
    requires forall t, i, p :: SeatedAs(w, t, i, p) && t != m.tenant ==> SeatedAs(v, t, i, p)
    ensures forall x :: x in want && x.tenant in v.tenants ==> InPlace(v, x)
    ensures forall x :: x in want && x.tenant in v.tenants && x.tenant in done + {m.tenant} ==> SeatedAs(v, x.tenant, Identity(x.params), x.params)
  {
    forall x | x in want && x.tenant in v.tenants
      ensures InPlace(v, x) && (x.tenant in done + {m.tenant} ==> SeatedAs(v, x.tenant, Identity(x.params), x.params))
    {
      if x.tenant == m.tenant {
        assert x == m;
      } else {
        assert InPlace(w, x);
      }
    }
  }

  // A tuple without t on it that has only those of done and t has only those of done.
  lemma WithoutIt(members: map<Bytes, Params>, t: Bytes, done: set<Bytes>)
    requires t !in members && members.Keys <= done + {t}
    ensures members.Keys <= done
  {}

  lemma TidyResettled(want: seq<Member>, w: Walk, v: Walk, m: Member, done: set<Bytes>)
    requires WellFormed(w) && DistinctTenants(want) && m in want && Tidy(w, want, done) && InPlace(w, m) && Resettled(w, v, m)
    ensures Tidy(v, want, done + {m.tenant})
  {
    var i := Identity(m.params);
    TidySeated(want, w, v, m, done);
    forall x | x in v.tuples && v.tuples[x].members != map[] && v.tuples[x].members.Keys <= done + {m.tenant} ensures Modest(v, want, x) {
      if x == i {
        UpdatedAsk(w, want, m, done, v.tuples[i].members);
      } else {
        assert MembersNamed(w);
        WithoutIt(w.tuples[x].members, m.tenant, done);
        assert Modest(w, want, x);
      }
    }
  }

  lemma TidyJoined(want: seq<Member>, w: Walk, v: Walk, m: Member, done: set<Bytes>)
    requires WellFormed(w) && DistinctTenants(want) && m in want && Tidy(w, want, done) && m.tenant !in w.tenants && Joined(w, v, m)
    ensures Tidy(v, want, done + {m.tenant})
  {
    var i := Identity(m.params);
    OffEverySeat(w, m.tenant);
    JoinedSeats(w, v, m);
    TidySeated(want, w, v, m, done);
    forall x | x in v.tuples && v.tuples[x].members != map[] && v.tuples[x].members.Keys <= done + {m.tenant} ensures Modest(v, want, x) {
      if x == i {
        JoinedModest(want, w, v, m, done);
      } else {
        WithoutIt(w.tuples[x].members, m.tenant, done);
        assert Modest(w, want, x);
      }
    }
  }

  lemma JoinedSeats(w: Walk, v: Walk, m: Member)
    requires WellFormed(w) && m.tenant !in w.tenants && Joined(w, v, m)
    ensures SeatedAs(v, m.tenant, Identity(m.params), m.params)
    ensures forall t, i, p :: SeatedAs(w, t, i, p) ==> SeatedAs(v, t, i, p)
  {}

  lemma JoinedModest(want: seq<Member>, w: Walk, v: Walk, m: Member, done: set<Bytes>)
    requires WellFormed(w) && m in want && Tidy(w, want, done) && m.tenant !in w.tenants && Joined(w, v, m)
    requires v.tuples[Identity(m.params)].members.Keys <= done + {m.tenant}
    ensures Modest(v, want, Identity(m.params))
  {
    var i := Identity(m.params);
    AskedIsMaximum(want, i);
    OffEverySeat(w, m.tenant);
    if i in w.tuples && w.tuples[i].members != map[] {
      assert w.tuples[i].members.Keys <= v.tuples[i].members.Keys;
      WithoutIt(w.tuples[i].members, m.tenant, done);
      assert Modest(w, want, i);
    }
  }

  lemma TidyPlaced(ceiling: int, w: Walk, asks: map<Ident, Sizes>, want: seq<Member>, m: Member, opens: bool, done: set<Bytes>)
    requires WellFormed(w) && DistinctTenants(want) && m in want && Tidy(w, want, done)
    ensures Tidy(Place(ceiling, w, asks, m, opens).w, want, done + {m.tenant})
  {
    var v := Place(ceiling, w, asks, m, opens).w;
    if InPlace(w, m) {
      InPlaceResettles(ceiling, w, asks, m, opens);
      TidyResettled(want, w, v, m, done);
    } else if Place(ceiling, w, asks, m, opens).ok {
      NewcomerJoins(ceiling, w, asks, m, opens);
      TidyJoined(want, w, v, m, done);
    } else {
      RefusedMoveRestores(ceiling, w, asks, m, opens);
      TidyRecorded(want, w, v, m, done);
    }
  }

  lemma TidyRecorded(want: seq<Member>, w: Walk, v: Walk, m: Member, done: set<Bytes>)
    requires WellFormed(w) && Tidy(w, want, done) && m.tenant !in w.tenants && v == w.(errs := v.errs)
    ensures Tidy(v, want, done + {m.tenant})
  {
    OffEverySeat(w, m.tenant);
    forall x | x in v.tuples && v.tuples[x].members != map[] && v.tuples[x].members.Keys <= done + {m.tenant} ensures Modest(v, want, x) {
      WithoutIt(w.tuples[x].members, m.tenant, done);
      assert Modest(w, want, x);
    }
    forall y | y in want && y.tenant in v.tenants ensures InPlace(v, y) && (y.tenant in done ==> SeatedAs(v, y.tenant, Identity(y.params), y.params)) {
      assert InPlace(w, y);
    }
  }

  lemma WantedNext(want: seq<Member>)
    requires want != []
    ensures var n := |want| - 1; Wanted(want) == Wanted(want[..n]) + {want[n].tenant}
  {
    var n := |want| - 1;
    assert want == want[..n] + [want[n]];
  }

  lemma {:induction false} TidyPass(ceiling: int, w: Walk, asks: map<Ident, Sizes>, want: seq<Member>, part: seq<Member>, opens: nat -> bool, done: set<Bytes>)
    requires WellFormed(w) && DistinctTenants(want) && Tidy(w, want, done) && forall m :: m in part ==> m in want
    ensures Tidy(Pass(ceiling, w, asks, part, opens).w, want, done + Wanted(part))
  {
    if part == [] {
      assert done + Wanted(part) == done;
    } else {
      var n := |part| - 1;
      assert part[n] in part && forall m :: m in part[..n] ==> m in part;
      TidyPass(ceiling, w, asks, want, part[..n], opens, done);
      TidyPlaced(ceiling, Pass(ceiling, w, asks, part[..n], opens).w, asks, want, part[n], opens(n), done + Wanted(part[..n]));
      WantedNext(part);
      assert done + Wanted(part) == done + Wanted(part[..n]) + {part[n].tenant};
    }
  }

  // Once everybody has been tried, no plan is above what is asked.
  lemma TidyModest(w: Walk, want: seq<Member>, i: Ident)
    requires WellFormed(w) && Tidy(w, want, Wanted(want)) && i in w.tuples && w.tuples[i].members != map[]
    ensures Modest(w, want, i)
  {
    forall t | t in w.tuples[i].members ensures t in Wanted(want) {
      assert MembersNamed(w) && t in w.tenants;
    }
  }

  lemma OthersAsk(w: Walk, want: seq<Member>, i: Ident, t: Bytes)
    requires WellFormed(w) && Tidy(w, want, Wanted(want)) && i in w.tuples && i in Asked(want)
    ensures SizesOf(w.tuples[i].members - {t}).open <= Asked(want)[i]
  {
    var rest := w.tuples[i].members - {t};
    if rest == map[] {
      assert SizesOf(rest).open == 0;
    } else {
      forall x | x in rest ensures exists m :: m in want && m.tenant == x && m.params == rest[x] && Identity(m.params) == i {
        assert MembersNamed(w) && x in w.tuples[i].members && x in w.tenants;
        TidySeats(w, want, Wanted(want), i, x);
      }
      MembersAsk(want, rest, i);
    }
  }

  lemma TidyNeeds(w: Walk, want: seq<Member>, m: Member)
    requires WellFormed(w) && Tidy(w, want, Wanted(want)) && m in want
    ensures var i := Identity(m.params); i in Asked(want) && Needs(w, m) <= Asked(want)[i]
  {
    var i := Identity(m.params);
    AskedIsMaximum(want, i);
    if i in w.tuples {
      OthersAsk(w, want, i, m.tenant);
    }
  }

  // And so everybody fits, if what is asked in all does.
  lemma TidyAccepts(ceiling: int, w: Walk, asks: map<Ident, Sizes>, want: seq<Member>, m: Member)
    requires WellFormed(w) && Tidy(w, want, Wanted(want)) && m in want && (ceiling <= 0 || Sum(Asked(want)) <= ceiling)
    ensures Place(ceiling, w, asks, m, true).ok
  {
    var i := Identity(m.params);
    var beside := PlannedWithout(w, m.tenant, i);
    PlacedExactlyWhen(ceiling, w, asks, m, true);
    TidyNeeds(w, want, m);
    forall x | x in beside ensures x != i && x in Asked(want) && beside[x] <= Asked(want)[x] {
      assert w.tuples[x].members != map[];
      TidyModest(w, want, x);
    }
    AskFits(beside, Asked(want), i, Needs(w, m));
  }

  lemma {:induction false} TidyRefusesNobody(ceiling: int, w: Walk, asks: map<Ident, Sizes>, want: seq<Member>, part: seq<Member>, opens: nat -> bool)
    requires WellFormed(w) && DistinctTenants(want) && Tidy(w, want, Wanted(want)) && (forall m :: m in part ==> m in want)
    requires (ceiling <= 0 || Sum(Asked(want)) <= ceiling) && forall n :: opens(n)
    ensures Pass(ceiling, w, asks, part, opens).refused == []
  {
    if part != [] {
      var n := |part| - 1;
      assert part[n] in part && forall m :: m in part[..n] ==> m in part;
      TidyRefusesNobody(ceiling, w, asks, want, part[..n], opens);
      TidyPass(ceiling, w, asks, want, part[..n], opens, Wanted(want));
      assert Wanted(want) + Wanted(part[..n]) == Wanted(want);
      TidyAccepts(ceiling, Pass(ceiling, w, asks, part[..n], opens).w, asks, want, part[n]);
    }
  }

  // None of the wanted that is on a pool names another.
  ghost predicate NobodyMoves(cur: Snapshot, want: seq<Member>) {
    forall m :: m in want && m.tenant in cur.tenants ==> cur.tenants[m.tenant] == Identity(m.params)
  }

  lemma LeftTidy(cur: Snapshot, want: seq<Member>)
    requires Consistent(cur) && DistinctTenants(want) && NobodyMoves(cur, want)
    ensures Tidy(Left(cur, want), want, {})
  {
    var w := Left(cur, want);
    forall t | t in w.tenants ensures t in Wanted(want) {
      LeftStands(cur, want, t);
    }
    forall m | m in want && m.tenant in w.tenants ensures InPlace(w, m) {
      LeftStands(cur, want, m.tenant);
    }
  }

  // Whatever the pools were at, a reconcile in which nobody changes tuple and everything dials
  // succeeds if what is asked in all fits the ceiling: whoever the first pass refuses because a
  // pool has yet to shrink, the second places.
  lemma StayersFit(ceiling: int, cur: Snapshot, want: seq<Member>, dials: Dials)
    requires Consistent(cur) && DistinctTenants(want) && NobodyMoves(cur, want) && EverythingDials(dials)
    requires ceiling <= 0 || Sum(Asked(want)) <= ceiling
    ensures Succeeds(ceiling, cur, want, dials)
  {
    var p, asks := FirstPass(ceiling, cur, want, dials), AsksOf(want);
    LeftTidy(cur, want);
    TidyPass(ceiling, Left(cur, want), asks, want, want, dials.first, {});
    assert {} + Wanted(want) == Wanted(want);
    RefusedAmong(ceiling, Left(cur, want), asks, want, dials.first);
    ClearedTidy(p.w, want);
    TidyRefusesNobody(ceiling, Cleared(p.w), asks, want, p.refused, dials.second);
    PlanReports(ceiling, cur, want, dials);
    AllResized(Plan(ceiling, cur, want, dials), dials.resize);
  }

  lemma ClearedTidy(w: Walk, want: seq<Member>)
    requires WellFormed(w) && Tidy(w, want, Wanted(want))
    ensures Tidy(Cleared(w), want, Wanted(want))
  {
    var v := Cleared(w);
    forall i | i in v.tuples && v.tuples[i].members != map[] && v.tuples[i].members.Keys <= Wanted(want) ensures Modest(v, want, i) {
      assert Modest(w, want, i);
    }
    forall m | m in want && m.tenant in v.tenants ensures InPlace(v, m) && SeatedAs(v, m.tenant, Identity(m.params), m.params) {
      assert InPlace(w, m) && SeatedAs(w, m.tenant, Identity(m.params), m.params);
    }
  }

  // From pools within the ceiling that is exact.
  lemma StayersFitExactly(ceiling: int, cur: Snapshot, want: seq<Member>, dials: Dials)
    requires Consistent(cur) && DistinctTenants(want) && NobodyMoves(cur, want) && EverythingDials(dials)
    requires ceiling > 0 && PoolSum(cur) <= ceiling
    ensures Succeeds(ceiling, cur, want, dials) <==> Sum(Asked(want)) <= ceiling
  {
    if Succeeds(ceiling, cur, want, dials) {
      SuccessSumsTheAsks(ceiling, cur, want, dials);
      RoundUnder(ceiling, cur, want, dials);
    } else if Sum(Asked(want)) <= ceiling {
      StayersFit(ceiling, cur, want, dials);
    }
  }
}
