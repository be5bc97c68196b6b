/** internal/chconn/chconn.go: the walk that plans a reconcile of the ClickHouse pools. Opening a
    pool (its certificate files and the driver) is an answer given to the walk. */
module PoolWalk {
  import opened Common
  import opened Bytes

  datatype Sizes = Sizes(open: nat, idle: nat)

  function Max(a: Sizes, b: Sizes): Sizes {
    Sizes(Larger(a.open, b.open), Larger(a.idle, b.idle))
  }

  datatype Ident = Ident(addr: Bytes, database: Bytes, username: Bytes, password: Bytes, tls: Bytes)

  // own is the tenant's own wiring, which no pool depends on.
  datatype Params = Params(addr: Bytes, database: Bytes, username: Bytes, password: Bytes, tls: Bytes, open: nat, idle: nat, own: Bytes)

  function Identity(p: Params): Ident {
    Ident(p.addr, p.database, p.username, p.password, p.tls)
  }

  function Ask(p: Params): Sizes {
    Sizes(p.open, p.idle)
  }

  datatype Member = Member(tenant: Bytes, params: Params)

  // pool is the size the tuple's Manager is open at.
  datatype Tuple = Tuple(pool: Sizes, members: map<Bytes, Params>)

  datatype Refusal =
    | NotOpened(tenant: Bytes, ident: Ident)
    | NotGrown(tenant: Bytes, ident: Ident)
    | NotResized(ident: Ident)
    | KeepsPrevious(why: Refusal, prev: Ident)
    | ResizeFailed(ident: Ident)

  datatype Walk = Walk(tuples: map<Ident, Tuple>, tenants: map<Bytes, Ident>, planned: map<Ident, Sizes>,
                       created: set<Ident>, marked: set<Ident>, errs: seq<Refusal>)

  /******* Sums and maxima over maps *******/

  ghost function Sum(m: map<Ident, nat>): nat
    decreases |m|
  {
    if m == map[] then 0 else
      var k :| k in m;
      m[k] + Sum(m - {k})
  }

  lemma {:induction false} SumPick(m: map<Ident, nat>, k: Ident)
    requires k in m
    ensures Sum(m) == m[k] + Sum(m - {k})
    decreases |m|
  {
    var p :| p in m && Sum(m) == m[p] + Sum(m - {p});
    if p != k {
      SumPick(m - {p}, k);
      SumPick(m - {k}, p);
      assert m - {p} - {k} == m - {k} - {p};
    }
  }

  lemma SumWith(m: map<Ident, nat>, k: Ident, v: nat)
    ensures Sum(m[k := v]) == v + Sum(m - {k})
  {
    SumPick(m[k := v], k);
    assert m[k := v] - {k} == m - {k};
  }

  lemma {:induction false} SumMonotone(a: map<Ident, nat>, b: map<Ident, nat>)
    requires a.Keys <= b.Keys && forall k :: k in a ==> a[k] <= b[k]
    ensures Sum(a) <= Sum(b)
    decreases |a|
  {
    if a != map[] {
      var k :| k in a;
      SumPick(a, k);
      SumPick(b, k);
      SumMonotone(a - {k}, b - {k});
    }
  }

  // tuple.sizes
  ghost function SizesOf(members: map<Bytes, Params>): Sizes
    decreases |members|
  {
    if members == map[] then Sizes(0, 0) else
      var t :| t in members;
      Max(Ask(members[t]), SizesOf(members - {t}))
  }

  lemma {:induction false} SizesOfPick(members: map<Bytes, Params>, t: Bytes)
    requires t in members
    ensures SizesOf(members) == Max(Ask(members[t]), SizesOf(members - {t}))
    decreases |members|
  {
    var p :| p in members && SizesOf(members) == Max(Ask(members[p]), SizesOf(members - {p}));
    if p != t {
      SizesOfPick(members - {p}, t);
      SizesOfPick(members - {t}, p);
      assert members - {p} - {t} == members - {t} - {p};
      ghost var r := SizesOf(members - {t} - {p});
      assert SizesOf(members) == Max(Ask(members[p]), Max(Ask(members[t]), r));
      assert SizesOf(members - {t}) == Max(Ask(members[p]), r);
    }
  }

  lemma SizesOfWith(members: map<Bytes, Params>, t: Bytes, p: Params)
    ensures SizesOf(members[t := p]) == Max(Ask(p), SizesOf(members - {t}))
  {
    SizesOfPick(members[t := p], t);
    assert members[t := p] - {t} == members - {t};
  }

  // The members' asks together: each fits, and each dimension is some member's own.
  lemma {:induction false} SizesOfIsMaximum(members: map<Bytes, Params>)
    ensures forall t :: t in members ==> members[t].open <= SizesOf(members).open && members[t].idle <= SizesOf(members).idle
    ensures SizesOf(members).open == 0 || exists t :: t in members && members[t].open == SizesOf(members).open
    ensures SizesOf(members).idle == 0 || exists t :: t in members && members[t].idle == SizesOf(members).idle
    decreases |members|
  {
    if members != map[] {
      var p :| p in members;
      var rest := members - {p};
      SizesOfPick(members, p);
      SizesOfIsMaximum(rest);
      if members[p].open < SizesOf(rest).open {
        var t :| t in rest && rest[t].open == SizesOf(rest).open;
        assert t in members && members[t].open == SizesOf(members).open;
      }
      if members[p].idle < SizesOf(rest).idle {
        var t :| t in rest && rest[t].idle == SizesOf(rest).idle;
        assert t in members && members[t].idle == SizesOf(members).idle;
      }
      assert members[p].open >= SizesOf(rest).open ==> members[p].open == SizesOf(members).open;
      assert members[p].idle >= SizesOf(rest).idle ==> members[p].idle == SizesOf(members).idle;
      forall t | t in members ensures members[t].open <= SizesOf(members).open && members[t].idle <= SizesOf(members).idle {
        assert t == p || t in rest;
      }
    }
  }

  /******* The walk's steps *******/

  // What counts against the ceiling: the plan of each tuple that has members.
  ghost function Counted(w: Walk): map<Ident, nat> {
    map i | i in w.tuples && i in w.planned && w.tuples[i].members != map[] :: w.planned[i].open
  }

  ghost predicate Fits(ceiling: int, w: Walk, i: Ident, s: Sizes) {
    ceiling <= 0 || s.open + Sum(Counted(w) - {i}) <= ceiling
  }

  ghost predicate Under(ceiling: int, w: Walk) {
    ceiling <= 0 || Sum(Counted(w)) <= ceiling
  }

  // The tenants' map and the tuples' members are inverses, each member's Params name its tuple,
  // and a tuple everybody has left is planned at nothing.
  ghost predicate WellFormed(w: Walk) {
    w.planned.Keys == w.tuples.Keys && TenantsSeated(w) && MembersNamed(w) && EmptiedPlanned(w)
  }

  ghost predicate TenantsSeated(w: Walk) {
    forall t :: t in w.tenants ==> w.tenants[t] in w.tuples && t in w.tuples[w.tenants[t]].members
  }

  ghost predicate MembersNamed(w: Walk) {
    forall i, t :: i in w.tuples && t in w.tuples[i].members ==>
      t in w.tenants && w.tenants[t] == i && Identity(w.tuples[i].members[t]) == i
  }

  ghost predicate EmptiedPlanned(w: Walk) {
    forall i :: i in w.tuples && i in w.planned && w.tuples[i].members == map[] ==> w.planned[i] == Sizes(0, 0)
  }

  // One tuple's seats, plan and tenants, replaced together.
  ghost function Reseat(w: Walk, i: Ident, tuple: Tuple, plan: Sizes, tenants: map<Bytes, Ident>): Walk {
    w.(tuples := w.tuples[i := tuple], planned := w.planned[i := plan], tenants := tenants)
  }

  // leave, where rest is what the remaining members ask for.
  ghost function LeaveTo(w: Walk, t: Bytes, rest: Sizes): Walk
    requires WellFormed(w)
  {
    if t !in w.tenants then w else
      var i := w.tenants[t];
      Reseat(w, i, w.tuples[i].(members := w.tuples[i].members - {t}),
             if rest.open <= w.planned[i].open then rest else w.planned[i], w.tenants - {t})
  }

  ghost function AskWithout(w: Walk, t: Bytes): Sizes
    requires WellFormed(w)
  {
    if t !in w.tenants then Sizes(0, 0) else SizesOf(w.tuples[w.tenants[t]].members - {t})
  }

  ghost function Leave(w: Walk, t: Bytes): Walk
    requires WellFormed(w)
  {
    LeaveTo(w, t, AskWithout(w, t))
  }

  function AskFor(asks: map<Ident, Sizes>, i: Ident): Sizes {
    if i in asks then asks[i] else Sizes(0, 0)
  }

  function PlanAt(w: Walk, i: Ident): Sizes {
    if i in w.planned then w.planned[i] else Sizes(0, 0)
  }

  // Whether a tuple takes m: a new one must open, and whatever adds connections must fit.
  ghost predicate Admits(ceiling: int, w: Walk, m: Member, opens: bool) {
    var i := Identity(m.params);
    var s := Max(PlanAt(w, i), Ask(m.params));
    if i !in w.tuples then Fits(ceiling, w, i, s) && opens
    else s.open <= PlanAt(w, i).open || Fits(ceiling, w, i, s)
  }

  // A new pool opens at the largest ask among the tenants naming it, if that fits.
  ghost function OpensAt(ceiling: int, w: Walk, asks: map<Ident, Sizes>, m: Member): Sizes {
    var i := Identity(m.params);
    if Fits(ceiling, w, i, AskFor(asks, i)) then AskFor(asks, i) else Ask(m.params)
  }

  // join, once admitted.
  ghost function Join(w: Walk, m: Member, pool: Sizes): Walk {
    var i := Identity(m.params);
    var tuple := if i in w.tuples then w.tuples[i] else Tuple(pool, map[]);
    Reseat(w, i, tuple.(members := tuple.members[m.tenant := m.params]), Max(PlanAt(w, i), Ask(m.params)), w.tenants[m.tenant := i])
      .(created := if i in w.tuples then w.created else w.created + {i})
  }

  function WhyNot(w: Walk, m: Member): Refusal {
    if Identity(m.params) in w.tuples then NotGrown(m.tenant, Identity(m.params)) else NotOpened(m.tenant, Identity(m.params))
  }

  datatype Placed = Placed(w: Walk, ok: bool)

  ghost function Grow(ceiling: int, w: Walk, i: Ident, s: Sizes): Placed
    requires i in w.tuples
  {
    if s.open <= PlanAt(w, i).open || Fits(ceiling, w, i, s) then Placed(w.(planned := w.planned[i := s]), true)
    else if i in w.marked then Placed(w, false)
    else Placed(w.(marked := w.marked + {i}, errs := w.errs + [NotResized(i)]), false)
  }

  // Undoing a refused move, field by field.
  ghost function PutBack(w: Walk, t: Bytes, i: Ident, p: Params, plan: Sizes): Walk
    requires i in w.tuples
  {
    Reseat(w, i, w.tuples[i].(members := w.tuples[i].members[t := p]), plan, w.tenants[t := i])
  }

  ghost predicate InPlace(w: Walk, m: Member) {
    m.tenant in w.tenants && w.tenants[m.tenant] == Identity(m.params)
  }

  // place, of a tenant already on the tuple it names.
  ghost function Update(w: Walk, m: Member): Walk
    requires WellFormed(w) && InPlace(w, m)
  {
    var i := Identity(m.params);
    w.(tuples := w.tuples[i := w.tuples[i].(members := w.tuples[i].members[m.tenant := m.params])])
  }

  ghost function Resettle(ceiling: int, w: Walk, m: Member): Placed
    requires WellFormed(w) && InPlace(w, m)
  {
    var v := Update(w, m);
    Grow(ceiling, v, Identity(m.params), SizesOf(v.tuples[Identity(m.params)].members))
  }

  // place, of a tenant that is elsewhere or nowhere.
  ghost function Refuse(w: Walk, left: Walk, m: Member): Walk
    requires WellFormed(w) && w.tuples.Keys <= left.tuples.Keys
  {
    if m.tenant in w.tenants then
      var prev := w.tenants[m.tenant];
      var back := PutBack(left, m.tenant, prev, w.tuples[prev].members[m.tenant], w.planned[prev]);
      back.(errs := w.errs + [KeepsPrevious(WhyNot(left, m), prev)])
    else left.(errs := w.errs + [WhyNot(left, m)])
  }

  ghost function Move(ceiling: int, w: Walk, asks: map<Ident, Sizes>, m: Member, opens: bool): Placed
    requires WellFormed(w)
  {
    var left := Leave(w, m.tenant);
    if Admits(ceiling, left, m, opens) then Placed(Join(left, m, OpensAt(ceiling, left, asks, m)), true)
    else Placed(Refuse(w, left, m), false)
  }

  ghost function Place(ceiling: int, w: Walk, asks: map<Ident, Sizes>, m: Member, opens: bool): Placed
    requires WellFormed(w)
  {
    if InPlace(w, m) then Resettle(ceiling, w, m) else Move(ceiling, w, asks, m, opens)
  }

  /******* The maps stay inverses *******/

  // tenants moves nobody between other tuples than i.
  ghost predicate ElsewhereAlike(a: map<Bytes, Ident>, b: map<Bytes, Ident>, i: Ident) {
    && (forall x :: x in b && b[x] != i ==> x in a && a[x] == b[x])
    && (forall x :: x in a && a[x] != i ==> x in b && a[x] == b[x])
  }

  ghost predicate SeatsListed(members: map<Bytes, Params>, tenants: map<Bytes, Ident>, i: Ident) {
    && (forall x :: x in members ==> x in tenants && tenants[x] == i && Identity(members[x]) == i)
    && (forall x :: x in tenants && tenants[x] == i ==> x in members)
  }

  lemma ReseatTenants(w: Walk, i: Ident, tuple: Tuple, plan: Sizes, tenants: map<Bytes, Ident>)
    requires TenantsSeated(w) && SeatsListed(tuple.members, tenants, i) && ElsewhereAlike(w.tenants, tenants, i)
    ensures TenantsSeated(Reseat(w, i, tuple, plan, tenants))
  {}

  lemma ReseatMembers(w: Walk, i: Ident, tuple: Tuple, plan: Sizes, tenants: map<Bytes, Ident>)
    requires MembersNamed(w) && SeatsListed(tuple.members, tenants, i) && ElsewhereAlike(w.tenants, tenants, i)
    ensures MembersNamed(Reseat(w, i, tuple, plan, tenants))
  {}

  lemma ReseatEmptied(w: Walk, i: Ident, tuple: Tuple, plan: Sizes, tenants: map<Bytes, Ident>)
    requires EmptiedPlanned(w) && (tuple.members == map[] ==> plan == Sizes(0, 0))
    ensures EmptiedPlanned(Reseat(w, i, tuple, plan, tenants))
  {}

  lemma ReseatKeeps(w: Walk, i: Ident, tuple: Tuple, plan: Sizes, tenants: map<Bytes, Ident>)
    requires WellFormed(w) && SeatsListed(tuple.members, tenants, i) && ElsewhereAlike(w.tenants, tenants, i)
    requires tuple.members == map[] ==> plan == Sizes(0, 0)
    ensures WellFormed(Reseat(w, i, tuple, plan, tenants))
  {
    ReseatTenants(w, i, tuple, plan, tenants);
    ReseatMembers(w, i, tuple, plan, tenants);
    ReseatEmptied(w, i, tuple, plan, tenants);
  }

  lemma LeaveKeeps(w: Walk, t: Bytes, rest: Sizes)
    requires WellFormed(w)
    requires t in w.tenants && w.tuples[w.tenants[t]].members - {t} == map[] ==> rest == Sizes(0, 0)
    ensures WellFormed(LeaveTo(w, t, rest))
    ensures t !in LeaveTo(w, t, rest).tenants && LeaveTo(w, t, rest).tuples.Keys == w.tuples.Keys
  {
    if t in w.tenants {
      var i := w.tenants[t];
      ReseatKeeps(w, i, w.tuples[i].(members := w.tuples[i].members - {t}),
                  if rest.open <= w.planned[i].open then rest else w.planned[i], w.tenants - {t});
    }
  }

  lemma EmptyAsksNothing(w: Walk, t: Bytes)
    requires WellFormed(w)
    ensures t in w.tenants && w.tuples[w.tenants[t]].members - {t} == map[] ==> AskWithout(w, t) == Sizes(0, 0)
  {
    assert SizesOf(map[]) == Sizes(0, 0);
  }

  lemma JoinKeeps(w: Walk, m: Member, pool: Sizes)
    requires WellFormed(w) && m.tenant !in w.tenants
    ensures WellFormed(Join(w, m, pool))
  {
    var i := Identity(m.params);
    var tuple := if i in w.tuples then w.tuples[i] else Tuple(pool, map[]);
    var seated := tuple.(members := tuple.members[m.tenant := m.params]);
    assert m.tenant in seated.members;
    ReseatKeeps(w, i, seated, Max(PlanAt(w, i), Ask(m.params)), w.tenants[m.tenant := i]);
  }

  lemma UpdateKeeps(w: Walk, m: Member)
    requires WellFormed(w) && InPlace(w, m)
    ensures WellFormed(Update(w, m))
  {
    var i := Identity(m.params);
    var seated := w.tuples[i].(members := w.tuples[i].members[m.tenant := m.params]);
    assert m.tenant in seated.members;
    ReseatKeeps(w, i, seated, w.planned[i], w.tenants);
    assert Reseat(w, i, seated, w.planned[i], w.tenants).planned == w.planned;
  }

  lemma GrowKeeps(ceiling: int, w: Walk, i: Ident, s: Sizes)
    requires WellFormed(w) && i in w.tuples && w.tuples[i].members != map[]
    ensures WellFormed(Grow(ceiling, w, i, s).w)
  {}

  lemma PutBackUndoes(w: Walk, t: Bytes, rest: Sizes)
    requires WellFormed(w) && t in w.tenants
    ensures w.tenants[t] in LeaveTo(w, t, rest).tuples
    ensures PutBack(LeaveTo(w, t, rest), t, w.tenants[t], w.tuples[w.tenants[t]].members[t], w.planned[w.tenants[t]]) == w
  {
    var i := w.tenants[t];
    var tuple := w.tuples[i];
    assert (tuple.members - {t})[t := tuple.members[t]] == tuple.members;
    assert (w.tenants - {t})[t := i] == w.tenants;
    var v := PutBack(LeaveTo(w, t, rest), t, i, tuple.members[t], w.planned[i]);
    assert v.tuples == w.tuples;
    assert v.planned == w.planned;
  }

  // A refused move or admission leaves everything as it was, but for one more error.
  lemma RefusedMoveRestores(ceiling: int, w: Walk, asks: map<Ident, Sizes>, m: Member, opens: bool)
    requires WellFormed(w) && !InPlace(w, m) && !Place(ceiling, w, asks, m, opens).ok
    ensures exists e :: Place(ceiling, w, asks, m, opens).w == w.(errs := w.errs + [e])
  {
    RefuseRestores(w, m, AskWithout(w, m.tenant));
  }

  lemma RefuseRestores(w: Walk, m: Member, rest: Sizes)
    requires WellFormed(w)
    ensures w.tuples.Keys == LeaveTo(w, m.tenant, rest).tuples.Keys
    ensures exists e :: Refuse(w, LeaveTo(w, m.tenant, rest), m) == w.(errs := w.errs + [e])
  {
    var left := LeaveTo(w, m.tenant, rest);
    var e := if m.tenant in w.tenants then KeepsPrevious(WhyNot(left, m), w.tenants[m.tenant]) else WhyNot(left, m);
    if m.tenant in w.tenants {
      PutBackUndoes(w, m.tenant, rest);
    }
    assert Refuse(w, left, m) == w.(errs := w.errs + [e]);
  }

  // A refused resize in place takes the new Params and keeps the plan.
  lemma RefusedResizeKeepsPlan(ceiling: int, w: Walk, asks: map<Ident, Sizes>, m: Member, opens: bool)
    requires WellFormed(w) && InPlace(w, m) && !Place(ceiling, w, asks, m, opens).ok
    ensures var v := Place(ceiling, w, asks, m, opens).w; v == Update(w, m).(marked := v.marked, errs := v.errs)
  {}

  lemma PlaceKeeps(ceiling: int, w: Walk, asks: map<Ident, Sizes>, m: Member, opens: bool)
    requires WellFormed(w)
    ensures WellFormed(Place(ceiling, w, asks, m, opens).w)
  {
    if InPlace(w, m) {
      UpdateKeeps(w, m);
      var v := Update(w, m);
      assert m.tenant in v.tuples[Identity(m.params)].members;
      GrowKeeps(ceiling, v, Identity(m.params), SizesOf(v.tuples[Identity(m.params)].members));
    } else {
      if Place(ceiling, w, asks, m, opens).ok {
        EmptyAsksNothing(w, m.tenant);
        MoveKeeps(w, m, AskWithout(w, m.tenant), OpensAt(ceiling, Leave(w, m.tenant), asks, m));
      } else {
        RefusedMoveRestores(ceiling, w, asks, m, opens);
        var e :| Place(ceiling, w, asks, m, opens).w == w.(errs := w.errs + [e]);
        RecordedKeeps(w, Place(ceiling, w, asks, m, opens).w, e);
      }
    }
  }

  lemma MoveKeeps(w: Walk, m: Member, rest: Sizes, pool: Sizes)
    requires WellFormed(w)
    requires m.tenant in w.tenants && w.tuples[w.tenants[m.tenant]].members - {m.tenant} == map[] ==> rest == Sizes(0, 0)
    ensures WellFormed(Join(LeaveTo(w, m.tenant, rest), m, pool))
  {
    LeaveKeeps(w, m.tenant, rest);
    JoinKeeps(LeaveTo(w, m.tenant, rest), m, pool);
  }

  lemma RecordedKeeps(w: Walk, v: Walk, e: Refusal)
    requires WellFormed(w) && v == w.(errs := w.errs + [e])
    ensures WellFormed(v)
  {}

  /******* The plan stays within the ceiling *******/

  lemma CountedAt(w: Walk, i: Ident, tuple: Tuple, plan: Sizes, tenants: map<Bytes, Ident>)
    ensures Counted(Reseat(w, i, tuple, plan, tenants)) == if tuple.members == map[] then Counted(w) - {i} else Counted(w)[i := plan.open]
  {}

  // Setting one tuple's plan to s, where s fits, is within the ceiling.
  lemma FitsUnder(ceiling: int, w: Walk, v: Walk, i: Ident, s: Sizes)
    requires Fits(ceiling, w, i, s) && Counted(v) == Counted(w)[i := s.open]
    ensures Under(ceiling, v)
  {
    SumWith(Counted(w), i, s.open);
  }

  lemma UnderFits(ceiling: int, w: Walk, i: Ident, s: Sizes)
    requires Under(ceiling, w)
    requires s.open == 0 || (i in Counted(w) && s.open <= Counted(w)[i])
    ensures Fits(ceiling, w, i, s)
  {
    if i in Counted(w) {
      SumPick(Counted(w), i);
    } else {
      assert Counted(w) - {i} == Counted(w);
    }
  }

  lemma LeaveUnder(ceiling: int, w: Walk, t: Bytes, rest: Sizes)
    requires WellFormed(w) && Under(ceiling, w)
    ensures Under(ceiling, LeaveTo(w, t, rest))
  {
    if t in w.tenants {
      SumMonotone(Counted(LeaveTo(w, t, rest)), Counted(w));
    }
  }

  lemma JoinUnder(ceiling: int, w: Walk, m: Member, opens: bool, pool: Sizes)
    requires WellFormed(w) && Under(ceiling, w) && Admits(ceiling, w, m, opens)
    ensures Under(ceiling, Join(w, m, pool))
  {
    var i := Identity(m.params);
    var s := Max(PlanAt(w, i), Ask(m.params));
    if i in w.tuples && s.open <= PlanAt(w, i).open {
      UnderFits(ceiling, w, i, s);
    }
    JoinCounted(w, m, pool);
    FitsUnder(ceiling, w, Join(w, m, pool), i, s);
  }

  lemma JoinCounted(w: Walk, m: Member, pool: Sizes)
    ensures Counted(Join(w, m, pool)) == Counted(w)[Identity(m.params) := Max(PlanAt(w, Identity(m.params)), Ask(m.params)).open]
  {
    var i := Identity(m.params);
    var v := Join(w, m, pool);
    assert m.tenant in v.tuples[i].members;
    CountedAt(w, i, v.tuples[i], v.planned[i], v.tenants);
    assert Counted(v) == Counted(Reseat(w, i, v.tuples[i], v.planned[i], v.tenants));
  }

  lemma GrowUnder(ceiling: int, w: Walk, i: Ident, s: Sizes)
    requires WellFormed(w) && i in w.tuples && w.tuples[i].members != map[] && Under(ceiling, w)
    ensures Under(ceiling, Grow(ceiling, w, i, s).w)
  {
    var v := Grow(ceiling, w, i, s).w;
    if !Grow(ceiling, w, i, s).ok {
      assert Counted(v) == Counted(w);
    } else {
      CountedPlan(w, i, s);
      if s.open <= PlanAt(w, i).open {
        UnderFits(ceiling, w, i, s);
      }
      FitsUnder(ceiling, w, v, i, s);
    }
  }

  lemma CountedPlan(w: Walk, i: Ident, s: Sizes)
    requires i in w.planned && i in w.tuples && w.tuples[i].members != map[]
    ensures i in Counted(w) && Counted(w)[i] == PlanAt(w, i).open
    ensures Counted(w.(planned := w.planned[i := s])) == Counted(w)[i := s.open]
  {}

  // The plan is within the ceiling after every placement, whatever its outcome.
  lemma PlaceUnder(ceiling: int, w: Walk, asks: map<Ident, Sizes>, m: Member, opens: bool)
    requires WellFormed(w) && Under(ceiling, w)
    ensures Under(ceiling, Place(ceiling, w, asks, m, opens).w)
  {
    if InPlace(w, m) {
      ResettleUnder(ceiling, w, m);
    } else if Place(ceiling, w, asks, m, opens).ok {
      EmptyAsksNothing(w, m.tenant);
      var left := Leave(w, m.tenant);
      LeaveKeeps(w, m.tenant, AskWithout(w, m.tenant));
      LeaveUnder(ceiling, w, m.tenant, AskWithout(w, m.tenant));
      JoinUnder(ceiling, left, m, opens, OpensAt(ceiling, left, asks, m));
    } else {
      RefusedMoveRestores(ceiling, w, asks, m, opens);
      assert Counted(Place(ceiling, w, asks, m, opens).w) == Counted(w);
    }
  }

  lemma ResettleUnder(ceiling: int, w: Walk, m: Member)
    requires WellFormed(w) && Under(ceiling, w) && InPlace(w, m)
    ensures Under(ceiling, Resettle(ceiling, w, m).w)
  {
    var i, v := Identity(m.params), Update(w, m);
    UpdateKeeps(w, m);
    assert m.tenant in v.tuples[i].members;
    assert Counted(v) == Counted(w);
    GrowUnder(ceiling, v, i, SizesOf(v.tuples[i].members));
  }

  /******* Who is where *******/

  ghost predicate SeatedAs(w: Walk, t: Bytes, i: Ident, p: Params) {
    t in w.tenants && w.tenants[t] == i && i in w.tuples && t in w.tuples[i].members && w.tuples[i].members[t] == p
  }

  lemma MoveSpares(w: Walk, m: Member, rest: Sizes, pool: Sizes, t: Bytes, i: Ident, p: Params)
    requires WellFormed(w) && SeatedAs(w, t, i, p) && t != m.tenant
    ensures SeatedAs(Join(LeaveTo(w, m.tenant, rest), m, pool), t, i, p)
  {
    var left := LeaveTo(w, m.tenant, rest);
    assert SeatedAs(left, t, i, p);
  }

  // Nobody but m moves or changes Params, and m itself keeps a pool if it had one.
  lemma PlaceSpares(ceiling: int, w: Walk, asks: map<Ident, Sizes>, m: Member, opens: bool, t: Bytes, i: Ident, p: Params)
    requires WellFormed(w) && SeatedAs(w, t, i, p)
    ensures var v := Place(ceiling, w, asks, m, opens).w;
      t in v.tenants && (t != m.tenant ==> SeatedAs(v, t, i, p))
  {
    if !InPlace(w, m) {
      if !Place(ceiling, w, asks, m, opens).ok {
        RefusedMoveRestores(ceiling, w, asks, m, opens);
      } else if t != m.tenant {
        MoveSpares(w, m, AskWithout(w, m.tenant), OpensAt(ceiling, Leave(w, m.tenant), asks, m), t, i, p);
      }
    }
  }

  lemma PlacedIsNamed(ceiling: int, w: Walk, asks: map<Ident, Sizes>, m: Member, opens: bool)
    requires WellFormed(w) && Place(ceiling, w, asks, m, opens).ok
    ensures SeatedAs(Place(ceiling, w, asks, m, opens).w, m.tenant, Identity(m.params), m.params)
  {}

  // A refusal is always on record: a growth refused before is on record already.
  lemma RefusalIsReported(ceiling: int, w: Walk, asks: map<Ident, Sizes>, m: Member, opens: bool)
    requires WellFormed(w) && (w.marked != {} ==> w.errs != [])
    ensures var p := Place(ceiling, w, asks, m, opens);
      && (p.w.marked != {} ==> p.w.errs != [])
      && (p.ok ==> p.w.errs == w.errs) && (!p.ok ==> p.w.errs != []) && (w.errs != [] ==> p.w.errs != [])
  {
    if !InPlace(w, m) && !Place(ceiling, w, asks, m, opens).ok {
      RefusedMoveRestores(ceiling, w, asks, m, opens);
    }
  }

  /******* Plans are exact where everybody has been placed *******/

  // done is what has been placed: each on the tuple it named, as it asked, fitting its plan; and
  // a tuple with no other members is planned at exactly their largest ask.
  ghost predicate Fitted(w: Walk, t: Bytes, p: Params) {
    SeatedAs(w, t, Identity(p), p) && p.open <= PlanAt(w, Identity(p)).open
  }

  ghost predicate Exact(w: Walk, done: map<Bytes, Params>) {
    && (forall t :: t in done ==> Fitted(w, t, done[t]))
    && (forall i :: i in w.tuples && w.tuples[i].members.Keys <= done.Keys ==> PlanAt(w, i) == SizesOf(w.tuples[i].members))
  }

  lemma LeaveExact(w: Walk, t: Bytes, done: map<Bytes, Params>)
    requires WellFormed(w) && Exact(w, done) && t !in done
    ensures Exact(Leave(w, t), done)
  {
    if t in w.tenants {
      var v := Leave(w, t);
      forall x | x in done ensures Fitted(v, x, done[x]) {
        LeaveFitted(w, t, x, done[x]);
      }
      forall i | i in v.tuples && v.tuples[i].members.Keys <= done.Keys ensures Settled(v, i) {
        LeaveSettles(w, t, done, i);
      }
    }
  }

  lemma LeaveFitted(w: Walk, t: Bytes, x: Bytes, p: Params)
    requires WellFormed(w) && t in w.tenants && t != x && Fitted(w, x, p)
    ensures Fitted(Leave(w, t), x, p)
  {
    var rest := w.tuples[w.tenants[t]].members - {t};
    SizesOfIsMaximum(rest);
    if w.tenants[x] == w.tenants[t] {
      assert x in rest && rest[x] == p;
    }
  }

  // If the rest have all been placed they fit the plan, and so it shrinks to them.
  lemma LeaveSettles(w: Walk, t: Bytes, done: map<Bytes, Params>, i: Ident)
    requires WellFormed(w) && Exact(w, done) && t in w.tenants && t !in done
    requires i in Leave(w, t).tuples && Leave(w, t).tuples[i].members.Keys <= done.Keys
    ensures Settled(Leave(w, t), i)
  {
    if i == w.tenants[t] {
      var rest := w.tuples[i].members - {t};
      SizesOfIsMaximum(rest);
      forall x | x in rest ensures rest[x].open <= w.planned[i].open {
        assert x in done.Keys && Fitted(w, x, done[x]);
      }
    } else {
      assert Settled(w, i);
    }
  }

  ghost predicate Settled(w: Walk, i: Ident) {
    i in w.tuples ==> PlanAt(w, i) == SizesOf(w.tuples[i].members)
  }

  lemma JoinSettled(w: Walk, m: Member, pool: Sizes)
    requires WellFormed(w) && m.tenant !in w.tenants && Settled(w, Identity(m.params))
    ensures Settled(Join(w, m, pool), Identity(m.params))
  {
    var i := Identity(m.params);
    var before := if i in w.tuples then w.tuples[i].members else map[];
    assert before - {m.tenant} == before;
    assert SizesOf(map[]) == Sizes(0, 0);
    SizesOfWith(before, m.tenant, m.params);
    assert Join(w, m, pool).tuples[i].members == before[m.tenant := m.params];
  }

  lemma JoinSettles(w: Walk, m: Member, pool: Sizes, done: map<Bytes, Params>, x: Ident)
    requires WellFormed(w) && Exact(w, done) && m.tenant !in w.tenants && m.tenant !in done
    requires var v := Join(w, m, pool); x in v.tuples && v.tuples[x].members.Keys <= done[m.tenant := m.params].Keys
    ensures Settled(Join(w, m, pool), x)
  {
    if x == Identity(m.params) {
      SeatsWithin(if x in w.tuples then w.tuples[x].members else map[], m, done);
      JoinSettled(w, m, pool);
    } else {
      assert w.tuples[x].members.Keys <= done.Keys;
      assert Settled(w, x);
    }
  }

  lemma JoinExact(w: Walk, m: Member, pool: Sizes, done: map<Bytes, Params>)
    requires WellFormed(w) && Exact(w, done) && m.tenant !in w.tenants && m.tenant !in done
    ensures Exact(Join(w, m, pool), done[m.tenant := m.params])
  {
    var v, i := Join(w, m, pool), Identity(m.params);
    var more := done[m.tenant := m.params];
    forall x | x in v.tuples && v.tuples[x].members.Keys <= more.Keys ensures Settled(v, x) {
      JoinSettles(w, m, pool, done, x);
    }
    forall x | x in more ensures Fitted(v, x, more[x]) {
      JoinFitted(w, m, pool, done, x);
    }
  }

  lemma SeatsWithin(before: map<Bytes, Params>, m: Member, done: map<Bytes, Params>)
    requires m.tenant !in before && before[m.tenant := m.params].Keys <= done[m.tenant := m.params].Keys
    ensures before.Keys <= done.Keys
  {
    forall t | t in before ensures t in done {
      assert t in before[m.tenant := m.params].Keys;
    }
  }

  lemma JoinFitted(w: Walk, m: Member, pool: Sizes, done: map<Bytes, Params>, t: Bytes)
    requires WellFormed(w) && m.tenant !in w.tenants && (t in done ==> Fitted(w, t, done[t])) && (t in done || t == m.tenant)
    ensures Fitted(Join(w, m, pool), t, done[m.tenant := m.params][t])
  {}

  lemma ResettleExact(ceiling: int, w: Walk, m: Member, done: map<Bytes, Params>)
    requires WellFormed(w) && Exact(w, done) && m.tenant !in done && InPlace(w, m)
    ensures var p := Resettle(ceiling, w, m); Exact(p.w, if p.ok then done[m.tenant := m.params] else done)
  {
    var i := Identity(m.params);
    var members := Update(w, m).tuples[i].members;
    GrowExact(ceiling, w, m, SizesOf(members), done);
  }

  lemma GrowExact(ceiling: int, w: Walk, m: Member, s: Sizes, done: map<Bytes, Params>)
    requires WellFormed(w) && Exact(w, done) && m.tenant !in done && InPlace(w, m)
    requires s == SizesOf(Update(w, m).tuples[Identity(m.params)].members)
    ensures var p := Grow(ceiling, Update(w, m), Identity(m.params), s); Exact(p.w, if p.ok then done[m.tenant := m.params] else done)
  {
    var p := Grow(ceiling, Update(w, m), Identity(m.params), s);
    var now := if p.ok then done[m.tenant := m.params] else done;
    forall t | t in now ensures Fitted(p.w, t, now[t]) {
      if t == m.tenant {
        GrownFits(ceiling, w, m, s);
      } else {
        GrowFitted(ceiling, w, m, s, t, done[t]);
      }
    }
    forall x | x in p.w.tuples && p.w.tuples[x].members.Keys <= now.Keys ensures Settled(p.w, x) {
      GrowSettled(ceiling, w, m, s, done, x);
    }
  }

  lemma SeatsElsewhere(w: Walk, m: Member, done: map<Bytes, Params>, x: Ident)
    requires MembersNamed(w) && InPlace(w, m) && x in w.tuples && x != Identity(m.params)
    requires w.tuples[x].members.Keys <= done[m.tenant := m.params].Keys
    ensures w.tuples[x].members.Keys <= done.Keys
  {
    forall t | t in w.tuples[x].members.Keys ensures t in done.Keys {
      assert w.tenants[t] == x && t in done[m.tenant := m.params].Keys;
    }
  }

  lemma GrowSettled(ceiling: int, w: Walk, m: Member, s: Sizes, done: map<Bytes, Params>, x: Ident)
    requires WellFormed(w) && Exact(w, done) && m.tenant !in done && InPlace(w, m)
    requires s == SizesOf(Update(w, m).tuples[Identity(m.params)].members)
    requires var p := Grow(ceiling, Update(w, m), Identity(m.params), s);
      x in p.w.tuples && p.w.tuples[x].members.Keys <= (if p.ok then done[m.tenant := m.params] else done).Keys
    ensures Settled(Grow(ceiling, Update(w, m), Identity(m.params), s).w, x)
  {
    if x == Identity(m.params) {
      assert m.tenant in Update(w, m).tuples[x].members;
    } else {
      SeatsElsewhere(w, m, done, x);
      assert Settled(w, x);
    }
  }

  lemma GrownFits(ceiling: int, w: Walk, m: Member, s: Sizes)
    requires WellFormed(w) && InPlace(w, m) && s == SizesOf(Update(w, m).tuples[Identity(m.params)].members)
    requires Grow(ceiling, Update(w, m), Identity(m.params), s).ok
    ensures Fitted(Grow(ceiling, Update(w, m), Identity(m.params), s).w, m.tenant, m.params)
  {
    var members := Update(w, m).tuples[Identity(m.params)].members;
    assert m.tenant in members && members[m.tenant] == m.params;
    SizesOfIsMaximum(members);
  }

  lemma GrowFitted(ceiling: int, w: Walk, m: Member, s: Sizes, t: Bytes, p: Params)
    requires WellFormed(w) && InPlace(w, m) && t != m.tenant && Fitted(w, t, p)
    requires s == SizesOf(Update(w, m).tuples[Identity(m.params)].members)
    ensures Fitted(Grow(ceiling, Update(w, m), Identity(m.params), s).w, t, p)
  {
    SizesOfIsMaximum(Update(w, m).tuples[Identity(m.params)].members);
    assert SeatedAs(Update(w, m), t, Identity(p), p);
  }

  lemma PlaceExact(ceiling: int, w: Walk, asks: map<Ident, Sizes>, m: Member, opens: bool, done: map<Bytes, Params>)
    requires WellFormed(w) && Exact(w, done) && m.tenant !in done
    ensures var p := Place(ceiling, w, asks, m, opens); Exact(p.w, if p.ok then done[m.tenant := m.params] else done)
  {
    if InPlace(w, m) {
      ResettleExact(ceiling, w, m, done);
    } else if Place(ceiling, w, asks, m, opens).ok {
      var left := Leave(w, m.tenant);
      EmptyAsksNothing(w, m.tenant);
      LeaveKeeps(w, m.tenant, AskWithout(w, m.tenant));
      LeaveExact(w, m.tenant, done);
      JoinExact(left, m, OpensAt(ceiling, left, asks, m), done);
    } else {
      RefusedMoveRestores(ceiling, w, asks, m, opens);
      RecordedExact(w, Place(ceiling, w, asks, m, opens).w, done);
    }
  }

  lemma RecordedExact(w: Walk, v: Walk, done: map<Bytes, Params>)
    requires Exact(w, done) && v == w.(errs := v.errs)
    ensures Exact(v, done)
  {
    forall t | t in done ensures Fitted(v, t, done[t]) {
      assert Fitted(w, t, done[t]);
    }
  }
}
