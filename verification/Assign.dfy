/** internal/ingest/assign.go: units to membership slots, by rendezvous hashing capped at an even
    share. The score, FNV through shard.Mix, is any function of unit and slot. */
module Assign {
  import opened Common
  import opened Bytes

  type Score = (Bytes, nat) -> nat

  // u ranks slot a above slot b.
  predicate Above(score: Score, u: Bytes, a: nat, b: nat) {
    score(u, a) > score(u, b) || (score(u, a) == score(u, b) && a < b)
  }

  predicate Top(score: Score, u: Bytes, s: nat, slots: set<nat>) {
    s in slots && forall t :: t in slots && t != s ==> Above(score, u, s, t)
  }

  lemma {:induction false} TopExists(score: Score, u: Bytes, slots: set<nat>)
    requires slots != {}
    ensures exists s :: Top(score, u, s, slots)
  {
    var x :| x in slots;
    if slots == {x} {
      assert Top(score, u, x, slots);
    } else {
      TopExists(score, u, slots - {x});
      var y :| Top(score, u, y, slots - {x});
      var z := if Above(score, u, x, y) then x else y;
      forall t | t in slots && t != z ensures Above(score, u, z, t) {
        assert t == x || t in slots - {x};
      }
      assert Top(score, u, z, slots);
    }
  }

  ghost function TopOf(score: Score, u: Bytes, slots: set<nat>): (s: nat)
    requires slots != {}
    ensures Top(score, u, s, slots)
  {
    TopExists(score, u, slots);
    var s :| Top(score, u, s, slots);
    s
  }

  // The highest score any of the slots has for u.
  ghost function BestScore(score: Score, u: Bytes, slots: set<nat>): nat
    requires slots != {}
  {
    score(u, TopOf(score, u, slots))
  }

  lemma BestScoreIs(score: Score, u: Bytes, slots: set<nat>)
    requires slots != {}
    ensures forall s :: s in slots ==> score(u, s) <= BestScore(score, u, slots)
    ensures exists s :: s in slots && score(u, s) == BestScore(score, u, slots)
  {
    assert Top(score, u, TopOf(score, u, slots), slots);
  }

  // Units are taken best score first, then by name.
  ghost predicate Earlier(score: Score, slots: set<nat>, u: Bytes, v: Bytes)
    requires slots != {}
  {
    var a, b := BestScore(score, u, slots), BestScore(score, v, slots);
    a > b || (a == b && Less(u, v))
  }

  ghost predicate First(score: Score, slots: set<nat>, u: Bytes, left: set<Bytes>)
    requires slots != {}
  {
    u in left && forall v :: v in left && v != u ==> Earlier(score, slots, u, v)
  }

  lemma {:induction false} FirstExists(score: Score, slots: set<nat>, left: set<Bytes>)
    requires slots != {} && left != {}
    ensures exists u :: First(score, slots, u, left)
  {
    var x :| x in left;
    if left == {x} {
      assert First(score, slots, x, left);
    } else {
      FirstExists(score, slots, left - {x});
      var y :| First(score, slots, y, left - {x});
      LessTotal(x, y);
      var z := if Earlier(score, slots, x, y) then x else y;
      forall v | v in left && v != z ensures Earlier(score, slots, z, v) {
        if v != x && v != y {
          assert v in left - {x};
          assert Earlier(score, slots, y, v);
          if z == x && Less(x, y) && Less(y, v) {
            LessTransitive(x, y, v);
          }
        }
      }
      assert First(score, slots, z, left);
    }
  }

  lemma FirstUnique(score: Score, slots: set<nat>, left: set<Bytes>, u: Bytes, v: Bytes)
    requires slots != {} && First(score, slots, u, left) && First(score, slots, v, left)
    ensures u == v
  {
    LessTotal(u, v);
  }

  /******* The rule, on sets: no order of the inputs to depend on *******/

  ghost function Owned(out: map<Bytes, nat>, s: nat): set<Bytes> {
    set u | u in out && out[u] == s
  }

  ghost function Room(out: map<Bytes, nat>, slots: set<nat>, limit: nat): set<nat> {
    set s | s in slots && |Owned(out, s)| < limit
  }

  ghost function Assigned(score: Score, units: set<Bytes>, slots: set<nat>, limit: nat, out: map<Bytes, nat>): map<Bytes, nat>
    requires slots != {}
    decreases units - out.Keys
  {
    var left := units - out.Keys;
    if left == {} || Room(out, slots, limit) == {} then out else
      FirstExists(score, slots, left);
      var u :| First(score, slots, u, left);
      Assigned(score, units, slots, limit, out[u := TopOf(score, u, Room(out, slots, limit))])
  }

  // ⌈units/slots⌉
  function Cap(units: nat, slots: nat): nat
    requires slots > 0
  {
    (units + slots - 1) / slots
  }

  ghost function Assignment(score: Score, units: set<Bytes>, slots: set<nat>): map<Bytes, nat> {
    if slots == {} then map[] else Assigned(score, units, slots, Cap(|units|, |slots|), map[])
  }

  /******* What the rule guarantees *******/

  // No slot is over the limit, and every slot a unit would rather have is full of units that are
  // taken before it.
  ghost predicate Fair(score: Score, slots: set<nat>, limit: nat, out: map<Bytes, nat>)
    requires slots != {}
  {
    && (forall u :: u in out ==> out[u] in slots)
    && (forall s :: s in slots ==> |Owned(out, s)| <= limit)
    && (forall u, s :: u in out && s in slots && (score(u, s) > score(u, out[u]) || (score(u, s) == score(u, out[u]) && s < out[u])) ==>
         FullBefore(score, slots, limit, out, u, s))
  }

  ghost predicate FullBefore(score: Score, slots: set<nat>, limit: nat, out: map<Bytes, nat>, u: Bytes, s: nat)
    requires slots != {}
  {
    && |Owned(out, s)| == limit
    && forall v :: v in Owned(out, s) ==>
         var a, b := BestScore(score, v, slots), BestScore(score, u, slots); a > b || (a == b && Less(v, u))
  }

  // What has been assigned came before what is left.
  ghost predicate InOrderSoFar(score: Score, slots: set<nat>, units: set<Bytes>, out: map<Bytes, nat>)
    requires slots != {}
  {
    forall v, w :: v in out && w in units - out.Keys ==> Earlier(score, slots, v, w)
  }

  lemma OwnedWith(out: map<Bytes, nat>, u: Bytes, s: nat, t: nat)
    requires u !in out
    ensures |Owned(out[u := s], t)| == |Owned(out, t)| + if t == s then 1 else 0
  {
    if t == s {
      assert Owned(out[u := s], t) == Owned(out, t) + {u};
    } else {
      assert Owned(out[u := s], t) == Owned(out, t);
    }
  }

  // A slot that v ranks above the one it has is full, of units taken before v, when u has been
  // given the best slot with room.
  lemma StepFull(score: Score, slots: set<nat>, limit: nat, out: map<Bytes, nat>, u: Bytes, s: nat, v: Bytes, t: nat)
    requires slots != {} && Fair(score, slots, limit, out) && u !in out && Top(score, u, s, Room(out, slots, limit))
    requires (forall w :: w in out ==> Earlier(score, slots, w, u)) && v in out[u := s] && t in slots && Above(score, v, t, out[u := s][v])
    ensures FullBefore(score, slots, limit, out[u := s], v, t)
  {
    if v == u {
      assert t !in Room(out, slots, limit);
    } else {
      assert FullBefore(score, slots, limit, out, v, t);
    }
    OwnedElsewhere(out, u, s, t);
  }

  lemma OwnedElsewhere(out: map<Bytes, nat>, u: Bytes, s: nat, t: nat)
    requires u !in out
    ensures t != s ==> Owned(out[u := s], t) == Owned(out, t)
  {}

  lemma StepFair(score: Score, slots: set<nat>, limit: nat, out: map<Bytes, nat>, u: Bytes)
    requires slots != {} && Fair(score, slots, limit, out) && u !in out && Room(out, slots, limit) != {}
    requires forall v :: v in out ==> Earlier(score, slots, v, u)
    ensures Fair(score, slots, limit, out[u := TopOf(score, u, Room(out, slots, limit))])
  {
    var s := TopOf(score, u, Room(out, slots, limit));
    var more := out[u := s];
    forall t | t in slots ensures |Owned(more, t)| <= limit {
      OwnedWith(out, u, s, t);
    }
    forall v, t | v in more && t in slots && Above(score, v, t, more[v]) ensures FullBefore(score, slots, limit, more, v, t) {
      StepFull(score, slots, limit, out, u, s, v, t);
    }
  }

  ghost function OwnedAmong(out: map<Bytes, nat>, slots: set<nat>): set<Bytes> {
    set u | u in out && out[u] in slots
  }

  lemma OwnedApart(out: map<Bytes, nat>, slots: set<nat>, s: nat)
    requires s in slots
    ensures |OwnedAmong(out, slots)| == |OwnedAmong(out, slots - {s})| + |Owned(out, s)|
  {
    assert OwnedAmong(out, slots) == OwnedAmong(out, slots - {s}) + Owned(out, s);
    assert OwnedAmong(out, slots - {s}) !! Owned(out, s);
  }

  // Slots that are all full hold limit units each.
  lemma {:induction false} FullSlots(out: map<Bytes, nat>, slots: set<nat>, limit: nat)
    requires forall s :: s in slots ==> |Owned(out, s)| >= limit
    ensures |OwnedAmong(out, slots)| >= |slots| * limit
    decreases slots
  {
    if slots != {} {
      var s :| s in slots;
      FullSlots(out, slots - {s}, limit);
      OwnedApart(out, slots, s);
      OneMore(|slots - {s}|, limit);
    }
  }

  lemma OneMore(n: nat, limit: nat)
    ensures (n + 1) * limit == n * limit + limit
  {}

  lemma CapSuffices(units: nat, slots: nat)
    requires slots > 0
    ensures slots * Cap(units, slots) >= units
  {
    var q, r := (units + slots - 1) / slots, (units + slots - 1) % slots;
    assert units + slots - 1 == q * slots + r && r < slots;
  }

  lemma RoomRemains(units: set<Bytes>, slots: set<nat>, limit: nat, out: map<Bytes, nat>)
    requires out.Keys < units && |slots| * limit >= |units| && forall u :: u in out ==> out[u] in slots
    ensures Room(out, slots, limit) != {}
  {
    if Room(out, slots, limit) == {} {
      forall s | s in slots ensures |Owned(out, s)| >= limit {
        assert s !in Room(out, slots, limit);
      }
      FullSlots(out, slots, limit);
      assert OwnedAmong(out, slots) == out.Keys;
      SmallerIsFewer(out.Keys, units);
    }
  }

  lemma SmallerIsFewer<T>(a: set<T>, b: set<T>)
    requires a < b
    ensures |a| < |b|
  {
    assert b == a + (b - a);
    assert b - a != {};
  }

  lemma {:induction false} AssignedFair(score: Score, units: set<Bytes>, slots: set<nat>, limit: nat, out: map<Bytes, nat>)
    requires slots != {} && Fair(score, slots, limit, out) && InOrderSoFar(score, slots, units, out)
    requires out.Keys <= units && |slots| * limit >= |units|
    ensures var r := Assigned(score, units, slots, limit, out); Fair(score, slots, limit, r) && r.Keys == units
    decreases units - out.Keys
  {
    var left := units - out.Keys;
    if left != {} {
      RoomRemains(units, slots, limit, out);
      FirstExists(score, slots, left);
      var u :| First(score, slots, u, left);
      OneStep(score, units, slots, limit, out, u);
      StepFair(score, slots, limit, out, u);
      AssignedFair(score, units, slots, limit, out[u := TopOf(score, u, Room(out, slots, limit))]);
    }
  }

  // Every unit has a slot, no slot has more than the even share, rounded up, and any slot a unit
  // ranks above its own has exactly that, all of them taken before it.
  lemma AssignmentIsFair(score: Score, units: set<Bytes>, slots: set<nat>)
    requires slots != {}
    ensures var r := Assignment(score, units, slots); r.Keys == units && Fair(score, slots, (|units| + |slots| - 1) / |slots|, r)
  {
    CapSuffices(|units|, |slots|);
    var none: map<Bytes, nat> := map[];
    forall s ensures Owned(none, s) == {} {}
    AssignedFair(score, units, slots, Cap(|units|, |slots|), none);
  }

  lemma FewerOwned(a: map<Bytes, nat>, b: map<Bytes, nat>, s: nat, u: Bytes)
    requires u in a && a[u] == s && u !in Owned(b, s) && Owned(b, s) <= Owned(a, s)
    ensures |Owned(b, s)| < |Owned(a, s)|
  {
    SmallerIsFewer(Owned(b, s), Owned(a, s));
  }

  // Where two fair assignments first differ, neither can have given the unit a better slot.
  lemma FirstDifference(score: Score, slots: set<nat>, limit: nat, a: map<Bytes, nat>, b: map<Bytes, nat>, u: Bytes)
    requires slots != {} && Fair(score, slots, limit, a) && Fair(score, slots, limit, b) && a.Keys == b.Keys && u in a
    requires forall v :: v in a && Earlier(score, slots, v, u) ==> a[v] == b[v]
    ensures !Above(score, u, a[u], b[u])
  {
    if Above(score, u, a[u], b[u]) {
      assert FullBefore(score, slots, limit, b, u, a[u]);
      FewerOwned(a, b, a[u], u);
    }
  }

  lemma EarlierTotal(score: Score, slots: set<nat>, u: Bytes, v: Bytes)
    requires slots != {}
    ensures !(Earlier(score, slots, u, v) && Earlier(score, slots, v, u))
  {
    LessTotal(u, v);
  }

  // And that decides it: any assignment that is fair is this one.
  lemma OnlyOneIsFair(score: Score, units: set<Bytes>, slots: set<nat>, r: map<Bytes, nat>)
    requires slots != {}
    ensures r == Assignment(score, units, slots) <==> r.Keys == units && Fair(score, slots, (|units| + |slots| - 1) / |slots|, r)
  {
    AssignmentIsFair(score, units, slots);
    if r.Keys == units && Fair(score, slots, (|units| + |slots| - 1) / |slots|, r) {
      SameWhenFair(score, slots, (|units| + |slots| - 1) / |slots|, r, Assignment(score, units, slots));
    }
  }

  lemma NoFirstDifference(score: Score, slots: set<nat>, limit: nat, a: map<Bytes, nat>, b: map<Bytes, nat>, u: Bytes)
    requires slots != {} && Fair(score, slots, limit, a) && Fair(score, slots, limit, b) && a.Keys == b.Keys && u in a
    requires forall v :: v in a && Earlier(score, slots, v, u) ==> a[v] == b[v]
    ensures a[u] == b[u]
  {
    FirstDifference(score, slots, limit, a, b, u);
    FirstDifference(score, slots, limit, b, a, u);
  }

  lemma BeforeFirst(score: Score, slots: set<nat>, a: map<Bytes, nat>, b: map<Bytes, nat>, apart: set<Bytes>, u: Bytes)
    requires slots != {} && a.Keys == b.Keys && First(score, slots, u, apart) && forall v :: v in a && v !in apart ==> a[v] == b[v]
    ensures forall v :: v in a && Earlier(score, slots, v, u) ==> a[v] == b[v]
  {
    forall v | v in a && Earlier(score, slots, v, u) ensures a[v] == b[v] {
      EarlierTotal(score, slots, u, v);
    }
  }

  lemma SameWhenFair(score: Score, slots: set<nat>, limit: nat, a: map<Bytes, nat>, b: map<Bytes, nat>)
    requires slots != {} && Fair(score, slots, limit, a) && Fair(score, slots, limit, b) && a.Keys == b.Keys
    ensures a == b
  {
    var apart := set u | u in a && a[u] != b[u];
    if apart != {} {
      FirstExists(score, slots, apart);
      var u :| First(score, slots, u, apart);
      BeforeFirst(score, slots, a, b, apart, u);
      NoFirstDifference(score, slots, limit, a, b, u);
    }
    forall u | u in a ensures a[u] == b[u] {
      assert u !in apart;
    }
  }

  /******* assignUnits *******/

  // Slots best first, as u ranks them.
  ghost predicate Ranking(score: Score, u: Bytes, order: seq<nat>) {
    forall i, j :: 0 <= i < j < |order| ==> Above(score, u, order[i], order[j])
  }

  ghost predicate Distinct<T(!new)>(s: seq<T>) {
    forall i, j :: 0 <= i < j < |s| ==> s[i] != s[j]
  }

  // slices.SortFunc by descending score, then slot.
  method RankSlots(score: Score, u: Bytes, slots: seq<nat>) returns (order: seq<nat>)
    requires Distinct(slots)
    ensures Ranking(score, u, order) && forall s :: s in order <==> s in slots
  {
    order := [];
    for n := 0 to |slots|
      invariant Ranking(score, u, order) && forall s :: s in order <==> s in slots[..n]
    {
      var x, k := slots[n], 0;
      while k < |order| && Above(score, u, order[k], x)
        invariant k <= |order| && forall j :: 0 <= j < k ==> Above(score, u, order[j], x)
      {
        k := k + 1;
      }
      assert x !in order;
      assert forall j :: k <= j < |order| ==> Above(score, u, x, order[j]);
      assert slots[..n + 1] == slots[..n] + [x];
      Insertion(score, u, order, x, k);
      order := order[..k] + [x] + order[k..];
    }
    assert slots[..|slots|] == slots;
  }

  lemma Insertion(score: Score, u: Bytes, order: seq<nat>, x: nat, k: nat)
    requires Ranking(score, u, order) && k <= |order|
    requires forall j :: 0 <= j < k ==> Above(score, u, order[j], x)
    requires forall j :: k <= j < |order| ==> Above(score, u, x, order[j])
    ensures Ranking(score, u, order[..k] + [x] + order[k..])
    ensures forall s :: s in order[..k] + [x] + order[k..] <==> s in order || s == x
  {
    assert order == order[..k] + order[k..];
  }

  lemma HeadIsTop(score: Score, u: Bytes, order: seq<nat>, slots: set<nat>)
    requires slots != {} && Ranking(score, u, order) && forall s :: s in order <==> s in slots
    ensures order != [] && order[0] == TopOf(score, u, slots)
  {
    var s := TopOf(score, u, slots);
    assert s in order;
    var i :| 0 <= i < |order| && order[i] == s;
    assert order[0] in order;
  }

  // A unit, its slots best first, and its best score.
  datatype Ranked = Ranked(unit: Bytes, order: seq<nat>, best: nat)

  ghost predicate RankedRight(score: Score, slots: set<nat>, r: Ranked)
    requires slots != {}
  {
    && Ranking(score, r.unit, r.order) && (forall s :: s in r.order <==> s in slots)
    && r.best == score(r.unit, TopOf(score, r.unit, slots))
  }

  predicate Sooner(a: Ranked, b: Ranked) {
    a.best > b.best || (a.best == b.best && Less(a.unit, b.unit))
  }

  ghost predicate InTurn(rs: seq<Ranked>) {
    forall i, j :: 0 <= i < j < |rs| ==> Sooner(rs[i], rs[j])
  }

  lemma SoonerTransitive(a: Ranked, b: Ranked, c: Ranked)
    requires Sooner(a, b) && Sooner(b, c)
    ensures Sooner(a, c)
  {
    if Less(a.unit, b.unit) && Less(b.unit, c.unit) {
      LessTransitive(a.unit, b.unit, c.unit);
    }
  }

  ghost predicate HasUnit(rs: seq<Ranked>, u: Bytes) {
    exists r :: r in rs && r.unit == u
  }

  method InsertRanked(rs: seq<Ranked>, r: Ranked) returns (more: seq<Ranked>)
    requires InTurn(rs) && forall i :: 0 <= i < |rs| ==> rs[i].unit != r.unit
    ensures InTurn(more) && forall x :: x in more <==> x in rs || x == r
  {
    var k := 0;
    while k < |rs| && Sooner(rs[k], r)
      invariant k <= |rs| && forall j :: 0 <= j < k ==> Sooner(rs[j], r)
    {
      k := k + 1;
    }
    forall j | k <= j < |rs| ensures Sooner(r, rs[j]) {
      LessTotal(rs[k].unit, r.unit);
      if j > k {
        SoonerTransitive(r, rs[k], rs[j]);
      }
    }
    more := rs[..k] + [r] + rs[k..];
    assert rs == rs[..k] + rs[k..];
  }

  method RankUnits(score: Score, units: seq<Bytes>, slots: seq<nat>) returns (rs: seq<Ranked>)
    requires slots != [] && Distinct(units) && Distinct(slots)
    ensures Elements(slots) != {} && InTurn(rs)
    ensures forall r :: r in rs ==> RankedRight(score, Elements(slots), r)
    ensures forall u :: u in units <==> HasUnit(rs, u)
  {
    assert slots[0] in Elements(slots);
    rs := [];
    for n := 0 to |units|
      invariant InTurn(rs) && forall r :: r in rs ==> RankedRight(score, Elements(slots), r)
      invariant forall r :: r in rs ==> r.unit in units[..n]
      invariant forall u :: u in units[..n] ==> HasUnit(rs, u)
    {
      var u := units[n];
      var order := RankSlots(score, u, slots);
      HeadIsTop(score, u, order, Elements(slots));
      var r := Ranked(u, order, score(u, order[0]));
      assert u !in units[..n];
      ghost var was := rs;
      rs := InsertRanked(rs, r);
      assert units[..n + 1] == units[..n] + [u];
      forall v | v in units[..n + 1] ensures HasUnit(rs, v) {
        if v in units[..n] {
          var x :| x in was && x.unit == v;
          assert x in rs;
        } else {
          assert r in rs && r.unit == v;
        }
      }
    }
    assert units[..|units|] == units;
  }

  // The first slot of order with room is the best of those that have any.
  method PickSlot(score: Score, u: Bytes, order: seq<nat>, load: map<nat, nat>, limit: nat, ghost room: set<nat>) returns (s: Option<nat>)
    requires Ranking(score, u, order)
    requires forall x :: x in order ==> x in load
    requires forall x :: x in room <==> x in order && load[x] < limit
    ensures s == if room == {} then None else Some(TopOf(score, u, room))
  {
    for k := 0 to |order|
      invariant forall j :: 0 <= j < k ==> order[j] !in room
    {
      assert order[k] in order;
      if load[order[k]] < limit {
        FirstIsTop(score, u, order, k, room);
        return Some(order[k]);
      }
    }
    assert room == {};
    return None;
  }

  lemma FirstIsTop(score: Score, u: Bytes, order: seq<nat>, k: nat, room: set<nat>)
    requires Ranking(score, u, order) && k < |order| && order[k] in room && forall x :: x in room ==> x in order
    requires forall j :: 0 <= j < k ==> order[j] !in room
    ensures order[k] == TopOf(score, u, room)
  {
    var top := TopOf(score, u, room);
    var at :| 0 <= at < |order| && order[at] == top;
    assert at >= k;
  }

  lemma FirstLeft(score: Score, units: set<Bytes>, slots: set<nat>, rs: seq<Ranked>, n: nat, out: map<Bytes, nat>)
    requires slots != {} && InTurn(rs) && n < |rs| && forall r :: r in rs ==> RankedRight(score, slots, r)
    requires forall u :: u in units <==> HasUnit(rs, u)
    requires forall u :: u in out <==> HasUnit(rs[..n], u)
    ensures First(score, slots, rs[n].unit, units - out.Keys)
  {
    var u := rs[n].unit;
    assert rs[n] in rs;
    LessTotal(u, u);
    forall i | 0 <= i < n ensures rs[i].unit != u {
      assert Sooner(rs[i], rs[n]) && rs[i] in rs;
    }
    forall i | 0 <= i < n ensures rs[i].unit in out {
      assert rs[..n][i] == rs[i];
    }
    forall v | v in units - out.Keys && v != u ensures Earlier(score, slots, u, v) {
      var r :| r in rs && r.unit == v;
      var i :| 0 <= i < |rs| && rs[i] == r;
      assert Sooner(rs[n], rs[i]) && RankedRight(score, slots, rs[i]) && RankedRight(score, slots, rs[n]);
    }
  }

  // One unit of the loop is one step of the rule.
  lemma OneStep(score: Score, units: set<Bytes>, slots: set<nat>, limit: nat, out: map<Bytes, nat>, u: Bytes)
    requires slots != {} && First(score, slots, u, units - out.Keys) && Room(out, slots, limit) != {}
    ensures Assigned(score, units, slots, limit, out) == Assigned(score, units, slots, limit, out[u := TopOf(score, u, Room(out, slots, limit))])
  {
    var left := units - out.Keys;
    var v :| First(score, slots, v, left)
      && Assigned(score, units, slots, limit, out) == Assigned(score, units, slots, limit, out[v := TopOf(score, v, Room(out, slots, limit))]);
    FirstUnique(score, slots, left, u, v);
  }

  lemma DistinctSize<T(!new)>(s: seq<T>)
    requires Distinct(s)
    ensures |Elements(s)| == |s|
  {
    if s != [] {
      var rest := s[..|s| - 1];
      DistinctSize(rest);
      assert s == rest + [s[|s| - 1]];
      assert Elements(s) == Elements(rest) + {s[|s| - 1]};
    }
  }

  // The source's loops over lists compute the rule over sets.
  method AssignUnits(score: Score, units: seq<Bytes>, slots: seq<nat>) returns (out: map<Bytes, nat>)
    requires Distinct(units) && Distinct(slots)
    ensures out == Assignment(score, Elements(units), Elements(slots))
  {
    out := map[];
    if slots == [] {
      return;
    }
    var rs := RankUnits(score, units, slots);
    DistinctSize(units);
    DistinctSize(slots);
    CapSuffices(|units|, |slots|);
    DealtIsAssigned(score, Elements(units), Elements(slots), Cap(|units|, |slots|), rs);
    out := Distribute(score, rs, Cap(|units|, |slots|), slots);
  }

  ghost predicate LoadsOf(load: map<nat, nat>, out: map<Bytes, nat>, slots: set<nat>) {
    forall s :: s in slots ==> s in load && load[s] == |Owned(out, s)|
  }

  // The source's order of work: units in turn, each to its best slot that has room.
  ghost function Dealt(score: Score, slots: set<nat>, limit: nat, rs: seq<Ranked>, n: nat): map<Bytes, nat>
    requires n <= |rs|
  {
    if n == 0 then map[] else
      var out := Dealt(score, slots, limit, rs, n - 1);
      if Room(out, slots, limit) == {} then out else out[rs[n - 1].unit := TopOf(score, rs[n - 1].unit, Room(out, slots, limit))]
  }

  ghost predicate Prepared(score: Score, units: set<Bytes>, slots: set<nat>, limit: nat, rs: seq<Ranked>) {
    && slots != {} && InTurn(rs) && |slots| * limit >= |units|
    && (forall r :: r in rs ==> RankedRight(score, slots, r))
    && (forall u :: u in units <==> HasUnit(rs, u))
  }

  // The units of rs[..n] have been given slots.
  ghost predicate Underway(slots: set<nat>, rs: seq<Ranked>, n: nat, out: map<Bytes, nat>)
    requires n <= |rs|
  {
    && (forall u :: u in out <==> HasUnit(rs[..n], u))
    && (forall u :: u in out ==> out[u] in slots)
  }

  lemma UnderwayNext(slots: set<nat>, rs: seq<Ranked>, n: nat, out: map<Bytes, nat>, s: nat)
    requires n < |rs| && Underway(slots, rs, n, out) && s in slots
    ensures Underway(slots, rs, n + 1, out[rs[n].unit := s])
  {
    MoreUnits(rs, n);
  }

  lemma Proceeds(score: Score, units: set<Bytes>, slots: set<nat>, limit: nat, rs: seq<Ranked>, n: nat, out: map<Bytes, nat>)
    requires Prepared(score, units, slots, limit, rs) && n < |rs| && Underway(slots, rs, n, out)
    ensures First(score, slots, rs[n].unit, units - out.Keys) && Room(out, slots, limit) != {}
  {
    FirstLeft(score, units, slots, rs, n, out);
    Outside(units, rs, n, out);
    RoomRemains(units, slots, limit, out);
  }

  lemma UnderwayOn(score: Score, units: set<Bytes>, slots: set<nat>, limit: nat, rs: seq<Ranked>, n: nat, out: map<Bytes, nat>)
    requires Prepared(score, units, slots, limit, rs) && n < |rs| && Underway(slots, rs, n, out)
    ensures Room(out, slots, limit) != {} && Underway(slots, rs, n + 1, out[rs[n].unit := TopOf(score, rs[n].unit, Room(out, slots, limit))])
  {
    Proceeds(score, units, slots, limit, rs, n, out);
    UnderwayNext(slots, rs, n, out, TopOf(score, rs[n].unit, Room(out, slots, limit)));
  }

  lemma {:induction false} DealtUnderway(score: Score, units: set<Bytes>, slots: set<nat>, limit: nat, rs: seq<Ranked>, n: nat)
    requires Prepared(score, units, slots, limit, rs) && n <= |rs|
    ensures Underway(slots, rs, n, Dealt(score, slots, limit, rs, n))
  {
    if n > 0 {
      DealtUnderway(score, units, slots, limit, rs, n - 1);
      UnderwayOn(score, units, slots, limit, rs, n - 1, Dealt(score, slots, limit, rs, n - 1));
    }
  }

  // It is the rule, step for step.
  ghost predicate LeadsTo(score: Score, units: set<Bytes>, slots: set<nat>, limit: nat, out: map<Bytes, nat>, goal: map<Bytes, nat>)
    requires slots != {}
  {
    Assigned(score, units, slots, limit, out) == goal
  }

  lemma StepLeads(score: Score, units: set<Bytes>, slots: set<nat>, limit: nat, out: map<Bytes, nat>, u: Bytes, goal: map<Bytes, nat>)
    requires slots != {} && First(score, slots, u, units - out.Keys) && Room(out, slots, limit) != {}
    requires LeadsTo(score, units, slots, limit, out, goal)
    ensures LeadsTo(score, units, slots, limit, out[u := TopOf(score, u, Room(out, slots, limit))], goal)
  {
    OneStep(score, units, slots, limit, out, u);
  }

  lemma LeadsOn(score: Score, units: set<Bytes>, slots: set<nat>, limit: nat, rs: seq<Ranked>, n: nat, out: map<Bytes, nat>, goal: map<Bytes, nat>)
    requires Prepared(score, units, slots, limit, rs) && n < |rs| && Underway(slots, rs, n, out) && LeadsTo(score, units, slots, limit, out, goal)
    ensures Room(out, slots, limit) != {}
    ensures LeadsTo(score, units, slots, limit, out[rs[n].unit := TopOf(score, rs[n].unit, Room(out, slots, limit))], goal)
  {
    Proceeds(score, units, slots, limit, rs, n, out);
    StepLeads(score, units, slots, limit, out, rs[n].unit, goal);
  }

  lemma {:induction false} DealtLeads(score: Score, units: set<Bytes>, slots: set<nat>, limit: nat, rs: seq<Ranked>, n: nat, goal: map<Bytes, nat>)
    requires Prepared(score, units, slots, limit, rs) && n <= |rs| && LeadsTo(score, units, slots, limit, map[], goal)
    ensures LeadsTo(score, units, slots, limit, Dealt(score, slots, limit, rs, n), goal)
  {
    if n > 0 {
      DealtLeads(score, units, slots, limit, rs, n - 1, goal);
      DealtUnderway(score, units, slots, limit, rs, n - 1);
      LeadsOn(score, units, slots, limit, rs, n - 1, Dealt(score, slots, limit, rs, n - 1), goal);
    }
  }

  lemma {:induction false} DealtIsAssigned(score: Score, units: set<Bytes>, slots: set<nat>, limit: nat, rs: seq<Ranked>)
    requires Prepared(score, units, slots, limit, rs)
    ensures Dealt(score, slots, limit, rs, |rs|) == Assigned(score, units, slots, limit, map[])
  {
    DealtUnderway(score, units, slots, limit, rs, |rs|);
    DealtLeads(score, units, slots, limit, rs, |rs|, Assigned(score, units, slots, limit, map[]));
    assert rs[..|rs|] == rs;
    assert units - Dealt(score, slots, limit, rs, |rs|).Keys == {};
  }

  // One unit: its slot, and that slot's load.
  method Deal(score: Score, r: Ranked, load: map<nat, nat>, limit: nat, ghost slots: set<nat>, out: map<Bytes, nat>) returns (more: map<Bytes, nat>, loads: map<nat, nat>)
    requires slots != {} && RankedRight(score, slots, r) && LoadsOf(load, out, slots) && r.unit !in out
    ensures more == if Room(out, slots, limit) == {} then out else out[r.unit := TopOf(score, r.unit, Room(out, slots, limit))]
    ensures LoadsOf(loads, more, slots)
  {
    var s := PickSlot(score, r.unit, r.order, load, limit, Room(out, slots, limit));
    if s.None? {
      return out, load;
    }
    LoadWith(load, out, slots, r.unit, s.value);
    return out[r.unit := s.value], load[s.value := load[s.value] + 1];
  }

  method Distribute(score: Score, rs: seq<Ranked>, limit: nat, slots: seq<nat>) returns (out: map<Bytes, nat>)
    requires Elements(slots) != {} && InTurn(rs) && forall r :: r in rs ==> RankedRight(score, Elements(slots), r)
    ensures out == Dealt(score, Elements(slots), limit, rs, |rs|)
  {
    ghost var among := Elements(slots);
    out := map[];
    var load := map s | s in slots :: 0;
    NoLoad(load, among);
    for n := 0 to |rs|
      invariant LoadsOf(load, out, among) && out == Dealt(score, among, limit, rs, n)
    {
      assert rs[n] in rs;
      NotDealtYet(score, among, limit, rs, n);
      out, load := Deal(score, rs[n], load, limit, among, out);
    }
  }

  lemma {:induction false} NotDealtYet(score: Score, slots: set<nat>, limit: nat, rs: seq<Ranked>, n: nat)
    requires slots != {} && InTurn(rs) && n < |rs| && forall r :: r in rs ==> RankedRight(score, slots, r)
    ensures rs[n].unit !in Dealt(score, slots, limit, rs, n)
  {
    NotYet(score, slots, rs, n);
    if rs[n].unit in Dealt(score, slots, limit, rs, n) {
      DealtAmong(score, slots, limit, rs, n, rs[n].unit);
    }
  }

  lemma NoLoad(load: map<nat, nat>, slots: set<nat>)
    requires forall s :: s in slots ==> s in load && load[s] == 0
    ensures LoadsOf(load, map[], slots)
  {
    var none: map<Bytes, nat> := map[];
    assert forall s :: Owned(none, s) == {};
  }

  lemma {:induction false} DealtAmong(score: Score, slots: set<nat>, limit: nat, rs: seq<Ranked>, n: nat, u: Bytes)
    requires n <= |rs| && u in Dealt(score, slots, limit, rs, n)
    ensures HasUnit(rs[..n], u)
  {
    if u in Dealt(score, slots, limit, rs, n - 1) {
      DealtAmong(score, slots, limit, rs, n - 1, u);
    }
    MoreUnits(rs, n - 1);
  }

  lemma NotYet(score: Score, slots: set<nat>, rs: seq<Ranked>, n: nat)
    requires slots != {} && InTurn(rs) && n < |rs| && forall r :: r in rs ==> RankedRight(score, slots, r)
    ensures !HasUnit(rs[..n], rs[n].unit)
  {
    LessTotal(rs[n].unit, rs[n].unit);
    forall r | r in rs[..n] ensures r.unit != rs[n].unit {
      var i :| 0 <= i < n && rs[..n][i] == r;
      assert Sooner(rs[i], rs[n]) && RankedRight(score, slots, rs[i]) && RankedRight(score, slots, rs[n]);
    }
  }

  lemma MoreUnits(rs: seq<Ranked>, n: nat)
    requires n < |rs|
    ensures forall u :: HasUnit(rs[..n + 1], u) <==> HasUnit(rs[..n], u) || u == rs[n].unit
  {
    assert rs[..n + 1] == rs[..n] + [rs[n]];
    forall u ensures HasUnit(rs[..n + 1], u) <==> HasUnit(rs[..n], u) || u == rs[n].unit {
      if HasUnit(rs[..n], u) {
        var r :| r in rs[..n] && r.unit == u;
        assert r in rs[..n + 1];
      }
      assert rs[n] in rs[..n + 1];
    }
  }

  lemma Outside(units: set<Bytes>, rs: seq<Ranked>, n: nat, out: map<Bytes, nat>)
    requires n < |rs| && rs[n].unit in units - out.Keys
    requires forall u :: u in units <==> HasUnit(rs, u)
    requires forall u :: u in out <==> HasUnit(rs[..n], u)
    ensures out.Keys < units
  {
    forall u | u in out ensures u in units {
      var r :| r in rs[..n] && r.unit == u;
      assert r in rs;
    }
  }

  lemma LoadWith(load: map<nat, nat>, out: map<Bytes, nat>, slots: set<nat>, u: Bytes, s: nat)
    requires LoadsOf(load, out, slots) && u !in out && s in slots
    ensures LoadsOf(load[s := load[s] + 1], out[u := s], slots)
  {
    forall t | t in slots ensures load[s := load[s] + 1][t] == |Owned(out[u := s], t)| {
      OwnedWith(out, u, s, t);
    }
  }
}
