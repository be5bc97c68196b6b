/** internal/ingest/claims.go: one process's claims, as the object its ticks change. What the
    broker answers to a reset or a bind is given to the tick. */
module ClaimLoop {
  import opened Common
  import opened Bytes
  import opened Ordered
  import opened LeaseTable
  import opened Assign
  import opened ShardClaims

  const ORPHAN_WAIT: int := 30 * SECOND

  datatype Bind = Bound | TryAgain | DurableGone

  // held: ResetOrphaned answers that somebody's pin on the unit has not lapsed.
  datatype Broker = Broker(held: Bytes -> bool, bind: Bytes -> Bind)

  // What take decides on, apart from the broker: the owners of the previous tick, the slots
  // live now, this process's own, and the takeovers still waiting, each with its start.
  datatype Scene = Scene(prev: Option<map<Bytes, nat>>, live: set<nat>, slot: nat, orphaned: map<Bytes, int>, now: int)

  // u's owner was another slot that is a member no more, or this process starts alone.
  predicate OwnerGone(c: Scene, u: Bytes) {
    if c.prev.None? then c.live == {c.slot}
    else u in c.prev.value && c.prev.value[u] != c.slot && c.prev.value[u] !in c.live
  }

  predicate TakesOver(c: Scene, u: Bytes) {
    OwnerGone(c, u) || u in c.orphaned
  }

  function Since(c: Scene, u: Bytes): int {
    if u in c.orphaned then c.orphaned[u] else c.now
  }

  // A takeover waits out a pin for ORPHAN_WAIT, and then leaves it to the broker.
  predicate Waits(c: Scene, b: Broker, u: Bytes) {
    TakesOver(c, u) && b.held(u) && c.now - Since(c, u) < ORPHAN_WAIT
  }

  predicate Binds(c: Scene, b: Broker, u: Bytes) {
    !Waits(c, b, u) && b.bind(u).Bound?
  }

  predicate Fails(c: Scene, b: Broker, configured: set<Bytes>, u: Bytes) {
    !Waits(c, b, u) && b.bind(u).DurableGone? && u in configured
  }

  // A unit is bound exactly when the broker binds it and no pin is waited out: one that somebody
  // still holds, on a unit being taken over for less than half a minute. It is being taken over
  // if an earlier tick left it waiting, or if its owner was another slot that is gone, or, before
  // there is anything to go by, if this process is alone.
  lemma BindsExactly(c: Scene, b: Broker, u: Bytes)
    ensures var gone := if c.prev.None? then c.live == {c.slot} else u in c.prev.value && c.prev.value[u] != c.slot && c.prev.value[u] !in c.live;
      var waits := b.held(u) && (if u in c.orphaned then c.now - c.orphaned[u] < 30 * SECOND else gone);
      (Waits(c, b, u) <==> waits) && (Binds(c, b, u) <==> !waits && b.bind(u).Bound?)
  {}

  // However often it is tried, a unit whose takeover began at some time is held back by a pin only
  // until half a minute later.
  lemma PinLapses(c: Scene, b: Broker, u: Bytes, began: int)
    requires u in c.orphaned && c.orphaned[u] == began
    ensures c.now < began + 30 * SECOND && b.held(u) ==> !Binds(c, b, u)
    ensures began + 30 * SECOND <= c.now || !b.held(u) ==> (Binds(c, b, u) <==> b.bind(u).Bound?)
  {}

  // unitShare
  function UnitShare(maxHeld: nat, count: nat, prefetch: nat): nat {
    Larger(Smaller(maxHeld, 2 * prefetch), maxHeld / Larger(1, count))
  }

  // Each unit has room for its prefetch twice over, none more than the whole budget, and all of
  // them together hold the budget or, if that is more, two prefetches each.
  lemma SharesFitBudget(maxHeld: nat, count: nat, prefetch: nat)
    requires count > 0
    ensures Smaller(maxHeld, 2 * prefetch) <= UnitShare(maxHeld, count, prefetch) <= maxHeld
    ensures maxHeld / count <= UnitShare(maxHeld, count, prefetch)
    ensures count * UnitShare(maxHeld, count, prefetch) <= Larger(maxHeld, count * (2 * prefetch))
  {
    EvenShare(maxHeld, count);
    var share := UnitShare(maxHeld, count, prefetch);
    if share != maxHeld / count {
      Scaled(count, share, 2 * prefetch);
    }
  }

  lemma EvenShare(n: nat, count: nat)
    requires count > 0
    ensures n / count <= n && count * (n / count) <= n
  {
    var even := n / count;
    assert n == count * even + n % count;
    Scaled(even, 1, count);
  }

  lemma Scaled(n: nat, a: nat, b: nat)
    requires a <= b
    ensures n * a <= n * b
  {}

  // What a tick leaves: of the units held the targets, and beside them those of the first n targets
  // that bind; the rest on their way out. All targets are seen to, but for the ones from one
  // whose durable is gone on.
  ghost predicate Settled(c: Scene, b: Broker, configured: set<Bytes>, targets: set<Bytes>,
                          owned: set<Bytes>, releasing: set<Bytes>, n: nat, nowOwned: set<Bytes>, nowReleasing: set<Bytes>) {
    var d, order := c.(orphaned := map u | u in c.orphaned && u in targets :: c.orphaned[u]), InOrder(targets);
    && nowReleasing == releasing + (owned - targets)
    && n <= |order| && (n < |order| ==> Fails(d, b, configured, order[n]))
    && nowOwned == owned * targets + Bindable(d, b, order[..n], owned * targets, nowReleasing)
  }

  method Retain(owned: set<Bytes>, releasing: set<Bytes>, targets: set<Bytes>) returns (kept: set<Bytes>, leaving: set<Bytes>)
    ensures kept == owned * targets && leaving == releasing + (owned - targets)
  {
    var ids := SortedKeys(owned);
    InOrderHolds(owned);
    kept, leaving := owned, releasing;
    for n := 0 to |ids|
      invariant kept == owned - (Elements(ids[..n]) - targets)
      invariant leaving == releasing + (Elements(ids[..n]) - targets)
    {
      assert ids[..n + 1] == ids[..n] + [ids[n]];
      assert Elements(ids[..n + 1]) == Elements(ids[..n]) + {ids[n]};
      if ids[n] !in targets {
        kept, leaving := kept - {ids[n]}, leaving + {ids[n]};
      }
    }
    assert ids[..|ids|] == ids && Elements(ids) == owned;
  }

  // Of some units, those neither held nor on their way out that bind.
  function Bindable(c: Scene, b: Broker, units: seq<Bytes>, owned: set<Bytes>, releasing: set<Bytes>): set<Bytes> {
    set u | u in units && u !in owned && u !in releasing && Binds(c, b, u)
  }

  lemma BindableNext(c: Scene, b: Broker, ids: seq<Bytes>, n: nat, owned: set<Bytes>, releasing: set<Bytes>)
    requires n < |ids| && Distinct(ids)
    ensures ids[n] !in Bindable(c, b, ids[..n], owned, releasing)
    ensures Bindable(c, b, ids[..n + 1], owned, releasing)
         == Bindable(c, b, ids[..n], owned, releasing) + if ids[n] !in owned && ids[n] !in releasing && Binds(c, b, ids[n]) then {ids[n]} else {}
  {
    assert ids[..n + 1] == ids[..n] + [ids[n]];
  }

  class Loop {
    const slots: nat
    const configured: set<Bytes>
    var member: Option<Term>
    var slot: nat
    var owned: set<Bytes>
    var releasing: set<Bytes>
    var orphaned: map<Bytes, int>
    var prev: Option<map<Bytes, nat>>
    var share: nat

    constructor (slots: nat, configured: set<Bytes>, maxHeld: nat)
      ensures this.slots == slots && this.configured == configured && share == maxHeld
      ensures member == None && owned == {} && releasing == {} && orphaned == map[] && prev == None
    {
      this.slots, this.configured := slots, configured;
      member, slot, owned, releasing, orphaned, prev, share := None, 0, {}, {}, map[], None, maxHeld;
    }

    ghost function SceneAt(live: set<nat>, now: int): Scene
      reads this
    {
      Scene(prev, live, slot, orphaned, now)
    }

    // joinMembers: the lowest slot nobody holds, or none.
    method JoinMembers(l: Local)
      requires member == None
      modifies this, l, l.table
      ensures member.Some? ==> slot < slots && member.value.owner == l.id && member.value.name == MemberLease(slot) && member.value in l.terms
      ensures member.Some? ==> MemberLease(slot) !in old(l.table.held) && forall j :: 0 <= j < slot ==> MemberLease(j) in old(l.table.held)
      ensures member.None? ==> old(l.closed) || forall j :: 0 <= j < slots ==> MemberLease(j) in old(l.table.held)
      ensures owned == old(owned) && releasing == old(releasing) && orphaned == old(orphaned) && prev == old(prev) && share == old(share)
    {
      for j := 0 to slots
        invariant member == None && l.State() == old(l.State()) && l.table.State() == old(l.table.State())
        invariant owned == old(owned) && releasing == old(releasing) && orphaned == old(orphaned) && prev == old(prev) && share == old(share)
        invariant forall i :: 0 <= i < j ==> MemberLease(i) in old(l.table.held)
      {
        var answer := l.AcquireTerm(MemberLease(j));
        match answer
        case Acquired(t) =>
          member, slot := Some(t), j;
          return;
        case ErrHeld =>
        case ErrClosed => return;
      }
    }

    // giveUp: what is not a target any more goes to be handed over.
    method GiveUpUnits(targets: set<Bytes>)
      modifies this`owned, this`releasing, this`orphaned
      ensures owned == old(owned) * targets && releasing == old(releasing) + (old(owned) - targets)
      ensures orphaned == map u | u in old(orphaned) && u in targets :: old(orphaned)[u]
      ensures old(owned) !! old(releasing) ==> owned !! releasing
    {
      orphaned := map u | u in orphaned && u in targets :: orphaned[u];
      owned, releasing := Retain(owned, releasing, targets);
    }

    // The part of a tick after the members have been read: to the units its slot is assigned.
    method Act(score: Score, live: seq<nat>, units: seq<Bytes>, extra: seq<Bytes>, now: int, b: Broker, maxHeld: nat, prefetch: nat) returns (n: nat)
      requires Distinct(live) && Distinct(units) && Distinct(extra)
      modifies this`owned, this`releasing, this`orphaned, this`prev, this`share
      ensures var view := View(Elements(live), Elements(units), Elements(extra));
        var targets := Allowed(score, Some(Acted(member, slot, view)));
        && Settled(old(SceneAt(Elements(live), now)), b, configured, targets, old(owned), old(releasing), n, owned, releasing)
        && old(owned) * targets <= owned <= targets
        && (targets != {} ==> share == UnitShare(maxHeld, |targets|, prefetch))
        && prev == Some(Owners(score, view))
      ensures old(owned) !! old(releasing) ==> owned !! releasing
    {
      var owners, targets := Decide(score, member, slot, live, units, extra);
      if targets != {} {
        share := UnitShare(maxHeld, |targets|, prefetch);
      }
      n := Settle(targets, Elements(live), now, b);
      prev := Some(owners);
    }

    method Settle(targets: set<Bytes>, live: set<nat>, now: int, b: Broker) returns (n: nat)
      modifies this`owned, this`releasing, this`orphaned
      ensures Settled(old(SceneAt(live, now)), b, configured, targets, old(owned), old(releasing), n, owned, releasing)
      ensures old(owned) * targets <= owned <= targets
      ensures old(owned) !! old(releasing) ==> owned !! releasing
    {
      GiveUpUnits(targets);
      InOrderHolds(targets);
      n := TakeUnits(targets, live, now, b);
    }

    // One unit of take; ok unless its durable is gone.
    method TakeUnit(u: Bytes, live: set<nat>, now: int, b: Broker) returns (ok: bool)
      modifies this`owned, this`orphaned
      ensures var c := old(SceneAt(live, now));
        if u in old(owned) || u in releasing then ok && owned == old(owned) && orphaned == c.orphaned
        else
          && owned == old(owned) + (if Binds(c, b, u) then {u} else {})
          && orphaned == (if Waits(c, b, u) then c.orphaned[u := Since(c, u)] else c.orphaned - {u})
          && (ok <==> !Fails(c, b, configured, u))
      ensures u !in old(owned) && u !in releasing ==>
        var gone := if prev.None? then live == {slot} else u in prev.value && prev.value[u] != slot && prev.value[u] !in live;
        var waits := b.held(u) && (if u in old(orphaned) then now - old(orphaned)[u] < 30 * SECOND else gone);
        && (u in owned <==> !waits && b.bind(u).Bound?)
        && (u in orphaned <==> waits)
        && (waits ==> orphaned[u] == if u in old(orphaned) then old(orphaned)[u] else now)
    {
      if u in owned || u in releasing {
        return true;
      }
      var dead := prev.Some? && u in prev.value && prev.value[u] != slot && prev.value[u] !in live;
      var alone := prev.None? && live == {slot};
      if (dead || alone) && u !in orphaned {
        orphaned := orphaned[u := now];
      }
      if u in orphaned {
        if b.held(u) && now - orphaned[u] < ORPHAN_WAIT {
          return true;
        }
        orphaned := orphaned - {u};
      }
      match b.bind(u)
      case Bound =>
        owned := owned + {u};
        return true;
      case TryAgain => return true;
      case DurableGone => return u !in configured;
    }

    // take: of the targets in order, up to one whose durable is gone, exactly those neither held
    // nor on their way out that the broker lets it bind, and no others.
    method TakeUnits(targets: set<Bytes>, live: set<nat>, now: int, b: Broker) returns (n: nat)
      modifies this`owned, this`orphaned
      ensures var c, order := old(SceneAt(live, now)), InOrder(targets);
        && n <= |order| && (n < |order| ==> Fails(c, b, configured, order[n]))
        && owned == old(owned) + Bindable(c, b, order[..n], old(owned), releasing)
      ensures old(owned) !! old(releasing) ==> owned !! releasing
    {
      var ids := SortedKeys(targets);
      InOrderHolds(targets);
      ghost var c := SceneAt(live, now);
      ghost var was := owned;
      n := 0;
      while n < |ids|
        invariant n <= |ids|
        invariant owned == was + Bindable(c, b, ids[..n], was, releasing)
        invariant forall i :: n <= i < |ids| ==> SameTakeover(c, SceneAt(live, now), ids[i])
        decreases |ids| - n
      {
        var u := ids[n];
        ghost var mid := SceneAt(live, now);
        ghost var before := owned;
        BindableNext(c, b, ids, n, was, releasing);
        SameDecisions(c, mid, b, configured, u);
        var ok := TakeUnit(u, live, now, b);
        if !ok {
          return;
        }
        n := n + 1;
      }
    }
  }

  method TargetsOf(owners: map<Bytes, nat>, slot: nat, mine: bool) returns (targets: set<Bytes>)
    ensures targets == set u | mine && u in owners && owners[u] == slot
  {
    targets := {};
    if mine {
      var rest := owners;
      while rest != map[]
        invariant rest.Keys <= owners.Keys && forall u :: u in rest ==> rest[u] == owners[u]
        invariant targets == set u | u in owners && u !in rest && owners[u] == slot
        decreases |rest|
      {
        var u :| u in rest;
        if rest[u] == slot {
          targets := targets + {u};
        }
        rest := rest - {u};
      }
    }
  }

  method Decide(score: Score, member: Option<Term>, slot: nat, live: seq<nat>, units: seq<Bytes>, extra: seq<Bytes>)
    returns (owners: map<Bytes, nat>, targets: set<Bytes>)
    requires Distinct(live) && Distinct(units) && Distinct(extra)
    ensures var view := View(Elements(live), Elements(units), Elements(extra));
      owners == Owners(score, view) && targets == Allowed(score, Some(Acted(member, slot, view)))
  {
    var first := AssignUnits(score, units, live);
    var second := AssignUnits(score, extra, live);
    owners := first + second;
    targets := TargetsOf(owners, slot, member.Some? && slot in live);
  }

  // Whether and since when u is being taken over has not changed.
  ghost predicate SameTakeover(c: Scene, d: Scene, u: Bytes) {
    && d == c.(orphaned := d.orphaned) && (u in c.orphaned <==> u in d.orphaned)
    && (u in c.orphaned ==> c.orphaned[u] == d.orphaned[u])
  }

  lemma SameDecisions(c: Scene, d: Scene, b: Broker, configured: set<Bytes>, u: Bytes)
    requires SameTakeover(c, d, u)
    ensures Binds(c, b, u) == Binds(d, b, u) && Fails(c, b, configured, u) == Fails(d, b, configured, u)
  {}
}
