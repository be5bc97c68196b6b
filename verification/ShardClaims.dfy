/** internal/ingest/claims.go: which process consumes which unit, as the ticks of any number of
    processes interleave over one lease table. A step is one call to the coordinator, or what a
    tick does to its own process between two of them. */
module ShardClaims {
  import opened Common
  import opened Bytes
  import opened Decimal
  import KeyEnc
  import opened LeaseTable
  import opened Assign

  // "ingest.m"
  const MEMBER_PREFIX: Bytes := [0x69, 0x6E, 0x67, 0x65, 0x73, 0x74, 0x2E, 0x6D]

  function MemberLease(slot: nat): Bytes {
    MEMBER_PREFIX + Format(slot)
  }

  lemma {:induction false} MemberLeaseInjective(a: nat, b: nat)
    requires MemberLease(a) == MemberLease(b)
    ensures a == b && MemberLease(a) == KeyEnc.Chars("ingest.m") + Format(a)
  {
    assert MemberLease(a)[|MEMBER_PREFIX|..] == Format(a);
    assert MemberLease(b)[|MEMBER_PREFIX|..] == Format(b);
    FormatInjective(a, b);
    assert KeyEnc.Chars("ingest.m") == MEMBER_PREFIX;
  }

  // What a tick acts on: the slots it read as live, and the units.
  datatype View = View(live: set<nat>, configured: set<Bytes>, extra: set<Bytes>)

  // The two lists are assigned apart, and copied together.
  ghost function Owners(score: Score, v: View): map<Bytes, nat> {
    Assignment(score, v.configured, v.live) + Assignment(score, v.extra, v.live)
  }

  ghost function Targets(score: Score, v: View, slot: nat): set<Bytes> {
    var owners := Owners(score, v);
    set u | u in owners && owners[u] == slot
  }

  // What a process last acted on: its membership then, and the view.
  datatype Acted = Acted(term: Option<Term>, slot: nat, view: View)

  ghost function Allowed(score: Score, a: Option<Acted>): set<Bytes> {
    if a.Some? && a.value.term.Some? && a.value.slot in a.value.view.live
    then Targets(score, a.value.view, a.value.slot) else {}
  }

  datatype Phase =
    | Resting
    | Joining(next: nat)
    | Reading(asked: set<nat>, live: set<nat>)
    | Taking

  datatype Proc = Proc(member: Option<Term>, slot: nat, owned: set<Bytes>, releasing: set<Bytes>, acted: Option<Acted>, phase: Phase)

  const NEWCOMER := Proc(None, 0, {}, {}, None, Resting)

  // A process is known by its handle on the table.
  datatype Sys = Sys(tb: Table, procs: map<nat, Proc>)

  datatype Step =
    | Env(e: Event)                      // any lease taken, lapsed, resigned or closed by anybody
    | Start(p: nat)
    | BeginTick(p: nat)                  // reap
    | Join(p: nat)                       // joinMembers' next slot
    | JoinFails(p: nat)
    | ReadSlot(p: nat, slot: nat)
    | ReadFails(p: nat)
    | GiveUp(p: nat, configured: set<Bytes>, extra: set<Bytes>)
    | Take(p: nat, u: Bytes)             // a target that could be bound
    | EndTick(p: nat)
    | HandedOver(p: nat, u: Bytes)

  predicate Enabled(slots: nat, s: Sys, step: Step) {
    match step
    case Env(e) => LeaseTable.Enabled(s.tb, e)
    case Start(p) => p !in s.procs && p in s.tb.handles
    case BeginTick(p) => p in s.procs && s.procs[p].phase.Resting?
    case Join(p) => p in s.procs && p in s.tb.handles && s.procs[p].phase.Joining?
    case JoinFails(p) => p in s.procs && s.procs[p].phase.Joining?
    case ReadSlot(p, j) => p in s.procs && s.procs[p].phase.Reading? && j < slots && j !in s.procs[p].phase.asked
    case ReadFails(p) => p in s.procs && s.procs[p].phase.Reading?
    case GiveUp(p, _, _) => p in s.procs && s.procs[p].phase.Reading? && forall j :: 0 <= j < slots ==> j in s.procs[p].phase.asked
    case Take(p, _) => p in s.procs && s.procs[p].phase.Taking?
    case EndTick(p) => p in s.procs && s.procs[p].phase.Taking?
    case HandedOver(p, _) => p in s.procs
  }

  const READS := Reading({}, {})

  function AfterReap(tb: Table, q: Proc): Proc {
    if q.member.Some? && Live(tb, q.member.value) then q.(phase := READS)
    else q.(member := None, phase := Joining(0))
  }

  function AfterJoin(q: Proc, slot: nat, answer: Answer): Proc {
    match answer
    case Acquired(t) => q.(member := Some(t), slot := slot, phase := READS)
    case ErrHeld => q.(phase := Joining(slot + 1))
    case ErrClosed => q.(phase := READS)
  }

  // giveUp, to what the process is now assigned.
  function KeepOnly(q: Proc, acted: Acted, targets: set<Bytes>): Proc {
    q.(owned := q.owned * targets, releasing := q.releasing + (q.owned - targets), acted := Some(acted), phase := Taking)
  }

  ghost function AfterGiveUp(score: Score, q: Proc, view: View): Proc {
    var acted := Acted(q.member, q.slot, view);
    KeepOnly(q, acted, Allowed(score, Some(acted)))
  }

  // take, of a unit that is a target and neither held nor on its way out.
  ghost function AfterTake(score: Score, q: Proc, u: Bytes): Proc {
    if u in Allowed(score, q.acted) && u !in q.owned && u !in q.releasing then q.(owned := q.owned + {u}) else q
  }

  ghost function Do(slots: nat, score: Score, s: Sys, step: Step): Sys
    requires Enabled(slots, s, step)
  {
    match step
    case Env(e) => s.(tb := LeaseTable.Do(s.tb, e))
    case Start(p) => s.(procs := s.procs[p := NEWCOMER])
    case BeginTick(p) => s.(procs := s.procs[p := AfterReap(s.tb, s.procs[p])])
    case Join(p) =>
      var j := s.procs[p].phase.next;
      if j >= slots then s.(procs := s.procs[p := s.procs[p].(phase := READS)]) else
        var r := Acquire(s.tb.s, s.tb.handles[p], p, MemberLease(j));
        Sys(LeaseTable.Do(s.tb, TryAcquire(p, MemberLease(j))), s.procs[p := AfterJoin(s.procs[p], j, r.answer)])
    case JoinFails(p) => s.(procs := s.procs[p := s.procs[p].(phase := READS)])
    case ReadSlot(p, j) =>
      var ph := s.procs[p].phase;
      s.(procs := s.procs[p := s.procs[p].(phase := Reading(ph.asked + {j}, if MemberLease(j) in s.tb.s.held then ph.live + {j} else ph.live))])
    case ReadFails(p) => s.(procs := s.procs[p := s.procs[p].(phase := Resting)])
    case GiveUp(p, configured, extra) =>
      s.(procs := s.procs[p := AfterGiveUp(score, s.procs[p], View(s.procs[p].phase.live, configured, extra))])
    case Take(p, u) => s.(procs := s.procs[p := AfterTake(score, s.procs[p], u)])
    case EndTick(p) => s.(procs := s.procs[p := s.procs[p].(phase := Resting)])
    case HandedOver(p, u) => s.(procs := s.procs[p := s.procs[p].(releasing := s.procs[p].releasing - {u})])
  }

  ghost predicate Valid(slots: nat, score: Score, s: Sys, steps: seq<Step>)
    decreases |steps|
  {
    steps == [] || (Enabled(slots, s, steps[0]) && Valid(slots, score, Do(slots, score, s, steps[0]), steps[1..]))
  }

  ghost function Exec(slots: nat, score: Score, s: Sys, steps: seq<Step>): Sys
    requires Valid(slots, score, s, steps)
    decreases |steps|
  {
    if steps == [] then s else Exec(slots, score, Do(slots, score, s, steps[0]), steps[1..])
  }

  const NOBODY := Sys(NO_LEASES, map[])

  /******* What every step keeps *******/

  ghost predicate ProcOK(score: Score, p: nat, q: Proc) {
    && (q.member.Some? ==> q.member.value.owner == p && q.member.value.name == MemberLease(q.slot))
    && (q.acted.Some? && q.acted.value.term.Some? ==>
          q.acted.value.term.value.owner == p && q.acted.value.term.value.name == MemberLease(q.acted.value.slot))
    && q.owned <= Allowed(score, q.acted)
    && q.owned !! q.releasing
  }

  ghost predicate SysOK(score: Score, s: Sys) {
    LeaseTable.Inv(s.tb) && forall p :: p in s.procs ==> ProcOK(score, p, s.procs[p])
  }

  lemma StepKeepsOK(slots: nat, score: Score, s: Sys, step: Step)
    requires SysOK(score, s) && Enabled(slots, s, step)
    ensures SysOK(score, Do(slots, score, s, step))
  {
    var t := Do(slots, score, s, step);
    match step
    case Env(e) => LeaseTable.StepKeepsInv(s.tb, e);
    case Join(p) =>
      var j := s.procs[p].phase.next;
      LeaseTable.StepKeepsInv(s.tb, TryAcquire(p, MemberLease(j)));
      assert ProcOK(score, p, s.procs[p]);
    case Start(p) => assert NEWCOMER.owned == {};
    case BeginTick(p) => assert ProcOK(score, p, s.procs[p]);
    case JoinFails(p) => assert ProcOK(score, p, s.procs[p]);
    case ReadSlot(p, _) => assert ProcOK(score, p, s.procs[p]);
    case ReadFails(p) => assert ProcOK(score, p, s.procs[p]);
    case GiveUp(p, _, _) => assert ProcOK(score, p, s.procs[p]);
    case Take(p, _) => assert ProcOK(score, p, s.procs[p]);
    case EndTick(p) => assert ProcOK(score, p, s.procs[p]);
    case HandedOver(p, _) => assert ProcOK(score, p, s.procs[p]);
  }

  lemma {:induction false} OKRun(slots: nat, score: Score, s: Sys, steps: seq<Step>)
    requires SysOK(score, s) && Valid(slots, score, s, steps)
    ensures SysOK(score, Exec(slots, score, s, steps))
    decreases |steps|
  {
    if steps != [] {
      StepKeepsOK(slots, score, s, steps[0]);
      OKRun(slots, score, Do(slots, score, s, steps[0]), steps[1..]);
    }
  }

  /******* Ownership *******/

  // The membership a process last acted under is still its own.
  ghost predicate StillMember(tb: Table, q: Proc) {
    q.acted.Some? && q.acted.value.term.Some? && Live(tb, q.acted.value.term.value)
  }

  // Memberships both still live were acted under in different slots.
  lemma {:induction false} MembersActApart(slots: nat, score: Score, steps: seq<Step>, p: nat, q: nat)
    requires Valid(slots, score, NOBODY, steps)
    requires var s := Exec(slots, score, NOBODY, steps);
      p != q && p in s.procs && q in s.procs && StillMember(s.tb, s.procs[p]) && StillMember(s.tb, s.procs[q])
    ensures var s := Exec(slots, score, NOBODY, steps); s.procs[p].acted.value.slot != s.procs[q].acted.value.slot
  {
    OKRun(slots, score, NOBODY, steps);
    var s := Exec(slots, score, NOBODY, steps);
    assert ProcOK(score, p, s.procs[p]) && ProcOK(score, q, s.procs[q]);
  }

  // Of one view, what two slots may own is disjoint exactly when they are two slots, or one with
  // nothing assigned to it: the slot acted under is what a process can tell by.
  lemma DisjointExactlyWhen(score: Score, a: Acted, b: Acted)
    requires a.view == b.view && a.term.Some? && b.term.Some? && a.slot in a.view.live && b.slot in b.view.live
    ensures Allowed(score, Some(a)) !! Allowed(score, Some(b)) <==> a.slot != b.slot || Targets(score, a.view, a.slot) == {}
  {
    if a.slot == b.slot && Targets(score, a.view, a.slot) != {} {
      var u :| u in Targets(score, a.view, a.slot);
      assert u in Allowed(score, Some(a)) && u in Allowed(score, Some(b));
    }
  }

  // Two processes that acted on one view in different slots own nothing in common, whatever
  // either has done since and however their ticks interleaved.
  lemma {:induction false} OwnersAreDisjoint(slots: nat, score: Score, steps: seq<Step>, p: nat, q: nat)
    requires Valid(slots, score, NOBODY, steps)
    requires var s := Exec(slots, score, NOBODY, steps);
      && p in s.procs && q in s.procs && s.procs[p].acted.Some? && s.procs[q].acted.Some?
      && s.procs[p].acted.value.view == s.procs[q].acted.value.view
      && s.procs[p].acted.value.slot != s.procs[q].acted.value.slot
    ensures var s := Exec(slots, score, NOBODY, steps); s.procs[p].owned !! s.procs[q].owned
  {
    OKRun(slots, score, NOBODY, steps);
    var s := Exec(slots, score, NOBODY, steps);
    var a, b := s.procs[p].acted.value, s.procs[q].acted.value;
    assert ProcOK(score, p, s.procs[p]) && ProcOK(score, q, s.procs[q]);
    assert Targets(score, a.view, a.slot) !! Targets(score, b.view, b.slot);
  }

  // So live members that acted on one view do, if each acted under the membership it has.
  lemma {:induction false} LiveMembersAreDisjoint(slots: nat, score: Score, steps: seq<Step>, p: nat, q: nat)
    requires Valid(slots, score, NOBODY, steps)
    requires var s := Exec(slots, score, NOBODY, steps);
      p != q && p in s.procs && q in s.procs && StillMember(s.tb, s.procs[p]) && StillMember(s.tb, s.procs[q])
      && s.procs[p].acted.value.view == s.procs[q].acted.value.view
    ensures var s := Exec(slots, score, NOBODY, steps); s.procs[p].owned !! s.procs[q].owned
  {
    MembersActApart(slots, score, steps, p, q);
    OwnersAreDisjoint(slots, score, steps, p, q);
  }

  // No process has a unit both owned and on its way out.
  lemma {:induction false} OwnedOrReleasing(slots: nat, score: Score, steps: seq<Step>, p: nat)
    requires Valid(slots, score, NOBODY, steps) && p in Exec(slots, score, NOBODY, steps).procs
    ensures var q := Exec(slots, score, NOBODY, steps).procs[p]; q.owned !! q.releasing
  {
    OKRun(slots, score, NOBODY, steps);
    assert ProcOK(score, p, Exec(slots, score, NOBODY, steps).procs[p]);
  }

  // Of a view with a live slot, every unit is exactly one live slot's target.
  lemma EveryUnitIsATarget(score: Score, v: View, u: Bytes)
    requires v.live != {} && u in v.configured + v.extra
    ensures exists slot :: slot in v.live && u in Targets(score, v, slot) && forall x :: u in Targets(score, v, x) ==> x == slot
  {
    AssignmentIsFair(score, v.configured, v.live);
    AssignmentIsFair(score, v.extra, v.live);
    var slot := Owners(score, v)[u];
    assert slot in v.live && u in Targets(score, v, slot);
  }

  /******* What a tick comes to *******/

  // A tick keeps its membership exactly while its term is live.
  lemma ReapExactly(tb: Table, q: Proc)
    ensures var r := AfterReap(tb, q);
      && (q.member.Some? && Live(tb, q.member.value) ==> r == q.(phase := READS))
      && (q.member.Some? && !Live(tb, q.member.value) ==> r == q.(member := None, phase := Joining(0)))
      && (q.member.None? ==> r == q.(phase := Joining(0)))
  {}

  // A unit handed over is on its way out no more, and can be taken again if it is a target.
  lemma HandedOverFrees(slots: nat, score: Score, s: Sys, p: nat, u: Bytes)
    requires Enabled(slots, s, HandedOver(p, u))
    ensures var q, r := s.procs[p], Do(slots, score, s, HandedOver(p, u)).procs[p];
      && r.owned == q.owned && r.releasing == q.releasing - {u} && r.acted == q.acted && r.member == q.member
      && (u in Allowed(score, q.acted) ==> u in AfterTake(score, r, u).owned)
  {}

  ghost function Takes(p: nat, us: seq<Bytes>): seq<Step> {
    seq(|us|, i requires 0 <= i < |us| => Take(p, us[i]))
  }

  ghost predicate Reaches(slots: nat, score: Score, s: Sys, steps: seq<Step>, t: Sys) {
    Valid(slots, score, s, steps) && Exec(slots, score, s, steps) == t
  }

  // Those of us that are targets and not on their way out.
  function Free(us: seq<Bytes>, targets: set<Bytes>, releasing: set<Bytes>): set<Bytes> {
    set u | u in us && u in targets && u !in releasing
  }

  ghost function Gained(score: Score, q: Proc, us: seq<Bytes>): set<Bytes> {
    Free(us, Allowed(score, q.acted), q.releasing)
  }

  lemma FreeNext(us: seq<Bytes>, targets: set<Bytes>, releasing: set<Bytes>)
    requires us != []
    ensures Free(us, targets, releasing) == Free(us[1..], targets, releasing) + if us[0] in targets && us[0] !in releasing then {us[0]} else {}
  {
    assert us == [us[0]] + us[1..];
  }

  lemma GainedNext(score: Score, q: Proc, us: seq<Bytes>)
    requires us != []
    ensures var r := AfterTake(score, q, us[0]);
      r == q.(owned := r.owned) && r.owned + Gained(score, r, us[1..]) == q.owned + Gained(score, q, us)
  {
    FreeNext(us, Allowed(score, q.acted), q.releasing);
  }

  // Taking each of some units leaves owned, beside what was, exactly those.
  lemma {:induction false} TakesExactly(slots: nat, score: Score, s: Sys, p: nat, us: seq<Bytes>)
    requires p in s.procs && s.procs[p].phase.Taking?
    ensures var q := s.procs[p];
      Reaches(slots, score, s, Takes(p, us), s.(procs := s.procs[p := q.(owned := q.owned + Gained(score, q, us))]))
    decreases |us|
  {
    var q := s.procs[p];
    if us == [] {
      assert Takes(p, us) == [] && Gained(score, q, us) == {} && q.owned + {} == q.owned;
      assert s.procs[p := q] == s.procs;
    } else {
      var t := s.(procs := s.procs[p := AfterTake(score, q, us[0])]);
      GainedNext(score, q, us);
      TakesExactly(slots, score, t, p, us[1..]);
      assert Takes(p, us)[0] == Take(p, us[0]) && Takes(p, us)[1..] == Takes(p, us[1..]);
      assert t.procs[p := q.(owned := q.owned + Gained(score, q, us))] == s.procs[p := q.(owned := q.owned + Gained(score, q, us))];
    }
  }

  // A tick that gets through, trying every unit there is, ends owning exactly what its slot is
  // assigned of the view it read and is not still on its way out; a process that is no member,
  // or not among the slots it read as live, ends owning nothing.
  lemma TickOwnsTargets(slots: nat, score: Score, s: Sys, p: nat, configured: set<Bytes>, extra: set<Bytes>, us: seq<Bytes>) returns (r: Proc)
    requires SysOK(score, s) && Enabled(slots, s, GiveUp(p, configured, extra)) && Elements(us) == configured + extra
    ensures Reaches(slots, score, Do(slots, score, s, GiveUp(p, configured, extra)), Takes(p, us), s.(procs := s.procs[p := r]))
    ensures var q, view := s.procs[p], View(s.procs[p].phase.live, configured, extra);
      && r.owned == (if q.member.Some? && q.slot in view.live then Targets(score, view, q.slot) else {}) - q.releasing
      && r.releasing == q.releasing + (q.owned - r.owned)
  {
    var t := Do(slots, score, s, GiveUp(p, configured, extra));
    var q := s.procs[p];
    var view := View(q.phase.live, configured, extra);
    var gave := t.procs[p];
    TakesExactly(slots, score, t, p, us);
    r := gave.(owned := gave.owned + Gained(score, gave, us));
    assert t.procs[p := r] == s.procs[p := r];
    assert ProcOK(score, p, q);
    TargetsAreUnits(score, view, q.slot);
    var targets := Allowed(score, gave.acted);
    GainedAll(score, gave, us, targets);
    KeptAndGained(q.owned, q.releasing, targets);
  }

  lemma GainedAll(score: Score, q: Proc, us: seq<Bytes>, targets: set<Bytes>)
    requires targets == Allowed(score, q.acted) && targets <= Elements(us)
    ensures Gained(score, q, us) == targets - q.releasing
  {
    forall u | u in targets - q.releasing ensures u in Gained(score, q, us) {
      assert u in Elements(us);
    }
  }

  lemma KeptAndGained(owned: set<Bytes>, releasing: set<Bytes>, targets: set<Bytes>)
    requires owned !! releasing
    ensures owned * targets + (targets - (releasing + (owned - targets))) == targets - releasing
    ensures releasing + (owned - targets) == releasing + (owned - (targets - releasing))
  {}

  lemma TargetsAreUnits(score: Score, v: View, slot: nat)
    ensures Targets(score, v, slot) <= v.configured + v.extra
  {
    if v.live != {} {
      AssignmentIsFair(score, v.configured, v.live);
      AssignmentIsFair(score, v.extra, v.live);
    }
  }

  // Where every live slot of a view has a process that ended such a tick on it, with nothing on
  // its way out, every unit is owned by one of them.
  lemma EveryUnitIsOwned(score: Score, s: Sys, view: View, of: map<nat, nat>)
    requires view.live != {} && view.live <= of.Keys
    requires forall slot :: slot in view.live ==> of[slot] in s.procs && s.procs[of[slot]].owned == Targets(score, view, slot)
    ensures forall u :: u in view.configured + view.extra ==> exists slot :: slot in view.live && u in s.procs[of[slot]].owned
  {
    forall u | u in view.configured + view.extra ensures exists slot :: slot in view.live && u in s.procs[of[slot]].owned {
      EveryUnitIsATarget(score, view, u);
    }
  }

  /******* Why the membership acted under, and not the one held *******/

  ghost predicate Runs(score: Score, s: Sys, steps: seq<Step>, t: Sys) {
    Valid(2, score, s, steps) && Exec(2, score, s, steps) == t
  }

  lemma {:induction false} Then(score: Score, s: Sys, steps: seq<Step>, t: Sys, more: seq<Step>, u: Sys)
    requires Runs(score, s, steps, t) && Runs(score, t, more, u)
    ensures Runs(score, s, steps + more, u)
    decreases |steps|
  {
    if steps == [] {
      assert steps + more == more;
    } else {
      Then(score, Do(2, score, s, steps[0]), steps[1..], t, more, u);
      assert (steps + more)[1..] == steps[1..] + more;
    }
  }

  lemma Next(score: Score, s: Sys, steps: seq<Step>, t: Sys, step: Step)
    requires Runs(score, s, steps, t) && Enabled(2, t, step)
    ensures Runs(score, s, steps + [step], Do(2, score, t, step))
  {
    var u := Do(2, score, t, step);
    var one := [step];
    assert one[0] == step && one[1..] == [];
    assert Valid(2, score, u, one[1..]) && Exec(2, score, u, one[1..]) == u;
    assert Exec(2, score, t, one) == Exec(2, score, Do(2, score, t, one[0]), one[1..]);
    assert Runs(score, t, one, u);
    Then(score, s, steps, t, [step], u);
  }

  ghost function Alone(units: set<Bytes>): View {
    View({0}, units, {})
  }

  // A newcomer's first tick over a table nobody holds anything of, up to having read it.
  lemma FirstRead(score: Score, s: Sys, p: nat) returns (steps: seq<Step>, t: Sys, term: Term)
    requires p in s.procs && s.procs[p] == NEWCOMER && p in s.tb.handles && !s.tb.handles[p].closed && s.tb.s.held == map[]
    ensures Runs(score, s, steps, t)
    ensures t.tb == LeaseTable.Do(s.tb, TryAcquire(p, MemberLease(0))) && term == Term(p, MemberLease(0), TokenOf(s.tb.s, MemberLease(0)) + 1)
    ensures t.procs == s.procs[p := Proc(Some(term), 0, {}, {}, None, Reading({0, 1}, {0}))]
  {
    var q := NEWCOMER;
    term := Term(p, MemberLease(0), TokenOf(s.tb.s, MemberLease(0)) + 1);
    steps, t := [], s;
    Next(score, s, steps, t, BeginTick(p));
    steps, t := steps + [BeginTick(p)], s.(procs := s.procs[p := q.(phase := Joining(0))]);
    var joined := LeaseTable.Do(s.tb, TryAcquire(p, MemberLease(0)));
    q := q.(member := Some(term), slot := 0);
    Next(score, s, steps, t, Join(p));
    steps, t := steps + [Join(p)], Sys(joined, s.procs[p := q.(phase := READS)]);
    Next(score, s, steps, t, ReadSlot(p, 0));
    assert {} + {0} == {0} && {0} + {1} == {0, 1};
    assert Do(2, score, t, ReadSlot(p, 0)).procs[p] == q.(phase := Reading({0}, {0}));
    steps, t := steps + [ReadSlot(p, 0)], Sys(joined, s.procs[p := q.(phase := Reading({0}, {0}))]);
    OtherSlotFree(s.tb, p);
    Next(score, s, steps, t, ReadSlot(p, 1));
    assert Do(2, score, t, ReadSlot(p, 1)).procs[p] == q.(phase := Reading({0, 1}, {0}));
    steps, t := steps + [ReadSlot(p, 1)], Sys(joined, s.procs[p := q.(phase := Reading({0, 1}, {0}))]);
  }

  lemma NothingToGiveUp(q: Proc, acted: Acted, targets: set<Bytes>)
    requires q.owned == {} && q.releasing == {}
    ensures KeepOnly(q, acted, targets) == q.(acted := Some(acted), phase := Taking)
  {}

  lemma FirstTaken(score: Score, q: Proc, units: set<Bytes>, u: Bytes)
    requires q.owned == {} && q.releasing == {} && q.member.Some? && q.acted == Some(Acted(q.member, 0, Alone(units))) && u in units
    ensures AfterTake(score, q, u) == q.(owned := {u})
  {
    AloneOwnsAll(score, units, u);
  }

  // The rest of it, taking one unit.
  lemma FirstTake(score: Score, s: Sys, p: nat, term: Term, units: set<Bytes>, u: Bytes) returns (steps: seq<Step>, t: Sys)
    requires u in units && p in s.procs && s.procs[p] == Proc(Some(term), 0, {}, {}, None, Reading({0, 1}, {0}))
    ensures Runs(score, s, steps, t) && t.tb == s.tb
    ensures t.procs == s.procs[p := Proc(Some(term), 0, {u}, {}, Some(Acted(Some(term), 0, Alone(units))), Resting)]
  {
    var gave := s.(procs := s.procs[p := s.procs[p].(acted := Some(Acted(Some(term), 0, Alone(units))), phase := Taking)]);
    var took := gave.(procs := gave.procs[p := gave.procs[p].(owned := {u})]);
    t := took.(procs := took.procs[p := took.procs[p].(phase := Resting)]);
    FirstTakeEffects(score, s, gave, took, p, term, units, u);
    steps := [] + [GiveUp(p, units, {})] + [Take(p, u)] + [EndTick(p)];
    ThreeSteps(score, s, gave, took, t, GiveUp(p, units, {}), Take(p, u), EndTick(p));
  }

  lemma FirstTakeEffects(score: Score, s: Sys, gave: Sys, took: Sys, p: nat, term: Term, units: set<Bytes>, u: Bytes)
    requires u in units && p in s.procs && s.procs[p] == Proc(Some(term), 0, {}, {}, None, Reading({0, 1}, {0}))
    requires gave == s.(procs := s.procs[p := s.procs[p].(acted := Some(Acted(Some(term), 0, Alone(units))), phase := Taking)])
    requires took == gave.(procs := gave.procs[p := gave.procs[p].(owned := {u})])
    ensures Enabled(2, s, GiveUp(p, units, {})) && Do(2, score, s, GiveUp(p, units, {})) == gave
    ensures Do(2, score, gave, Take(p, u)) == took
  {
    GiveUpIs(score, s, p, units);
    TakeIs(score, gave, p, units, u);
  }

  lemma GiveUpIs(score: Score, s: Sys, p: nat, units: set<Bytes>)
    requires Enabled(2, s, GiveUp(p, units, {})) && s.procs[p].owned == {} && s.procs[p].releasing == {}
    ensures var q := s.procs[p];
      Do(2, score, s, GiveUp(p, units, {})) == s.(procs := s.procs[p := q.(acted := Some(Acted(q.member, q.slot, View(q.phase.live, units, {}))), phase := Taking)])
  {
    var q := s.procs[p];
    var acted := Acted(q.member, q.slot, View(q.phase.live, units, {}));
    NothingToGiveUp(q, acted, Allowed(score, Some(acted)));
  }

  lemma TakeIs(score: Score, s: Sys, p: nat, units: set<Bytes>, u: Bytes)
    requires p in s.procs && s.procs[p].phase.Taking? && u in units
    requires var q := s.procs[p]; q.owned == {} && q.releasing == {} && q.member.Some? && q.acted == Some(Acted(q.member, 0, Alone(units)))
    ensures Do(2, score, s, Take(p, u)) == s.(procs := s.procs[p := s.procs[p].(owned := {u})])
  {
    FirstTaken(score, s.procs[p], units, u);
  }

  lemma ThreeSteps(score: Score, s: Sys, a: Sys, b: Sys, c: Sys, x: Step, y: Step, z: Step)
    requires Enabled(2, s, x) && Do(2, score, s, x) == a
    requires Enabled(2, a, y) && Do(2, score, a, y) == b
    requires Enabled(2, b, z) && Do(2, score, b, z) == c
    ensures Runs(score, s, [] + [x] + [y] + [z], c)
  {
    Next(score, s, [], s, x);
    Next(score, s, [] + [x], a, y);
    Next(score, s, [] + [x] + [y], b, z);
  }

  lemma FirstTick(score: Score, s: Sys, p: nat, units: set<Bytes>, u: Bytes) returns (steps: seq<Step>, t: Sys, term: Term)
    requires u in units && p in s.procs && s.procs[p] == NEWCOMER && p in s.tb.handles && !s.tb.handles[p].closed && s.tb.s.held == map[]
    ensures Runs(score, s, steps, t)
    ensures t.tb == LeaseTable.Do(s.tb, TryAcquire(p, MemberLease(0))) && term == Term(p, MemberLease(0), TokenOf(s.tb.s, MemberLease(0)) + 1)
    ensures t.procs == s.procs[p := Proc(Some(term), 0, {u}, {}, Some(Acted(Some(term), 0, Alone(units))), Resting)]
  {
    var mid, more;
    steps, mid, term := FirstRead(score, s, p);
    more, t := FirstTake(score, mid, p, term, units, u);
    Then(score, s, steps, mid, more, t);
    steps := steps + more;
  }

  lemma OtherSlotFree(tb: Table, p: nat)
    requires p in tb.handles && tb.s.held == map[]
    ensures MemberLease(1) !in LeaseTable.Do(tb, TryAcquire(p, MemberLease(0))).s.held && MemberLease(1) != MemberLease(0)
  {
    if MemberLease(1) == MemberLease(0) {
      MemberLeaseInjective(1, 0);
    }
  }

  lemma AloneOwnsAll(score: Score, units: set<Bytes>, u: Bytes)
    requires u in units
    ensures u in Targets(score, Alone(units), 0)
  {
    EveryUnitIsATarget(score, Alone(units), u);
  }

  // The table after its only term lapsed, and after another process took the slot.
  lemma RejoinElsewhere(score: Score, s: Sys, p: nat, term: Term) returns (steps: seq<Step>, t: Sys, again: Term)
    requires p in s.procs && p in s.tb.handles && !s.tb.handles[p].closed && s.procs[p].phase.Resting? && s.procs[p].member == Some(term)
    requires term.owner == p && !Live(s.tb, term) && MemberLease(0) in s.tb.s.held && MemberLease(1) !in s.tb.s.held
    ensures Runs(score, s, steps, t) && Live(t.tb, again) && t.procs == s.procs[p := s.procs[p].(member := Some(again), slot := 1)]
    ensures forall x :: Live(s.tb, x) ==> Live(t.tb, x)
  {
    var q := s.procs[p];
    steps, t := [], s;
    Next(score, s, steps, t, BeginTick(p));
    steps, t := steps + [BeginTick(p)], s.(procs := s.procs[p := q.(member := None, phase := Joining(0))]);
    Next(score, s, steps, t, Join(p));
    HeldIsUnchanged(s.tb, p);
    steps, t := steps + [Join(p)], s.(procs := s.procs[p := q.(member := None, phase := Joining(1))]);
    again := Term(p, MemberLease(1), TokenOf(s.tb.s, MemberLease(1)) + 1);
    var joined := LeaseTable.Do(s.tb, TryAcquire(p, MemberLease(1)));
    q := q.(member := Some(again), slot := 1);
    Next(score, s, steps, t, Join(p));
    steps, t := steps + [Join(p)], Sys(joined, s.procs[p := q.(phase := READS)]);
    Next(score, s, steps, t, ReadFails(p));
    steps, t := steps + [ReadFails(p)], Sys(joined, s.procs[p := q]);
  }

  lemma HeldIsUnchanged(tb: Table, p: nat)
    requires p in tb.handles && !tb.handles[p].closed && MemberLease(0) in tb.s.held
    ensures LeaseTable.Do(tb, TryAcquire(p, MemberLease(0))) == tb
  {
    assert tb.handles[p := tb.handles[p]] == tb.handles;
  }

  lemma TwoProcesses(score: Score) returns (steps: seq<Step>, t: Sys)
    ensures Runs(score, NOBODY, steps, t)
    ensures t.tb == Table(Shared(map[], map[]), map[1 := Handle(false, {}), 2 := Handle(false, {})], {}) && t.procs == map[1 := NEWCOMER, 2 := NEWCOMER]
  {
    var one := Table(Shared(map[], map[]), map[1 := Handle(false, {})], {});
    var two := Table(Shared(map[], map[]), map[1 := Handle(false, {}), 2 := Handle(false, {})], {});
    steps, t := [], NOBODY;
    Next(score, NOBODY, steps, t, Env(Peer(1)));
    steps, t := steps + [Env(Peer(1))], Sys(one, map[]);
    Next(score, NOBODY, steps, t, Env(Peer(2)));
    steps, t := steps + [Env(Peer(2))], Sys(two, map[]);
    Next(score, NOBODY, steps, t, Start(1));
    steps, t := steps + [Start(1)], Sys(two, map[1 := NEWCOMER]);
    Next(score, NOBODY, steps, t, Start(2));
    steps, t := steps + [Start(2)], Sys(two, map[1 := NEWCOMER, 2 := NEWCOMER]);
  }

  // A process that lost its slot, joined again under another and could not read the members
  // holds a live membership, last acted on the same view as its successor, and still owns what
  // the successor owns.
  lemma RejoinedProcessMayOverlap(score: Score, units: set<Bytes>) returns (steps: seq<Step>, s: Sys)
    requires units != {}
    ensures Valid(2, score, NOBODY, steps) && s == Exec(2, score, NOBODY, steps) && 1 in s.procs && 2 in s.procs
    ensures s.procs[1].member.Some? && Live(s.tb, s.procs[1].member.value) && s.procs[2].member.Some? && Live(s.tb, s.procs[2].member.value)
    ensures s.procs[1].acted.Some? && s.procs[2].acted.Some? && s.procs[1].acted.value.view == s.procs[2].acted.value.view
    ensures !(s.procs[1].owned !! s.procs[2].owned)
  {
    var u :| u in units;
    steps, s := TwoProcesses(score);
    var more, t, first := FirstTick(score, s, 1, units, u);
    Then(score, NOBODY, steps, s, more, t);
    steps, s := steps + more, t;
    Next(score, NOBODY, steps, s, Env(Resign(first)));
    steps, s := steps + [Env(Resign(first))], Do(2, score, s, Env(Resign(first)));
    assert s.tb.s.held == map[];
    var second;
    more, t, second := FirstTick(score, s, 2, units, u);
    Then(score, NOBODY, steps, s, more, t);
    OtherSlotFree(s.tb, 2);
    steps, s := steps + more, t;
    var again;
    more, t, again := RejoinElsewhere(score, s, 1, first);
    Then(score, NOBODY, steps, s, more, t);
    assert Live(s.tb, second);
    steps, s := steps + more, t;
    assert u in s.procs[1].owned && u in s.procs[2].owned;
  }
}
