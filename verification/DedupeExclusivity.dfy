/** Exclusivity of a claim in the dedupe protocol: who may drop it, and for how long no other
    request is given its key. */
module DedupeExclusivity {
  import opened Common
  import opened Bytes
  import opened DedupeStore
  import opened IngestWindow
  import opened DedupeProtocol
  import Managed = DedupeManaged

  /******* A claim is held by one request, once *******/

  // Every claim a request may still commit, drop or release.
  ghost function Held(q: Req): multiset<Claim> {
    match q.phase
    case Reserving(_, _, got) => multiset(got)
    case Publishing(_) => multiset(ClaimsIn(q.recs))
    case Settling(drops, batches, releases, _) => multiset(drops) + multiset(Flatten(batches)) + multiset(releases)
    case _ => multiset{}
  }

  // c is r's: r holds it no more than once, nobody, r included, holds another claim under its
  // token, and no claim to come can have that token.
  ghost predicate OwnedBy(s: Sys, r: nat, c: Claim) {
    && c.token <= s.store.tokens
    && (r in s.reqs ==> Held(s.reqs[r])[c] <= 1)
    && (forall x, d :: x in s.reqs && d in Held(s.reqs[x]) && d.status == Claimed && d.token == c.token ==> x == r && d == c)
  }

  ghost predicate TokensOwned(s: Sys) {
    forall r, c :: r in s.reqs && c in Held(s.reqs[r]) && c.status == Claimed ==> OwnedBy(s, r, c)
  }

  lemma {:induction false} ClaimsInHas(recs: seq<Rec>, c: Claim)
    requires c in ClaimsIn(recs)
    ensures exists i :: 0 <= i < |recs| && HoldsClaim(recs[i]) && recs[i].claim.value == c
  {
    var n := |recs| - 1;
    if c in ClaimsIn(recs[..n]) {
      ClaimsInHas(recs[..n], c);
      var i :| 0 <= i < n && HoldsClaim(recs[..n][i]) && recs[..n][i].claim.value == c;
      assert recs[i] == recs[..n][i];
    }
  }

  lemma {:induction false} ClaimsInOnce(recs: seq<Rec>, c: Claim)
    requires forall i, j :: 0 <= i < j < |recs| && HoldsClaim(recs[i]) && HoldsClaim(recs[j]) && recs[i].claim.value == c ==> recs[j].claim.value != c
    ensures multiset(ClaimsIn(recs))[c] <= 1
  {
    if recs != [] {
      var n := |recs| - 1;
      ClaimsInOnce(recs[..n], c);
      if HoldsClaim(recs[n]) && recs[n].claim.value == c {
        NoneEarlier(recs, n, c);
      }
    }
  }

  lemma NoneEarlier(recs: seq<Rec>, n: nat, c: Claim)
    requires n < |recs| && forall i :: 0 <= i < n && HoldsClaim(recs[i]) ==> recs[i].claim.value != c
    ensures c !in ClaimsIn(recs[..n])
  {
    if c in ClaimsIn(recs[..n]) {
      ClaimsInHas(recs[..n], c);
    }
  }

  lemma {:induction false} ClaimsInQueued(recs: seq<Rec>, i: nat)
    requires i < |recs|
    ensures ClaimsIn(recs[i := recs[i].(queued := true)]) == ClaimsIn(recs)
  {
    var n := |recs| - 1;
    var after := recs[i := recs[i].(queued := true)];
    if i < n {
      ClaimsInQueued(recs[..n], i);
      assert after[..n] == recs[..n][i := recs[..n][i].(queued := true)];
    } else {
      assert after[..n] == recs[..n];
    }
  }

  // Where the publishes stop, every claim is in a batch or in what is left to release.
  lemma {:induction false} PartsConserve(recs: seq<Rec>, a: seq<Rec>, b: seq<Rec>)
    requires recs == a + b
    ensures multiset(Flatten(BatchesOf(a))) + multiset(ClaimsIn(b)) == multiset(ClaimsIn(recs))
  {
    BatchesKeepEveryClaim(a);
    ClaimsInAppend(a, b);
  }

  lemma {:induction false} TailHolds(x: seq<Rec>, b: seq<Rec>, c: Claim)
    ensures multiset(ClaimsIn(b))[c] <= multiset(ClaimsIn(x + b))[c]
  {
    ClaimsInAppend(x, b);
  }

  ghost predicate ReadyToTake(q: Req) {
    && AllAnswered(q) && (forall i :: 0 <= i < |q.recs| ==> Fresh(q.recs[i]))
    && (forall i :: 0 <= i < |q.phase.got| ==> q.phase.got[i].key == q.phase.unique[i])
  }

  ghost function Taken(q: Req): seq<Rec>
    requires AllAnswered(q)
  {
    Absorb(q.recs, KeyedIn(q.recs), Answers(q))
  }

  // A claim a record took is the store's own answer, for the first of its key.
  lemma TakenFrom(q: Req, i: nat, c: Claim) returns (j: nat)
    requires ReadyToTake(q) && i < |Taken(q)| && HoldsClaim(Taken(q)[i]) && Taken(q)[i].claim.value == c
    ensures j < |KeyedIn(q.recs)| && KeyedIn(q.recs)[j] == i && c in q.phase.got
    ensures KeysIn(q.recs)[j] == c.key && c.key !in KeysIn(q.recs)[..j]
  {
    var keyed, claims := KeyedIn(q.recs), Answers(q);
    AbsorbPointwise(q.recs, keyed, claims);
    assert i in keyed;
    j :| 0 <= j < |keyed| && keyed[j] == i;
    var f, g := AnswerFor(q, j);
    assert claims[j] == c;
    var k := Managed.IndexOf(q.phase.unique, KeysIn(q.recs)[j]);
    assert q.phase.got[k] == c;
  }

  lemma TakenApart(q: Req, i: nat, j: nat, c: Claim)
    requires ReadyToTake(q) && i < j < |Taken(q)| && HoldsClaim(Taken(q)[i]) && HoldsClaim(Taken(q)[j]) && Taken(q)[i].claim.value == c
    ensures Taken(q)[j].claim.value != c
  {
    if Taken(q)[j].claim.value == c {
      var x := TakenFrom(q, i, c);
      var y := TakenFrom(q, j, c);
    }
  }

  // Each answer is taken at most once: repeats of a key are duplicates.
  lemma AnswerTakenOnce(q: Req, c: Claim)
    requires ReadyToTake(q)
    ensures multiset(ClaimsIn(Taken(q)))[c] <= multiset(q.phase.got)[c]
  {
    var a := Taken(q);
    forall i, j | 0 <= i < j < |a| && HoldsClaim(a[i]) && HoldsClaim(a[j]) && a[i].claim.value == c ensures a[j].claim.value != c {
      TakenApart(q, i, j, c);
    }
    ClaimsInOnce(a, c);
    if c in ClaimsIn(a) {
      ClaimsInHas(a, c);
      var i :| 0 <= i < |a| && HoldsClaim(a[i]) && a[i].claim.value == c;
      var j := TakenFrom(q, i, c);
      assert c in multiset(q.phase.got);
    }
  }

  /******* No step hands a claim on *******/

  // The claim a step of r is given, if it is.
  predicate Grants(shard: Bytes -> nat, s: Sys, step: Step, r: nat, c: Claim)
    requires Enabled(s, step)
  {
    step.ReserveNext? && step.r == r && c.status == Claimed
    && var p := s.reqs[r].phase; ReserveKey(shard, s.store, p.unique[|p.got|], p.now, step.lease).claim == c
  }

  lemma ReserveDoneHolds(q: Req, c: Claim)
    requires ReadyToTake(q)
    ensures Held(AfterReserve(q))[c] <= Held(q)[c]
  {
    AnswerTakenOnce(q, c);
    HeldAfterReserve(q, AfterReserve(q), Taken(q));
  }

  lemma {:induction false} HeldAfterReserve(q: Req, t: Req, a: seq<Rec>)
    requires t.recs == a && (t.phase == Settling([], [], ClaimsIn(a), true) || t.phase == Publishing(0))
    ensures Held(t) == multiset(ClaimsIn(a))
  {
    assert Flatten([]) == [];
  }

  lemma AcceptedHolds(q: Req)
    requires q.phase.Publishing? && q.phase.next < |q.recs|
    ensures Held(AfterPublish(q, Accepted)) == Held(q)
  {
    ClaimsInQueued(q.recs, q.phase.next);
  }

  lemma {:induction false} StopHolds(q: Req, t: Req, a: seq<Rec>, x: seq<Rec>, b: seq<Rec>, c: Claim)
    requires q.phase.Publishing? && q.recs == a + (x + b) && t.phase == Settling([], BatchesOf(a), ClaimsIn(b), true)
    ensures Held(t)[c] <= Held(q)[c]
  {
    PartsConserve(q.recs, a, x + b);
    TailHolds(x, b, c);
  }

  lemma InTwo<T>(s: seq<T>, i: nat)
    requires i <= |s|
    ensures s == s[..i] + ([] + s[i..])
  {}

  lemma InThree<T>(s: seq<T>, i: nat)
    requires i < |s|
    ensures s == s[..i] + (s[i..i + 1] + s[i + 1..])
  {}

  lemma FullHolds(q: Req, c: Claim)
    requires q.phase.Publishing? && q.phase.next < |q.recs| && !Skipped(q.recs[q.phase.next])
    ensures Held(AfterPublish(q, QueueFull))[c] <= Held(q)[c]
  {
    var a, b := q.recs[..q.phase.next], q.recs[q.phase.next..];
    InTwo(q.recs, q.phase.next);
    StopHolds(q, AfterPublish(q, QueueFull), a, [], b, c);
  }

  lemma UncertainHolds(q: Req, c: Claim)
    requires q.phase.Publishing? && q.phase.next < |q.recs| && !Skipped(q.recs[q.phase.next])
    ensures Held(AfterPublish(q, Uncertain))[c] <= Held(q)[c]
  {
    var i := q.phase.next;
    var a, x, b := q.recs[..i], q.recs[i..i + 1], q.recs[i + 1..];
    InThree(q.recs, i);
    StopHolds(q, AfterPublish(q, Uncertain), a, x, b, c);
  }

  lemma PublishHolds(q: Req, answer: PublishAnswer, c: Claim)
    requires q.phase.Publishing? && q.phase.next < |q.recs|
    ensures Held(AfterPublish(q, answer))[c] <= Held(q)[c]
  {
    if answer == Accepted {
      AcceptedHolds(q);
    } else if !Skipped(q.recs[q.phase.next]) {
      FullHolds(q, c);
      UncertainHolds(q, c);
    }
  }

  lemma PublishDoneHolds(q: Req, c: Claim)
    requires q.phase.Publishing?
    ensures Held(q.(phase := Settling([], BatchesOf(q.recs), [], false)))[c] == Held(q)[c]
  {
    BatchesKeepEveryClaim(q.recs);
  }

  lemma SettlingHolds(q: Req)
    requires q.phase.Settling? && q.phase.batches != []
    ensures multiset(Flatten(q.phase.batches)) == multiset(q.phase.batches[0].claims) + multiset(Flatten(q.phase.batches[1..]))
  {}

  lemma DropHolds(drops: seq<Claim>)
    requires drops != []
    ensures multiset(drops) == multiset{drops[0]} + multiset(drops[1..])
  {
    assert drops == [drops[0]] + drops[1..];
  }

  // What a request holds only shrinks, but for what Reserve grants it; dropping takes one away.
  lemma HeldStep(shard: Bytes -> nat, s: Sys, step: Step, r: nat, c: Claim)
    requires Inv(s) && Enabled(s, step) && c.status == Claimed && r in s.reqs && !step.Crash?
    ensures var t := Do(shard, s, step);
      && r in t.reqs
      && Held(t.reqs[r])[c] <= Held(s.reqs[r])[c] + (if Grants(shard, s, step, r, c) then 1 else 0)
      && (step.Drop? && step.r == r && s.reqs[r].phase.drops[0] == c ==> Held(t.reqs[r])[c] < Held(s.reqs[r])[c])
  {
    if Actor(step) == Some(r) && !step.Arrive? {
      ActorHolds(shard, s, step, c);
    }
  }

  predicate Settles(step: Step) {
    step.CommitBatch? || step.BeginRelease? || step.Drop? || step.Finish?
  }

  lemma CommitHolds(q: Req, t: Req, c: Claim)
    requires q.phase.Settling? && q.phase.drops == [] && q.phase.batches != []
    requires t.phase.Settling? && t.phase == q.phase.(drops := t.phase.drops, batches := q.phase.batches[1..])
    requires t.phase.drops == q.phase.batches[0].claims || t.phase.drops == []
    ensures Held(t)[c] <= Held(q)[c]
  {
    SettlingHolds(q);
  }

  lemma DroppedHolds(q: Req, t: Req, c: Claim)
    requires q.phase.Settling? && q.phase.drops != [] && t.phase == q.phase.(drops := q.phase.drops[1..])
    ensures Held(t)[c] + (if q.phase.drops[0] == c then 1 else 0) == Held(q)[c]
  {
    DropHolds(q.phase.drops);
  }

  lemma ReleaseHolds(q: Req, t: Req, c: Claim)
    requires q.phase.Settling? && q.phase.drops == [] && t.phase.Settling? && t.phase == q.phase.(drops := t.phase.drops, releases := [])
    requires t.phase.drops == q.phase.releases || t.phase.drops == []
    ensures Held(t)[c] <= Held(q)[c]
  {}

  lemma SettleHolds(shard: Bytes -> nat, s: Sys, step: Step, c: Claim)
    requires Enabled(s, step) && Settles(step)
    ensures var t := Do(shard, s, step);
      && step.r in t.reqs && Held(t.reqs[step.r])[c] <= Held(s.reqs[step.r])[c]
      && (step.Drop? && s.reqs[step.r].phase.drops[0] == c ==> Held(t.reqs[step.r])[c] < Held(s.reqs[step.r])[c])
  {
    var q, t := s.reqs[step.r], Do(shard, s, step).reqs[step.r];
    match step
    case CommitBatch(_, _, _) => CommitHolds(q, t, c);
    case Drop(_) => DroppedHolds(q, t, c);
    case BeginRelease(_, _) => ReleaseHolds(q, t, c);
    case Finish(_) =>
  }

  lemma ReserveHolds(shard: Bytes -> nat, s: Sys, step: Step, c: Claim)
    requires Inv(s) && Enabled(s, step) && c.status == Claimed && step.ReserveNext?
    ensures var t := Do(shard, s, step);
      step.r in t.reqs && Held(t.reqs[step.r])[c] <= Held(s.reqs[step.r])[c] + (if Grants(shard, s, step, step.r, c) then 1 else 0)
  {}

  lemma ActorHolds(shard: Bytes -> nat, s: Sys, step: Step, c: Claim)
    requires Inv(s) && Enabled(s, step) && c.status == Claimed && Actor(step).Some? && step.r in s.reqs
    ensures var t := Do(shard, s, step);
      && step.r in t.reqs
      && Held(t.reqs[step.r])[c] <= Held(s.reqs[step.r])[c] + (if Grants(shard, s, step, step.r, c) then 1 else 0)
      && (step.Drop? && s.reqs[step.r].phase.drops[0] == c ==> Held(t.reqs[step.r])[c] < Held(s.reqs[step.r])[c])
  {
    if Settles(step) {
      SettleHolds(shard, s, step, c);
    } else if step.ReserveNext? {
      ReserveHolds(shard, s, step, c);
    } else {
      PassOnHolds(shard, s, step, c);
    }
  }

  lemma PassOnHolds(shard: Bytes -> nat, s: Sys, step: Step, c: Claim)
    requires Inv(s) && Enabled(s, step) && Actor(step).Some? && step.r in s.reqs && !Settles(step) && !step.ReserveNext?
    ensures var t := Do(shard, s, step); step.r in t.reqs && Held(t.reqs[step.r])[c] <= Held(s.reqs[step.r])[c]
  {
    var q := s.reqs[step.r];
    assert ReqOK(s, q);
    match step
    case SkipReserve(_) => NoClaims(q.recs);
    case ReserveFails(_) => assert Flatten([]) == [];
    case ReserveDone(_) => ReserveDoneHolds(q, c);
    case Publish(_, answer, _) => PublishHolds(q, answer, c);
    case PublishDone(_) => PublishDoneHolds(q, c);
    case _ =>
  }

  // Tokens are handed out in order.
  lemma TokensStep(shard: Bytes -> nat, s: Sys, step: Step)
    requires Enabled(s, step) && !step.Crash?
    ensures s.store.tokens <= Do(shard, s, step).store.tokens
    ensures forall r, c :: Grants(shard, s, step, r, c) ==> c.token == s.store.tokens + 1 == Do(shard, s, step).store.tokens
  {}

  // A claim that is r's stays r's.
  lemma OwnedStep(shard: Bytes -> nat, s: Sys, step: Step, r: nat, c: Claim)
    requires Inv(s) && Enabled(s, step) && !step.Crash? && c.status == Claimed && OwnedBy(s, r, c)
    ensures OwnedBy(Do(shard, s, step), r, c)
    ensures !Grants(shard, s, step, r, c)
  {
    var t := Do(shard, s, step);
    TokensStep(shard, s, step);
    if r in s.reqs {
      HeldStep(shard, s, step, r, c);
    }
    forall x, d | x in t.reqs && d in Held(t.reqs[x]) && d.status == Claimed && d.token == c.token ensures x == r && d == c {
      if x in s.reqs {
        HeldStep(shard, s, step, x, d);
      }
    }
  }

  lemma GrantOwned(shard: Bytes -> nat, s: Sys, step: Step, r: nat, c: Claim)
    requires Inv(s) && TokensOwned(s) && Enabled(s, step) && Grants(shard, s, step, r, c)
    ensures OwnedBy(Do(shard, s, step), r, c) && c in Held(Do(shard, s, step).reqs[r])
  {
    var t := Do(shard, s, step);
    TokensStep(shard, s, step);
    forall x, d | x in s.reqs && d in Held(s.reqs[x]) && d.status == Claimed ensures d.token < c.token {
      assert OwnedBy(s, x, d);
    }
    HeldStep(shard, s, step, r, c);
    forall x, d | x in t.reqs && d in Held(t.reqs[x]) && d.status == Claimed && d.token == c.token ensures x == r && d == c {
      HeldStep(shard, s, step, x, d);
    }
  }

  lemma TokensOwnedStep(shard: Bytes -> nat, s: Sys, step: Step)
    requires Inv(s) && TokensOwned(s) && Enabled(s, step)
    ensures TokensOwned(Do(shard, s, step))
  {
    var t := Do(shard, s, step);
    forall r, c | r in t.reqs && c in Held(t.reqs[r]) && c.status == Claimed ensures OwnedBy(t, r, c) {
      if r in s.reqs {
        HeldStep(shard, s, step, r, c);
        if Grants(shard, s, step, r, c) {
          GrantOwned(shard, s, step, r, c);
        } else {
          OwnedStep(shard, s, step, r, c);
        }
      }
    }
  }

  // In every reachable state each claim is one request's, once.
  lemma {:induction false} TokensOwnedRun(shard: Bytes -> nat, s: Sys, steps: seq<Step>)
    requires Inv(s) && TokensOwned(s) && Valid(shard, s, steps)
    ensures TokensOwned(Exec(shard, s, steps))
    decreases |steps|
  {
    if steps != [] {
      InvStep(shard, s, steps[0]);
      TokensOwnedStep(shard, s, steps[0]);
      TokensOwnedRun(shard, Do(shard, s, steps[0]), steps[1..]);
    }
  }

  /******* Exclusivity *******/

  // Some request's Reserve answers Claimed for k at this step.
  predicate Claims(shard: Bytes -> nat, s: Sys, step: Step, k: Bytes)
    requires Enabled(s, step)
  {
    && step.ReserveNext?
    && var p := s.reqs[step.r].phase;
       p.unique[|p.got|] == k && ReserveKey(shard, s.store, k, p.now, step.lease).claim.status == Claimed
  }

  predicate DropsClaim(s: Sys, step: Step, k: Bytes, token: nat)
    requires Enabled(s, step)
  {
    step.Drop? && s.reqs[step.r].phase.drops[0] == Claim(k, Claimed, token)
  }

  predicate Commits(s: Sys, step: Step, k: Bytes)
    requires Enabled(s, step)
  {
    step.CommitBatch? && step.ok && k in KeysOf(s.reqs[step.r].phase.batches[0].claims)
  }

  // When the retention of what a Commit writes ends, 0 being never: so long after the Commit read
  // its clock, and no later than int64 can say.
  function CommitExpiry(s: Sys, step: Step): int
    requires Enabled(s, step) && step.CommitBatch?
  {
    var retention := s.reqs[step.r].phase.batches[0].retention;
    if retention <= 0 then 0 else Smaller(step.at + retention, MAX_INT64)
  }

  ghost predicate NeverClaimed(shard: Bytes -> nat, s: Sys, steps: seq<Step>, k: Bytes)
    requires Valid(shard, s, steps)
    decreases |steps|
  {
    steps == [] || (!Claims(shard, s, steps[0], k) && NeverClaimed(shard, Do(shard, s, steps[0]), steps[1..], k))
  }

  // The claim is neither dropped nor lost with the process.
  ghost predicate KeepsClaim(shard: Bytes -> nat, s: Sys, steps: seq<Step>, k: Bytes, token: nat)
    requires Valid(shard, s, steps)
    decreases |steps|
  {
    steps == [] || (!steps[0].Crash? && !DropsClaim(s, steps[0], k, token) && KeepsClaim(shard, Do(shard, s, steps[0]), steps[1..], k, token))
  }

  // Every commit of k in the run expires no earlier than e.
  ghost predicate OnlyLonger(shard: Bytes -> nat, s: Sys, steps: seq<Step>, k: Bytes, e: int)
    requires Valid(shard, s, steps)
    decreases |steps|
  {
    steps == [] || ((Commits(s, steps[0], k) ==> NoEarlier(CommitExpiry(s, steps[0]), e)) && OnlyLonger(shard, Do(shard, s, steps[0]), steps[1..], k, e))
  }

  lemma {:induction false} ClockGrows(shard: Bytes -> nat, s: Sys, steps: seq<Step>)
    requires Valid(shard, s, steps)
    ensures s.clock <= Exec(shard, s, steps).clock
    decreases |steps|
  {
    if steps != [] {
      ClockGrows(shard, Do(shard, s, steps[0]), steps[1..]);
    }
  }

  ghost predicate NoCrash(steps: seq<Step>) {
    forall i :: 0 <= i < |steps| ==> !steps[i].Crash?
  }

  lemma {:induction false} GoneForGood(shard: Bytes -> nat, s: Sys, steps: seq<Step>, r: nat, c: Claim)
    requires Inv(s) && Valid(shard, s, steps) && NoCrash(steps) && c.status == Claimed && OwnedBy(s, r, c)
    requires r in s.reqs && c !in Held(s.reqs[r])
    ensures var t := Exec(shard, s, steps); r in t.reqs && c !in Held(t.reqs[r])
    decreases |steps|
  {
    if steps != [] {
      InvStep(shard, s, steps[0]);
      OwnedStep(shard, s, steps[0], r, c);
      HeldStep(shard, s, steps[0], r, c);
      GoneForGood(shard, Do(shard, s, steps[0]), steps[1..], r, c);
    }
  }

  lemma DropEnds(shard: Bytes -> nat, s: Sys, step: Step, r: nat, c: Claim)
    requires Inv(s) && Enabled(s, step) && c.status == Claimed && OwnedBy(s, r, c) && r in s.reqs
    requires DropsClaim(s, step, c.key, c.token)
    ensures step.r == r && r in Do(shard, s, step).reqs && c !in Held(Do(shard, s, step).reqs[r])
  {
    DropHolds(s.reqs[step.r].phase.drops);
    assert s.reqs[step.r].phase.drops[0] == c && c in Held(s.reqs[step.r]);
    HeldStep(shard, s, step, r, c);
  }

  // Nobody drops a claim its request still holds at the end: no stranger can, and once dropped
  // it does not come back.
  lemma {:induction false} HeldMeansKept(shard: Bytes -> nat, s: Sys, steps: seq<Step>, r: nat, c: Claim)
    requires Inv(s) && Valid(shard, s, steps) && NoCrash(steps) && c.status == Claimed && OwnedBy(s, r, c) && r in s.reqs
    requires var t := Exec(shard, s, steps); r in t.reqs && c in Held(t.reqs[r])
    ensures KeepsClaim(shard, s, steps, c.key, c.token)
    decreases |steps|
  {
    if steps != [] {
      var step := steps[0];
      InvStep(shard, s, step);
      OwnedStep(shard, s, step, r, c);
      HeldStep(shard, s, step, r, c);
      if DropsClaim(s, step, c.key, c.token) {
        DropEnds(shard, s, step, r, c);
        GoneForGood(shard, Do(shard, s, step), steps[1..], r, c);
      }
      HeldMeansKept(shard, Do(shard, s, step), steps[1..], r, c);
    }
  }

  lemma {:induction false} PendingWhileKept(shard: Bytes -> nat, s: Sys, steps: seq<Step>, k: Bytes, p: Pending)
    requires Inv(s) && Valid(shard, s, steps) && KeepsClaim(shard, s, steps, k, p.token)
    requires k in s.store.pending && s.store.pending[k] == p
    requires Exec(shard, s, steps).clock < p.expires
    ensures NeverClaimed(shard, s, steps, k)
    ensures k in Exec(shard, s, steps).store.pending && Exec(shard, s, steps).store.pending[k] == p
    decreases |steps|
  {
    if steps != [] {
      var step := steps[0];
      var t := Do(shard, s, step);
      ClockGrows(shard, s, steps);
      InvStep(shard, s, step);
      if step.ReserveNext? {
        var q := s.reqs[step.r];
        assert ReqOK(s, q);
        ClaimedExactlyWhen(shard, s.store, q.phase.unique[|q.phase.got|], q.phase.now, step.lease);
      }
      assert k in t.store.pending && t.store.pending[k] == p;
      PendingWhileKept(shard, t, steps[1..], k, p);
    }
  }

  // While its lease runs and its own request has not let go of it, a claim stays pending and
  // keeps every Reserve of its key in flight, whatever other requests do.
  lemma {:induction false} HeldWhileLeased(shard: Bytes -> nat, s: Sys, steps: seq<Step>, r: nat, c: Claim, expires: int)
    requires Inv(s) && Valid(shard, s, steps) && NoCrash(steps) && c.status == Claimed && OwnedBy(s, r, c) && r in s.reqs
    requires c.key in s.store.pending && s.store.pending[c.key] == Pending(c.token, expires)
    requires var t := Exec(shard, s, steps); t.clock < expires && r in t.reqs && c in Held(t.reqs[r])
    ensures NeverClaimed(shard, s, steps, c.key)
    ensures var t := Exec(shard, s, steps); c.key in t.store.pending && t.store.pending[c.key] == Pending(c.token, expires)
  {
    HeldMeansKept(shard, s, steps, r, c);
    PendingWhileKept(shard, s, steps, c.key, Pending(c.token, expires));
  }

  lemma RetainedStep(shard: Bytes -> nat, s: Sys, step: Step, k: Bytes, e: int)
    requires Inv(s) && Enabled(s, step) && (e == 0 || s.clock < e)
    requires k in s.store.db && s.store.db[k].Commit? && NoEarlier(s.store.db[k].exp, e)
    requires Commits(s, step, k) ==> NoEarlier(CommitExpiry(s, step), e)
    ensures !Claims(shard, s, step, k)
    ensures var t := Do(shard, s, step); k in t.store.db && t.store.db[k].Commit? && NoEarlier(t.store.db[k].exp, e)
  {
    if step.ReserveNext? {
      var q := s.reqs[step.r];
      assert ReqOK(s, q);
      ClaimedExactlyWhen(shard, s.store, q.phase.unique[|q.phase.got|], q.phase.now, step.lease);
    }
  }

  // While a commit's retention runs, no sweep removes it and every Reserve finds it.
  lemma {:induction false} KeptWhileRetained(shard: Bytes -> nat, s: Sys, steps: seq<Step>, k: Bytes, e: int)
    requires Inv(s) && Valid(shard, s, steps) && OnlyLonger(shard, s, steps, k, e)
    requires k in s.store.db && s.store.db[k].Commit? && NoEarlier(s.store.db[k].exp, e)
    requires e == 0 || Exec(shard, s, steps).clock < e
    ensures NeverClaimed(shard, s, steps, k)
    ensures var t := Exec(shard, s, steps); k in t.store.db && Live(t.store.db[k], t.clock)
    decreases |steps|
  {
    if steps != [] {
      ClockGrows(shard, s, steps);
      InvStep(shard, s, steps[0]);
      RetainedStep(shard, s, steps[0], k, e);
      KeptWhileRetained(shard, Do(shard, s, steps[0]), steps[1..], k, e);
    }
  }

  // The request given a claim commits it.
  ghost predicate CommitsOwn(s: Sys, commit: Step, r: nat, c: Claim)
    requires Enabled(s, commit)
  {
    commit.CommitBatch? && commit.ok && commit.r == r && c in s.reqs[r].phase.batches[0].claims
  }

  // reserve answers its request Claimed; before runs without a crash; and in m, where that leads,
  // the same request commits the claim while its lease still runs.
  ghost predicate CommitsInTime(shard: Bytes -> nat, s: Sys, reserve: Step, before: seq<Step>, m: Sys, commit: Step, c: Claim) {
    && Enabled(s, reserve) && reserve.ReserveNext? && Grants(shard, s, reserve, reserve.r, c)
    && Valid(shard, Do(shard, s, reserve), before) && NoCrash(before) && m == Exec(shard, Do(shard, s, reserve), before)
    && m.clock < s.reqs[reserve.r].phase.now + reserve.lease
    && Enabled(m, commit) && CommitsOwn(m, commit, reserve.r, c)
  }

  // after ends within a retention to e that no later commit of k shortens.
  ghost predicate Unshortened(shard: Bytes -> nat, s: Sys, after: seq<Step>, k: Bytes, e: int) {
    Valid(shard, s, after) && OnlyLonger(shard, s, after, k, e) && (e == 0 || Exec(shard, s, after).clock < e)
  }

  // A claim committed before its lease lapses is exclusive. In every run, from the Reserve that
  // answered Claimed to the same request's Commit of that claim, and on to the end of the
  // commit's retention, no Reserve answers Claimed for its key, between the batch write and the
  // dropping of the pending entry too; unless a later commit of the key (by a request whose own
  // claim had lapsed) expires earlier, which is LateCommitShortensRetention.
  lemma {:induction false} CommittedInTimeIsExclusive(shard: Bytes -> nat, start: Sys, run: seq<Step>, reserve: Step, before: seq<Step>, m: Sys, commit: Step, after: seq<Step>, c: Claim)
    requires Init(start) && Valid(shard, start, run)
    requires CommitsInTime(shard, Exec(shard, start, run), reserve, before, m, commit, c)
    requires Unshortened(shard, Do(shard, m, commit), after, c.key, CommitExpiry(m, commit))
    ensures NeverClaimed(shard, Do(shard, Exec(shard, start, run), reserve), before, c.key)
    ensures !Claims(shard, m, commit, c.key) && NeverClaimed(shard, Do(shard, m, commit), after, c.key)
  {
    var s := Exec(shard, start, run);
    EveryRunOwnsTokens(shard, start, run);
    ClaimedUntilCommit(shard, s, reserve, before, m, commit, c);
    InvStep(shard, s, reserve);
    InvRun(shard, Do(shard, s, reserve), before);
    CommittedIsHeld(m, commit, reserve.r, c);
    CommitStands(shard, m, commit, after, c.key);
  }

  // The first half, up to the commit.
  lemma {:induction false} ClaimedUntilCommit(shard: Bytes -> nat, s: Sys, reserve: Step, before: seq<Step>, m: Sys, commit: Step, c: Claim)
    requires Inv(s) && TokensOwned(s) && CommitsInTime(shard, s, reserve, before, m, commit, c)
    ensures NeverClaimed(shard, Do(shard, s, reserve), before, c.key)
  {
    var t, r := Do(shard, s, reserve), reserve.r;
    InvStep(shard, s, reserve);
    GrantOwned(shard, s, reserve, r, c);
    GrantPends(shard, s, reserve, c);
    GrantedRun(shard, t, before, m, commit, r, c, s.reqs[r].phase.now + reserve.lease);
  }

  // From the state the grant leaves.
  lemma {:induction false} GrantedRun(shard: Bytes -> nat, t: Sys, before: seq<Step>, m: Sys, commit: Step, r: nat, c: Claim, expires: int)
    requires Inv(t) && Valid(shard, t, before) && NoCrash(before) && c.status == Claimed && OwnedBy(t, r, c) && r in t.reqs
    requires c.key in t.store.pending && t.store.pending[c.key] == Pending(c.token, expires)
    requires m == Exec(shard, t, before) && m.clock < expires && Enabled(m, commit) && CommitsOwn(m, commit, r, c)
    ensures NeverClaimed(shard, t, before, c.key)
  {
    CommittedIsHeld(m, commit, r, c);
    HeldWhileLeased(shard, t, before, r, c, expires);
  }

  lemma GrantPends(shard: Bytes -> nat, s: Sys, reserve: Step, c: Claim)
    requires Enabled(s, reserve) && reserve.ReserveNext? && Grants(shard, s, reserve, reserve.r, c)
    ensures var t := Do(shard, s, reserve);
      c.key in t.store.pending && t.store.pending[c.key] == Pending(c.token, s.reqs[reserve.r].phase.now + reserve.lease)
  {}

  // The second, from it.
  lemma {:induction false} CommitStands(shard: Bytes -> nat, m: Sys, commit: Step, after: seq<Step>, k: Bytes)
    requires Inv(m) && Enabled(m, commit) && Commits(m, commit, k) && Unshortened(shard, Do(shard, m, commit), after, k, CommitExpiry(m, commit))
    ensures !Claims(shard, m, commit, k) && NeverClaimed(shard, Do(shard, m, commit), after, k)
  {
    InvStep(shard, m, commit);
    KeptWhileRetained(shard, Do(shard, m, commit), after, k, CommitExpiry(m, commit));
  }

  lemma CommittedIsHeld(s: Sys, commit: Step, r: nat, c: Claim)
    requires Enabled(s, commit) && CommitsOwn(s, commit, r, c)
    ensures c in Held(s.reqs[r]) && c.key in KeysOf(s.reqs[r].phase.batches[0].claims)
  {
    SettlingHolds(s.reqs[r]);
  }

  // The invariants above hold from every start.
  lemma {:induction false} EveryRunOwnsTokens(shard: Bytes -> nat, s: Sys, steps: seq<Step>)
    requires Init(s) && Valid(shard, s, steps)
    ensures Inv(Exec(shard, s, steps)) && TokensOwned(Exec(shard, s, steps))
  {
    InvRun(shard, s, steps);
    TokensOwnedRun(shard, s, steps);
  }

  // No request still holds a claim on k that it could commit.
  ghost predicate NoneOutstanding(q: Req, k: Bytes) {
    match q.phase
    case Reserving(_, _, got) => forall c :: c in got && c.key == k ==> c.status != Claimed
    case Publishing(_) => forall i :: 0 <= i < |q.recs| && HoldsClaim(q.recs[i]) ==> q.recs[i].claim.value.key != k
    case Settling(_, batches, _, _) => forall b, c :: b in batches && c in b.claims ==> c.key != k
    case _ => true
  }

  ghost predicate NoClaimOn(s: Sys, k: Bytes) {
    forall r :: r in s.reqs ==> NoneOutstanding(s.reqs[r], k)
  }

  lemma BatchesFromClaims(recs: seq<Rec>, i: nat, k: Bytes)
    requires i <= |recs| && forall j :: 0 <= j < |recs| && HoldsClaim(recs[j]) ==> recs[j].claim.value.key != k
    ensures forall b, c :: b in BatchesOf(recs[..i]) && c in b.claims ==> c.key != k
  {
    BatchesByRetention(recs[..i]);
    forall b, c | b in BatchesOf(recs[..i]) && c in b.claims ensures c.key != k {
      assert ClaimedUnder(recs[..i], c, b.retention);
      var j :| 0 <= j < |recs[..i]| && HoldsClaim(recs[..i][j]) && recs[..i][j].claim.value == c;
      assert recs[j] == recs[..i][j];
    }
  }

  lemma NoneAfterReserve(q: Req, k: Bytes)
    requires AllAnswered(q) && NoneOutstanding(q, k) && forall i :: 0 <= i < |q.recs| ==> Fresh(q.recs[i])
    ensures NoneOutstanding(AfterReserve(q), k)
  {
    var keyed, claims := KeyedIn(q.recs), Answers(q);
    var a := Absorb(q.recs, keyed, claims);
    AbsorbPointwise(q.recs, keyed, claims);
    forall i | 0 <= i < |a| && HoldsClaim(a[i]) ensures a[i].claim.value.key != k {
      assert i in keyed;
      var j :| 0 <= j < |keyed| && keyed[j] == i;
      var g := Managed.IndexOf(q.phase.unique, KeysIn(q.recs)[j]);
      assert claims[j] == q.phase.got[g];
    }
  }

  // Only a Reserve that answers Claimed makes a claim.
  lemma NoClaimStep(shard: Bytes -> nat, s: Sys, step: Step, k: Bytes)
    requires Inv(s) && Enabled(s, step) && NoClaimOn(s, k) && !Claims(shard, s, step, k)
    ensures NoClaimOn(Do(shard, s, step), k)
  {
    var t := Do(shard, s, step);
    forall r | r in t.reqs ensures NoneOutstanding(t.reqs[r], k) {
      if Actor(step) == Some(r) && !step.Arrive? {
        ActorNoClaim(shard, s, step, k);
      }
    }
  }

  lemma ActorNoClaim(shard: Bytes -> nat, s: Sys, step: Step, k: Bytes)
    requires Inv(s) && Enabled(s, step) && NoClaimOn(s, k) && !Claims(shard, s, step, k)
    requires Actor(step).Some? && !step.Arrive? && step.r in s.reqs && step.r in Do(shard, s, step).reqs
    ensures NoneOutstanding(Do(shard, s, step).reqs[step.r], k)
  {
    var q := s.reqs[step.r];
    assert ReqOK(s, q) && NoneOutstanding(q, k);
    if step.ReserveDone? {
      NoneAfterReserve(q, k);
    } else if step.Publish? {
      BatchesFromClaims(q.recs, q.phase.next, k);
    } else if step.PublishDone? {
      BatchesFromClaims(q.recs, |q.recs|, k);
      assert q.recs[..|q.recs|] == q.recs;
    }
  }

  lemma NoneCommits(s: Sys, step: Step, k: Bytes)
    requires Enabled(s, step) && NoClaimOn(s, k)
    ensures !Commits(s, step, k)
  {
    if step.CommitBatch? {
      var p := s.reqs[step.r].phase;
      assert NoneOutstanding(s.reqs[step.r], k) && p.batches[0] in p.batches;
    }
  }

  // With no other claim outstanding there is nothing to shorten it.
  lemma {:induction false} NoneLeftToShorten(shard: Bytes -> nat, s: Sys, steps: seq<Step>, k: Bytes, e: int)
    requires Inv(s) && Valid(shard, s, steps) && NoClaimOn(s, k)
    requires k in s.store.db && s.store.db[k].Commit? && NoEarlier(s.store.db[k].exp, e)
    requires e == 0 || Exec(shard, s, steps).clock < e
    ensures OnlyLonger(shard, s, steps, k, e)
    decreases |steps|
  {
    if steps != [] {
      var step := steps[0];
      var t := Do(shard, s, step);
      ClockGrows(shard, s, steps);
      InvStep(shard, s, step);
      NoneCommits(s, step, k);
      RetainedStep(shard, s, step, k, e);
      NoClaimStep(shard, s, step, k);
      NoneLeftToShorten(shard, t, steps[1..], k, e);
    }
  }

  // The same, with the exception replaced by a test at the commit itself: once no other
  // unsettled claim on the key is outstanding, the commit is exclusive for its retention in
  // every continuation.
  lemma {:induction false} SoleCommitIsExclusive(shard: Bytes -> nat, s: Sys, commit: Step, after: seq<Step>, k: Bytes)
    requires Inv(s) && Enabled(s, commit) && Commits(s, commit, k)
    requires NoClaimOn(Do(shard, s, commit), k)
    requires Valid(shard, Do(shard, s, commit), after)
    requires var e := CommitExpiry(s, commit); e == 0 || Exec(shard, Do(shard, s, commit), after).clock < e
    ensures NeverClaimed(shard, Do(shard, s, commit), after, k)
  {
    InvStep(shard, s, commit);
    NoneLeftToShorten(shard, Do(shard, s, commit), after, k, CommitExpiry(s, commit));
    KeptWhileRetained(shard, Do(shard, s, commit), after, k, CommitExpiry(s, commit));
  }
}
