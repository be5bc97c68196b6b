/** The ingest dedupe protocol: any number of requests, each a window running reserve, publish,
    commit and release over one embedded store, interleaved with the sweep and with crashes.
    A step is one lock-protected section or one call to the queue. */
module DedupeProtocol {
  import opened Common
  import opened Bytes
  import opened DedupeStore
  import opened IngestWindow
  import Managed = DedupeManaged

  datatype Phase =
    | Waiting
    | Reserving(now: int, unique: seq<Bytes>, got: seq<Claim>)
    | Publishing(next: nat)
    | Settling(drops: seq<Claim>, batches: seq<Batch>, releases: seq<Claim>, aborted: bool)
    | Finished(aborted: bool)

  datatype Req = Req(recs: seq<Rec>, phase: Phase)

  // published is every key some request's record went into the queue under.
  datatype Sys = Sys(store: Store, clock: int, published: set<Bytes>, reqs: map<nat, Req>)

  datatype Step =
    | Tick(d: nat)
    | Arrive(r: nat, recs: seq<Rec>)
    | SkipReserve(r: nat)                    // nothing keyed, or the store is switched off
    | StoreDown(r: nat)
    | BeginReserve(r: nat)                   // reads the clock, once for the whole Reserve
    | ReserveNext(r: nat, lease: nat)
    | ReserveFails(r: nat)
    | ReserveDone(r: nat)
    | Publish(r: nat, answer: PublishAnswer, landed: bool)
    | PublishDone(r: nat)
    | CommitBatch(r: nat, at: int, ok: bool) // at: when Commit read the clock
    | BeginRelease(r: nat, ok: bool)
    | Drop(r: nat)                           // one pending entry of a Commit or a Release
    | Finish(r: nat)
    | Sweep(candidates: set<Bytes>)          // whatever an unlocked scan proposed
    | Crash

  predicate Enabled(s: Sys, step: Step) {
    match step
    case Tick(_) => true
    case Sweep(_) => true
    case Crash => true
    case Arrive(r, recs) => r !in s.reqs && forall i :: 0 <= i < |recs| ==> Fresh(recs[i])
    case SkipReserve(r) => r in s.reqs && s.reqs[r].phase.Waiting?
    case StoreDown(r) => r in s.reqs && s.reqs[r].phase.Waiting?
    case BeginReserve(r) => r in s.reqs && s.reqs[r].phase.Waiting?
    case ReserveNext(r, _) => r in s.reqs && s.reqs[r].phase.Reserving? && |s.reqs[r].phase.got| < |s.reqs[r].phase.unique|
    case ReserveFails(r) => r in s.reqs && s.reqs[r].phase.Reserving?
    case ReserveDone(r) =>
      r in s.reqs && AllAnswered(s.reqs[r])
    case Publish(r, _, _) => r in s.reqs && s.reqs[r].phase.Publishing? && s.reqs[r].phase.next < |s.reqs[r].recs|
    case PublishDone(r) => r in s.reqs && s.reqs[r].phase.Publishing? && s.reqs[r].phase.next == |s.reqs[r].recs|
    case CommitBatch(r, at, _) => r in s.reqs && s.reqs[r].phase.Settling? && s.reqs[r].phase.drops == [] && s.reqs[r].phase.batches != [] && at <= s.clock
    case BeginRelease(r, _) => r in s.reqs && s.reqs[r].phase.Settling? && s.reqs[r].phase.drops == [] && s.reqs[r].phase.batches == []
    case Drop(r) => r in s.reqs && s.reqs[r].phase.Settling? && s.reqs[r].phase.drops != []
    case Finish(r) => r in s.reqs && s.reqs[r].phase.Settling? && s.reqs[r].phase.drops == [] && s.reqs[r].phase.batches == [] && s.reqs[r].phase.releases == []
  }

  function Key(rec: Rec): set<Bytes> {
    if rec.key.Some? then {rec.key.value} else {}
  }

  predicate AllAnswered(q: Req) {
    && q.phase.Reserving? && |q.phase.got| == |q.phase.unique|
    && forall k :: k in KeysIn(q.recs) ==> k in q.phase.unique
  }

  function Answers(q: Req): (r: seq<Claim>)
    requires AllAnswered(q)
    ensures |r| == |KeyedIn(q.recs)|
  {
    Managed.Spread(KeysIn(q.recs), Managed.ByKey(q.phase.unique, q.phase.got))
  }

  // What a request does at the end of its Reserve: take the answers, and abort if another
  // request holds one of its keys.
  function AfterReserve(q: Req): Req
    requires AllAnswered(q)
  {
    var a := Absorb(q.recs, KeyedIn(q.recs), Answers(q));
    Req(a, if SomeInFlight(a) then Settling([], [], ClaimsIn(a), true) else Publishing(0))
  }

  function AfterPublish(q: Req, answer: PublishAnswer): Req
    requires q.phase.Publishing? && q.phase.next < |q.recs|
  {
    var i := q.phase.next;
    if Skipped(q.recs[i]) then q.(phase := Publishing(i + 1))
    else
      match answer
      case Accepted => Req(q.recs[i := q.recs[i].(queued := true)], Publishing(i + 1))
      case QueueFull => q.(phase := Settling([], BatchesOf(q.recs[..i]), ClaimsIn(q.recs[i..]), true))
      case Uncertain => q.(phase := Settling([], BatchesOf(q.recs[..i]), ClaimsIn(q.recs[i + 1..]), true))
  }

  function Sent(q: Req, answer: PublishAnswer, landed: bool): set<Bytes>
    requires q.phase.Publishing? && q.phase.next < |q.recs|
  {
    var rec := q.recs[q.phase.next];
    if !Skipped(rec) && (answer == Accepted || (answer == Uncertain && landed)) then Key(rec) else {}
  }

  function Do(shard: Bytes -> nat, s: Sys, step: Step): Sys
    requires Enabled(s, step)
  {
    match step
    case Tick(d) => s.(clock := s.clock + d)
    case Arrive(r, recs) => s.(reqs := s.reqs[r := Req(recs, Waiting)])
    case SkipReserve(r) => s.(reqs := s.reqs[r := s.reqs[r].(phase := Publishing(0))])
    case StoreDown(r) => s.(reqs := s.reqs[r := s.reqs[r].(phase := Finished(true))])
    case BeginReserve(r) =>
      s.(reqs := s.reqs[r := s.reqs[r].(phase := Reserving(s.clock, Managed.Unique(KeysIn(s.reqs[r].recs)), []))])
    case ReserveNext(r, lease) =>
      var p := s.reqs[r].phase;
      var a := ReserveKey(shard, s.store, p.unique[|p.got|], p.now, lease);
      s.(store := a.store, reqs := s.reqs[r := s.reqs[r].(phase := p.(got := p.got + [a.claim]))])
    case ReserveFails(r) =>
      s.(reqs := s.reqs[r := s.reqs[r].(phase := Settling(s.reqs[r].phase.got, [], [], true))])
    case ReserveDone(r) => s.(reqs := s.reqs[r := AfterReserve(s.reqs[r])])
    case Publish(r, answer, landed) =>
      s.(published := s.published + Sent(s.reqs[r], answer, landed), reqs := s.reqs[r := AfterPublish(s.reqs[r], answer)])
    case PublishDone(r) =>
      s.(reqs := s.reqs[r := s.reqs[r].(phase := Settling([], BatchesOf(s.reqs[r].recs), [], false))])
    case CommitBatch(r, at, ok) =>
      var p := s.reqs[r].phase;
      var b := p.batches[0];
      if ok then
        s.(store := CommitWrite(s.store, b.claims, Expiry(at, b.retention)),
           reqs := s.reqs[r := s.reqs[r].(phase := p.(drops := b.claims, batches := p.batches[1..]))])
      else s.(reqs := s.reqs[r := s.reqs[r].(phase := p.(batches := p.batches[1..]))])
    case BeginRelease(r, ok) =>
      var p := s.reqs[r].phase;
      s.(reqs := s.reqs[r := s.reqs[r].(phase := p.(drops := if ok then p.releases else [], releases := []))])
    case Drop(r) =>
      var p := s.reqs[r].phase;
      s.(store := DropClaim(s.store, p.drops[0]), reqs := s.reqs[r := s.reqs[r].(phase := p.(drops := p.drops[1..]))])
    case Finish(r) => s.(reqs := s.reqs[r := s.reqs[r].(phase := Finished(s.reqs[r].phase.aborted))])
    case Sweep(candidates) => s.(store := SweepDelete(s.store, candidates, s.clock))
    case Crash => s.(store := Store(map[], map[], s.store.db, 0), reqs := map[])
  }

  ghost predicate Valid(shard: Bytes -> nat, s: Sys, steps: seq<Step>)
    decreases |steps|
  {
    steps == [] || (Enabled(s, steps[0]) && Valid(shard, Do(shard, s, steps[0]), steps[1..]))
  }

  ghost function Exec(shard: Bytes -> nat, s: Sys, steps: seq<Step>): Sys
    requires Valid(shard, s, steps)
    decreases |steps|
  {
    if steps == [] then s else Exec(shard, Do(shard, s, steps[0]), steps[1..])
  }

  // A process starts with no request and no claim; what its store holds was published.
  ghost predicate Init(s: Sys) {
    s.reqs == map[] && s.store.pending == map[] && forall k :: k in s.store.db && s.store.db[k].Commit? ==> k in s.published
  }

  /******* What every step keeps *******/

  // A duplicate rides on a published key, or on a claim this same window will publish.
  ghost predicate DuplicateBacked(published: set<Bytes>, recs: seq<Rec>, j: nat)
    requires j < |recs|
  {
    recs[j].key.Some? && (recs[j].key.value in published ||
      exists l :: 0 <= l < |recs| && HoldsClaim(recs[l]) && recs[l].key == recs[j].key)
  }

  ghost predicate DuplicatesPublished(published: set<Bytes>, recs: seq<Rec>) {
    forall j :: 0 <= j < |recs| && recs[j].duplicate ==> recs[j].key.Some? && recs[j].key.value in published
  }

  ghost predicate BatchesPublished(published: set<Bytes>, batches: seq<Batch>) {
    forall b, c :: b in batches && c in b.claims ==> c.key in published
  }

  ghost predicate PublishingOK(published: set<Bytes>, recs: seq<Rec>, next: nat) {
    && next <= |recs| && Publishable(recs, next)
    && (forall j :: 0 <= j < |recs| && HoldsClaim(recs[j]) ==> recs[j].key == Some(recs[j].claim.value.key))
    && (forall j :: 0 <= j < |recs| && recs[j].queued && recs[j].key.Some? ==> recs[j].key.value in published)
    && (forall j :: 0 <= j < |recs| && recs[j].duplicate ==> DuplicateBacked(published, recs, j))
  }

  ghost predicate ReqOK(s: Sys, q: Req) {
    match q.phase
    case Waiting => forall i :: 0 <= i < |q.recs| ==> Fresh(q.recs[i])
    case Reserving(now, unique, got) =>
      && (forall i :: 0 <= i < |q.recs| ==> Fresh(q.recs[i]))
      && now <= s.clock && unique == Managed.Unique(KeysIn(q.recs)) && |got| <= |unique|
      && (forall i :: 0 <= i < |got| ==> got[i].key == unique[i] && (got[i].status == Duplicate ==> got[i].key in s.published))
    case Publishing(next) => PublishingOK(s.published, q.recs, next)
    case Settling(_, batches, _, aborted) =>
      BatchesPublished(s.published, batches) && (!aborted ==> DuplicatesPublished(s.published, q.recs))
    case Finished(aborted) => !aborted ==> DuplicatesPublished(s.published, q.recs)
  }

  ghost predicate Inv(s: Sys) {
    && (forall k :: k in s.store.db && s.store.db[k].Commit? ==> k in s.published)
    && (forall r :: r in s.reqs ==> ReqOK(s, s.reqs[r]))
  }

  // What was published stays published, and the clock does not go back.
  lemma ReqStaysOK(s: Sys, t: Sys, q: Req)
    requires ReqOK(s, q) && s.published <= t.published && s.clock <= t.clock
    ensures ReqOK(t, q)
  {
    if q.phase.Publishing? {
      forall j | 0 <= j < |q.recs| && q.recs[j].duplicate ensures DuplicateBacked(t.published, q.recs, j) {
        assert DuplicateBacked(s.published, q.recs, j);
      }
    }
  }

  lemma {:induction false} KeysInAt(recs: seq<Rec>, j: nat)
    requires j < |KeyedIn(recs)|
    ensures recs[KeyedIn(recs)[j]].key == Some(KeysIn(recs)[j])
  {}

  // Each answer is for its key, and some answer for that key is the store's own.
  lemma AnswerFor(q: Req, j: nat) returns (f: nat, g: nat)
    requires AllAnswered(q) && j < |KeyedIn(q.recs)|
    requires forall i :: 0 <= i < |q.phase.got| ==> q.phase.got[i].key == q.phase.unique[i]
    ensures Answers(q)[j].key == KeysIn(q.recs)[j]
    ensures f <= j && KeysIn(q.recs)[f] == KeysIn(q.recs)[j]
    ensures g < |q.phase.got| && Answers(q)[f] == q.phase.got[g] && q.phase.got[g].key == KeysIn(q.recs)[j]
  {
    var keys := KeysIn(q.recs);
    FirstOccurrence(keys, j);
    f :| 0 <= f <= j && keys[f] == keys[j] && keys[f] !in keys[..f];
    assert keys[f] in keys;
    g := Managed.IndexOf(q.phase.unique, keys[f]);
  }

  lemma ClaimIsForKey(s: Sys, q: Req, i: nat)
    requires ReqOK(s, q) && AllAnswered(q)
    requires var a := Absorb(q.recs, KeyedIn(q.recs), Answers(q)); i < |a| && HoldsClaim(a[i])
    ensures var a := Absorb(q.recs, KeyedIn(q.recs), Answers(q)); a[i].key == Some(a[i].claim.value.key)
  {
    var keyed := KeyedIn(q.recs);
    AbsorbPointwise(q.recs, keyed, Answers(q));
    assert i in keyed;
    var j :| 0 <= j < |keyed| && keyed[j] == i;
    KeysInAt(q.recs, j);
    var f, g := AnswerFor(q, j);
  }

  // Every answer taken, nothing in flight: each duplicate is backed.
  lemma ReserveDoneOK(s: Sys, q: Req)
    requires ReqOK(s, q) && AllAnswered(q)
    ensures ReqOK(s, AfterReserve(q))
  {
    var keyed, claims := KeyedIn(q.recs), Answers(q);
    var a := Absorb(q.recs, keyed, claims);
    AbsorbedPublishable(q.recs, claims);
    AbsorbPointwise(q.recs, keyed, claims);
    if !SomeInFlight(a) {
      forall i | 0 <= i < |a| && HoldsClaim(a[i]) ensures a[i].key == Some(a[i].claim.value.key) {
        ClaimIsForKey(s, q, i);
      }
      forall i | 0 <= i < |a| && a[i].duplicate ensures DuplicateBacked(s.published, a, i) {
        BackedAfterReserve(s, q, i);
      }
      assert forall i :: 0 <= i < |a| ==> !a[i].queued;
    }
  }

  lemma BackedAfterReserve(s: Sys, q: Req, i: nat)
    requires ReqOK(s, q) && AllAnswered(q)
    requires var a := Absorb(q.recs, KeyedIn(q.recs), Answers(q)); !SomeInFlight(a) && i < |a| && a[i].duplicate
    ensures DuplicateBacked(s.published, Absorb(q.recs, KeyedIn(q.recs), Answers(q)), i)
  {
    var keyed, claims := KeyedIn(q.recs), Answers(q);
    var a := Absorb(q.recs, keyed, claims);
    AbsorbPointwise(q.recs, keyed, claims);
    assert i in keyed;
    var j :| 0 <= j < |keyed| && keyed[j] == i;
    var f, g := AnswerFor(q, j);
    var l, c := keyed[f], q.phase.got[g];
    assert a[l] == Answer(q.recs[l], c) && a[i] == Answer(q.recs[i], claims[j]);
    KeysInAt(q.recs, j);
    KeysInAt(q.recs, f);
    assert c.status != InFlight;
    BackedBy(s.published, a, i, l, q.recs[l], c);
  }

  // The window's first record under the key has the store's own answer, and is backed by it.
  lemma BackedBy(published: set<Bytes>, a: seq<Rec>, i: nat, l: nat, rec: Rec, c: Claim)
    requires i < |a| && l < |a| && a[l] == Answer(rec, c) && a[l].key == Some(c.key) == a[i].key
    requires c.status != InFlight && (c.status == Duplicate ==> c.key in published)
    ensures DuplicateBacked(published, a, i)
  {}

  lemma {:induction false} FirstOccurrence(keys: seq<Bytes>, j: nat)
    requires j < |keys|
    ensures exists f :: 0 <= f <= j && keys[f] == keys[j] && keys[f] !in keys[..f]
  {
    if keys[j] in keys[..j] {
      var i :| 0 <= i < j && keys[..j][i] == keys[j];
      FirstOccurrence(keys, i);
    }
  }

  lemma PublishOK(s: Sys, q: Req, answer: PublishAnswer, landed: bool)
    requires ReqOK(s, q) && q.phase.Publishing? && q.phase.next < |q.recs|
    ensures ReqOK(s.(published := s.published + Sent(q, answer, landed)), AfterPublish(q, answer))
  {
    var i := q.phase.next;
    var t := s.(published := s.published + Sent(q, answer, landed));
    ReqStaysOK(s, t, q);
    if !Skipped(q.recs[i]) {
      if answer == Accepted {
        var recs := q.recs[i := q.recs[i].(queued := true)];
        forall j | 0 <= j < |recs| && recs[j].duplicate ensures DuplicateBacked(t.published, recs, j) {
          assert DuplicateBacked(t.published, q.recs, j);
          if q.recs[j].key.value !in t.published {
            var l :| 0 <= l < |q.recs| && HoldsClaim(q.recs[l]) && q.recs[l].key == q.recs[j].key;
            assert HoldsClaim(recs[l]) && recs[l].key == recs[j].key;
          }
        }
      } else {
        CommitsArePublished(t.published, q.recs, i);
      }
    }
  }

  // Only published claims are handed to Commit.
  lemma CommitsArePublished(published: set<Bytes>, recs: seq<Rec>, i: nat)
    requires PublishingOK(published, recs, i)
    ensures BatchesPublished(published, BatchesOf(recs[..i]))
  {
    var bs := BatchesOf(recs[..i]);
    BatchesByRetention(recs[..i]);
    forall b, c | b in bs && c in b.claims ensures c.key in published {
      assert ClaimedUnder(recs[..i], c, b.retention);
      var j :| 0 <= j < |recs[..i]| && HoldsClaim(recs[..i][j]) && recs[..i][j].claim.value == c;
      assert recs[j] == recs[..i][j];
    }
  }

  lemma PublishDoneOK(s: Sys, q: Req)
    requires ReqOK(s, q) && q.phase.Publishing? && q.phase.next == |q.recs|
    ensures BatchesPublished(s.published, BatchesOf(q.recs)) && DuplicatesPublished(s.published, q.recs)
  {
    CommitsArePublished(s.published, q.recs, |q.recs|);
    assert q.recs[..|q.recs|] == q.recs;
    forall j | 0 <= j < |q.recs| && q.recs[j].duplicate ensures q.recs[j].key.Some? && q.recs[j].key.value in s.published {
      assert DuplicateBacked(s.published, q.recs, j);
    }
  }

  // The request a step belongs to.
  function Actor(step: Step): Option<nat> {
    match step
    case Tick(_) => None
    case Sweep(_) => None
    case Crash => None
    case _ => Some(step.r)
  }

  lemma ReserveNextOK(shard: Bytes -> nat, s: Sys, step: Step)
    requires Inv(s) && Enabled(s, step) && step.ReserveNext?
    ensures var t := Do(shard, s, step); step.r in t.reqs && ReqOK(t, t.reqs[step.r])
  {
    var q := s.reqs[step.r];
    assert ReqOK(s, q);
    var k := q.phase.unique[|q.phase.got|];
    ClaimedExactlyWhen(shard, s.store, k, q.phase.now, step.lease);
  }

  lemma PublishStepOK(shard: Bytes -> nat, s: Sys, step: Step)
    requires Inv(s) && Enabled(s, step) && step.Publish?
    ensures var t := Do(shard, s, step); step.r in t.reqs && ReqOK(t, t.reqs[step.r])
  {
    var t := Do(shard, s, step);
    PublishOK(s, s.reqs[step.r], step.answer, step.landed);
    ReqStaysOK(s.(published := t.published), t, t.reqs[step.r]);
  }

  // A step that only starts or ends a phase.
  lemma PhaseStepOK(shard: Bytes -> nat, s: Sys, step: Step)
    requires Inv(s) && Enabled(s, step)
    requires step.Arrive? || step.SkipReserve? || step.StoreDown? || step.BeginReserve? || step.ReserveFails?
    ensures var t := Do(shard, s, step); step.r in t.reqs && ReqOK(t, t.reqs[step.r])
  {
    if !step.Arrive? {
      assert ReqOK(s, s.reqs[step.r]);
    }
  }

  lemma SettleStepOK(shard: Bytes -> nat, s: Sys, step: Step)
    requires Inv(s) && Enabled(s, step)
    requires step.CommitBatch? || step.BeginRelease? || step.Drop? || step.Finish?
    ensures var t := Do(shard, s, step); step.r in t.reqs && ReqOK(t, t.reqs[step.r])
  {
    var q := s.reqs[step.r];
    assert ReqOK(s, q);
    if step.CommitBatch? {
      assert forall b :: b in q.phase.batches[1..] ==> b in q.phase.batches;
    }
  }

  lemma ActorStaysOK(shard: Bytes -> nat, s: Sys, step: Step)
    requires Inv(s) && Enabled(s, step) && Actor(step).Some?
    ensures var t := Do(shard, s, step); step.r in t.reqs && ReqOK(t, t.reqs[step.r])
  {
    if step.ReserveNext? {
      ReserveNextOK(shard, s, step);
    } else if step.Publish? {
      PublishStepOK(shard, s, step);
    } else if step.ReserveDone? {
      ReserveDoneOK(s, s.reqs[step.r]);
    } else if step.PublishDone? {
      PublishDoneOK(s, s.reqs[step.r]);
    } else if step.CommitBatch? || step.BeginRelease? || step.Drop? || step.Finish? {
      SettleStepOK(shard, s, step);
    } else {
      PhaseStepOK(shard, s, step);
    }
  }

  // What is committed is published, whatever the step.
  lemma CommitsStayPublished(shard: Bytes -> nat, s: Sys, step: Step)
    requires Inv(s) && Enabled(s, step)
    ensures var t := Do(shard, s, step); forall k :: k in t.store.db && t.store.db[k].Commit? ==> k in t.published
  {
    if step.CommitBatch? && step.ok {
      var b := s.reqs[step.r].phase.batches[0];
      assert b in s.reqs[step.r].phase.batches;
      forall k | k in KeysOf(b.claims) ensures k in s.published {
        var i :| 0 <= i < |b.claims| && b.claims[i].key == k;
        assert b.claims[i] in b.claims;
      }
    }
  }

  lemma InvStep(shard: Bytes -> nat, s: Sys, step: Step)
    requires Inv(s) && Enabled(s, step)
    ensures Inv(Do(shard, s, step))
  {
    var t := Do(shard, s, step);
    CommitsStayPublished(shard, s, step);
    if Actor(step).Some? {
      ActorStaysOK(shard, s, step);
    }
    forall r | r in t.reqs ensures ReqOK(t, t.reqs[r]) {
      if Actor(step) != Some(r) {
        ReqStaysOK(s, t, s.reqs[r]);
      }
    }
  }

  lemma {:induction false} InvRun(shard: Bytes -> nat, s: Sys, steps: seq<Step>)
    requires Inv(s) && Valid(shard, s, steps)
    ensures Inv(Exec(shard, s, steps))
    decreases |steps|
  {
    if steps != [] {
      InvStep(shard, s, steps[0]);
      InvRun(shard, Do(shard, s, steps[0]), steps[1..]);
    }
  }

  // No record is lost to dedupe: over every interleaving, a record that a window reports as a
  // duplicate, without aborting, carries a key some request really published.
  lemma {:induction false} NoRecordIsLost(shard: Bytes -> nat, s: Sys, steps: seq<Step>, r: nat, j: nat)
    requires Init(s) && Valid(shard, s, steps)
    requires var t := Exec(shard, s, steps);
             r in t.reqs && t.reqs[r].phase == Finished(false) && j < |t.reqs[r].recs| && t.reqs[r].recs[j].duplicate
    ensures var t := Exec(shard, s, steps);
            t.reqs[r].recs[j].key.Some? && t.reqs[r].recs[j].key.value in t.published
  {
    InvRun(shard, s, steps);
  }

  // The sweep, whatever its unlocked scan proposed and however Commits ran since, removes no
  // commit that has not expired, and changes none.
  lemma SweepSparesUnexpired(shard: Bytes -> nat, s: Sys, candidates: set<Bytes>, k: Bytes)
    requires k in s.store.db
    ensures var t := Do(shard, s, Sweep(candidates));
            && (k in t.store.db ==> t.store.db[k] == s.store.db[k])
            && (Live(s.store.db[k], s.clock) ==> k in t.store.db)
            && (k !in t.store.db <==> k in candidates && !Live(s.store.db[k], s.clock))
  {
    SweepableIsDead(s.store.db[k], s.clock);
  }
}
