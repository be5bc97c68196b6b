/** Each request of the dedupe protocol, whatever runs beside it, comes to what its window comes to
    on its own. */
module DedupeWindow {
  import opened Common
  import opened Bytes
  import opened DedupeStore
  import opened IngestWindow
  import opened DedupeProtocol
  import Exclusivity = DedupeExclusivity

  // What a request still comes to: its records and whether it aborts, and, from here on, what it
  // hands Commit and Release, in order.
  datatype End = End(recs: seq<Rec>, aborted: bool, commits: seq<Batch>, releases: seq<Claim>)

  function EndOf(o: Outcome): End {
    End(o.recs, o.aborted, o.commits, o.releases)
  }

  predicate Underway(q: Req) {
    (q.phase.Publishing? && q.phase.next <= |q.recs|) || q.phase.Settling? || q.phase.Finished?
  }

  function Ahead(q: Req, publish: nat -> PublishAnswer): End
    requires Underway(q)
  {
    match q.phase
    case Publishing(n) => EndOf(PublishFrom(q.recs, n, publish))
    case Settling(_, batches, releases, aborted) => End(q.recs, aborted, batches, releases)
    case Finished(aborted) => End(q.recs, aborted, [], [])
  }

  // What a step of r hands to Commit, and to Release.
  function CommitsIn(s: Sys, step: Step, r: nat): seq<Batch>
    requires Enabled(s, step)
  {
    if step.CommitBatch? && step.r == r then [s.reqs[r].phase.batches[0]] else []
  }

  function ReleasesIn(s: Sys, step: Step, r: nat): seq<Claim>
    requires Enabled(s, step)
  {
    if step.BeginRelease? && step.r == r then s.reqs[r].phase.releases else []
  }

  function CommitsOf(shard: Bytes -> nat, s: Sys, steps: seq<Step>, r: nat): seq<Batch>
    requires Valid(shard, s, steps)
    decreases |steps|
  {
    if steps == [] then [] else CommitsIn(s, steps[0], r) + CommitsOf(shard, Do(shard, s, steps[0]), steps[1..], r)
  }

  function ReleasesOf(shard: Bytes -> nat, s: Sys, steps: seq<Step>, r: nat): seq<Claim>
    requires Valid(shard, s, steps)
    decreases |steps|
  {
    if steps == [] then [] else ReleasesIn(s, steps[0], r) + ReleasesOf(shard, Do(shard, s, steps[0]), steps[1..], r)
  }

  // r's n-th record is answered publish(n) by the queue.
  predicate AsTold(s: Sys, step: Step, r: nat, publish: nat -> PublishAnswer)
    requires Enabled(s, step)
  {
    step.Publish? && step.r == r ==> step.answer == publish(s.reqs[r].phase.next)
  }

  ghost predicate Told(shard: Bytes -> nat, s: Sys, steps: seq<Step>, r: nat, publish: nat -> PublishAnswer)
    requires Valid(shard, s, steps)
    decreases |steps|
  {
    steps == [] || (!steps[0].Crash? && AsTold(s, steps[0], r, publish) && Told(shard, Do(shard, s, steps[0]), steps[1..], r, publish))
  }

  // On the way from q to t these were handed to Commit and to Release.
  ghost predicate Onward(q: Req, t: Req, publish: nat -> PublishAnswer, commits: seq<Batch>, releases: seq<Claim>) {
    && Underway(q) && Underway(t)
    && var later := Ahead(t, publish);
       Ahead(q, publish) == End(later.recs, later.aborted, commits + later.commits, releases + later.releases)
  }

  lemma OnwardTwice(q: Req, t: Req, u: Req, publish: nat -> PublishAnswer, c: seq<Batch>, d: seq<Batch>, x: seq<Claim>, y: seq<Claim>)
    requires Onward(q, t, publish, c, x) && Onward(t, u, publish, d, y)
    ensures Onward(q, u, publish, c + d, x + y)
  {
    var later := Ahead(u, publish);
    assert c + (d + later.commits) == (c + d) + later.commits;
    assert x + (y + later.releases) == (x + y) + later.releases;
  }

  lemma OnwardStays(q: Req, publish: nat -> PublishAnswer)
    requires Underway(q)
    ensures Onward(q, q, publish, [], [])
  {
    assert [] + Ahead(q, publish).commits == Ahead(q, publish).commits && [] + Ahead(q, publish).releases == Ahead(q, publish).releases;
  }

  lemma PublishesAhead(q: Req, publish: nat -> PublishAnswer)
    requires q.phase.Publishing? && q.phase.next < |q.recs|
    ensures Underway(AfterPublish(q, publish(q.phase.next))) && Ahead(AfterPublish(q, publish(q.phase.next)), publish) == Ahead(q, publish)
  {}

  // One step, of r or of anybody else.
  lemma StepAhead(shard: Bytes -> nat, s: Sys, step: Step, r: nat, publish: nat -> PublishAnswer)
    requires Enabled(s, step) && !step.Crash? && r in s.reqs && Underway(s.reqs[r]) && AsTold(s, step, r, publish)
    ensures var t := Do(shard, s, step); r in t.reqs && Onward(s.reqs[r], t.reqs[r], publish, CommitsIn(s, step, r), ReleasesIn(s, step, r))
  {
    if step.Publish? {
      PublishAhead(shard, s, step, r, publish);
    } else {
      OtherAhead(shard, s, step, r, publish);
    }
  }

  lemma PublishAhead(shard: Bytes -> nat, s: Sys, step: Step, r: nat, publish: nat -> PublishAnswer)
    requires Enabled(s, step) && step.Publish? && r in s.reqs && Underway(s.reqs[r]) && AsTold(s, step, r, publish)
    ensures var t := Do(shard, s, step); r in t.reqs && Onward(s.reqs[r], t.reqs[r], publish, [], [])
  {
    OnwardStays(s.reqs[r], publish);
    if step.r == r {
      PublishesAhead(s.reqs[r], publish);
    }
  }

  lemma OtherAhead(shard: Bytes -> nat, s: Sys, step: Step, r: nat, publish: nat -> PublishAnswer)
    requires Enabled(s, step) && !step.Crash? && !step.Publish? && r in s.reqs && Underway(s.reqs[r])
    ensures var t := Do(shard, s, step); r in t.reqs && Onward(s.reqs[r], t.reqs[r], publish, CommitsIn(s, step, r), ReleasesIn(s, step, r))
  {
    if Exclusivity.Settles(step) && step.r == r {
      SettleAhead(shard, s, step, publish);
    } else if step.PublishDone? && step.r == r {
      DoneAhead(s.reqs[r], Do(shard, s, step).reqs[r], publish);
    } else {
      UntouchedElsewhere(shard, s, step, r);
      OnwardStays(s.reqs[r], publish);
    }
  }

  lemma UntouchedElsewhere(shard: Bytes -> nat, s: Sys, step: Step, r: nat)
    requires Enabled(s, step) && !step.Crash? && r in s.reqs && Underway(s.reqs[r])
    requires (Exclusivity.Settles(step) || step.Publish? || step.PublishDone?) ==> step.r != r
    ensures r in Do(shard, s, step).reqs && Do(shard, s, step).reqs[r] == s.reqs[r]
  {}

  lemma DoneAhead(q: Req, t: Req, publish: nat -> PublishAnswer)
    requires q.phase.Publishing? && q.phase.next == |q.recs| && t == q.(phase := Settling([], BatchesOf(q.recs), [], false))
    ensures Onward(q, t, publish, [], [])
  {}

  lemma SettleAhead(shard: Bytes -> nat, s: Sys, step: Step, publish: nat -> PublishAnswer)
    requires Enabled(s, step) && Exclusivity.Settles(step)
    ensures var t := Do(shard, s, step);
      step.r in t.reqs && Onward(s.reqs[step.r], t.reqs[step.r], publish, CommitsIn(s, step, step.r), ReleasesIn(s, step, step.r))
  {
    var q, t := s.reqs[step.r], Do(shard, s, step).reqs[step.r];
    match step
    case CommitBatch(_, _, _) => CommitAhead(q, t, publish);
    case BeginRelease(_, _) => ReleaseAhead(q, t, publish);
    case Drop(_) => SameAhead(q, t, publish);
    case Finish(_) => SameAhead(q, t, publish);
  }

  lemma SameAhead(q: Req, t: Req, publish: nat -> PublishAnswer)
    requires Underway(q) && Underway(t) && Ahead(t, publish) == Ahead(q, publish)
    ensures Onward(q, t, publish, [], [])
  {
    OnwardStays(q, publish);
  }

  lemma CommitAhead(q: Req, t: Req, publish: nat -> PublishAnswer)
    requires q.phase.Settling? && q.phase.batches != [] && t.phase.Settling? && t == q.(phase := q.phase.(drops := t.phase.drops, batches := q.phase.batches[1..]))
    ensures Onward(q, t, publish, [q.phase.batches[0]], [])
  {
    assert [q.phase.batches[0]] + q.phase.batches[1..] == q.phase.batches;
  }

  lemma ReleaseAhead(q: Req, t: Req, publish: nat -> PublishAnswer)
    requires q.phase.Settling? && t.phase.Settling? && t == q.(phase := q.phase.(drops := t.phase.drops, releases := []))
    ensures Onward(q, t, publish, [], q.phase.releases)
  {}

  lemma {:induction false} RunAhead(shard: Bytes -> nat, s: Sys, steps: seq<Step>, r: nat, publish: nat -> PublishAnswer)
    requires Valid(shard, s, steps) && Told(shard, s, steps, r, publish) && r in s.reqs && Underway(s.reqs[r])
    ensures var t := Exec(shard, s, steps);
      r in t.reqs && Onward(s.reqs[r], t.reqs[r], publish, CommitsOf(shard, s, steps, r), ReleasesOf(shard, s, steps, r))
    decreases |steps|
  {
    if steps == [] {
      OnwardStays(s.reqs[r], publish);
    } else {
      var t, rest := Do(shard, s, steps[0]), steps[1..];
      StepAhead(shard, s, steps[0], r, publish);
      RunAhead(shard, t, rest, r, publish);
      OnwardTwice(s.reqs[r], t.reqs[r], Exec(shard, t, rest).reqs[r], publish, CommitsIn(s, steps[0], r), CommitsOf(shard, t, rest, r),
                  ReleasesIn(s, steps[0], r), ReleasesOf(shard, t, rest, r));
    }
  }

  // The answers of a Reserve are one for each key the window asked for.
  lemma AnswersAlign(q: Req)
    requires AllAnswered(q) && forall i :: 0 <= i < |q.phase.got| ==> q.phase.got[i].key == q.phase.unique[i]
    ensures AnswersFor(Answered(Answers(q)), KeysIn(q.recs))
  {
    forall j | 0 <= j < |KeysIn(q.recs)| ensures Answers(q)[j].key == KeysIn(q.recs)[j] {
      var f, g := AnswerFor(q, j);
    }
  }

  lemma ReservedAhead(q: Req, publish: nat -> PublishAnswer)
    requires AllAnswered(q) && (forall i :: 0 <= i < |q.recs| ==> Fresh(q.recs[i])) && AnswersFor(Answered(Answers(q)), KeysIn(q.recs))
    ensures Ahead(AfterReserve(q), publish) == EndOf(Window(q.recs, Answered(Answers(q)), publish))
  {
    if KeyedIn(q.recs) == [] {
      assert Absorb(q.recs, KeyedIn(q.recs), Answers(q)) == q.recs;
      assert !SomeInFlight(q.recs);
    }
  }

  // A request that has all its answers, and is not cut off by a crash, comes to exactly what its
  // window comes to alone with those answers and the queue's: it aborts or not, and hands Commit
  // and Release the same claims in the same order, whatever other requests, the sweep and the
  // clock do in between.
  lemma {:induction false} RequestIsWindow(shard: Bytes -> nat, s: Sys, steps: seq<Step>, r: nat, publish: nat -> PublishAnswer)
    requires Inv(s) && Enabled(s, ReserveDone(r))
    requires Valid(shard, Do(shard, s, ReserveDone(r)), steps) && Told(shard, Do(shard, s, ReserveDone(r)), steps, r, publish)
    requires var t := Exec(shard, Do(shard, s, ReserveDone(r)), steps); r in t.reqs && t.reqs[r].phase.Finished?
    ensures AnswersFor(Answered(Answers(s.reqs[r])), KeysIn(s.reqs[r].recs))
    ensures var begun, o := Do(shard, s, ReserveDone(r)), Window(s.reqs[r].recs, Answered(Answers(s.reqs[r])), publish);
      Exec(shard, begun, steps).reqs[r] == Req(o.recs, Finished(o.aborted))
      && CommitsOf(shard, begun, steps, r) == o.commits && ReleasesOf(shard, begun, steps, r) == o.releases
  {
    var begun := Do(shard, s, ReserveDone(r));
    ReservedAlign(s, s.reqs[r]);
    ReservedAhead(s.reqs[r], publish);
    RunAhead(shard, begun, steps, r, publish);
    FinishedAhead(begun.reqs[r], Exec(shard, begun, steps).reqs[r], publish, CommitsOf(shard, begun, steps, r), ReleasesOf(shard, begun, steps, r));
  }

  lemma ReservedAlign(s: Sys, q: Req)
    requires ReqOK(s, q) && AllAnswered(q)
    ensures (forall i :: 0 <= i < |q.recs| ==> Fresh(q.recs[i])) && AnswersFor(Answered(Answers(q)), KeysIn(q.recs))
  {
    AnswersAlign(q);
  }

  lemma FinishedAhead(q: Req, t: Req, publish: nat -> PublishAnswer, commits: seq<Batch>, releases: seq<Claim>)
    requires Onward(q, t, publish, commits, releases) && t.phase.Finished?
    ensures var e := Ahead(q, publish); t == Req(e.recs, Finished(e.aborted)) && commits == e.commits && releases == e.releases
  {}

  // So does one whose window has nothing to reserve, or finds the store switched off.
  lemma {:induction false} SkippedIsWindow(shard: Bytes -> nat, s: Sys, steps: seq<Step>, r: nat, publish: nat -> PublishAnswer)
    requires Enabled(s, SkipReserve(r))
    requires Valid(shard, Do(shard, s, SkipReserve(r)), steps) && Told(shard, Do(shard, s, SkipReserve(r)), steps, r, publish)
    requires var t := Exec(shard, Do(shard, s, SkipReserve(r)), steps); r in t.reqs && t.reqs[r].phase.Finished?
    ensures var begun, o := Do(shard, s, SkipReserve(r)), Window(s.reqs[r].recs, Disabled, publish);
      Exec(shard, begun, steps).reqs[r] == Req(o.recs, Finished(o.aborted))
      && CommitsOf(shard, begun, steps, r) == o.commits && ReleasesOf(shard, begun, steps, r) == o.releases
  {
    var begun := Do(shard, s, SkipReserve(r));
    RunAhead(shard, begun, steps, r, publish);
    FinishedAhead(begun.reqs[r], Exec(shard, begun, steps).reqs[r], publish, CommitsOf(shard, begun, steps, r), ReleasesOf(shard, begun, steps, r));
  }

  /******* What handing on does *******/

  // A batch that is written stores each of its keys until its retention is over, and no other,
  // and leaves its claims to be dropped.
  lemma BatchLands(shard: Bytes -> nat, s: Sys, r: nat, at: int)
    requires Enabled(s, CommitBatch(r, at, true))
    ensures var b, t := s.reqs[r].phase.batches[0], Do(shard, s, CommitBatch(r, at, true));
      && t.reqs[r].phase.drops == b.claims && t.store.pending == s.store.pending
      && (forall c :: c in b.claims ==>
           c.key in t.store.db && t.store.db[c.key] == Commit(if b.retention <= 0 then 0 else Smaller(at + b.retention, MAX_INT64)))
      && (forall k :: (forall c :: c in b.claims ==> c.key != k) ==>
           (k in t.store.db <==> k in s.store.db) && (k in t.store.db ==> t.store.db[k] == s.store.db[k]))
  {
    var b := s.reqs[r].phase.batches[0];
    forall c | c in b.claims ensures c.key in KeysOf(b.claims) {
      var i :| 0 <= i < |b.claims| && b.claims[i] == c;
    }
  }

  // A Release that gets through leaves its claims to be dropped too; one that does not leaves them
  // to lapse. Neither stores anything.
  lemma ReleaseLands(shard: Bytes -> nat, s: Sys, r: nat, ok: bool)
    requires Enabled(s, BeginRelease(r, ok))
    ensures var t := Do(shard, s, BeginRelease(r, ok));
      t.store == s.store && t.reqs[r].phase.drops == if ok then s.reqs[r].phase.releases else []
  {}

  // A Reserve that fails leaves every claim it had been given to be dropped.
  lemma FailureLands(shard: Bytes -> nat, s: Sys, r: nat)
    requires Enabled(s, ReserveFails(r))
    ensures var t := Do(shard, s, ReserveFails(r));
      t.store == s.store && t.reqs[r] == Req(s.reqs[r].recs, Settling(s.reqs[r].phase.got, [], [], true))
  {}

  // A claim that is dropped is pending under its token no more, and no other claim is touched.
  lemma DropLands(shard: Bytes -> nat, s: Sys, r: nat)
    requires Enabled(s, Drop(r)) && s.reqs[r].phase.drops[0].status == Claimed
    ensures var c, t := s.reqs[r].phase.drops[0], Do(shard, s, Drop(r));
      && t.reqs[r].phase.drops == s.reqs[r].phase.drops[1..] && t.store.db == s.store.db
      && !(c.key in t.store.pending && t.store.pending[c.key].token == c.token)
      && (forall k :: k in s.store.pending && (k != c.key || s.store.pending[k].token != c.token) ==> k in t.store.pending)
      && (forall k :: k in t.store.pending ==> k in s.store.pending && t.store.pending[k] == s.store.pending[k])
  {}

  predicate Dropping(q: Req, c: Claim) {
    q.phase.Settling? && c in q.phase.drops
  }

  predicate Pends(st: Store, c: Claim) {
    c.key in st.pending && st.pending[c.key].token == c.token
  }

  lemma StepDrops(shard: Bytes -> nat, s: Sys, step: Step, r: nat, c: Claim)
    requires Enabled(s, step) && !step.Crash? && r in s.reqs && c.status == Claimed && c.token <= s.store.tokens
    requires Dropping(s.reqs[r], c) || !Pends(s.store, c)
    ensures var t := Do(shard, s, step);
      r in t.reqs && c.token <= t.store.tokens && (Dropping(t.reqs[r], c) || !Pends(t.store, c))
  {
    if step.Drop? && step.r == r {
      assert s.reqs[r].phase.drops == [s.reqs[r].phase.drops[0]] + s.reqs[r].phase.drops[1..];
    } else if step.ReserveNext? {
      var p := s.reqs[step.r].phase;
      ReserveLeaves(shard, s.store, p.unique[|p.got|], p.now, step.lease);
    }
  }

  // Whatever runs beside it, once a request has no claim left to drop, none that it had is pending
  // under its token: each was dropped, or had lapsed.
  lemma {:induction false} DroppedAreGone(shard: Bytes -> nat, s: Sys, steps: seq<Step>, r: nat, c: Claim)
    requires Valid(shard, s, steps) && (forall i :: 0 <= i < |steps| ==> !steps[i].Crash?)
    requires r in s.reqs && c.status == Claimed && c.token <= s.store.tokens && (Dropping(s.reqs[r], c) || !Pends(s.store, c))
    ensures var t := Exec(shard, s, steps);
      r in t.reqs && (Dropping(t.reqs[r], c) || !Pends(t.store, c))
    decreases |steps|
  {
    if steps != [] {
      StepDrops(shard, s, steps[0], r, c);
      DroppedAreGone(shard, Do(shard, s, steps[0]), steps[1..], r, c);
    }
  }
}
