/** internal/api/ingest.go: one window of records through reserve, publish, commit and
    release. What the store and the queue answer is input. */
module IngestWindow {
  import opened Common
  import opened Bytes
  import opened DedupeStore

  // pendingRecord, without its payload. claim is None until Reserve answers for it.
  datatype Rec = Rec(index: nat, rejected: bool, key: Option<Bytes>, retention: int,
                     claim: Option<Claim>, duplicate: bool, queued: bool)

  predicate Fresh(r: Rec) {
    r.claim.None? && !r.duplicate && !r.queued
  }

  predicate Keyed(r: Rec) {
    !r.rejected && r.key.Some?
  }

  predicate HoldsClaim(r: Rec) {
    r.claim.Some? && r.claim.value.status == Claimed
  }

  predicate Skipped(r: Rec) {
    r.rejected || r.duplicate
  }

  datatype ReserveAnswer = Disabled | Unavailable | Answered(claims: seq<Claim>)
  datatype PublishAnswer = Accepted | QueueFull | Uncertain

  /******* The steps of a window as functions *******/

  // The indexes ingestWindow collects, in record order.
  function KeyedIn(recs: seq<Rec>): (r: seq<nat>)
    ensures forall j :: 0 <= j < |r| ==> r[j] < |recs| && Keyed(recs[r[j]])
    ensures forall i, j :: 0 <= i < j < |r| ==> r[i] < r[j]
    ensures forall i :: 0 <= i < |recs| && Keyed(recs[i]) ==> i in r
  {
    if recs == [] then [] else
      var n := |recs| - 1;
      var before := KeyedIn(recs[..n]);
      if Keyed(recs[n]) then before + [n] else before
  }

  function KeysIn(recs: seq<Rec>): (r: seq<Bytes>)
    ensures |r| == |KeyedIn(recs)|
  {
    seq(|KeyedIn(recs)|, j requires 0 <= j < |KeyedIn(recs)| => recs[KeyedIn(recs)[j]].key.value)
  }

  predicate AnswersFor(a: ReserveAnswer, keys: seq<Bytes>) {
    a.Answered? ==> |a.claims| == |keys| && forall j :: 0 <= j < |keys| ==> a.claims[j].key == keys[j]
  }

  function Answer(r: Rec, c: Claim): Rec {
    r.(claim := Some(c), duplicate := r.duplicate || c.status == Duplicate)
  }

  predicate Increasing(s: seq<nat>, bound: nat) {
    && (forall j :: 0 <= j < |s| ==> s[j] < bound)
    && (forall i, j :: 0 <= i < j < |s| ==> s[i] < s[j])
  }

  // reserve's loop: each claim onto the record it is for.
  function Absorb(recs: seq<Rec>, keyed: seq<nat>, claims: seq<Claim>): (r: seq<Rec>)
    requires |keyed| == |claims| && Increasing(keyed, |recs|)
    ensures |r| == |recs|
    decreases |keyed|
  {
    if keyed == [] then recs else
      var n := |keyed| - 1;
      var before := Absorb(recs, keyed[..n], claims[..n]);
      before[keyed[n] := Answer(before[keyed[n]], claims[n])]
  }

  lemma {:induction false} AbsorbPointwise(recs: seq<Rec>, keyed: seq<nat>, claims: seq<Claim>)
    requires |keyed| == |claims| && Increasing(keyed, |recs|)
    ensures var r := Absorb(recs, keyed, claims);
            && (forall j :: 0 <= j < |keyed| ==> r[keyed[j]] == Answer(recs[keyed[j]], claims[j]))
            && (forall i :: 0 <= i < |recs| && i !in keyed ==> r[i] == recs[i])
    decreases |keyed|
  {
    if keyed != [] {
      var n := |keyed| - 1;
      AbsorbPointwise(recs, keyed[..n], claims[..n]);
      var before := Absorb(recs, keyed[..n], claims[..n]);
      assert keyed[n] !in keyed[..n];
      forall j | 0 <= j < n ensures before[keyed[j]] == Answer(recs[keyed[j]], claims[j]) {
        assert keyed[..n][j] == keyed[j] && claims[..n][j] == claims[j];
      }
    }
  }

  predicate SomeInFlight(recs: seq<Rec>) {
    exists i :: 0 <= i < |recs| && recs[i].claim.Some? && recs[i].claim.value.status == InFlight
  }

  // claimedIn
  function ClaimsIn(recs: seq<Rec>): (r: seq<Claim>) {
    if recs == [] then [] else
      var n := |recs| - 1;
      ClaimsIn(recs[..n]) + (if HoldsClaim(recs[n]) then [recs[n].claim.value] else [])
  }

  datatype Batch = Batch(retention: int, claims: seq<Claim>)

  function AddToBatches(bs: seq<Batch>, retention: int, c: Claim): seq<Batch> {
    if bs == [] then [Batch(retention, [c])]
    else if bs[0].retention == retention then [Batch(retention, bs[0].claims + [c])] + bs[1..]
    else [bs[0]] + AddToBatches(bs[1..], retention, c)
  }

  // The Commits of commitClaims: one per retention, in order of first appearance.
  function BatchesOf(recs: seq<Rec>): seq<Batch> {
    if recs == [] then [] else
      var n := |recs| - 1;
      var before := BatchesOf(recs[..n]);
      if HoldsClaim(recs[n]) then AddToBatches(before, recs[n].retention, recs[n].claim.value) else before
  }

  function Flatten(bs: seq<Batch>): (r: seq<Claim>) {
    if bs == [] then [] else bs[0].claims + Flatten(bs[1..])
  }

  // How a window ends: its records, whether it aborted, what it hands Commit and Release,
  // and the claims it settles neither way, which lapse with their lease.
  datatype Outcome = Outcome(recs: seq<Rec>, aborted: bool, commits: seq<Batch>, releases: seq<Claim>, left: seq<Claim>)

  function PublishFrom(recs: seq<Rec>, i: nat, publish: nat -> PublishAnswer): Outcome
    requires i <= |recs|
    decreases |recs| - i
  {
    if i == |recs| then Outcome(recs, false, BatchesOf(recs), [], [])
    else if Skipped(recs[i]) then PublishFrom(recs, i + 1, publish)
    else
      match publish(i)
      case Accepted => PublishFrom(recs[i := recs[i].(queued := true)], i + 1, publish)
      case QueueFull => Outcome(recs, true, BatchesOf(recs[..i]), ClaimsIn(recs[i..]), [])
      case Uncertain => Outcome(recs, true, BatchesOf(recs[..i]), ClaimsIn(recs[i + 1..]), ClaimsIn(recs[i..i + 1]))
  }

  function Window(recs: seq<Rec>, reserve: ReserveAnswer, publish: nat -> PublishAnswer): Outcome
    requires AnswersFor(reserve, KeysIn(recs))
  {
    if KeyedIn(recs) == [] || reserve.Disabled? then PublishFrom(recs, 0, publish)
    else if reserve.Unavailable? then Outcome(recs, true, [], [], [])
    else
      var a := Absorb(recs, KeyedIn(recs), reserve.claims);
      if SomeInFlight(a) then Outcome(a, true, [], ClaimsIn(a), []) else PublishFrom(a, 0, publish)
  }

  /******* Every claim is settled exactly one way *******/

  // The claims of the records the queue took.
  function QueuedClaims(recs: seq<Rec>): seq<Claim> {
    if recs == [] then [] else
      var n := |recs| - 1;
      QueuedClaims(recs[..n]) + (if HoldsClaim(recs[n]) && recs[n].queued then [recs[n].claim.value] else [])
  }

  lemma {:induction false} ClaimsInAppend(a: seq<Rec>, b: seq<Rec>)
    ensures ClaimsIn(a + b) == ClaimsIn(a) + ClaimsIn(b)
  {
    if b == [] {
      assert a + b == a;
    } else {
      var n := |b| - 1;
      ClaimsInAppend(a, b[..n]);
      assert (a + b)[..|a + b| - 1] == a + b[..n];
    }
  }

  lemma {:induction false} AddToBatchesKeeps(bs: seq<Batch>, retention: int, c: Claim)
    ensures multiset(Flatten(AddToBatches(bs, retention, c))) == multiset(Flatten(bs)) + multiset{c}
  {
    if bs == [] {
      assert AddToBatches(bs, retention, c)[1..] == [];
      assert Flatten([]) == [];
    } else {
      var r := AddToBatches(bs, retention, c);
      if bs[0].retention == retention {
        assert r[0] == Batch(retention, bs[0].claims + [c]) && r[1..] == bs[1..];
      } else {
        AddToBatchesKeeps(bs[1..], retention, c);
        assert r[0] == bs[0] && r[1..] == AddToBatches(bs[1..], retention, c);
      }
    }
  }

  // Grouping by retention drops no claim and adds none.
  lemma {:induction false} BatchesKeepEveryClaim(recs: seq<Rec>)
    ensures multiset(Flatten(BatchesOf(recs))) == multiset(ClaimsIn(recs))
  {
    if recs != [] {
      var n := |recs| - 1;
      BatchesKeepEveryClaim(recs[..n]);
      if HoldsClaim(recs[n]) {
        AddToBatchesKeeps(BatchesOf(recs[..n]), recs[n].retention, recs[n].claim.value);
      }
    }
  }

  lemma {:induction false} QueuedClaimsWhen(recs: seq<Rec>, i: nat)
    requires i <= |recs|
    requires forall j :: 0 <= j < |recs| && HoldsClaim(recs[j]) ==> (recs[j].queued <==> j < i)
    ensures QueuedClaims(recs) == ClaimsIn(recs[..i])
  {
    if recs == [] {
    } else if i == |recs| {
      var n := |recs| - 1;
      QueuedClaimsWhen(recs[..n], n);
      assert recs[..i] == recs && recs[..n][..n] == recs[..n];
    } else {
      var n := |recs| - 1;
      QueuedClaimsWhen(recs[..n], i);
      assert recs[..n][..i] == recs[..i];
    }
  }

  // A window before its publishes: nothing in flight elsewhere, and claims only on records
  // that will be published.
  predicate Publishable(recs: seq<Rec>, i: nat) {
    forall j :: 0 <= j < |recs| ==>
      && (HoldsClaim(recs[j]) ==> !Skipped(recs[j]))
      && (recs[j].queued <==> j < i && !Skipped(recs[j]))
  }

  ghost predicate Settled(o: Outcome) {
    && multiset(Flatten(o.commits)) == multiset(QueuedClaims(o.recs))
    && multiset(ClaimsIn(o.recs)) == multiset(Flatten(o.commits)) + multiset(o.releases) + multiset(o.left)
    && |o.left| <= 1
    && (!o.aborted ==> o.releases == o.left == []
                       && forall j :: 0 <= j < |o.recs| ==> (o.recs[j].queued <==> !Skipped(o.recs[j])))
  }

  // The publishes stopped at record i: what came before is queued and nothing from it on. The
  // queue's refusal releases i's claim and the rest; where it may have taken i, i's claim is left
  // to lapse, and only the rest are released.
  ghost predicate StoppedAt(o: Outcome, publish: nat -> PublishAnswer, i: nat) {
    && i < |o.recs| && !Skipped(o.recs[i]) && publish(i) != Accepted
    && (forall j :: 0 <= j < |o.recs| ==> (o.recs[j].queued <==> j < i && !Skipped(o.recs[j])))
    && (publish(i) == QueueFull ==> o.left == [] && o.releases == ClaimsIn(o.recs[i..]))
    && (publish(i) == Uncertain ==> o.left == ClaimsIn(o.recs[i..i + 1]) && o.releases == ClaimsIn(o.recs[i + 1..]))
  }

  // The reserve itself ended the window: nothing was published or committed, and whatever had
  // been claimed is released.
  ghost predicate EndedReserving(o: Outcome) {
    && o.commits == [] && o.left == [] && o.releases == ClaimsIn(o.recs)
    && forall j :: 0 <= j < |o.recs| ==> !o.recs[j].queued
  }

  // A window that aborts stopped at some record, as StoppedAt says.
  ghost predicate Stopped(o: Outcome, publish: nat -> PublishAnswer) {
    exists i :: StoppedAt(o, publish, i)
  }

  lemma {:induction false} PublishStops(recs: seq<Rec>, i: nat, publish: nat -> PublishAnswer)
    requires i <= |recs| && Publishable(recs, i)
    ensures PublishFrom(recs, i, publish).aborted ==> Stopped(PublishFrom(recs, i, publish), publish)
    decreases |recs| - i
  {
    if i < |recs| && Skipped(recs[i]) {
      PublishStops(recs, i + 1, publish);
    } else if i < |recs| && publish(i) == Accepted {
      PublishStops(recs[i := recs[i].(queued := true)], i + 1, publish);
    } else if i < |recs| {
      assert StoppedAt(PublishFrom(recs, i, publish), publish, i);
    }
  }

  // Where the publishes stop, what came before is what was queued.
  lemma {:induction false} StopSettlesParts(recs: seq<Rec>, a: seq<Rec>, b: seq<Rec>)
    requires recs == a + b && Publishable(recs, |a|)
    ensures multiset(Flatten(BatchesOf(a))) == multiset(QueuedClaims(recs)) == multiset(ClaimsIn(a))
    ensures ClaimsIn(recs) == ClaimsIn(a) + ClaimsIn(b)
  {
    QueuedClaimsWhen(recs, |a|);
    assert recs[..|a|] == a;
    BatchesKeepEveryClaim(a);
    ClaimsInAppend(a, b);
  }

  // The three ways the publishes end: all published, refused at b's first record, or uncertain
  // at x.
  lemma {:induction false} AllPublished(recs: seq<Rec>)
    requires Publishable(recs, |recs|)
    ensures Settled(Outcome(recs, false, BatchesOf(recs), [], []))
  {
    assert recs == recs + [];
    StopSettlesParts(recs, recs, []);
  }

  lemma {:induction false} StoppedFull(recs: seq<Rec>, a: seq<Rec>, b: seq<Rec>)
    requires recs == a + b && Publishable(recs, |a|)
    ensures Settled(Outcome(recs, true, BatchesOf(a), ClaimsIn(b), []))
  {
    StopSettlesParts(recs, a, b);
  }

  lemma {:induction false} StoppedUncertain(recs: seq<Rec>, a: seq<Rec>, x: seq<Rec>, b: seq<Rec>)
    requires recs == a + (x + b) && |x| == 1 && Publishable(recs, |a|)
    ensures Settled(Outcome(recs, true, BatchesOf(a), ClaimsIn(b), ClaimsIn(x)))
  {
    StopSettlesParts(recs, a, x + b);
    ClaimsInAppend(x, b);
    AtMostOne(x);
  }

  lemma {:induction false} AtMostOne(x: seq<Rec>)
    requires |x| == 1
    ensures |ClaimsIn(x)| <= 1
  {
    assert x[..0] == [] && ClaimsIn([]) == [];
  }

  lemma {:induction false} PublishClaims(recs: seq<Rec>, i: nat, publish: nat -> PublishAnswer)
    requires i <= |recs| && Publishable(recs, i)
    ensures Settled(PublishFrom(recs, i, publish))
    decreases |recs| - i
  {
    if i < |recs| && Skipped(recs[i]) {
      PublishClaims(recs, i + 1, publish);
    } else if i < |recs| && publish(i) == Accepted {
      PublishClaims(recs[i := recs[i].(queued := true)], i + 1, publish);
    } else {
      if i == |recs| {
        AllPublished(recs);
      } else if publish(i) == QueueFull {
        assert recs == recs[..i] + recs[i..];
        StoppedFull(recs, recs[..i], recs[i..]);
      } else {
        assert recs == recs[..i] + (recs[i..i + 1] + recs[i + 1..]);
        StoppedUncertain(recs, recs[..i], recs[i..i + 1], recs[i + 1..]);
      }
    }
  }

  lemma {:induction false} PublishSettles(recs: seq<Rec>, i: nat, publish: nat -> PublishAnswer)
    requires i <= |recs| && Publishable(recs, i)
    ensures var o := PublishFrom(recs, i, publish); Settled(o) && (o.aborted ==> Stopped(o, publish))
  {
    PublishClaims(recs, i, publish);
    PublishStops(recs, i, publish);
  }

  lemma {:induction false} HeldElsewhereSettles(a: seq<Rec>)
    requires Publishable(a, 0)
    ensures var o := Outcome(a, true, [], ClaimsIn(a), []); Settled(o) && EndedReserving(o)
  {
    QueuedClaimsWhen(a, 0);
    assert a[..0] == [] && Flatten([]) == [];
  }

  lemma {:induction false} NoClaims(recs: seq<Rec>)
    requires forall i :: 0 <= i < |recs| ==> !HoldsClaim(recs[i])
    ensures ClaimsIn(recs) == [] && QueuedClaims(recs) == []
  {
    if recs != [] {
      NoClaims(recs[..|recs| - 1]);
    }
  }

  lemma {:induction false} AbsorbedPublishable(recs: seq<Rec>, claims: seq<Claim>)
    requires forall i :: 0 <= i < |recs| ==> Fresh(recs[i])
    requires |claims| == |KeyedIn(recs)|
    ensures Publishable(Absorb(recs, KeyedIn(recs), claims), 0)
  {
    var keyed := KeyedIn(recs);
    var a := Absorb(recs, keyed, claims);
    AbsorbPointwise(recs, keyed, claims);
    forall i | 0 <= i < |a| && HoldsClaim(a[i]) ensures !Skipped(a[i]) {
      var j :| 0 <= j < |keyed| && keyed[j] == i;
    }
    forall i | 0 <= i < |a| ensures !a[i].queued {
      if i in keyed {
        var j :| 0 <= j < |keyed| && keyed[j] == i;
      }
    }
  }

  // Whatever the store and the queue answer: a claim is committed exactly when its record was
  // published, at most one (the uncertainly failed record's) is left to lapse, every other is
  // released, and a window that does not abort publishes all it did not skip. One that does
  // ended before its publishes, or at the record StoppedAt says, whose claim is the one left.
  lemma WindowSettlesEveryClaim(recs: seq<Rec>, reserve: ReserveAnswer, publish: nat -> PublishAnswer)
    requires forall i :: 0 <= i < |recs| ==> Fresh(recs[i])
    requires AnswersFor(reserve, KeysIn(recs))
    ensures Settled(Window(recs, reserve, publish))
    ensures var o := Window(recs, reserve, publish); o.aborted ==> EndedReserving(o) || Stopped(o, publish)
  {
    NoClaims(recs);
    if KeyedIn(recs) == [] || reserve.Disabled? {
      PublishSettles(recs, 0, publish);
    } else if reserve.Answered? {
      var a := Absorb(recs, KeyedIn(recs), reserve.claims);
      AbsorbedPublishable(recs, reserve.claims);
      if SomeInFlight(a) {
        HeldElsewhereSettles(a);
      } else {
        PublishSettles(a, 0, publish);
      }
    }
  }

  /******* What a window answers, exactly *******/

  // Some record from i on that is to be published is not accepted.
  ghost predicate Refused(recs: seq<Rec>, i: nat, publish: nat -> PublishAnswer) {
    exists j :: i <= j < |recs| && !Skipped(recs[j]) && publish(j) != Accepted
  }

  // The publishes mark records queued and nothing else, and abort exactly at a refusal.
  lemma {:induction false} PublishExactly(recs: seq<Rec>, i: nat, publish: nat -> PublishAnswer)
    requires i <= |recs|
    ensures var o := PublishFrom(recs, i, publish);
      && |o.recs| == |recs| && (forall j :: 0 <= j < |recs| ==> o.recs[j] == recs[j].(queued := o.recs[j].queued))
      && (o.aborted <==> Refused(recs, i, publish))
    decreases |recs| - i
  {
    if i < |recs| && Skipped(recs[i]) {
      PublishExactly(recs, i + 1, publish);
    } else if i < |recs| && publish(i) == Accepted {
      var more := recs[i := recs[i].(queued := true)];
      PublishExactly(more, i + 1, publish);
      assert forall j :: 0 <= j < |recs| ==> (Skipped(more[j]) <==> Skipped(recs[j]));
    }
  }

  // One of claims, each on the record keyed says, is record i's and has that status.
  ghost predicate AnsweredAt(keyed: seq<nat>, claims: seq<Claim>, i: nat, status: Status) {
    exists j :: 0 <= j < |keyed| && j < |claims| && keyed[j] == i && claims[j].status == status
  }

  ghost predicate AnsweredAs(recs: seq<Rec>, reserve: ReserveAnswer, i: nat, status: Status) {
    reserve.Answered? && AnsweredAt(KeyedIn(recs), reserve.claims, i, status)
  }

  // The store ends the window: it fails, or another holds one of the keys.
  ghost predicate StoppedReserving(recs: seq<Rec>, reserve: ReserveAnswer) {
    KeyedIn(recs) != [] && (reserve.Unavailable? || exists i :: 0 <= i < |recs| && AnsweredAs(recs, reserve, i, InFlight))
  }

  // A record is a duplicate exactly when the store answered Duplicate for it.
  lemma DuplicatesExactly(recs: seq<Rec>, reserve: ReserveAnswer, publish: nat -> PublishAnswer)
    requires forall i :: 0 <= i < |recs| ==> Fresh(recs[i])
    requires AnswersFor(reserve, KeysIn(recs))
    ensures var o := Window(recs, reserve, publish);
      && |o.recs| == |recs|
      && forall i :: 0 <= i < |recs| ==>
           o.recs[i].rejected == recs[i].rejected && (o.recs[i].duplicate <==> AnsweredAs(recs, reserve, i, Duplicate))
  {
    if KeyedIn(recs) == [] || reserve.Disabled? {
      PublishExactly(recs, 0, publish);
    } else if reserve.Answered? {
      AbsorbExactly(recs, KeyedIn(recs), reserve.claims);
      PublishExactly(Absorb(recs, KeyedIn(recs), reserve.claims), 0, publish);
    }
  }

  // Record i, neither rejected nor a duplicate, is not accepted by the queue.
  ghost predicate UnacceptedAt(recs: seq<Rec>, reserve: ReserveAnswer, publish: nat -> PublishAnswer, i: nat) {
    i < |recs| && !recs[i].rejected && !AnsweredAs(recs, reserve, i, Duplicate) && publish(i) != Accepted
  }

  lemma RefusedExactly(recs: seq<Rec>, a: seq<Rec>, reserve: ReserveAnswer, publish: nat -> PublishAnswer)
    requires |a| == |recs|
    requires forall i :: 0 <= i < |recs| ==> a[i].rejected == recs[i].rejected && (a[i].duplicate <==> AnsweredAs(recs, reserve, i, Duplicate))
    ensures Refused(a, 0, publish) <==> exists i: nat :: UnacceptedAt(recs, reserve, publish, i)
  {
    if j :| 0 <= j < |a| && !Skipped(a[j]) && publish(j) != Accepted {
      assert UnacceptedAt(recs, reserve, publish, j);
    }
    if i: nat :| UnacceptedAt(recs, reserve, publish, i) {
      assert !Skipped(a[i]);
    }
  }

  // A window is aborted exactly when the store ends it, or else when the queue does not accept a
  // record that is neither rejected nor a duplicate.
  lemma AbortsExactly(recs: seq<Rec>, reserve: ReserveAnswer, publish: nat -> PublishAnswer)
    requires forall i :: 0 <= i < |recs| ==> Fresh(recs[i])
    requires AnswersFor(reserve, KeysIn(recs))
    ensures Window(recs, reserve, publish).aborted <==> StoppedReserving(recs, reserve) || exists i: nat :: UnacceptedAt(recs, reserve, publish, i)
  {
    if KeyedIn(recs) == [] || reserve.Disabled? {
      PublishExactly(recs, 0, publish);
      RefusedExactly(recs, recs, reserve, publish);
      assert !StoppedReserving(recs, reserve);
    } else if reserve.Answered? {
      AnsweredAborts(recs, reserve, publish);
    } else {
      assert Window(recs, reserve, publish).aborted && StoppedReserving(recs, reserve);
    }
  }

  lemma {:induction false} AnsweredAborts(recs: seq<Rec>, reserve: ReserveAnswer, publish: nat -> PublishAnswer)
    requires (forall i :: 0 <= i < |recs| ==> Fresh(recs[i])) && AnswersFor(reserve, KeysIn(recs))
    requires KeyedIn(recs) != [] && reserve.Answered?
    ensures Window(recs, reserve, publish).aborted <==> StoppedReserving(recs, reserve) || exists i: nat :: UnacceptedAt(recs, reserve, publish, i)
  {
    var a := Absorb(recs, KeyedIn(recs), reserve.claims);
    AbsorbExactly(recs, KeyedIn(recs), reserve.claims);
    forall i: nat ensures AnsweredAs(recs, reserve, i, InFlight) <==> AnsweredAt(KeyedIn(recs), reserve.claims, i, InFlight) {}
    PublishExactly(a, 0, publish);
    RefusedExactly(recs, a, reserve, publish);
  }

  lemma {:induction false} AbsorbExactly(recs: seq<Rec>, keyed: seq<nat>, claims: seq<Claim>)
    requires |keyed| == |claims| && Increasing(keyed, |recs|) && forall i :: 0 <= i < |recs| ==> Fresh(recs[i])
    ensures var a := Absorb(recs, keyed, claims);
      && (forall i :: 0 <= i < |recs| ==> a[i].rejected == recs[i].rejected && (a[i].duplicate <==> AnsweredAt(keyed, claims, i, Duplicate)))
      && (SomeInFlight(a) <==> exists i :: 0 <= i < |recs| && AnsweredAt(keyed, claims, i, InFlight))
  {
    var a := Absorb(recs, keyed, claims);
    AbsorbPointwise(recs, keyed, claims);
    forall i | 0 <= i < |recs|
      ensures a[i].rejected == recs[i].rejected && (a[i].duplicate <==> AnsweredAt(keyed, claims, i, Duplicate))
      ensures (a[i].claim.Some? && a[i].claim.value.status == InFlight) <==> AnsweredAt(keyed, claims, i, InFlight)
    {
      if i in keyed {
        var j :| 0 <= j < |keyed| && keyed[j] == i;
        AnsweredOnce(keyed, claims, j);
      }
    }
  }

  lemma AnsweredOnce(keyed: seq<nat>, claims: seq<Claim>, j: nat)
    requires j < |keyed| == |claims| && forall i, k :: 0 <= i < k < |keyed| ==> keyed[i] < keyed[k]
    ensures forall status :: AnsweredAt(keyed, claims, keyed[j], status) <==> claims[j].status == status
  {}

  // What is settled is claimed by a record: of the window for Release, and one the queue took
  // for Commit.
  lemma {:induction false} ClaimsOf(recs: seq<Rec>, c: Claim)
    ensures c in ClaimsIn(recs) <==> exists i :: 0 <= i < |recs| && recs[i].claim == Some(c) && c.status == Claimed
    ensures c in QueuedClaims(recs) <==> exists i :: 0 <= i < |recs| && recs[i].claim == Some(c) && c.status == Claimed && recs[i].queued
  {
    if recs != [] {
      var n := |recs| - 1;
      ClaimsOf(recs[..n], c);
      assert recs == recs[..n] + [recs[n]];
    }
  }

  ghost predicate Distinct(bs: seq<Batch>) {
    forall i, j :: 0 <= i < j < |bs| ==> bs[i].retention != bs[j].retention
  }

  ghost predicate ClaimedUnder(recs: seq<Rec>, c: Claim, retention: int) {
    exists j :: 0 <= j < |recs| && HoldsClaim(recs[j]) && recs[j].claim.value == c && recs[j].retention == retention
  }

  lemma ClaimedUnderLonger(recs: seq<Rec>, n: nat, c: Claim, retention: int)
    requires n <= |recs| && ClaimedUnder(recs[..n], c, retention)
    ensures ClaimedUnder(recs, c, retention)
  {
    var short := recs[..n];
    var j :| 0 <= j < |short| && HoldsClaim(short[j]) && short[j].claim.value == c && short[j].retention == retention;
    assert recs[j] == short[j];
  }

  // Each Commit carries the retention its records asked for, and no retention has two.
  lemma {:induction false} BatchesByRetention(recs: seq<Rec>)
    ensures Distinct(BatchesOf(recs))
    ensures forall b, c :: b in BatchesOf(recs) && c in b.claims ==> ClaimedUnder(recs, c, b.retention)
  {
    if recs != [] {
      var n := |recs| - 1;
      var before, bs := BatchesOf(recs[..n]), BatchesOf(recs);
      BatchesByRetention(recs[..n]);
      if HoldsClaim(recs[n]) {
        AddToBatchesShape(before, recs[n].retention, recs[n].claim.value);
      }
      forall b, c | b in bs && c in b.claims ensures ClaimedUnder(recs, c, b.retention) {
        var i :| 0 <= i < |bs| && bs[i] == b;
        if i < |before| && c in before[i].claims {
          assert before[i] in before;
          ClaimedUnderLonger(recs, n, c, b.retention);
        } else {
          assert HoldsClaim(recs[n]) && recs[n].claim.value == c && recs[n].retention == b.retention;
        }
      }
    }
  }

  lemma {:induction false} AddNew(bs: seq<Batch>, retention: int, c: Claim)
    requires forall i :: 0 <= i < |bs| ==> bs[i].retention != retention
    ensures AddToBatches(bs, retention, c) == bs + [Batch(retention, [c])]
  {
    if bs != [] {
      AddNew(bs[1..], retention, c);
      assert bs == [bs[0]] + bs[1..];
    }
  }

  lemma {:induction false} AddMore(bs: seq<Batch>, retention: int, c: Claim, i: nat)
    requires Distinct(bs) && i < |bs| && bs[i].retention == retention
    ensures AddToBatches(bs, retention, c) == bs[i := Batch(retention, bs[i].claims + [c])]
  {
    if i > 0 {
      AddMore(bs[1..], retention, c, i - 1);
      assert bs == [bs[0]] + bs[1..];
    }
  }

  // AddToBatches either extends the one batch of that retention or opens it at the end.
  lemma {:induction false} AddToBatchesShape(bs: seq<Batch>, retention: int, c: Claim)
    requires Distinct(bs)
    ensures var r := AddToBatches(bs, retention, c);
            && Distinct(r)
            && (forall i :: 0 <= i < |bs| && bs[i].retention == retention ==> r == bs[i := Batch(retention, bs[i].claims + [c])])
            && ((forall i :: 0 <= i < |bs| ==> bs[i].retention != retention) ==> r == bs + [Batch(retention, [c])])
            && |bs| <= |r| <= |bs| + 1
            && (forall i :: 0 <= i < |r| ==>
                  if i < |bs| then r[i].retention == bs[i].retention && (r[i] == bs[i] || (r[i].retention == retention && r[i].claims == bs[i].claims + [c]))
                  else r[i] == Batch(retention, [c]))
  {
    if i :| 0 <= i < |bs| && bs[i].retention == retention {
      AddMore(bs, retention, c, i);
    } else {
      AddNew(bs, retention, c);
    }
  }

  /******* The code *******/

  method ClaimedIn(recs: seq<Rec>) returns (out: seq<Claim>)
    ensures out == ClaimsIn(recs)
  {
    out := [];
    for i := 0 to |recs|
      invariant out == ClaimsIn(recs[..i])
    {
      assert recs[..i + 1][..i] == recs[..i];
      if recs[i].claim.Some? && recs[i].claim.value.status == Claimed {
        out := out + [recs[i].claim.value];
      }
    }
    assert recs[..|recs|] == recs;
  }

  ghost function Listed(retentions: seq<int>, byRetention: map<int, seq<Claim>>): (r: seq<Batch>)
    requires forall i :: 0 <= i < |retentions| ==> retentions[i] in byRetention
    ensures |r| == |retentions|
    ensures forall i :: 0 <= i < |r| ==> r[i] == Batch(retentions[i], byRetention[retentions[i]])
  {
    seq(|retentions|, i requires 0 <= i < |retentions| => Batch(retentions[i], byRetention[retentions[i]]))
  }

  lemma ListedNew(retentions: seq<int>, m: map<int, seq<Claim>>, r: int, c: Claim)
    requires r !in m && forall l :: 0 <= l < |retentions| ==> retentions[l] in m
    ensures forall l :: 0 <= l < |retentions + [r]| ==> (retentions + [r])[l] in m[r := [c]]
    ensures Listed(retentions + [r], m[r := [c]]) == Listed(retentions, m) + [Batch(r, [c])]
  {}

  lemma ListedMore(retentions: seq<int>, m: map<int, seq<Claim>>, j: nat, c: Claim)
    requires j < |retentions| && (forall l :: 0 <= l < |retentions| ==> retentions[l] in m) && Distinct(Listed(retentions, m))
    ensures Listed(retentions, m[retentions[j] := m[retentions[j]] + [c]])
         == Listed(retentions, m)[j := Batch(retentions[j], m[retentions[j]] + [c])]
  {
    var before := Listed(retentions, m);
    assert forall l :: 0 <= l < |retentions| && l != j ==> before[l].retention != before[j].retention;
  }

  // commitClaims: the Commit calls it makes, in order.
  method CommitClaims(recs: seq<Rec>) returns (commits: seq<Batch>)
    ensures commits == BatchesOf(recs)
  {
    var retentions: seq<int> := [];
    var byRetention: map<int, seq<Claim>> := map[];
    BatchesByRetention(recs[..0]);
    for i := 0 to |recs|
      invariant forall r :: r in byRetention <==> r in retentions
      invariant forall l :: 0 <= l < |retentions| ==> retentions[l] in byRetention
      invariant Listed(retentions, byRetention) == BatchesOf(recs[..i])
    {
      assert recs[..i + 1][..i] == recs[..i];
      if HoldsClaim(recs[i]) {
        var r, c := recs[i].retention, recs[i].claim.value;
        ghost var before := Listed(retentions, byRetention);
        BatchesByRetention(recs[..i]);
        AddToBatchesShape(before, r, c);
        if r !in byRetention {
          ListedNew(retentions, byRetention, r, c);
          retentions := retentions + [r];
          byRetention := byRetention[r := [c]];
        } else {
          ghost var j :| 0 <= j < |retentions| && retentions[j] == r;
          assert before[j].retention == r;
          ListedMore(retentions, byRetention, j, c);
          byRetention := byRetention[r := byRetention[r] + [c]];
        }
      }
    }
    assert recs[..|recs|] == recs;
    commits := [];
    for i := 0 to |retentions|
      invariant commits == Listed(retentions, byRetention)[..i]
    {
      commits := commits + [Batch(retentions[i], byRetention[retentions[i]])];
    }
  }

  lemma {:induction false} InFlightAbsorbed(recs: seq<Rec>, keyed: seq<nat>, claims: seq<Claim>)
    requires |keyed| == |claims| && Increasing(keyed, |recs|)
    requires forall i :: 0 <= i < |recs| ==> recs[i].claim.None?
    ensures SomeInFlight(Absorb(recs, keyed, claims)) <==> exists l :: 0 <= l < |claims| && claims[l].status == InFlight
  {
    var a := Absorb(recs, keyed, claims);
    AbsorbPointwise(recs, keyed, claims);
    if SomeInFlight(a) {
      var i :| 0 <= i < |a| && a[i].claim.Some? && a[i].claim.value.status == InFlight;
      assert i in keyed;
      var l :| 0 <= l < |keyed| && keyed[l] == i;
      assert claims[l].status == InFlight;
    }
    if l :| 0 <= l < |claims| && claims[l].status == InFlight {
      assert a[keyed[l]].claim == Some(claims[l]);
    }
  }

  // reserve's loop over Reserve's answers.
  method TakeAnswers(recs: array<Rec>, keyed: seq<nat>, claims: seq<Claim>) returns (inFlight: bool)
    requires |keyed| == |claims| && Increasing(keyed, recs.Length)
    requires forall i :: 0 <= i < recs.Length ==> recs[i].claim.None?
    modifies recs
    ensures recs[..] == Absorb(old(recs[..]), keyed, claims)
    ensures inFlight == SomeInFlight(recs[..])
  {
    inFlight := false;
    ghost var start := recs[..];
    for j := 0 to |keyed|
      invariant recs[..] == Absorb(start, keyed[..j], claims[..j])
      invariant inFlight <==> exists l :: 0 <= l < j && claims[l].status == InFlight
    {
      var i, c := keyed[j], claims[j];
      ghost var before := recs[..];
      assert keyed[..j + 1][..j] == keyed[..j] && claims[..j + 1][..j] == claims[..j];
      recs[i] := Answer(recs[i], c);
      assert recs[..] == before[i := Answer(before[i], c)];
      if c.status == InFlight {
        inFlight := true;
      }
    }
    assert keyed[..|keyed|] == keyed && claims[..|claims|] == claims;
    InFlightAbsorbed(start, keyed, claims);
  }

  method CollectKeyed(recs: seq<Rec>) returns (keyed: seq<nat>)
    ensures keyed == KeyedIn(recs)
  {
    keyed := [];
    for i := 0 to |recs|
      invariant keyed == KeyedIn(recs[..i])
    {
      assert recs[..i + 1][..i] == recs[..i];
      if !recs[i].rejected && recs[i].key.Some? {
        keyed := keyed + [i];
      }
    }
    assert recs[..|recs|] == recs;
  }

  // The publishes of a window, in record order, and the settling that follows them.
  method PublishAndSettle(recs: array<Rec>, publish: nat -> PublishAnswer)
    returns (aborted: bool, commits: seq<Batch>, releases: seq<Claim>)
    modifies recs
    ensures var o := PublishFrom(old(recs[..]), 0, publish);
            recs[..] == o.recs && aborted == o.aborted && commits == o.commits && releases == o.releases
  {
    ghost var o := PublishFrom(recs[..], 0, publish);
    for i := 0 to recs.Length
      invariant PublishFrom(recs[..], i, publish) == o
    {
      ghost var before := recs[..];
      if recs[i].rejected || recs[i].duplicate {
        continue;
      }
      var answer := publish(i);
      if answer == Accepted {
        recs[i] := recs[i].(queued := true);
        assert recs[..] == before[i := before[i].(queued := true)];
      } else {
        var after := if answer == QueueFull then i else i + 1;
        commits := CommitClaims(recs[..i]);
        releases := ClaimedIn(recs[after..]);
        assert before[..i] == recs[..i] && before[after..] == recs[after..];
        return true, commits, releases;
      }
    }
    commits := CommitClaims(recs[..]);
    return false, commits, [];
  }

  // ingestWindow
  method RunWindow(recs: array<Rec>, reserve: ReserveAnswer, publish: nat -> PublishAnswer)
    returns (aborted: bool, commits: seq<Batch>, releases: seq<Claim>)
    requires forall i :: 0 <= i < recs.Length ==> Fresh(recs[i])
    requires AnswersFor(reserve, KeysIn(recs[..]))
    modifies recs
    ensures var o := Window(old(recs[..]), reserve, publish);
            recs[..] == o.recs && aborted == o.aborted && commits == o.commits && releases == o.releases
  {
    var keyed := CollectKeyed(recs[..]);
    if |keyed| > 0 {
      if reserve.Unavailable? {
        return true, [], [];
      }
      if reserve.Answered? {
        var held := TakeAnswers(recs, keyed, reserve.claims);
        if held {
          releases := ClaimedIn(recs[..]);
          return true, [], releases;
        }
      }
    }
    aborted, commits, releases := PublishAndSettle(recs, publish);
  }
}
