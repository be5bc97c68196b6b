/** internal/api/ingest.go, handleBatch: the loop that fills windows from a request's body and
    the summary it answers with. */
module IngestBatch {
  import opened Common
  import opened Bytes
  import opened DedupeStore
  import opened IngestWindow

  const MAX_REPORTED: nat := 10000

  // What the record reader and prepareRecord make of the body, item by item.
  datatype Item =
    | Prepared(rejected: bool, key: Option<Bytes>, retention: int)
    | SyntaxError
    | BrokenStream
    | RequestAbort

  // What the n-th window's Reserve and publishes are answered.
  datatype World = World(reserve: (nat, seq<Bytes>) -> ReserveAnswer, publish: nat -> (nat -> PublishAnswer))

  datatype Verdict = Published | Dup | Failed
  datatype Entry = Entry(index: nat, verdict: Verdict)
  datatype Summary = Summary(total: nat, succeeded: nat, failed: nat, duplicates: nat, results: seq<Entry>)
  datatype Response = Aborted | Completed(summary: Summary)

  function VerdictOf(r: Rec): Verdict {
    if r.rejected then Failed else if r.duplicate then Dup else Published
  }

  function Count(recs: seq<Rec>, v: Verdict): nat {
    if recs == [] then 0 else Count(recs[..|recs| - 1], v) + (if VerdictOf(recs[|recs| - 1]) == v then 1 else 0)
  }

  function Entries(recs: seq<Rec>): (r: seq<Entry>)
    ensures |r| == |recs|
  {
    seq(|recs|, i requires 0 <= i < |recs| => Entry(recs[i].index, VerdictOf(recs[i])))
  }

  function Reported(recs: seq<Rec>): seq<Entry> {
    Entries(if |recs| <= MAX_REPORTED then recs else recs[..MAX_REPORTED])
  }

  // The summary of the records a batch has run so far; total counts those read.
  function SummaryOf(total: nat, done: seq<Rec>): Summary {
    Summary(total, Count(done, Published), Count(done, Failed), Count(done, Dup), Reported(done))
  }

  lemma {:induction false} CountsAddUp(recs: seq<Rec>)
    ensures |recs| == Count(recs, Published) + Count(recs, Failed) + Count(recs, Dup)
  {
    if recs != [] {
      CountsAddUp(recs[..|recs| - 1]);
    }
  }

  lemma {:induction false} CountIs(recs: seq<Rec>, v: Verdict)
    ensures Count(recs, v) == |set i: nat | i < |recs| && VerdictOf(recs[i]) == v|
  {
    var now := set i: nat | i < |recs| && VerdictOf(recs[i]) == v;
    if recs == [] {
      assert now == {};
    } else {
      var n := |recs| - 1;
      CountIs(recs[..n], v);
      var before := set i: nat | i < n && VerdictOf(recs[..n][i]) == v;
      assert now == if VerdictOf(recs[n]) == v then before + {n} else before;
    }
  }

  // The summary of a batch: how many records were rejected, were duplicates and were neither, and
  // as much for each of the first ten thousand, under the index it has in the request.
  lemma SummaryIs(total: nat, recs: seq<Rec>)
    ensures var s := SummaryOf(total, recs);
      && s.total == total
      && s.failed == |set i: nat | i < |recs| && recs[i].rejected|
      && s.duplicates == |set i: nat | i < |recs| && !recs[i].rejected && recs[i].duplicate|
      && s.succeeded == |set i: nat | i < |recs| && !recs[i].rejected && !recs[i].duplicate|
      && |s.results| == Smaller(|recs|, 10000)
      && forall i :: 0 <= i < |s.results| ==>
           && s.results[i].index == recs[i].index
           && (s.results[i].verdict == Failed <==> recs[i].rejected)
           && (s.results[i].verdict == Dup <==> !recs[i].rejected && recs[i].duplicate)
           && (s.results[i].verdict == Published <==> !recs[i].rejected && !recs[i].duplicate)
  {
    CountIs(recs, Failed);
    CountIs(recs, Dup);
    CountIs(recs, Published);
    assert (set i: nat | i < |recs| && VerdictOf(recs[i]) == Failed) == set i: nat | i < |recs| && recs[i].rejected;
    assert (set i: nat | i < |recs| && VerdictOf(recs[i]) == Dup) == set i: nat | i < |recs| && !recs[i].rejected && recs[i].duplicate;
    assert (set i: nat | i < |recs| && VerdictOf(recs[i]) == Published) == set i: nat | i < |recs| && !recs[i].rejected && !recs[i].duplicate;
  }

  // What a window never changes of a record.
  predicate SameRecord(a: Rec, b: Rec) {
    a.index == b.index && a.rejected == b.rejected && a.key == b.key && a.retention == b.retention
  }

  predicate SameRecords(a: seq<Rec>, b: seq<Rec>) {
    |a| == |b| && forall i :: 0 <= i < |a| ==> SameRecord(a[i], b[i])
  }

  lemma {:induction false} PublishKeepsRecords(recs: seq<Rec>, i: nat, publish: nat -> PublishAnswer)
    requires i <= |recs|
    ensures SameRecords(recs, PublishFrom(recs, i, publish).recs)
    decreases |recs| - i
  {
    if i < |recs| && Skipped(recs[i]) {
      PublishKeepsRecords(recs, i + 1, publish);
    } else if i < |recs| && publish(i) == Accepted {
      PublishKeepsRecords(recs[i := recs[i].(queued := true)], i + 1, publish);
    }
  }

  lemma WindowKeepsRecords(recs: seq<Rec>, reserve: ReserveAnswer, publish: nat -> PublishAnswer)
    requires AnswersFor(reserve, KeysIn(recs))
    ensures SameRecords(recs, Window(recs, reserve, publish).recs)
  {
    if KeyedIn(recs) == [] || reserve.Disabled? {
      PublishKeepsRecords(recs, 0, publish);
    } else if reserve.Answered? {
      var a := Absorb(recs, KeyedIn(recs), reserve.claims);
      AbsorbKeepsRecords(recs, KeyedIn(recs), reserve.claims);
      PublishKeepsRecords(a, 0, publish);
      SameTwice(recs, a, PublishFrom(a, 0, publish).recs);
    }
  }

  lemma {:induction false} AbsorbKeepsRecords(recs: seq<Rec>, keyed: seq<nat>, claims: seq<Claim>)
    requires |keyed| == |claims| && Increasing(keyed, |recs|)
    ensures SameRecords(recs, Absorb(recs, keyed, claims))
  {
    var a := Absorb(recs, keyed, claims);
    AbsorbPointwise(recs, keyed, claims);
    forall i | 0 <= i < |recs| ensures SameRecord(recs[i], a[i]) {
      if i in keyed {
        var j :| 0 <= j < |keyed| && keyed[j] == i;
      }
    }
  }

  lemma SameTwice(a: seq<Rec>, b: seq<Rec>, c: seq<Rec>)
    requires SameRecords(a, b) && SameRecords(b, c)
    ensures SameRecords(a, c)
  {}

  // batchResult.add
  method Add(s: Summary, ghost done: seq<Rec>, rec: Rec) returns (r: Summary)
    requires s == SummaryOf(s.total, done)
    ensures r == SummaryOf(s.total, done + [rec])
  {
    r := match VerdictOf(rec)
         case Failed => s.(failed := s.failed + 1)
         case Dup => s.(duplicates := s.duplicates + 1)
         case Published => s.(succeeded := s.succeeded + 1);
    if |r.results| < MAX_REPORTED {
      r := r.(results := r.results + [Entry(rec.index, VerdictOf(rec))]);
    }
    ghost var after := done + [rec];
    assert after[..|after| - 1] == done;
    if |done| < MAX_REPORTED {
      assert Entries(after) == Entries(done) + [Entry(rec.index, VerdictOf(rec))];
    } else {
      assert after[..MAX_REPORTED] == done[..MAX_REPORTED];
      assert |done| == MAX_REPORTED ==> done[..MAX_REPORTED] == done;
    }
  }

  // flush: one window through ingestWindow, its records added to the summary unless it aborts.
  method Flush(window: seq<Rec>, n: nat, world: World, s: Summary, ghost done: seq<Rec>)
    returns (aborted: bool, r: Summary, ghost ran: seq<Rec>)
    requires forall i :: 0 <= i < |window| ==> Fresh(window[i])
    requires AnswersFor(world.reserve(n, KeysIn(window)), KeysIn(window))
    requires s == SummaryOf(s.total, done)
    ensures var o := Window(window, world.reserve(n, KeysIn(window)), world.publish(n)); aborted == o.aborted && ran == o.recs
    ensures SameRecords(window, ran)
    ensures !aborted ==> r == SummaryOf(s.total, done + ran)
    ensures !aborted ==> forall i :: 0 <= i < |ran| ==> (ran[i].queued <==> VerdictOf(ran[i]) == Published)
  {
    var recs := new Rec[|window|](i requires 0 <= i < |window| => window[i]);
    assert recs[..] == window;
    var reserve, publish := world.reserve(n, KeysIn(window)), world.publish(n);
    var commits, releases;
    aborted, commits, releases := RunWindow(recs, reserve, publish);
    WindowKeepsRecords(window, reserve, publish);
    WindowSettlesEveryClaim(window, reserve, publish);
    ran := recs[..];
    r := s;
    if !aborted {
      r := AddAll(s, done, recs[..]);
    }
  }

  method AddAll(s: Summary, ghost done: seq<Rec>, ran: seq<Rec>) returns (r: Summary)
    requires s == SummaryOf(s.total, done)
    ensures r == SummaryOf(s.total, done + ran)
  {
    r := s;
    assert done + ran[..0] == done;
    for i := 0 to |ran|
      invariant r == SummaryOf(s.total, done + ran[..i])
    {
      r := Add(r, done + ran[..i], ran[i]);
      assert done + ran[..i + 1] == done + ran[..i] + [ran[i]];
    }
    assert ran[..|ran|] == ran;
  }

  // A record of the batch, as item i prepared it.
  predicate FromItem(rec: Rec, i: nat, item: Item) {
    && rec.index == i + 1
    && (item.SyntaxError? ==> rec.rejected)
    && (item.Prepared? ==> rec.rejected == item.rejected && rec.key == item.key && rec.retention == item.retention)
  }

  // What has been through its window, and what waits for one.
  ghost predicate DoneRight(done: seq<Rec>, items: seq<Item>) {
    && |done| <= |items|
    && forall i :: 0 <= i < |done| ==> FromItem(done[i], i, items[i]) && (done[i].queued <==> VerdictOf(done[i]) == Published)
  }

  ghost predicate WindowRight(window: seq<Rec>, at: nat, items: seq<Item>) {
    && at + |window| <= |items|
    && forall i :: 0 <= i < |window| ==> Fresh(window[i]) && FromItem(window[i], at + i, items[at + i])
  }

  lemma WindowDone(done: seq<Rec>, window: seq<Rec>, ran: seq<Rec>, items: seq<Item>)
    requires DoneRight(done, items) && WindowRight(window, |done|, items) && SameRecords(window, ran)
    requires forall i :: 0 <= i < |ran| ==> (ran[i].queued <==> VerdictOf(ran[i]) == Published)
    ensures DoneRight(done + ran, items)
  {
    forall i | |done| <= i < |done + ran| ensures FromItem((done + ran)[i], i, items[i]) {
      assert FromItem(window[i - |done|], i, items[i]);
    }
  }

  ghost predicate SomeAborts(items: seq<Item>) {
    exists i :: 0 <= i < |items| && (items[i].BrokenStream? || items[i].RequestAbort?)
  }

  // The record an item is read into. Of one that ends the request only its being there counts.
  function NewRec(i: nat, item: Item): (r: Rec)
    ensures Fresh(r) && FromItem(r, i, item)
  {
    match item
    case Prepared(rejected, key, retention) => Rec(i + 1, rejected, key, retention, None, false, false)
    case _ => Rec(i + 1, true, None, 0, None, false, false)
  }

  // The records of the items from at up to end.
  function Records(items: seq<Item>, at: nat, end: nat): (r: seq<Rec>)
    requires at <= end <= |items|
  {
    seq(end - at, i requires 0 <= i < end - at => NewRec(at + i, items[at + i]))
  }

  lemma RecordsRight(items: seq<Item>, at: nat, end: nat)
    requires at <= end <= |items|
    ensures WindowRight(Records(items, at, end), at, items)
  {
    var r := Records(items, at, end);
    forall i | 0 <= i < |r| ensures Fresh(r[i]) && FromItem(r[i], at + i, items[at + i]) {
      assert r[i] == NewRec(at + i, items[at + i]);
    }
  }

  lemma RecordsMore(items: seq<Item>, at: nat, end: nat)
    requires at <= end < |items|
    ensures Records(items, at, end) + [NewRec(end, items[end])] == Records(items, at, end + 1)
  {}

  lemma RecordsNone(items: seq<Item>, at: nat)
    requires at <= |items|
    ensures Records(items, at, at) == []
  {}

  // The n-th window of the batch, of size items or the rest, aborts.
  ghost predicate WindowAborts(world: World, items: seq<Item>, size: nat, n: nat) {
    n * size < |items| &&
    var window := Records(items, n * size, Smaller(n * size + size, |items|));
    && AnswersFor(world.reserve(n, KeysIn(window)), KeysIn(window))
    && Window(window, world.reserve(n, KeysIn(window)), world.publish(n)).aborted
  }

  ghost predicate SomeWindowAborts(world: World, items: seq<Item>, size: nat) {
    exists n :: WindowAborts(world, items, size, n)
  }

  // Flush, of the n-th window of the batch.
  method FlushNext(ghost items: seq<Item>, size: nat, window: seq<Rec>, n: nat, world: World, s: Summary, ghost done: seq<Rec>)
    returns (aborted: bool, r: Summary, ghost all: seq<Rec>)
    requires AnswersFor(world.reserve(n, KeysIn(window)), KeysIn(window))
    requires s == SummaryOf(s.total, done) && DoneRight(done, items) && |done| == n * size < |items|
    requires window == Records(items, n * size, Smaller(n * size + size, |items|))
    ensures aborted <==> WindowAborts(world, items, size, n)
    ensures !aborted ==> r == SummaryOf(s.total, all) && DoneRight(all, items) && |all| == |done| + |window|
  {
    ghost var ran;
    RecordsRight(items, n * size, Smaller(n * size + size, |items|));
    aborted, r, ran := Flush(window, n, world, s, done);
    all := done + ran;
    if !aborted {
      WindowDone(done, window, ran, items);
    }
  }

  // i items read: done are through their windows, the last of which ended at at, and the rest wait
  // in the open one.
  ghost predicate Read(items: seq<Item>, size: nat, i: nat, at: nat, s: Summary, done: seq<Rec>, window: seq<Rec>) {
    && at <= i <= |items| && i < at + size && |done| == at
    && s == SummaryOf(i, done) && DoneRight(done, items) && window == Records(items, at, i)
  }

  // None of the first n windows aborts.
  ghost predicate NoneAborts(world: World, items: seq<Item>, size: nat, n: nat) {
    forall m :: 0 <= m < n ==> !WindowAborts(world, items, size, m)
  }

  ghost predicate UpTo(world: World, items: seq<Item>, size: nat, i: nat, n: nat, s: Summary, done: seq<Rec>, window: seq<Rec>) {
    Read(items, size, i, n * size, s, done, window) && NoneAborts(world, items, size, n)
  }

  lemma OneMoreWindow(n: nat, size: nat)
    ensures (n + 1) * size == n * size + size
  {}

  lemma NoFurtherWindow(n: nat, m: nat, size: nat)
    requires n < m
    ensures n * size + size <= m * size
  {
    assert m * size == (n + 1) * size + (m - n - 1) * size;
  }

  // The same, but that the open window may be full.
  ghost predicate ReadFull(items: seq<Item>, size: nat, i: nat, at: nat, s: Summary, done: seq<Rec>, window: seq<Rec>) {
    && at <= i <= |items| && i <= at + size && |done| == at
    && s == SummaryOf(i, done) && DoneRight(done, items) && window == Records(items, at, i)
  }

  lemma ReadOne(items: seq<Item>, size: nat, i: nat, at: nat, s: Summary, done: seq<Rec>, window: seq<Rec>)
    requires i < |items| && Read(items, size, i, at, s, done, window)
    ensures ReadFull(items, size, i + 1, at, s.(total := s.total + 1), done, window + [NewRec(i, items[i])])
  {
    RecordsMore(items, at, i);
  }

  lemma Flushed(items: seq<Item>, size: nat, i: nat, at: nat, s: Summary, all: seq<Rec>)
    requires size > 0 && i == at + size <= |items| && s == SummaryOf(i, all) && DoneRight(all, items) && |all| == i
    ensures Read(items, size, i, at + size, s, all, [])
  {
    RecordsNone(items, i);
  }

  // A flush, if the window is full.
  method FlushFull(items: seq<Item>, i: nat, size: nat, n: nat, world: World, s: Summary, window: seq<Rec>, ghost done: seq<Rec>)
    returns (aborted: bool, r: Summary, rest: seq<Rec>, next: nat, ghost all: seq<Rec>)
    requires size > 0 && ReadFull(items, size, i, n * size, s, done, window)
    requires AnswersFor(world.reserve(n, KeysIn(window)), KeysIn(window))
    ensures !aborted ==> Read(items, size, i, next * size, r, all, rest)
    ensures NoneAborts(world, items, size, n) && !aborted ==> NoneAborts(world, items, size, next)
    ensures aborted ==> SomeWindowAborts(world, items, size)
  {
    aborted, r, rest, next, all := false, s, window, n, done;
    if |window| == size {
      aborted, r, all := FlushNext(items, size, window, n, world, s, done);
      rest, next := [], n + 1;
      OneMoreWindow(n, size);
      if !aborted {
        Flushed(items, size, i, n * size, r, all);
        NoneMore(world, items, size, n);
      }
    }
  }

  lemma NoneMore(world: World, items: seq<Item>, size: nat, n: nat)
    requires !WindowAborts(world, items, size, n)
    ensures NoneAborts(world, items, size, n) ==> NoneAborts(world, items, size, n + 1)
  {}

  // After the last window there are no more.
  lemma NoneLeft(world: World, items: seq<Item>, size: nat, n: nat)
    requires NoneAborts(world, items, size, n) && |items| <= n * size + size
    requires n * size < |items| ==> !WindowAborts(world, items, size, n)
    ensures !SomeWindowAborts(world, items, size)
  {
    forall m: nat ensures !WindowAborts(world, items, size, m) {
      if m > n {
        NoFurtherWindow(n, m, size);
      }
    }
  }

  // One more item, and a flush if it fills the window.
  method TakeItem(items: seq<Item>, i: nat, size: nat, n: nat, world: World, s: Summary, window: seq<Rec>, ghost done: seq<Rec>)
    returns (aborted: bool, r: Summary, rest: seq<Rec>, next: nat, ghost all: seq<Rec>)
    requires size > 0 && i < |items| && UpTo(world, items, size, i, n, s, done, window)
    requires forall keys :: AnswersFor(world.reserve(n, keys), keys)
    ensures aborted ==> SomeWindowAborts(world, items, size)
    ensures !aborted ==> UpTo(world, items, size, i + 1, next, r, all, rest)
  {
    ReadOne(items, size, i, n * size, s, done, window);
    aborted, r, rest, next, all := FlushFull(items, i + 1, size, n, world, s.(total := s.total + 1), window + [NewRec(i, items[i])], done);
  }

  // Every item goes through one window, in order; the request is aborted exactly when an item
  // ends it or one of its windows aborts.
  method HandleBatch(items: seq<Item>, size: nat, world: World) returns (r: Response, ghost done: seq<Rec>)
    requires size > 0
    requires forall n, keys :: AnswersFor(world.reserve(n, keys), keys)
    ensures r.Aborted? <==> SomeAborts(items) || SomeWindowAborts(world, items, size)
    ensures r.Completed? ==>
              && |done| == |items| && DoneRight(done, items)
              && r.summary == SummaryOf(|items|, done)
              && r.summary.total == r.summary.succeeded + r.summary.failed + r.summary.duplicates
              && r.summary.failed == |set i: nat | i < |done| && done[i].rejected|
              && r.summary.duplicates == |set i: nat | i < |done| && !done[i].rejected && done[i].duplicate|
              && r.summary.succeeded == |set i: nat | i < |done| && !done[i].rejected && !done[i].duplicate|
              && (forall i :: 0 <= i < |r.summary.results| ==> r.summary.results[i].index == i + 1)
  {
    var s := Summary(0, 0, 0, 0, []);
    var window: seq<Rec> := [];
    var n: nat, aborted := 0, false;
    done := [];
    for i := 0 to |items|
      invariant UpTo(world, items, size, i, n, s, done, window)
      invariant forall j :: 0 <= j < i ==> !items[j].BrokenStream? && !items[j].RequestAbort?
    {
      if items[i].BrokenStream? || items[i].RequestAbort? {
        return Aborted, done;
      }
      aborted, s, window, n, done := TakeItem(items, i, size, n, world, s, window, done);
      if aborted {
        return Aborted, done;
      }
    }
    if |window| > 0 {
      aborted, s, done := FlushNext(items, size, window, n, world, s, done);
      if aborted {
        return Aborted, done;
      }
    }
    NoneLeft(world, items, size, n);
    CountsAddUp(done);
    SummaryIs(|items|, done);
    return Completed(s), done;
  }
}
