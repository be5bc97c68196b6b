/** internal/mq/external_consumer.go: one unit's puller and deliverer, and settlements from
    anywhere, interleaved. A step is one lock-protected section, or one row arriving. */
module Consumer {
  import opened Common

  const RENEW_EVERY: nat := 5 * SECOND

  // The puller: about to look for room, with a fetch of up to left more rows in flight, at its
  // cap, or finished for good.
  datatype Puller = Looking | Fetching(left: nat) | AtCap | Ended

  // fetched is every row the unit ever received and handed every one its handler was given, in
  // order. settled says which of the latter, by position. top is the largest cap read so far.
  datatype Part<Row> = Part(share: nat, ackWait: nat, puller: Puller, halting: bool, drained: bool,
                            queue: seq<Row>, held: int, fetched: seq<Row>, handed: seq<Row>, settled: set<nat>, top: nat)

  // maxHeld is nil for a consumer without a budget.
  function Room(share: nat, queued: nat, held: int, cap: Option<nat>): int {
    if cap.None? then share - queued else Smaller(share - queued, cap.value - held)
  }

  // One ack_wait of renewals.
  function Slack(ackWait: nat): nat {
    Larger(1, ackWait / RENEW_EVERY)
  }

  predicate MayOvershoot(share: nat, queued: nat, held: int, cap: Option<nat>, ackWait: nat) {
    cap.Some? && held - cap.value < Slack(ackWait) && queued - share < Slack(ackWait)
  }

  datatype Step<Row> =
    | Look(cap: Option<nat>)       // room; a halt may come between the check for one and this
    | Renew(cap: Option<nat>)      // mayOvershoot; a renewal that takes no row changes nothing
    | Wait                         // a settlement or the next renewal ends a pause
    | Arrive(row: Row)             // enqueue
    | FetchEnds
    | DeliveryEnds                 // the durable is gone, or the connection closed for good
    | Halt
    | PullerEnds
    | Deliver                      // next, with a row
    | DelivererEnds                // next, without
    | Settle(n: nat)               // the n-th handed row settles, or its ack_wait passes

  predicate Enabled<Row>(p: Part<Row>, step: Step<Row>) {
    match step
    case Look(_) => p.puller.Looking?
    case Renew(_) => p.puller.AtCap?
    case Wait => p.puller.AtCap?
    case Arrive(_) => p.puller.Fetching? && p.puller.left > 0
    case FetchEnds => p.puller.Fetching?
    case DeliveryEnds => !p.puller.Ended?
    case Halt => true
    case PullerEnds => p.puller.Looking? && p.halting
    case Deliver => p.queue != []
    case DelivererEnds => p.queue == [] && p.puller.Ended?
    case Settle(n) => n < |p.handed| && n !in p.settled
  }

  function Seen(top: nat, cap: Option<nat>): nat {
    if cap.Some? then Larger(top, cap.value) else top
  }

  function Do<Row>(p: Part<Row>, step: Step<Row>): Part<Row>
    requires Enabled(p, step)
  {
    match step
    case Look(cap) =>
      var n := Room(p.share, |p.queue|, p.held, cap);
      p.(puller := if n > 0 then Fetching(n) else AtCap, top := Seen(p.top, cap))
    case Renew(cap) =>
      p.(puller := if MayOvershoot(p.share, |p.queue|, p.held, cap, p.ackWait) then Fetching(1) else Looking, top := Seen(p.top, cap))
    case Wait => p.(puller := Looking)
    case Arrive(row) =>
      p.(queue := p.queue + [row], held := p.held + 1, fetched := p.fetched + [row], puller := Fetching(p.puller.left - 1))
    case FetchEnds => p.(puller := Looking)
    case DeliveryEnds => p.(puller := Ended)
    case Halt => p.(halting := true)
    case PullerEnds => p.(puller := Ended)
    case Deliver => p.(queue := p.queue[1..], handed := p.handed + [p.queue[0]])
    case DelivererEnds => p.(drained := true)
    case Settle(n) => p.(held := p.held - 1, settled := p.settled + {n})
  }

  function Begin<Row>(share: nat, ackWait: nat): Part<Row> {
    Part(share, ackWait, Looking, false, false, [], 0, [], [], {}, 0)
  }

  function InFlight(q: Puller): nat {
    if q.Fetching? then q.left else 0
  }

  ghost predicate Inv<Row>(p: Part<Row>) {
    && p.fetched == p.handed + p.queue
    && (forall n :: n in p.settled ==> n < |p.handed|)
    && p.held == |p.queue| + |p.handed| - |p.settled|
    && |p.queue| + InFlight(p.puller) <= p.share + Slack(p.ackWait)
    && (p.drained ==> p.puller.Ended? && p.queue == [])
  }

  // What is unsettled, with what may still arrive, is within the largest cap and the slack.
  ghost predicate Capped<Row>(p: Part<Row>) {
    p.held + InFlight(p.puller) <= p.top + Slack(p.ackWait)
  }

  // Every part of a consumer, each with its own steps.
  ghost predicate Valid<Row>(p: Part<Row>, steps: seq<Step<Row>>)
    decreases |steps|
  {
    steps == [] || (Enabled(p, steps[0]) && Valid(Do(p, steps[0]), steps[1..]))
  }

  ghost function Exec<Row>(p: Part<Row>, steps: seq<Step<Row>>): Part<Row>
    requires Valid(p, steps)
    decreases |steps|
  {
    if steps == [] then p else Exec(Do(p, steps[0]), steps[1..])
  }

  lemma StepKeepsInv<Row>(p: Part<Row>, step: Step<Row>)
    requires Inv(p) && Enabled(p, step)
    ensures Inv(Do(p, step)) && Do(p, step).share == p.share && Do(p, step).ackWait == p.ackWait
  {
    if step.Deliver? {
      assert p.queue == [p.queue[0]] + p.queue[1..];
    }
  }

  lemma {:induction false} InvRun<Row>(p: Part<Row>, steps: seq<Step<Row>>)
    requires Inv(p) && Valid(p, steps)
    ensures Inv(Exec(p, steps)) && Exec(p, steps).share == p.share && Exec(p, steps).ackWait == p.ackWait
    decreases |steps|
  {
    if steps != [] {
      StepKeepsInv(p, steps[0]);
      InvRun(Do(p, steps[0]), steps[1..]);
    }
  }

  // A consumer whose units all have a budget.
  predicate Budgeted<Row>(steps: seq<Step<Row>>, cap: nat) {
    forall i :: 0 <= i < |steps| ==>
      (steps[i].Look? ==> steps[i].cap.Some? && steps[i].cap.value <= cap) && (steps[i].Renew? ==> steps[i].cap.Some? && steps[i].cap.value <= cap)
  }

  lemma {:induction false} CappedRun<Row>(p: Part<Row>, steps: seq<Step<Row>>, cap: nat)
    requires Inv(p) && Capped(p) && p.top <= cap && Valid(p, steps) && Budgeted(steps, cap)
    ensures Capped(Exec(p, steps)) && Exec(p, steps).top <= cap
    decreases |steps|
  {
    if steps != [] {
      StepKeepsInv(p, steps[0]);
      CappedRun(Do(p, steps[0]), steps[1..], cap);
    }
  }

  // Rows waiting for the handler: at most the share, and one ack_wait of renewals.
  lemma {:induction false} QueueIsBounded<Row>(share: nat, ackWait: nat, steps: seq<Step<Row>>)
    requires Valid(Begin(share, ackWait), steps)
    ensures |Exec(Begin(share, ackWait), steps).queue| <= share + Larger(1, ackWait / (5 * SECOND))
  {
    InvRun(Begin(share, ackWait), steps);
  }

  // Rows fetched and unsettled: at most the cap, and one ack_wait of renewals. The cap may move
  // from one look to the next; the bound is the largest it has been.
  lemma {:induction false} HeldIsBounded<Row>(share: nat, ackWait: nat, steps: seq<Step<Row>>, cap: nat)
    requires Valid(Begin(share, ackWait), steps) && Budgeted(steps, cap)
    ensures var p := Exec(Begin(share, ackWait), steps);
      0 <= |p.fetched| - |p.settled| == p.held <= cap + Larger(1, ackWait / (5 * SECOND))
  {
    InvRun(Begin(share, ackWait), steps);
    CappedRun(Begin(share, ackWait), steps, cap);
    var p := Exec(Begin(share, ackWait), steps);
    SettledFew(p.settled, |p.handed|);
  }

  lemma {:induction false} SettledFew(s: set<nat>, n: nat)
    requires forall x :: x in s ==> x < n
    ensures |s| <= n
  {
    if n > 0 {
      SettledFew(s - {n - 1}, n - 1);
      assert s - {n - 1} == s || s == (s - {n - 1}) + {n - 1};
    } else {
      assert s == {};
    }
  }

  function Arrivals<Row>(rows: seq<Row>): seq<Step<Row>> {
    seq(|rows|, i requires 0 <= i < |rows| => Arrive(rows[i]))
  }

  // A look fetches as many rows as fit both the share, beside what is queued, and the cap, beside
  // what is unsettled; and that many may then arrive and are queued. With none it is at its cap.
  lemma LookFetches<Row>(p: Part<Row>, cap: Option<nat>, n: int)
    requires p.puller.Looking? && n == if cap.Some? then Smaller(p.share - |p.queue|, cap.value - p.held) else p.share - |p.queue|
    ensures Do(p, Look(cap)).puller == if n > 0 then Fetching(n) else AtCap
    ensures forall rows: seq<Row> :: |rows| <= n ==> var q := Do(p, Look(cap));
      Valid(q, Arrivals(rows)) && Exec(q, Arrivals(rows)).queue == p.queue + rows && Exec(q, Arrivals(rows)).held == p.held + |rows|
  {
    forall rows: seq<Row> | |rows| <= n
      ensures var q := Do(p, Look(cap));
        Valid(q, Arrivals(rows)) && Exec(q, Arrivals(rows)).queue == p.queue + rows && Exec(q, Arrivals(rows)).held == p.held + |rows|
    {
      if n > 0 {
        RowsArrive(Do(p, Look(cap)), rows);
      } else {
        assert rows == [] && Arrivals(rows) == [];
      }
    }
  }

  lemma {:induction false} RowsArrive<Row>(p: Part<Row>, rows: seq<Row>)
    requires p.puller.Fetching? && |rows| <= p.puller.left
    ensures Valid(p, Arrivals(rows))
    ensures Exec(p, Arrivals(rows)).queue == p.queue + rows && Exec(p, Arrivals(rows)).held == p.held + |rows|
    decreases |rows|
  {
    if rows != [] {
      RowsArrive(Do(p, Arrive(rows[0])), rows[1..]);
      assert Arrivals(rows)[1..] == Arrivals(rows[1..]);
      assert p.queue + [rows[0]] + rows[1..] == p.queue + rows;
    } else {
      assert Arrivals(rows) == [];
    }
  }

  // A renewal at the cap fetches one row past it exactly while fewer are past the cap, and past
  // the share, than one ack_wait has renewals.
  lemma RenewFetches<Row>(p: Part<Row>, cap: Option<nat>)
    requires p.puller.AtCap?
    ensures var k := Larger(1, p.ackWait / (5 * SECOND));
      Do(p, Renew(cap)).puller ==
        if cap.Some? && p.held < cap.value + k && |p.queue| < p.share + k then Fetching(1) else Looking
  {}

  // A consumer without a budget never goes past its share.
  predicate Unbudgeted<Row>(steps: seq<Step<Row>>) {
    forall i :: 0 <= i < |steps| ==> (steps[i].Look? ==> steps[i].cap.None?) && (steps[i].Renew? ==> steps[i].cap.None?)
  }

  lemma {:induction false} UnbudgetedQueue<Row>(p: Part<Row>, steps: seq<Step<Row>>)
    requires |p.queue| + InFlight(p.puller) <= p.share && Valid(p, steps) && Unbudgeted(steps)
    ensures |Exec(p, steps).queue| <= p.share
    decreases |steps|
  {
    if steps != [] {
      UnbudgetedQueue(Do(p, steps[0]), steps[1..]);
    }
  }

  // What the handler has been given is always the rows fetched, in that order, each once, up to
  // those still queued.
  lemma {:induction false} HandedInOrder<Row>(share: nat, ackWait: nat, steps: seq<Step<Row>>)
    requires Valid(Begin(share, ackWait), steps)
    ensures var p := Exec(Begin(share, ackWait), steps);
      p.fetched == p.handed + p.queue && (p.drained ==> p.handed == p.fetched)
  {
    InvRun(Begin(share, ackWait), steps);
  }

  lemma {:induction false} NothingAfterDrained<Row>(p: Part<Row>, steps: seq<Step<Row>>)
    requires Inv(p) && p.drained && Valid(p, steps)
    ensures Exec(p, steps).drained && Exec(p, steps).fetched == p.fetched && Exec(p, steps).handed == p.handed
    decreases |steps|
  {
    if steps != [] {
      StepKeepsInv(p, steps[0]);
      NothingAfterDrained(Do(p, steps[0]), steps[1..]);
    }
  }

  // Halt waits for every part to be drained. When it returns, each has handed on everything it
  // fetched, and none fetches or hands on anything after.
  lemma {:induction false} HaltReturnsDrained<Row>(share: nat, ackWait: nat, before: seq<Step<Row>>, after: seq<Step<Row>>)
    requires Valid(Begin(share, ackWait), before) && Exec(Begin(share, ackWait), before).drained
    requires Valid(Exec(Begin(share, ackWait), before), after)
    ensures var p := Exec(Exec(Begin(share, ackWait), before), after);
      p.handed == p.fetched == Exec(Begin(share, ackWait), before).fetched
  {
    InvRun(Begin(share, ackWait), before);
    HandedInOrder(share, ackWait, before);
    NothingAfterDrained(Exec(Begin(share, ackWait), before), after);
  }

  function Deliveries<Row>(n: nat): seq<Step<Row>> {
    seq(n, i => Deliver)
  }

  // What is queued can be handed on, and then, fetching over, the part is drained.
  lemma {:induction false} QueueDrains<Row>(p: Part<Row>)
    requires p.puller.Ended?
    ensures var steps := Deliveries(|p.queue|) + [DelivererEnds];
      Valid(p, steps) && Exec(p, steps) == p.(queue := [], handed := p.handed + p.queue, drained := true)
    decreases |p.queue|
  {
    var steps: seq<Step<Row>> := Deliveries(|p.queue|) + [DelivererEnds];
    if p.queue == [] {
      assert steps == [DelivererEnds] && steps[1..] == [];
      assert Exec(Do(p, steps[0]), steps[1..]) == Do(p, steps[0]);
      assert p.handed + p.queue == p.handed;
    } else {
      var q := Do(p, Deliver);
      QueueDrains(q);
      assert steps[1..] == Deliveries(|q.queue|) + [DelivererEnds];
      assert q.handed + q.queue == p.handed + p.queue;
    }
  }

  // A halt ends the puller as soon as it next looks, whatever it was doing.
  lemma {:induction false} HaltEndsPuller<Row>(p: Part<Row>)
    requires !p.puller.Ended?
    ensures var pause := if p.puller.Looking? then [] else if p.puller.AtCap? then [Wait] else [FetchEnds];
      var steps := [Halt] + pause + [PullerEnds];
      Valid(p, steps) && Exec(p, steps) == p.(halting := true, puller := Ended)
  {
    var q := Do(p, Halt);
    var ends: seq<Step<Row>> := [PullerEnds];
    if p.puller.Looking? {
      OneMore(q, PullerEnds, []);
      OneMore(p, Halt, ends);
      assert [Halt] + [] + ends == [Halt] + ends;
    } else {
      var pause: Step<Row> := if p.puller.AtCap? then Wait else FetchEnds;
      OneMore(Do(q, pause), PullerEnds, []);
      OneMore(q, pause, ends);
      OneMore(p, Halt, [pause] + ends);
      assert [Halt] + [pause] + ends == [Halt] + ([pause] + ends);
    }
  }

  lemma {:induction false} OneMore<Row>(p: Part<Row>, step: Step<Row>, steps: seq<Step<Row>>)
    requires Enabled(p, step) && Valid(Do(p, step), steps)
    ensures Valid(p, [step] + steps) && Exec(p, [step] + steps) == Exec(Do(p, step), steps)
    ensures steps == [] ==> [step] + steps == [step]
  {
    assert ([step] + steps)[1..] == steps;
  }

  /******* The part *******/

  // consumerPart. part is the machine above, each locked section one of its steps; what the
  // puller is doing is where its loop is, and so not a field.
  class ConsumerPart<Row> {
    const share: nat
    const ackWait: nat
    var queue: seq<Row>
    var held: int
    ghost var part: Part<Row>

    ghost predicate Valid()
      reads this
    {
      part.share == share && part.ackWait == ackWait && part.queue == queue && part.held == held
    }

    constructor (share: nat, ackWait: nat)
      ensures Valid() && part == Begin(share, ackWait)
    {
      this.share, this.ackWait, queue, held := share, ackWait, [], 0;
      part := Begin(share, ackWait);
    }

    // room: how many rows the next fetch may take, none or less at the cap.
    method RoomNow(maxHeld: Option<nat>) returns (n: int)
      requires Valid() && Enabled(part, Look(maxHeld))
      modifies this`part
      ensures Valid() && part == Do(old(part), Look(maxHeld))
      ensures part.puller == if n > 0 then Fetching(n) else AtCap
      ensures n == if maxHeld.Some? then Smaller(share - |queue|, maxHeld.value - held) else share - |queue|
    {
      n := share - |queue|;
      if maxHeld.Some? {
        n := Smaller(n, maxHeld.value - held);
      }
      part := Do(part, Look(maxHeld));
    }

    // mayOvershoot
    method OvershootNow(maxHeld: Option<nat>) returns (ok: bool)
      requires Valid() && Enabled(part, Renew(maxHeld))
      modifies this`part
      ensures Valid() && part == Do(old(part), Renew(maxHeld))
      ensures part.puller == if ok then Fetching(1) else Looking
      ensures var k := Larger(1, ackWait / (5 * SECOND)); ok <==> maxHeld.Some? && held < maxHeld.value + k && |queue| < share + k
    {
      ok := false;
      if maxHeld.Some? {
        var k := Slack(ackWait);
        ok := held - maxHeld.value < k && |queue| - share < k;
      }
      part := Do(part, Renew(maxHeld));
    }

    method Enqueue(m: Row)
      requires Valid() && Enabled(part, Arrive(m))
      modifies this
      ensures Valid() && part == Do(old(part), Arrive(m))
    {
      queue := queue + [m];
      held := held + 1;
      part := Do(part, Arrive(m));
    }

    // settle, by the n-th row handed on, whose first attempt or ack_wait this is.
    method SettleRow(ghost n: nat)
      requires Valid() && Enabled(part, Settle(n))
      modifies this
      ensures Valid() && part == Do(old(part), Settle(n))
    {
      held := held - 1;
      part := Do(part, Settle(n));
    }

    // next, once there is a row, or once fetching has ended and nothing is queued any more.
    method Next() returns (m: Option<Row>)
      requires Valid() && (queue != [] || part.puller.Ended?)
      modifies this
      ensures Valid() && (m.Some? <==> old(queue) != [])
      ensures part == if m.Some? then Do(old(part), Deliver) else Do(old(part), DelivererEnds)
      ensures m.Some? ==> part.handed == old(part.handed) + [m.value]
      ensures m.None? ==> part.drained
    {
      if |queue| > 0 {
        m := Some(queue[0]);
        queue := queue[1..];
        part := Do(part, Deliver);
        return;
      }
      part := Do(part, DelivererEnds);
      m := None;
    }
  }
}
