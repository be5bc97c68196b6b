/** internal/ingest/backoff.go: the retry backoff of one ClickHouse pool or table, and the set of
    them. Times and durations are nanoseconds; the jitter is any draw below its bound. */
module Backoff {
  import opened Common
  import opened Bytes

  const BASE: int := SECOND
  const LOG_EVERY: int := 30 * BASE

  datatype State = State(failures: nat, until: int, probing: bool, since: int, logged: int, ceiling: int)

  // The zero value, before the first failure. never is time.Time{}.
  function Closed(never: int): State {
    State(0, never, false, never, never, 0)
  }

  type Jitter = int -> int

  ghost predicate Draws(j: Jitter) {
    forall d :: d > 0 ==> 0 <= j(d) < d
  }

  function Spread(j: Jitter, d: int): int {
    if d <= 0 then 0 else j(d)
  }

  function Adopt(b: State, now: int, cap: int): State {
    if cap <= 0 then b else
      var c := Larger(cap, BASE);
      var ceiling := if b.ceiling == 0 || c < b.ceiling then c else b.ceiling;
      b.(ceiling := ceiling, until := Smaller(b.until, now + ceiling))
  }

  datatype Answer = Answer(b: State, wait: int, ok: bool)

  function ProbeOut(j: Jitter): int {
    BASE / 2 + Spread(j, BASE / 2)
  }

  function Allow(b: State, now: int, cap: int, j: Jitter): Answer {
    if b.failures == 0 then Answer(b, 0, true) else
      var a := Adopt(b, now, cap);
      if now < a.until then Answer(a, a.until - now + Spread(j, BASE), false)
      else if a.probing then Answer(a, ProbeOut(j), false)
      else Answer(a.(probing := true), 0, true)
  }

  // ok: rows should stay away.
  function Waiting(b: State, now: int, cap: int, j: Jitter): Answer {
    if b.failures == 0 then Answer(b, 0, false) else
      var a := Adopt(b, now, cap);
      if now < a.until then Answer(a, a.until - now + Spread(j, BASE), true)
      else if a.probing then Answer(a, ProbeOut(j), true)
      else Answer(a, 0, false)
  }

  function Pow2(n: nat): nat {
    if n == 0 then 1 else 2 * Pow2(n - 1)
  }

  // The delay of the n-th failure in a row, before jitter, under a window's ceiling.
  function Delay(n: nat, ceiling: int): int
    requires n > 0
  {
    var d := Larger(ceiling, BASE);
    if n - 1 < 30 then Smaller(BASE * Pow2(n - 1), d) else d
  }

  datatype Failed = Failed(b: State, wait: int, first: bool, log: bool)

  function Fail(b: State, now: int, cap: int, j: Jitter): Failed {
    if b.failures > 0 && now < b.until then
      var a := Adopt(b, now, cap);
      Failed(a, a.until - now + Spread(j, BASE), false, false)
    else
      var first := b.failures == 0;
      var n := b.failures + 1;
      var a := Adopt(b.(probing := false, failures := n, since := if first then now else b.since, ceiling := 0), now, cap);
      var d := Delay(n, a.ceiling);
      var wait := d / 2 + Spread(j, d / 2);
      var log := first || now - b.logged >= LOG_EVERY;
      Failed(a.(until := now + wait, logged := if log then now else b.logged), wait, first, log)
  }

  function Succeed(b: State, never: int): State {
    if b.failures == 0 then b else b.(failures := 0, probing := false, until := never, ceiling := 0)
  }

  function Release(b: State): State {
    b.(probing := false)
  }

  /******* Nobody waits past their own cap *******/

  // Touching an open window cuts it to the tenant's own cap.
  lemma AdoptCuts(b: State, now: int, cap: int)
    requires cap > 0
    ensures Adopt(b, now, cap).until <= now + Larger(cap, BASE) && Adopt(b, now, cap).until <= b.until
  {}

  lemma WaitsUnderCap(b: State, now: int, cap: int, j: Jitter)
    requires cap > 0 && Draws(j)
    ensures 0 <= Allow(b, now, cap, j).wait < Larger(cap, BASE) + BASE
    ensures 0 <= Waiting(b, now, cap, j).wait < Larger(cap, BASE) + BASE
  {
    AdoptCuts(b, now, cap);
  }

  lemma {:induction false} Pow2Grows(m: nat, n: nat)
    requires m <= n
    ensures 1 <= Pow2(m) <= Pow2(n)
  {
    if n > 0 {
      Pow2Grows(if m == n then m - 1 else m, n - 1);
    }
  }

  lemma DelayBounds(n: nat, ceiling: int)
    requires n > 0
    ensures BASE <= Delay(n, ceiling) <= Larger(ceiling, BASE)
  {
    Pow2Grows(0, n - 1);
  }

  // A window's ceiling is somebody's cap, and so at least the base.
  predicate Sound(b: State) {
    b.ceiling == 0 || b.ceiling >= BASE
  }

  lemma FailWaitsUnderCap(b: State, now: int, cap: int, j: Jitter)
    requires cap > 0 && Draws(j) && Sound(b)
    ensures 0 <= Fail(b, now, cap, j).wait < Larger(cap, BASE) + BASE
  {
    AdoptCuts(b, now, cap);
    DelayBounds(b.failures + 1, Larger(cap, BASE));
  }

  /******* The delay doubles up to the cap *******/

  // min(base * 2^(n-1), max(cap, base))
  function Doubled(n: nat, cap: int): int
    requires n > 0
  {
    Smaller(BASE * Pow2(n - 1), Larger(cap, BASE))
  }

  lemma DoublingEndsExactly(cap: int)
    ensures (forall n: nat :: n > 0 ==> Delay(n, if cap <= 0 then 0 else Larger(cap, BASE)) == Doubled(n, cap)) <==> cap <= BASE * Pow2(30)
  {
    var c := if cap <= 0 then 0 else Larger(cap, BASE);
    if cap <= BASE * Pow2(30) {
      forall n: nat | n > 0 ensures Delay(n, c) == Doubled(n, cap) {
        Pow2Grows(0, n - 1);
        if n > 30 {
          Pow2Grows(30, n - 1);
          Pow2Grows(0, 30);
        }
      }
    } else {
      Pow2Grows(0, 30);
      assert Delay(31, c) == cap;
      assert Doubled(31, cap) == BASE * Pow2(30);
    }
  }

  // The failure that opens a window draws its wait from the upper half of that delay.
  lemma EscalationIsDoubled(b: State, now: int, cap: int, j: Jitter)
    requires Draws(j) && cap <= BASE * Pow2(30) && (b.failures == 0 || b.until <= now)
    ensures var d, f := Doubled(b.failures + 1, cap), Fail(b, now, cap, j);
      d / 2 <= f.wait < d && f.b.failures == b.failures + 1 && f.b.until == now + f.wait && !f.b.probing
  {
    DoublingEndsExactly(cap);
    var d := Doubled(b.failures + 1, cap);
    assert d == Delay(b.failures + 1, if cap <= 0 then 0 else Larger(cap, BASE));
    DelayBounds(b.failures + 1, cap);
  }

  // Shifting the base never leaves int64, whatever the number of failures.
  lemma NoOverflow(n: nat)
    requires 0 < n && n - 1 < 30
    ensures BASE * Pow2(n - 1) <= MAX_INT64
  {
    Pow2Grows(n - 1, 29);
    assert Pow2(29) == 536_870_912 by {
      assert Pow2(8) == 256;
      assert Pow2(16) == 65_536;
      assert Pow2(24) == 16_777_216;
    }
  }

  /******* Every sequence of calls *******/

  datatype Call =
    | Allows(now: int, cap: int, j: Jitter)
    | Waits(now: int, cap: int, j: Jitter)
    | Fails(now: int, cap: int, j: Jitter)
    | Succeeds
    | Releases

  function After(b: State, c: Call, never: int): State {
    match c
    case Allows(now, cap, j) => Allow(b, now, cap, j).b
    case Waits(now, cap, j) => Waiting(b, now, cap, j).b
    case Fails(now, cap, j) => Fail(b, now, cap, j).b
    case Succeeds => Succeed(b, never)
    case Releases => Release(b)
  }

  function WaitOf(b: State, c: Call): int {
    match c
    case Allows(now, cap, j) => Allow(b, now, cap, j).wait
    case Waits(now, cap, j) => Waiting(b, now, cap, j).wait
    case Fails(now, cap, j) => Fail(b, now, cap, j).wait
    case Succeeds => 0
    case Releases => 0
  }

  function AfterAll(calls: seq<Call>, never: int): State {
    if calls == [] then Closed(never) else After(AfterAll(calls[..|calls| - 1], never), calls[|calls| - 1], never)
  }

  lemma StaysSound(b: State, c: Call, never: int)
    requires Sound(b)
    ensures Sound(After(b, c, never))
  {}

  lemma {:induction false} AlwaysSound(calls: seq<Call>, never: int)
    ensures Sound(AfterAll(calls, never))
  {
    if calls != [] {
      AlwaysSound(calls[..|calls| - 1], never);
      StaysSound(AfterAll(calls[..|calls| - 1], never), calls[|calls| - 1], never);
    }
  }

  ghost predicate Capped(c: Call) {
    !c.Succeeds? && !c.Releases? && c.cap > 0 && Draws(c.j)
  }

  // However many failures, whosever windows they were and whatever the draws, a tenant with a
  // cap is never told to stay away for its cap and one more second.
  lemma {:induction false} NobodyWaitsPastTheirCap(calls: seq<Call>, c: Call, never: int)
    requires Capped(c)
    ensures 0 <= WaitOf(AfterAll(calls, never), c) < Larger(c.cap, BASE) + BASE
  {
    AlwaysSound(calls, never);
    if c.Fails? {
      FailWaitsUnderCap(AfterAll(calls, never), c.now, c.cap, c.j);
    } else {
      WaitsUnderCap(AfterAll(calls, never), c.now, c.cap, c.j);
    }
  }

  predicate LetsThrough(b: State, c: Call) {
    c.Allows? && Allow(b, c.now, c.cap, c.j).ok
  }

  // How many of calls were let through.
  function Probes(b: State, calls: seq<Call>, never: int): nat
    decreases |calls|
  {
    if calls == [] then 0
    else (if LetsThrough(b, calls[0]) then 1 else 0) + Probes(After(b, calls[0], never), calls[1..], never)
  }

  // While a backoff is open and nobody reports, at most one flush is let through, and none if a
  // probe is out already.
  lemma {:induction false} OneProbe(b: State, calls: seq<Call>, never: int)
    requires b.failures > 0 && forall i :: 0 <= i < |calls| ==> calls[i].Allows? || calls[i].Waits?
    ensures Probes(b, calls, never) <= if b.probing then 0 else 1
    decreases |calls|
  {
    if calls != [] {
      OneProbe(After(b, calls[0], never), calls[1..], never);
    }
  }

  /******* A running window turns everybody away *******/

  // What a tenant that meets a running window leaves of it: all of it, or no more than the
  // smallest cap that met it.
  function Left(b: State, now: int, cap: int): int {
    if cap <= 0 then b.until - now
    else if b.ceiling == 0 then Smaller(b.until - now, Larger(cap, SECOND))
    else Smaller(b.until - now, Smaller(b.ceiling, Larger(cap, SECOND)))
  }

  // A flush is let through exactly when nothing failed, or the window is over and no probe is
  // out; it then is the probe. Turned away, it waits for what is left of the window and less
  // than a second more, or for the probe between half a second and a second.
  lemma AllowExactly(b: State, now: int, cap: int, j: Jitter)
    requires Sound(b) && Draws(j)
    ensures var a := Allow(b, now, cap, j);
      && (a.ok <==> b.failures == 0 || (b.until <= now && !b.probing))
      && (a.ok ==> a.wait == 0)
      && (!a.ok && now < b.until ==> Left(b, now, cap) <= a.wait < Left(b, now, cap) + SECOND && a.b.until == now + Left(b, now, cap) > now)
      && (!a.ok && b.until <= now ==> SECOND / 2 <= a.wait < SECOND && a.b.until == b.until)
      && a.b.failures == b.failures && (a.b.probing <==> b.probing || (a.ok && b.failures > 0))
  {}

  // Rows stay away exactly when a flush would be turned away, and just as long, but leave the
  // probe to one.
  lemma WaitingExactly(b: State, now: int, cap: int, j: Jitter)
    requires Sound(b) && Draws(j)
    ensures var a, w := Allow(b, now, cap, j), Waiting(b, now, cap, j);
      && (w.ok <==> b.failures > 0 && (now < b.until || b.probing))
      && w.wait == a.wait && w.b == a.b.(probing := b.probing)
  {}

  // A reported success lets everybody through, and so does a probe handed back once the window
  // is over.
  lemma ReopensExactly(b: State, now: int, cap: int, j: Jitter, never: int)
    requires Sound(b) && Draws(j)
    ensures Allow(Succeed(b, never), now, cap, j).ok && !Waiting(Succeed(b, never), now, cap, j).ok
    ensures Allow(Release(b), now, cap, j).ok <==> b.failures == 0 || b.until <= now
    ensures Waiting(Release(b), now, cap, j).ok <==> b.failures > 0 && now < b.until
  {
    AllowExactly(Release(b), now, cap, j);
    WaitingExactly(Release(b), now, cap, j);
  }

  // Made while the window that opened at now for wait runs, by nobody whose cap is under that
  // wait, and no report of a success.
  ghost predicate Keeps(c: Call, now: int, wait: int) {
    && !c.Succeeds?
    && (c.Allows? || c.Waits? || c.Fails? ==> now <= c.now < now + wait && (c.cap <= 0 || wait <= Larger(c.cap, SECOND)))
  }

  // A failure that opens a window with some wait keeps every flush away until that wait is over,
  // whatever else is asked or fails meanwhile, unless a success is reported or a tenant whose
  // own cap is under the wait cuts it.
  lemma {:induction false} WindowHolds(b: State, now: int, cap: int, j: Jitter, calls: seq<Call>, never: int)
    requires Draws(j) && (b.failures == 0 || b.until <= now)
    requires forall i :: 0 <= i < |calls| ==> Keeps(calls[i], now, Fail(b, now, cap, j).wait)
    ensures Probes(Fail(b, now, cap, j).b, calls, never) == 0
  {
    DelayBounds(b.failures + 1, if cap <= 0 then 0 else Larger(cap, BASE));
    RunningHolds(Fail(b, now, cap, j).b, now, Fail(b, now, cap, j).wait, calls, never);
  }

  lemma {:induction false} RunningHolds(b: State, now: int, wait: int, calls: seq<Call>, never: int)
    requires b.failures > 0 && b.until == now + wait && (b.ceiling == 0 || wait <= b.ceiling)
    requires forall i :: 0 <= i < |calls| ==> Keeps(calls[i], now, wait)
    ensures Probes(b, calls, never) == 0
    decreases |calls|
  {
    if calls != [] {
      assert Keeps(calls[0], now, wait);
      RunningHolds(After(b, calls[0], never), now, wait, calls[1..], never);
    }
  }

  // A failure in a running window waits for what is left of it and less than a second more; any
  // other opens a window of between half and all of a second doubled for each failure before it,
  // thirty at most, and cut to the cap. A failure escalates exactly then, is the first of its
  // outage exactly when none came before, and is logged exactly when it escalates and is the
  // first, or half a minute after the last one logged.
  lemma FailExactly(b: State, now: int, cap: int, j: Jitter)
    requires Sound(b) && Draws(j)
    ensures var f := Fail(b, now, cap, j);
      var d := if b.failures < 30 then Smaller(SECOND * Pow2(b.failures), Larger(cap, SECOND)) else Larger(cap, SECOND);
      && (b.failures > 0 && now < b.until ==> Left(b, now, cap) <= f.wait < Left(b, now, cap) + SECOND && f.b.until == now + Left(b, now, cap))
      && (b.failures == 0 || b.until <= now ==> d / 2 <= f.wait < d && f.b.until == now + f.wait && !f.b.probing)
    ensures var f := Fail(b, now, cap, j);
      && (f.b.failures == b.failures + 1 <==> b.failures == 0 || b.until <= now)
      && (f.b.failures == b.failures <==> b.failures > 0 && now < b.until)
      && (f.first <==> b.failures == 0)
      && (f.log <==> b.failures == 0 || (b.until <= now && now - b.logged >= 30 * SECOND))
      && f.b.logged == (if f.log then now else b.logged) && f.b.since == (if f.first then now else b.since)
  {
    Pow2Grows(0, b.failures);
  }

  // How many of calls wrote a log line.
  function Lines(b: State, calls: seq<Call>, never: int): nat
    decreases |calls|
  {
    if calls == [] then 0
    else
      (if calls[0].Fails? && Fail(b, calls[0].now, calls[0].cap, calls[0].j).log then 1 else 0)
        + Lines(After(b, calls[0], never), calls[1..], never)
  }

  // An outage that goes on logs no second line in the half minute after one.
  lemma {:induction false} LogsAreRare(b: State, calls: seq<Call>, never: int)
    requires b.failures > 0
    requires forall i :: 0 <= i < |calls| ==> !calls[i].Succeeds? && (calls[i].Fails? ==> calls[i].now < b.logged + 30 * SECOND)
    ensures Lines(b, calls, never) == 0
    decreases |calls|
  {
    if calls != [] {
      LogsAreRare(After(b, calls[0], never), calls[1..], never);
    }
  }

  /******* The set of backoffs *******/

  // table is empty for the pool's own backoff.
  datatype PoolKey = PoolKey(url: Bytes, user: Bytes, database: Bytes, table: Bytes)

  function Outages(m: map<PoolKey, State>): set<PoolKey> {
    set k | k in m && m[k].failures > 0
  }

  lemma OutagesWith(m: map<PoolKey, State>, k: PoolKey, b: State)
    requires k in m
    ensures |Outages(m[k := b])| == |Outages(m)| + (if b.failures > 0 then 1 else 0) - (if m[k].failures > 0 then 1 else 0)
  {
    var o := Outages(m) - {k};
    assert Outages(m) == if m[k].failures > 0 then o + {k} else o;
    assert Outages(m[k := b]) == if b.failures > 0 then o + {k} else o;
  }

  function StateOf(m: map<PoolKey, State>, k: PoolKey, never: int): State {
    if k in m then m[k] else Closed(never)
  }

  // The pool's answer, or else the table's, as if every backoff were asked.
  function WaitingAt(m: map<PoolKey, State>, pool: PoolKey, table: PoolKey, now: int, cap: int, j: Jitter, never: int): Answer {
    var p := Waiting(StateOf(m, pool, never), now, cap, j);
    if p.ok then p else Waiting(StateOf(m, table, never), now, cap, j)
  }

  // What asking leaves behind: both windows cut to the asking tenant's cap, up to the answer.
  function Asked(m: map<PoolKey, State>, pool: PoolKey, table: PoolKey, now: int, cap: int, j: Jitter, never: int): map<PoolKey, State> {
    var p := Waiting(StateOf(m, pool, never), now, cap, j);
    var m1 := m[pool := p.b];
    if p.ok then m1 else m1[table := Waiting(StateOf(m1, table, never), now, cap, j).b]
  }

  // Asking changes nothing about the answer.
  lemma AskedTwice(b: State, now: int, cap: int, j: Jitter)
    ensures var a := Waiting(b, now, cap, j); Waiting(a.b, now, cap, j) == a
  {}

  class Backoffs {
    const never: int
    var m: map<PoolKey, State>
    var open: int

    // The counter is exactly the number of backoffs with failures.
    ghost predicate Valid()
      reads this
    {
      open == |Outages(m)| && forall k :: k in m ==> Sound(m[k])
    }

    constructor (never: int)
      ensures Valid() && m == map[] && this.never == never
    {
      this.never, m, open := never, map[], 0;
    }

    // get
    method Ensure(k: PoolKey)
      requires Valid()
      modifies this`m
      ensures Valid() && k in m && m == old(m)[k := StateOf(old(m), k, never)]
    {
      if k !in m {
        m := m[k := Closed(never)];
        assert Outages(m) == Outages(old(m));
      }
    }

    method AllowFlush(k: PoolKey, now: int, cap: int, j: Jitter) returns (wait: int, ok: bool)
      requires Valid()
      modifies this
      ensures Valid() && var a := Allow(StateOf(old(m), k, never), now, cap, j); m == old(m)[k := a.b] && (wait, ok) == (a.wait, a.ok)
      ensures ok <==> k !in old(Outages(m)) || (old(m)[k].until <= now && !old(m)[k].probing)
    {
      Ensure(k);
      var a := Allow(m[k], now, cap, j);
      OutagesWith(m, k, a.b);
      m := m[k := a.b];
      return a.wait, a.ok;
    }

    method RecordFailure(k: PoolKey, now: int, cap: int, j: Jitter) returns (wait: int, first: bool)
      requires Valid()
      modifies this
      ensures Valid() && var f := Fail(StateOf(old(m), k, never), now, cap, j); m == old(m)[k := f.b] && (wait, first) == (f.wait, f.first)
    {
      Ensure(k);
      var f := Fail(m[k], now, cap, j);
      OutagesWith(m, k, f.b);
      if f.first {
        open := open + 1;
      }
      m := m[k := f.b];
      return f.wait, f.first;
    }

    method RecordSuccess(k: PoolKey) returns (recovered: bool)
      requires Valid()
      modifies this
      ensures Valid() && m == old(m)[k := Succeed(StateOf(old(m), k, never), never)] && k !in Outages(m)
      ensures recovered <==> k in Outages(old(m))
    {
      Ensure(k);
      recovered := m[k].failures > 0;
      OutagesWith(m, k, Succeed(m[k], never));
      if recovered {
        open := open - 1;
      }
      m := m[k := Succeed(m[k], never)];
    }

    // waiting, whose shortcut past every lookup answers as the lookups would.
    method RowsWait(pool: PoolKey, table: PoolKey, now: int, cap: int, j: Jitter) returns (wait: int, ok: bool)
      requires Valid()
      modifies this`m
      ensures Valid() && var a := WaitingAt(old(m), pool, table, now, cap, j, never); (wait, ok) == (a.wait, a.ok)
      ensures ok <==> exists k :: k in {pool, table} && k in old(Outages(m)) && (now < old(m)[k].until || old(m)[k].probing)
      ensures m == if Outages(old(m)) == {} then old(m) else Asked(old(m), pool, table, now, cap, j, never)
    {
      if open == 0 {
        assert Outages(m) == {};
        assert pool in m ==> pool !in Outages(m);
        assert table in m ==> table !in Outages(m);
        return 0, false;
      }
      wait, ok := AskOne(pool, now, cap, j);
      if !ok {
        AskedTwice(StateOf(old(m), pool, never), now, cap, j);
        wait, ok := AskOne(table, now, cap, j);
      }
    }

    method AskOne(k: PoolKey, now: int, cap: int, j: Jitter) returns (wait: int, ok: bool)
      requires Valid()
      modifies this`m
      ensures Valid() && var a := Waiting(StateOf(old(m), k, never), now, cap, j); m == old(m)[k := a.b] && (wait, ok) == (a.wait, a.ok)
    {
      Ensure(k);
      var a := Waiting(m[k], now, cap, j);
      OutagesWith(m, k, a.b);
      m := m[k := a.b];
      return a.wait, a.ok;
    }
  }
}
