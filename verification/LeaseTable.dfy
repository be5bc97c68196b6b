/** internal/coord/local.go: leases contended for by any number of handles over one table. */
module LeaseTable {
  import opened Bytes

  // owner is the handle that acquired it.
  datatype Term = Term(owner: nat, name: Bytes, token: nat)

  datatype Shared = Shared(held: map<Bytes, Term>, tokens: map<Bytes, nat>)

  datatype Handle = Handle(closed: bool, terms: set<Term>)

  datatype Answer = Acquired(term: Term) | ErrHeld | ErrClosed

  datatype Tried = Tried(s: Shared, h: Handle, answer: Answer)

  function TokenOf(s: Shared, name: Bytes): nat {
    if name in s.tokens then s.tokens[name] else 0
  }

  function Acquire(s: Shared, h: Handle, id: nat, name: Bytes): Tried {
    if h.closed then Tried(s, h, ErrClosed)
    else if name in s.held then Tried(s, h, ErrHeld)
    else
      var t := Term(id, name, TokenOf(s, name) + 1);
      Tried(Shared(s.held[name := t], s.tokens[name := t.token]), h.(terms := h.terms + {t}), Acquired(t))
  }

  datatype Ended = Ended(s: Shared, h: Handle)

  // endLocked
  function End(s: Shared, h: Handle, t: Term): Ended {
    if t !in h.terms then Ended(s, h)
    else Ended(s.(held := s.held - {t.name}), h.(terms := h.terms - {t}))
  }

  function Names(terms: set<Term>): set<Bytes> {
    set t | t in terms :: t.name
  }

  function Shut(s: Shared, h: Handle): Ended {
    Ended(s.(held := s.held - Names(h.terms)), Handle(true, {}))
  }

  /******* Every run of every handle *******/

  // issued is every term ever acquired.
  datatype Table = Table(s: Shared, handles: map<nat, Handle>, issued: set<Term>)

  datatype Event =
    | Peer(id: nat)
    | TryAcquire(id: nat, name: Bytes)
    | Resign(t: Term)
    | Close(id: nat)

  predicate Enabled(tb: Table, e: Event) {
    match e
    case Peer(id) => id !in tb.handles
    case TryAcquire(id, _) => id in tb.handles
    case Resign(t) => t.owner in tb.handles
    case Close(id) => id in tb.handles
  }

  function Issued(a: Answer): set<Term> {
    if a.Acquired? then {a.term} else {}
  }

  function Do(tb: Table, e: Event): Table
    requires Enabled(tb, e)
  {
    match e
    case Peer(id) => tb.(handles := tb.handles[id := Handle(false, {})])
    case TryAcquire(id, name) =>
      var r := Acquire(tb.s, tb.handles[id], id, name);
      Table(r.s, tb.handles[id := r.h], tb.issued + Issued(r.answer))
    case Resign(t) =>
      var r := End(tb.s, tb.handles[t.owner], t);
      tb.(s := r.s, handles := tb.handles[t.owner := r.h])
    case Close(id) =>
      var r := Shut(tb.s, tb.handles[id]);
      tb.(s := r.s, handles := tb.handles[id := r.h])
  }

  predicate Live(tb: Table, t: Term) {
    t.owner in tb.handles && t in tb.handles[t.owner].terms
  }

  // What the handles hold and what the table says is held are the same terms, none of which
  // has a token its name has not been given yet.
  ghost predicate Inv(tb: Table) {
    HeldLive(tb) && TermsHeld(tb) && forall t :: t in tb.issued ==> t.token <= TokenOf(tb.s, t.name)
  }

  ghost predicate HeldLive(tb: Table) {
    forall n :: n in tb.s.held ==> tb.s.held[n].name == n && Live(tb, tb.s.held[n])
  }

  ghost predicate TermsHeld(tb: Table) {
    forall id, t :: id in tb.handles && t in tb.handles[id].terms ==>
      t.owner == id && t in tb.issued && t.name in tb.s.held && tb.s.held[t.name] == t
  }

  const NO_LEASES := Table(Shared(map[], map[]), map[], {})

  ghost predicate Valid(tb: Table, events: seq<Event>)
    decreases |events|
  {
    events == [] || (Enabled(tb, events[0]) && Valid(Do(tb, events[0]), events[1..]))
  }

  ghost function Exec(tb: Table, events: seq<Event>): Table
    requires Valid(tb, events)
    decreases |events|
  {
    if events == [] then tb else Exec(Do(tb, events[0]), events[1..])
  }

  // Everything id holds is freed but what it keeps: one step of Resign or Close.
  lemma FreeKeepsInv(tb: Table, u: Table, id: nat)
    requires Inv(tb) && id in tb.handles && u.issued == tb.issued && u.s.tokens == tb.s.tokens
    requires u.handles.Keys == tb.handles.Keys && (forall x :: x in tb.handles && x != id ==> u.handles[x] == tb.handles[x])
    requires u.handles[id].terms <= tb.handles[id].terms
    requires u.s.held == tb.s.held - Names(tb.handles[id].terms - u.handles[id].terms)
    ensures Inv(u)
  {
    forall n | n in u.s.held ensures u.s.held[n].name == n && Live(u, u.s.held[n]) {
      FreedOthersLive(tb, u, id, n);
    }
    forall x, t | x in u.handles && t in u.handles[x].terms
      ensures t.owner == x && t in u.issued && t.name in u.s.held && u.s.held[t.name] == t
    {
      FreedOthersHeld(tb, u, id, x, t);
    }
  }

  lemma FreedOthersHeld(tb: Table, u: Table, id: nat, x: nat, t: Term)
    requires Inv(tb) && id in tb.handles && u.handles.Keys == tb.handles.Keys && u.handles[id].terms <= tb.handles[id].terms
    requires forall x :: x in tb.handles && x != id ==> u.handles[x] == tb.handles[x]
    requires u.s.held == tb.s.held - Names(tb.handles[id].terms - u.handles[id].terms)
    requires x in u.handles && t in u.handles[x].terms
    ensures t.owner == x && t in tb.issued && t.name in u.s.held && u.s.held[t.name] == t
  {
    assert t in tb.handles[x].terms && tb.s.held[t.name] == t;
    assert forall g :: g in tb.handles[id].terms ==> tb.s.held[g.name] == g;
  }

  lemma FreedOthersLive(tb: Table, u: Table, id: nat, n: Bytes)
    requires Inv(tb) && id in tb.handles
    requires u.handles.Keys == tb.handles.Keys && (forall x :: x in tb.handles && x != id ==> u.handles[x] == tb.handles[x])
    requires u.s.held == tb.s.held - Names(tb.handles[id].terms - u.handles[id].terms) && n in u.s.held
    ensures u.s.held[n].name == n && Live(u, u.s.held[n])
  {
    var gone := tb.handles[id].terms - u.handles[id].terms;
    assert n !in Names(gone) && Live(tb, tb.s.held[n]);
    assert tb.s.held[n] !in gone;
  }

  lemma AcquireHeldLive(tb: Table, id: nat, name: Bytes)
    requires HeldLive(tb) && id in tb.handles
    ensures HeldLive(Do(tb, TryAcquire(id, name)))
  {
    var u := Do(tb, TryAcquire(id, name));
    forall n | n in u.s.held ensures u.s.held[n].name == n && Live(u, u.s.held[n]) {
      assert n in tb.s.held ==> Live(tb, tb.s.held[n]);
    }
  }

  lemma AcquireTermsHeld(tb: Table, id: nat, name: Bytes)
    requires TermsHeld(tb) && id in tb.handles
    ensures TermsHeld(Do(tb, TryAcquire(id, name)))
  {
    var u := Do(tb, TryAcquire(id, name));
    forall x, t | x in u.handles && t in u.handles[x].terms
      ensures t.owner == x && t in u.issued && t.name in u.s.held && u.s.held[t.name] == t
    {
      assert x in tb.handles && t in tb.handles[x].terms ==> tb.s.held[t.name] == t;
    }
  }

  lemma AcquireKeepsInv(tb: Table, id: nat, name: Bytes)
    requires Inv(tb) && id in tb.handles
    ensures Inv(Do(tb, TryAcquire(id, name)))
  {
    AcquireHeldLive(tb, id, name);
    AcquireTermsHeld(tb, id, name);
  }

  lemma StepKeepsInv(tb: Table, e: Event)
    requires Inv(tb) && Enabled(tb, e)
    ensures Inv(Do(tb, e)) && tb.issued <= Do(tb, e).issued
  {
    match e
    case Peer(_) =>
      assert forall n :: n in tb.s.held ==> Live(tb, tb.s.held[n]);
    case TryAcquire(id, name) => AcquireKeepsInv(tb, id, name);
    case Resign(t) => ResignKeepsInv(tb, t);
    case Close(id) => CloseKeepsInv(tb, id);
  }

  lemma ResignKeepsInv(tb: Table, t: Term)
    requires Inv(tb) && t.owner in tb.handles
    ensures Inv(Do(tb, Resign(t)))
  {
    var was, now := tb.handles[t.owner].terms, Do(tb, Resign(t)).handles[t.owner].terms;
    assert was - now == if t in was then {t} else {};
    assert Names({t}) == {t.name} && Names({}) == {};
    FreeKeepsInv(tb, Do(tb, Resign(t)), t.owner);
  }

  lemma CloseKeepsInv(tb: Table, id: nat)
    requires Inv(tb) && id in tb.handles
    ensures Inv(Do(tb, Close(id)))
  {
    assert tb.handles[id].terms - {} == tb.handles[id].terms;
    FreeKeepsInv(tb, Do(tb, Close(id)), id);
  }

  lemma {:induction false} InvRun(tb: Table, events: seq<Event>)
    requires Inv(tb) && Valid(tb, events)
    ensures Inv(Exec(tb, events)) && tb.issued <= Exec(tb, events).issued
    decreases |events|
  {
    if events != [] {
      StepKeepsInv(tb, events[0]);
      InvRun(Do(tb, events[0]), events[1..]);
    }
  }

  // At most one live term per name, across all handles.
  lemma {:induction false} OneLiveTerm(events: seq<Event>, a: Term, b: Term)
    requires Valid(NO_LEASES, events) && Live(Exec(NO_LEASES, events), a) && Live(Exec(NO_LEASES, events), b) && a.name == b.name
    ensures a == b
  {
    InvRun(NO_LEASES, events);
  }

  // A term's token is above every one its name was acquired under before.
  lemma {:induction false} TokensIncrease(events: seq<Event>, id: nat, name: Bytes, former: Term)
    requires Valid(NO_LEASES, events) && id in Exec(NO_LEASES, events).handles && former in Exec(NO_LEASES, events).issued && former.name == name
    ensures var tb := Exec(NO_LEASES, events);
      var r := Acquire(tb.s, tb.handles[id], id, name);
      r.answer.Acquired? ==> former.token < r.answer.term.token
  {
    InvRun(NO_LEASES, events);
  }

  // TryAcquire succeeds exactly when the handle is open and no term of the name is live.
  lemma {:induction false} AcquiredExactlyWhenFree(events: seq<Event>, id: nat, name: Bytes)
    requires Valid(NO_LEASES, events) && id in Exec(NO_LEASES, events).handles
    ensures var tb := Exec(NO_LEASES, events);
      Acquire(tb.s, tb.handles[id], id, name).answer.Acquired? <==>
      (!tb.handles[id].closed && !exists t :: Live(tb, t) && t.name == name)
  {
    InvRun(NO_LEASES, events);
    var tb := Exec(NO_LEASES, events);
    if name in tb.s.held {
      assert Live(tb, tb.s.held[name]);
    }
  }

  lemma StepEnds(tb: Table, e: Event, t: Term)
    requires Inv(tb) && Enabled(tb, e) && t in tb.issued && !Live(tb, t)
    ensures !Live(Do(tb, e), t)
  {}

  lemma {:induction false} EndedStaysEnded(tb: Table, events: seq<Event>, t: Term)
    requires Inv(tb) && Valid(tb, events) && t in tb.issued && !Live(tb, t)
    ensures !Live(Exec(tb, events), t)
    decreases |events|
  {
    if events != [] {
      StepKeepsInv(tb, events[0]);
      StepEnds(tb, events[0], t);
      EndedStaysEnded(Do(tb, events[0]), events[1..], t);
    }
  }

  // However long ago it ended, resigning a term again changes nothing, so never the successor's
  // lease.
  lemma {:induction false} ResigningTwiceIsNothing(before: seq<Event>, between: seq<Event>, t: Term)
    requires Valid(NO_LEASES, before) && t in Exec(NO_LEASES, before).issued
    requires var tb := Exec(NO_LEASES, before); Enabled(tb, Resign(t)) && Valid(Do(tb, Resign(t)), between)
    ensures var tb := Exec(Do(Exec(NO_LEASES, before), Resign(t)), between);
      Enabled(tb, Resign(t)) ==> Do(tb, Resign(t)) == tb
  {
    var tb := Exec(NO_LEASES, before);
    InvRun(NO_LEASES, before);
    StepKeepsInv(tb, Resign(t));
    EndedStaysEnded(Do(tb, Resign(t)), between, t);
    var now := Exec(Do(tb, Resign(t)), between);
    if Enabled(now, Resign(t)) {
      assert now.handles[t.owner := now.handles[t.owner]] == now.handles;
    }
  }

  /******* What acquiring and ending leave behind *******/

  // A term just acquired is live, on its handle and under its name, and ends nobody else's.
  lemma AcquiredIsLive(tb: Table, id: nat, name: Bytes)
    requires Inv(tb) && id in tb.handles && Acquire(tb.s, tb.handles[id], id, name).answer.Acquired?
    ensures var t, u := Acquire(tb.s, tb.handles[id], id, name).answer.term, Do(tb, TryAcquire(id, name));
      t.owner == id && t.name == name && forall x :: Live(u, x) <==> Live(tb, x) || x == t
  {}

  // One that is not acquired changes nothing, and is refused for a closed handle's being closed.
  lemma RefusedIsNothing(tb: Table, id: nat, name: Bytes)
    requires id in tb.handles && !Acquire(tb.s, tb.handles[id], id, name).answer.Acquired?
    ensures Do(tb, TryAcquire(id, name)) == tb
    ensures Acquire(tb.s, tb.handles[id], id, name).answer == if tb.handles[id].closed then ErrClosed else ErrHeld
  {
    assert tb.handles[id := tb.handles[id]] == tb.handles;
  }

  // After any run, a resigned term is over and its name free for any open handle, and every
  // other term is as live as before.
  lemma {:induction false} ResignFrees(events: seq<Event>, t: Term, other: nat)
    requires Valid(NO_LEASES, events) && Live(Exec(NO_LEASES, events), t)
    requires other in Exec(NO_LEASES, events).handles && !Exec(NO_LEASES, events).handles[other].closed
    ensures var tb := Exec(NO_LEASES, events);
      var u := Do(tb, Resign(t));
      && (forall x :: Live(u, x) <==> Live(tb, x) && x != t)
      && Acquire(u.s, u.handles[other], other, t.name).answer.Acquired?
  {
    InvRun(NO_LEASES, events);
  }

  // After any run, a handle that is closed holds no lease: every name it held is free for any
  // other handle that is open, and no other handle's terms have ended.
  lemma {:induction false} CloseFrees(events: seq<Event>, id: nat)
    requires Valid(NO_LEASES, events) && id in Exec(NO_LEASES, events).handles
    ensures var tb := Exec(NO_LEASES, events);
      var u := Do(tb, Close(id));
      && u.handles[id].closed
      && (forall x :: Live(u, x) <==> Live(tb, x) && x.owner != id)
      && (forall t, other :: Live(tb, t) && t.owner == id && other in u.handles && !u.handles[other].closed ==>
           Acquire(u.s, u.handles[other], other, t.name).answer.Acquired?)
  {
    InvRun(NO_LEASES, events);
    var tb := Exec(NO_LEASES, events);
    CloseEnds(tb, id);
  }

  lemma CloseEnds(tb: Table, id: nat)
    requires Inv(tb) && id in tb.handles
    ensures var u := Do(tb, Close(id));
      && (forall x :: Live(u, x) <==> Live(tb, x) && x.owner != id)
      && (forall t :: Live(tb, t) && t.owner == id ==> t.name !in u.s.held)
  {
    var u := Do(tb, Close(id));
    forall t | Live(tb, t) && t.owner == id ensures t.name !in u.s.held {
      assert t.name in Names(tb.handles[id].terms);
    }
  }

  // And it stays so: whatever happens after, it never holds another.
  lemma {:induction false} ClosedHoldsNothing(tb: Table, events: seq<Event>, id: nat, t: Term)
    requires id in tb.handles && tb.handles[id] == Handle(true, {}) && Valid(tb, events) && t.owner == id
    ensures !Live(Exec(tb, events), t)
    decreases |events|
  {
    if events != [] {
      ClosedStaysShut(tb, events[0], id);
      ClosedHoldsNothing(Do(tb, events[0]), events[1..], id, t);
    }
  }

  lemma ClosedStaysShut(tb: Table, e: Event, id: nat)
    requires id in tb.handles && tb.handles[id] == Handle(true, {}) && Enabled(tb, e)
    ensures id in Do(tb, e).handles && Do(tb, e).handles[id] == Handle(true, {})
  {}

  /******* The objects *******/

  class LocalTable {
    var held: map<Bytes, Term>
    var tokens: map<Bytes, nat>

    ghost function State(): Shared
      reads this
    {
      Shared(held, tokens)
    }

    constructor ()
      ensures State() == Shared(map[], map[])
    {
      held, tokens := map[], map[];
    }
  }

  class Local {
    const id: nat
    const table: LocalTable
    var closed: bool
    var terms: set<Term>

    ghost function State(): Handle
      reads this
    {
      Handle(closed, terms)
    }

    constructor (id: nat, table: LocalTable)
      ensures this.id == id && this.table == table && State() == Handle(false, {})
    {
      this.id, this.table, closed, terms := id, table, false, {};
    }

    method AcquireTerm(name: Bytes) returns (answer: Answer)
      modifies this, table
      ensures Tried(table.State(), State(), answer) == Acquire(old(table.State()), old(State()), id, name)
    {
      if closed {
        return ErrClosed;
      }
      if name in table.held {
        return ErrHeld;
      }
      table.tokens := table.tokens[name := (if name in table.tokens then table.tokens[name] else 0) + 1];
      var t := Term(id, name, table.tokens[name]);
      table.held := table.held[name := t];
      terms := terms + {t};
      return Acquired(t);
    }

    method EndTerm(t: Term)
      modifies this, table
      ensures Ended(table.State(), State()) == End(old(table.State()), old(State()), t)
    {
      if t !in terms {
        return;
      }
      terms := terms - {t};
      table.held := table.held - {t.name};
    }

    method Held(name: Bytes) returns (held: bool)
      ensures held <==> name in table.held
    {
      held := name in table.held;
    }

    method CloseTerms()
      modifies this, table
      ensures Ended(table.State(), State()) == Shut(old(table.State()), old(State()))
      ensures closed && terms == {} && forall n :: n in table.held <==> n in old(table.held) && forall t :: t in old(terms) ==> t.name != n
    {
      closed := true;
      ghost var was := terms;
      while terms != {}
        invariant closed && terms <= was && table.tokens == old(table.tokens)
        invariant table.held == old(table.held) - Names(was - terms)
        decreases terms
      {
        var t :| t in terms;
        ghost var done := was - terms;
        EndTerm(t);
        assert was - terms == done + {t};
        assert Names(done + {t}) == Names(done) + {t.name};
      }
      assert was - terms == was;
    }
  }
}
