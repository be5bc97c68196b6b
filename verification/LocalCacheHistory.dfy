/** What a lookup of the in-process cache finds, over every run: what the last fill of its entry
    since the last invalidation of it stored, and exactly when. */
module LocalCacheHistory {
  import opened Common
  import opened Bytes
  import opened VersionIndex
  import opened LocalCache

  /******* One key is one entry between two invalidations of it *******/

  // Snapshots i and j are of one entry, with no bump reaching it between their key reads.
  ghost predicate Matches(st: State, i: nat, j: nat) {
    i < |st.snaps| && j < |st.snaps| && Entry(st.snaps[i]) == Entry(st.snaps[j]) && SparedBetween(st, i, j)
  }

  ghost predicate KeysTogether(st: State) {
    forall i: nat, j: nat :: Matches(st, i, j) ==> Render(st.snaps[i].parts) == Render(st.snaps[j].parts)
  }

  lemma BackToBack(st: State, i: nat, j: nat)
    requires Matches(st, i, j)
    ensures Matches(st, j, i)
  {}

  lemma NewKeyTogether(st: State, e: Event, i: nat)
    requires Inv(st) && History(st) && LocalCache.Enabled(st, e) && e.ReadKey? && Matches(Next(st, e), i, |st.snaps|)
    ensures Render(Next(st, e).snaps[i].parts) == Render(Next(st, e).snaps[|st.snaps|].parts)
  {
    var t, n := Next(st, e), |st.snaps|;
    if i < n {
      assert Dated(st.bumps, st.snaps[i]);
      assert t.snaps[i] == st.snaps[i] && t.snaps[n].at == |st.bumps|;
      NewSnapOK(st.ix, e.id, e.sha, e.deps, |st.bumps|);
      OrphansNothing(st.ix, e.id, st.snaps[i]);
      SameEntry(t.ix, st.snaps[i], t.snaps[n]);
    }
  }

  lemma ReadKeyTogether(st: State, e: Event)
    requires Inv(st) && History(st) && KeysTogether(st) && LocalCache.Enabled(st, e) && e.ReadKey?
    ensures KeysTogether(Next(st, e))
  {
    var t, n := Next(st, e), |st.snaps|;
    forall i: nat, j: nat | Matches(t, i, j) ensures Render(t.snaps[i].parts) == Render(t.snaps[j].parts) {
      if j == n {
        NewKeyTogether(st, e, i);
      } else if i == n {
        BackToBack(t, i, j);
        NewKeyTogether(st, e, j);
      } else {
        assert Matches(st, i, j);
      }
    }
  }

  lemma BumpTogether(st: State, e: Event)
    requires History(st) && KeysTogether(st) && LocalCache.Enabled(st, e) && e.Bump?
    ensures KeysTogether(Next(st, e))
  {
    var t := Next(st, e);
    forall i: nat, j: nat | Matches(t, i, j) ensures Render(t.snaps[i].parts) == Render(t.snaps[j].parts) {
      assert Dated(st.bumps, st.snaps[i]) && Dated(st.bumps, st.snaps[j]);
      forall n | Smaller(st.snaps[i].at, st.snaps[j].at) <= n < Larger(st.snaps[i].at, st.snaps[j].at) ensures !Orphans(st.bumps[n], Entry(st.snaps[i])) {
        assert t.bumps[n] == st.bumps[n];
      }
      assert Matches(st, i, j);
    }
  }

  lemma StillTogether(st: State, t: State)
    requires KeysTogether(st) && t.snaps == st.snaps && t.bumps == st.bumps
    ensures KeysTogether(t)
  {
    forall i: nat, j: nat | Matches(t, i, j) ensures Render(t.snaps[i].parts) == Render(t.snaps[j].parts) {
      assert Matches(st, i, j);
    }
  }

  lemma {:induction false} RunKeepsTogether(st: State, events: seq<Event>)
    requires Inv(st) && History(st) && KeysTogether(st) && LocalCache.Valid(st, events)
    ensures KeysTogether(Run(st, events))
    decreases |events|
  {
    if events != [] {
      var e, t := events[0], Next(st, events[0]);
      match e {
        case ReadKey(_, _, _) => ReadKeyTogether(st, e); ReadKeyKeepsHistory(st, e); ReadKeyKeepsInv(st, e);
        case Bump(_) => BumpTogether(st, e); BumpKeepsHistory(st, e); BumpKeepsInv(st, e);
        case Fill(_, _) => StillTogether(st, t); FillKeepsHistory(st, e); FillKeepsInv(st, e);
        case Evict(_) => StillTogether(st, t); FillKeepsHistory(st, e); EvictKeepsInv(st, e);
      }
      RunKeepsTogether(t, events[1..]);
    }
  }

  lemma {:induction false} AllTogether(events: seq<Event>)
    requires LocalCache.Valid(EMPTY, events)
    ensures KeysTogether(Run(EMPTY, events)) && History(Run(EMPTY, events)) && Inv(Run(EMPTY, events))
  {
    assert History(EMPTY) && KeysTogether(EMPTY);
    RunKeepsHistory(EMPTY, events);
    RunKeepsTogether(EMPTY, events);
  }

  // Over every run, two lookups read one key exactly when they are of one entry and no
  // invalidation reached it between.
  lemma {:induction false} SameKeyExactlyWhen(events: seq<Event>, i: nat, j: nat)
    requires LocalCache.Valid(EMPTY, events) && i < |Run(EMPTY, events).snaps| && j < |Run(EMPTY, events).snaps|
    ensures var st := Run(EMPTY, events); Render(st.snaps[i].parts) == Render(st.snaps[j].parts) <==> Matches(st, i, j)
  {
    AllTogether(events);
    TogetherIsMatch(Run(EMPTY, events), i, j);
  }

  lemma TogetherIsMatch(st: State, i: nat, j: nat)
    requires Inv(st) && History(st) && KeysTogether(st) && i < |st.snaps| && j < |st.snaps|
    ensures Render(st.snaps[i].parts) == Render(st.snaps[j].parts) <==> Matches(st, i, j)
  {
    if Render(st.snaps[i].parts) == Render(st.snaps[j].parts) {
      assert SnapOK(st.ix, st.snaps[i]) && SnapOK(st.ix, st.snaps[j]);
      SameKey(st.ix, st.snaps[i], st.snaps[j]);
    }
  }

  /******* The states of a run *******/

  ghost predicate Moves(s: State, e: Event, t: State) {
    LocalCache.Enabled(s, e) && t == Next(s, e)
  }

  ghost predicate Trace(events: seq<Event>, states: seq<State>) {
    && |states| == |events| + 1 && states[0].snaps == [] && states[0].store == map[]
    && forall n :: 0 <= n < |events| ==> Moves(states[n], events[n], states[n + 1])
  }

  lemma {:induction false} Traced(st: State, events: seq<Event>) returns (states: seq<State>)
    requires LocalCache.Valid(st, events)
    ensures |states| == |events| + 1 && states[0] == st && states[|events|] == Run(st, events)
    ensures forall n :: 0 <= n < |events| ==> Moves(states[n], events[n], states[n + 1])
    decreases |events|
  {
    if events == [] {
      states := [st];
    } else {
      var rest := Traced(Next(st, events[0]), events[1..]);
      states := [st] + rest;
      forall n | 0 <= n < |events| ensures Moves(states[n], events[n], states[n + 1]) {
        if n > 0 {
          assert Moves(rest[n - 1], events[1..][n - 1], rest[n]);
        }
      }
    }
  }

  // The key snapshot i read.
  function KeyOf(st: State, i: nat): Bytes
    requires i < |st.snaps|
  {
    Render(st.snaps[i].parts)
  }

  lemma KeyMoves(s: State, e: Event, t: State, i: nat)
    requires Moves(s, e, t) && i < |s.snaps|
    ensures i < |t.snaps| && t.snaps[i].parts == s.snaps[i].parts
  {}

  lemma {:induction false} KeyStays(events: seq<Event>, states: seq<State>, m: nat, n: nat, i: nat)
    requires Trace(events, states) && m <= n <= |events| && i < |states[m].snaps|
    ensures i < |states[n].snaps| && states[n].snaps[i].parts == states[m].snaps[i].parts
    decreases n
  {
    if m < n {
      KeyStays(events, states, m, n - 1, i);
      KeyMoves(states[n - 1], events[n - 1], states[n], i);
    }
  }

  function Stored(st: State, key: Bytes): Option<Item> {
    if key in st.store then Some(st.store[key]) else None
  }

  ghost predicate Fills(st: State, e: Event, key: Bytes) {
    e.Fill? && e.snap < |st.snaps| && KeyOf(st, e.snap) == key
  }

  predicate Evicts(e: Event, key: Bytes) {
    e.Evict? && key in e.keys
  }

  // A fill stores its value, an eviction leaves nothing, and nothing else touches a key.
  ghost predicate Stores(s: State, e: Event, t: State, key: Bytes) {
    && (Fills(s, e, key) ==> Stored(t, key) == Some(Item(e.value, e.snap)))
    && (Evicts(e, key) ==> Stored(t, key) == None)
    && (!Fills(s, e, key) && !Evicts(e, key) ==> Stored(t, key) == Stored(s, key))
  }

  ghost predicate StoresAll(events: seq<Event>, states: seq<State>, key: Bytes) {
    && |states| == |events| + 1 && Stored(states[0], key) == None
    && forall n :: 0 <= n < |events| ==> Stores(states[n], events[n], states[n + 1], key)
  }

  lemma StoreMoves(events: seq<Event>, states: seq<State>, key: Bytes)
    requires Trace(events, states)
    ensures StoresAll(events, states, key)
  {
    forall n | 0 <= n < |events| ensures Stores(states[n], events[n], states[n + 1], key) {
      assert Moves(states[n], events[n], states[n + 1]);
    }
  }

  // Event f filled the key with item, and it was neither filled again nor evicted up to n.
  ghost predicate LastFill(events: seq<Event>, states: seq<State>, key: Bytes, item: Item, f: nat, n: nat)
    requires |states| == |events| + 1
  {
    f < n <= |events| && FilledWith(events, states, key, item, f) && Untouched(events, states, key, f + 1, n)
  }

  ghost predicate FilledWith(events: seq<Event>, states: seq<State>, key: Bytes, item: Item, f: nat)
    requires |states| == |events| + 1 && f < |events|
  {
    Fills(states[f], events[f], key) && item == Item(events[f].value, events[f].snap)
  }

  ghost predicate Untouched(events: seq<Event>, states: seq<State>, key: Bytes, m: nat, n: nat)
    requires |states| == |events| + 1 && n <= |events|
  {
    forall g :: m <= g < n ==> !Fills(states[g], events[g], key) && !Evicts(events[g], key)
  }

  ghost predicate SomeLastFill(events: seq<Event>, states: seq<State>, key: Bytes, item: Item, n: nat)
    requires |states| == |events| + 1
  {
    exists f: nat :: LastFill(events, states, key, item, f, n)
  }

  lemma {:induction false} StoredIsLastFill(events: seq<Event>, states: seq<State>, key: Bytes, item: Item, n: nat)
    requires StoresAll(events, states, key) && n <= |events|
    ensures Stored(states[n], key) == Some(item) <==> SomeLastFill(events, states, key, item, n)
    decreases n
  {
    if n > 0 {
      StoredIsLastFill(events, states, key, item, n - 1);
      if Fills(states[n - 1], events[n - 1], key) {
        FilledLast(events, states, key, item, n);
      } else {
        assert Stores(states[n - 1], events[n - 1], states[n], key);
        StillLast(events, states, key, item, n - 1, n);
      }
    }
  }

  lemma StillLast(events: seq<Event>, states: seq<State>, key: Bytes, item: Item, m: nat, n: nat)
    requires |states| == |events| + 1 && n == m + 1 <= |events| && !Fills(states[m], events[m], key)
    ensures SomeLastFill(events, states, key, item, n) <==> !Evicts(events[m], key) && SomeLastFill(events, states, key, item, m)
  {
    if SomeLastFill(events, states, key, item, n) {
      var f: nat :| LastFill(events, states, key, item, f, n);
      NotFilledLast(events, states, key, item, f, m, n);
    }
    if SomeLastFill(events, states, key, item, m) {
      var f: nat :| LastFill(events, states, key, item, f, m);
      NotFilledLast(events, states, key, item, f, m, n);
    }
  }

  lemma NotFilledLast(events: seq<Event>, states: seq<State>, key: Bytes, item: Item, f: nat, m: nat, n: nat)
    requires |states| == |events| + 1 && n == m + 1 <= |events| && !Fills(states[m], events[m], key)
    ensures LastFill(events, states, key, item, f, n) ==> !Evicts(events[m], key) && LastFill(events, states, key, item, f, m)
    ensures LastFill(events, states, key, item, f, m) && !Evicts(events[m], key) ==> LastFill(events, states, key, item, f, n)
  {
    if f < m {
      assert Untouched(events, states, key, f + 1, n) <==> Untouched(events, states, key, f + 1, m) && !Evicts(events[m], key);
    }
  }

  lemma FilledLast(events: seq<Event>, states: seq<State>, key: Bytes, item: Item, n: nat)
    requires StoresAll(events, states, key) && 0 < n <= |events| && Fills(states[n - 1], events[n - 1], key)
    ensures Stored(states[n], key) == Some(item) <==> SomeLastFill(events, states, key, item, n)
  {
    assert Stores(states[n - 1], events[n - 1], states[n], key);
    if Stored(states[n], key) == Some(item) {
      assert LastFill(events, states, key, item, n - 1, n);
    }
    if f: nat :| LastFill(events, states, key, item, f, n) {
      assert f == n - 1;
    }
  }

  /******* What a lookup finds *******/

  // Event f filled lookup i's entry with item's value from item's snapshot, with no invalidation
  // of the entry between the two lookups; and no later fill or eviction did as much to it.
  ghost predicate ServedBy(events: seq<Event>, st: State, i: nat, item: Item, f: nat)
    requires i < |st.snaps|
  {
    && f < |events| && events[f] == Fill(item.source, item.value) && Matches(st, item.source, i)
    && forall g :: f < g < |events| ==> !(events[g].Fill? && Matches(st, events[g].snap, i)) && !Evicts(events[g], KeyOf(st, i))
  }

  lemma {:induction false} FillsIsMatch(events: seq<Event>, states: seq<State>, g: nat, i: nat)
    requires Trace(events, states) && LocalCache.Valid(EMPTY, events) && states[|events|] == Run(EMPTY, events)
    requires g < |events| && events[g].Fill? && i < |states[|events|].snaps|
    ensures Fills(states[g], events[g], KeyOf(states[|events|], i)) <==> Matches(states[|events|], events[g].snap, i)
  {
    assert Moves(states[g], events[g], states[g + 1]);
    KeyStays(events, states, g, |events|, events[g].snap);
    SameKeyExactlyWhen(events, events[g].snap, i);
  }

  // Over every run, a lookup finds a value exactly when that value was the last to be filled of
  // its entry, from a lookup with no invalidation of the entry in between, and has not been
  // evicted since.
  lemma {:induction false} FoundExactlyWhen(events: seq<Event>, i: nat, item: Item)
    requires LocalCache.Valid(EMPTY, events) && i < |Run(EMPTY, events).snaps|
    ensures var st := Run(EMPTY, events); Found(st, i) == Some(item) <==> exists f: nat :: ServedBy(events, st, i, item, f)
  {
    var st := Run(EMPTY, events);
    var states := Traced(EMPTY, events);
    var key, n := KeyOf(st, i), |events|;
    StoreMoves(events, states, key);
    StoredIsLastFill(events, states, key, item, n);
    forall g | 0 <= g < n && events[g].Fill? ensures Fills(states[g], events[g], key) <==> Matches(st, events[g].snap, i) {
      FillsIsMatch(events, states, g, i);
    }
    SameFills(events, states, st, i, item);
  }

  lemma SameFills(events: seq<Event>, states: seq<State>, st: State, i: nat, item: Item)
    requires |states| == |events| + 1 && i < |st.snaps|
    requires forall g :: 0 <= g < |events| && events[g].Fill? ==> (Fills(states[g], events[g], KeyOf(st, i)) <==> Matches(st, events[g].snap, i))
    ensures forall f: nat :: LastFill(events, states, KeyOf(st, i), item, f, |events|) <==> ServedBy(events, st, i, item, f)
  {}
}
