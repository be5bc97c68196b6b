/** What a lookup of the shared cache answers with, over every run: what the last fill of its
    entry stored, and exactly when. */
module SharedCacheHistory {
  import opened Common
  import opened Bytes
  import opened RedisKeys
  import opened PendingBumps
  import opened SharedCache

  /******* The states of a run *******/

  ghost predicate Moves(limit: nat, s: Sys, step: Step, t: Sys) {
    Enabled(s, step) && t == Do(limit, s, step)
  }

  ghost predicate Trace(limit: nat, steps: seq<Step>, states: seq<Sys>) {
    && |states| == |steps| + 1 && states[0].looks == [] && states[0].v.values == map[]
    && forall n :: 0 <= n < |steps| ==> Moves(limit, states[n], steps[n], states[n + 1])
  }

  lemma {:induction false} Traced(limit: nat, s: Sys, steps: seq<Step>) returns (states: seq<Sys>)
    requires Valid(limit, s, steps)
    ensures |states| == |steps| + 1 && states[0] == s && states[|steps|] == Exec(limit, s, steps)
    ensures forall n :: 0 <= n < |steps| ==> Moves(limit, states[n], steps[n], states[n + 1])
    decreases |steps|
  {
    if steps == [] {
      states := [s];
    } else {
      var rest := Traced(limit, Do(limit, s, steps[0]), steps[1..]);
      states := [s] + rest;
      forall n | 0 <= n < |steps| ensures Moves(limit, states[n], steps[n], states[n + 1]) {
        if n > 0 {
          assert Moves(limit, rest[n - 1], steps[1..][n - 1], rest[n]);
        }
      }
    }
  }

  // What a value read finds.
  function Found(v: Server, vk: VKey): Option<Entry> {
    if vk in v.values then Some(v.values[vk]) else None
  }

  predicate Fills(s: Sys, step: Step, vk: VKey) {
    step.Fill? && step.i < |s.looks| && s.looks[step.i].vk == vk
  }

  // A lookup keeps its entry, and once it is complete its tokens, and what value it read.
  ghost predicate Kept(s: Sys, t: Sys, i: nat) {
    && i < |s.looks| && i < |t.looks| && t.looks[i].vk == s.looks[i].vk
    && (Complete(s.looks[i]) ==> t.looks[i].read == s.looks[i].read)
    && (s.looks[i].value.Some? ==> t.looks[i].value == s.looks[i].value)
  }

  lemma LookMoves(limit: nat, s: Sys, step: Step, t: Sys, i: nat)
    requires Moves(limit, s, step, t) && i < |s.looks|
    ensures Kept(s, t, i)
    ensures s.looks[i].value.None? && t.looks[i].value.Some? ==> step == ReadValue(i) && t.looks[i].value.value == Found(s.v, s.looks[i].vk)
  {}

  lemma LookBegins(limit: nat, s: Sys, step: Step, t: Sys, i: nat)
    requires Moves(limit, s, step, t) && |s.looks| <= i < |t.looks|
    ensures t.looks[i].value.None?
  {}

  // A fill stores its payload with the tokens its lookup read, a loss leaves nothing, and
  // nothing else touches what is stored.
  ghost predicate Stores(s: Sys, step: Step, t: Sys, vk: VKey) {
    && (Fills(s, step, vk) ==> s.looks[step.i].read.Some? && Found(t.v, vk) == Some(Entry(s.looks[step.i].read.value, step.payload)))
    && (step == LoseValue(vk) ==> Found(t.v, vk) == None)
    && (!Fills(s, step, vk) && step != LoseValue(vk) ==> Found(t.v, vk) == Found(s.v, vk))
  }

  lemma ValueMoves(limit: nat, s: Sys, step: Step, t: Sys, vk: VKey)
    requires Moves(limit, s, step, t)
    ensures Stores(s, step, t, vk)
  {}

  ghost predicate StoresAll(steps: seq<Step>, states: seq<Sys>, vk: VKey) {
    && |states| == |steps| + 1 && Found(states[0].v, vk) == None
    && forall n :: 0 <= n < |steps| ==> Stores(states[n], steps[n], states[n + 1], vk)
  }

  lemma ValuesMove(limit: nat, steps: seq<Step>, states: seq<Sys>, vk: VKey)
    requires Trace(limit, steps, states)
    ensures StoresAll(steps, states, vk)
  {
    forall n | 0 <= n < |steps| ensures Stores(states[n], steps[n], states[n + 1], vk) {
      ValueMoves(limit, states[n], steps[n], states[n + 1], vk);
    }
  }

  lemma {:induction false} LookKept(limit: nat, steps: seq<Step>, states: seq<Sys>, m: nat, n: nat, i: nat)
    requires Trace(limit, steps, states) && m <= n <= |steps| && i < |states[m].looks|
    ensures Kept(states[m], states[n], i)
    decreases n
  {
    if m < n {
      LookKept(limit, steps, states, m, n - 1, i);
      LookMoves(limit, states[n - 1], steps[n - 1], states[n], i);
    }
  }

  // Neither filled nor lost between two points of the run.
  ghost predicate Untouched(steps: seq<Step>, states: seq<Sys>, vk: VKey, m: nat, n: nat)
    requires |states| == |steps| + 1
  {
    forall g :: m <= g < n <= |steps| ==> !Fills(states[g], steps[g], vk) && steps[g] != LoseValue(vk)
  }

  lemma {:induction false} FoundStays(steps: seq<Step>, states: seq<Sys>, vk: VKey, m: nat, n: nat)
    requires StoresAll(steps, states, vk) && m <= n <= |steps| && Untouched(steps, states, vk, m, n)
    ensures Found(states[n].v, vk) == Found(states[m].v, vk)
    decreases n
  {
    if m < n {
      FoundStays(steps, states, vk, m, n - 1);
      assert Stores(states[n - 1], steps[n - 1], states[n], vk);
    }
  }

  // What is stored some fill stored, and nothing has touched it since.
  lemma {:induction false} StoredBy(steps: seq<Step>, states: seq<Sys>, vk: VKey, n: nat) returns (f: nat)
    requires StoresAll(steps, states, vk) && n <= |steps| && Found(states[n].v, vk).Some?
    ensures f < n && Fills(states[f], steps[f], vk) && Untouched(steps, states, vk, f + 1, n)
    decreases n
  {
    assert Stores(states[n - 1], steps[n - 1], states[n], vk);
    if Fills(states[n - 1], steps[n - 1], vk) {
      f := n - 1;
    } else {
      f := StoredBy(steps, states, vk, n - 1);
    }
  }

  // A lookup's value is what it found when it read it.
  lemma {:induction false} ReadWhen(limit: nat, steps: seq<Step>, states: seq<Sys>, i: nat, n: nat) returns (r: nat)
    requires Trace(limit, steps, states) && n <= |steps| && i < |states[n].looks| && states[n].looks[i].value.Some?
    ensures r < n && steps[r] == ReadValue(i) && i < |states[r].looks|
    ensures states[n].looks[i].value.value == Found(states[r].v, states[n].looks[i].vk)
    decreases n
  {
    if i < |states[n - 1].looks| {
      LookMoves(limit, states[n - 1], steps[n - 1], states[n], i);
      if states[n - 1].looks[i].value.Some? {
        r := ReadWhen(limit, steps, states, i, n - 1);
      } else {
        r := n - 1;
      }
    } else {
      LookBegins(limit, states[n - 1], steps[n - 1], states[n], i);
      assert false;
    }
  }

  /******* What a hit serves *******/

  // The run's fill f stored e under lookup i's entry, step r is i's reading its value, and the
  // entry was neither filled again nor lost in between.
  ghost predicate ServedBy(steps: seq<Step>, s: Sys, i: nat, e: Entry, f: nat, r: nat)
    requires i < |s.looks|
  {
    && f < r < |steps| && steps[r] == ReadValue(i)
    && Fills(s, steps[f], s.looks[i].vk) && steps[f].payload == e.payload && s.looks[steps[f].i].read == Some(e.snap)
    && forall g :: f < g < r ==> !Fills(s, steps[g], s.looks[i].vk) && steps[g] != LoseValue(s.looks[i].vk)
  }

  // No token write of keys took effect between two points of the log, in either order.
  ghost predicate NoWrites(log: seq<Write>, keys: set<TokenKey>, a: nat, b: nat) {
    forall j :: 0 <= j < |log| && (a <= j < b || b <= j < a) ==> log[j].key !in keys
  }

  lemma SameWhenUnwritten(log: seq<Write>, k: TokenKey, t: nat, u: nat, a: nat, b: nat, keys: set<TokenKey>)
    requires Current(log, k, t, a) && Current(log, k, u, b) && k in keys && NoWrites(log, keys, a, b)
    ensures t == u
  {
    var i: nat :| LastWrite(log, k, t, a, i);
    var j: nat :| LastWrite(log, k, u, b, j);
    assert log[i].key in keys && log[j].key in keys;
    assert i == j;
  }

  // Which entry a fill is of does not depend on when that is asked.
  lemma FillsKept(limit: nat, steps: seq<Step>, states: seq<Sys>, vk: VKey, g: nat)
    requires Trace(limit, steps, states) && g < |steps|
    ensures Fills(states[g], steps[g], vk) <==> Fills(states[|steps|], steps[g], vk)
    ensures Fills(states[g], steps[g], vk) ==> states[|steps|].looks[steps[g].i].read == states[g].looks[steps[g].i].read
  {
    assert Moves(limit, states[g], steps[g], states[g + 1]);
    if steps[g].Fill? {
      LookKept(limit, steps, states, g, |steps|, steps[g].i);
    }
  }

  lemma HitWasServed(limit: nat, steps: seq<Step>, states: seq<Sys>, i: nat, e: Entry) returns (f: nat, r: nat)
    requires Trace(limit, steps, states) && i < |states[|steps|].looks| && states[|steps|].looks[i].value == Some(Some(e))
    ensures ServedBy(steps, states[|steps|], i, e, f, r)
  {
    var vk := states[|steps|].looks[i].vk;
    r := ReadWhen(limit, steps, states, i, |steps|);
    ValuesMove(limit, steps, states, vk);
    f := StoredBy(steps, states, vk, r);
    FillsKept(limit, steps, states, vk, f);
    assert Stores(states[f], steps[f], states[f + 1], vk);
    FoundStays(steps, states, vk, f + 1, r);
    assert Moves(limit, states[f], steps[f], states[f + 1]);
    forall g | f < g < r ensures !Fills(states[|steps|], steps[g], vk) && steps[g] != LoseValue(vk) {
      FillsKept(limit, steps, states, vk, g);
    }
  }

  lemma ServedIsRead(limit: nat, steps: seq<Step>, states: seq<Sys>, i: nat, e: Entry, f: nat, r: nat)
    requires Trace(limit, steps, states) && i < |states[|steps|].looks| && ServedBy(steps, states[|steps|], i, e, f, r)
    ensures states[|steps|].looks[i].value == Some(Some(e))
  {
    var vk := states[|steps|].looks[i].vk;
    ValuesMove(limit, steps, states, vk);
    FillsKept(limit, steps, states, vk, f);
    assert Stores(states[f], steps[f], states[f + 1], vk);
    assert Moves(limit, states[f], steps[f], states[f + 1]);
    forall g | f + 1 <= g < r ensures !Fills(states[g], steps[g], vk) {
      FillsKept(limit, steps, states, vk, g);
    }
    FoundStays(steps, states, vk, f + 1, r);
    assert Moves(limit, states[r], steps[r], states[r + 1]);
    LookKept(limit, steps, states, r, |steps|, i);
    LookKept(limit, steps, states, r + 1, |steps|, i);
  }

  lemma AgreeingHits(log: seq<Write>, l: Look, e: Entry)
    requires LookOK(log, l) && Complete(l) && !l.created && l.value == Some(Some(e)) && NoWrites(log, Filed(l.vk), e.snap.at, l.read.value.at)
    ensures Hits(l, e)
  {
    forall k | k in Filed(l.vk) ensures e.snap.tokens[k] == l.read.value.tokens[k] {
      SameWhenUnwritten(log, k, e.snap.tokens[k], l.read.value.tokens[k], e.snap.at, l.read.value.at, Filed(l.vk));
    }
  }

  lemma {:induction false} ServedHits(limit: nat, steps: seq<Step>, i: nat, e: Entry, f: nat, r: nat)
    requires Valid(limit, EMPTY, steps) && i < |Exec(limit, EMPTY, steps).looks| && ServedBy(steps, Exec(limit, EMPTY, steps), i, e, f, r)
    requires var s := Exec(limit, EMPTY, steps);
      var l := s.looks[i]; Complete(l) && !l.created && NoWrites(s.v.log, Filed(l.vk), e.snap.at, l.read.value.at)
    ensures Hits(Exec(limit, EMPTY, steps).looks[i], e)
  {
    var states := Traced(limit, EMPTY, steps);
    ServedIsRead(limit, steps, states, i, e, f, r);
    InvRun(limit, EMPTY, steps);
    var s := states[|steps|];
    assert LookOK(s.v.log, s.looks[i]);
    AgreeingHits(s.v.log, s.looks[i], e);
  }

  ghost predicate Creates(steps: seq<Step>, i: nat, c: nat) {
    c < |steps| && steps[c].CreateToken? && steps[c].i == i
  }

  lemma CreatedMoves(limit: nat, s: Sys, step: Step, t: Sys, i: nat)
    requires Moves(limit, s, step, t) && i < |t.looks|
    ensures t.looks[i].created <==> i < |s.looks| && (s.looks[i].created || (step.CreateToken? && step.i == i))
  {}

  lemma CreatorBegan(limit: nat, steps: seq<Step>, states: seq<Sys>, i: nat, c: nat, n: nat)
    requires Trace(limit, steps, states) && Creates(steps, i, c) && c <= n <= |steps|
    ensures i < |states[n].looks|
  {
    assert Moves(limit, states[c], steps[c], states[c + 1]);
    LookKept(limit, steps, states, c, n, i);
  }

  // A lookup that creates a token, and only such a one, is marked so, whatever else happens.
  lemma {:induction false} CreatedExactlyWhen(limit: nat, steps: seq<Step>, states: seq<Sys>, n: nat, i: nat)
    requires Trace(limit, steps, states) && n <= |steps| && i < |states[n].looks|
    ensures states[n].looks[i].created <==> exists c: nat :: c < n && Creates(steps, i, c)
    decreases n
  {
    if n > 0 {
      CreatedMoves(limit, states[n - 1], steps[n - 1], states[n], i);
      forall c: nat | c < n && Creates(steps, i, c) ensures i < |states[n - 1].looks| {
        CreatorBegan(limit, steps, states, i, c, n - 1);
      }
      if i < |states[n - 1].looks| {
        CreatedExactlyWhen(limit, steps, states, n - 1, i);
        if Creates(steps, i, n - 1) {
        } else if states[n].looks[i].created {
          var c: nat :| c < n - 1 && Creates(steps, i, c);
        }
      }
    }
  }

  // So no lookup that had to create a token ever hits.
  lemma {:induction false} CreatorMisses(limit: nat, steps: seq<Step>, i: nat, c: nat, e: Entry)
    requires Valid(limit, EMPTY, steps) && i < |Exec(limit, EMPTY, steps).looks| && Creates(steps, i, c)
    ensures !Hits(Exec(limit, EMPTY, steps).looks[i], e)
  {
    var states := Traced(limit, EMPTY, steps);
    CreatedExactlyWhen(limit, steps, states, |steps|, i);
  }

  // A lookup hits exactly when it is complete and created no token, the last fill of its entry
  // before it read its value stored that payload with the tokens that fill's lookup had read,
  // the entry was not lost since, and no token it is filed under was written between the two
  // lookups' reads of them.
  lemma {:induction false} HitExactlyWhen(limit: nat, steps: seq<Step>, i: nat, e: Entry)
    requires Valid(limit, EMPTY, steps) && i < |Exec(limit, EMPTY, steps).looks|
    ensures var s := Exec(limit, EMPTY, steps);
      var l := s.looks[i];
      Hits(l, e) <==>
        (Complete(l) && !l.created && NoWrites(s.v.log, Filed(l.vk), e.snap.at, l.read.value.at)
         && exists f: nat, r: nat :: ServedBy(steps, s, i, e, f, r))
  {
    var s := Exec(limit, EMPTY, steps);
    var l := s.looks[i];
    if Hits(l, e) {
      var states := Traced(limit, EMPTY, steps);
      var f, r := HitWasServed(limit, steps, states, i, e);
      forall j | 0 <= j < |s.v.log| && (e.snap.at <= j < l.read.value.at || l.read.value.at <= j < e.snap.at) ensures s.v.log[j].key !in Filed(l.vk) {
        HitIsCurrent(limit, steps, i, e, j);
      }
    } else if Complete(l) && !l.created && NoWrites(s.v.log, Filed(l.vk), e.snap.at, l.read.value.at) {
      forall f: nat, r: nat ensures !ServedBy(steps, s, i, e, f, r) {
        if ServedBy(steps, s, i, e, f, r) {
          ServedHits(limit, steps, i, e, f, r);
        }
      }
    }
  }

  /******* A fill is served until something is written or lost *******/

  ghost predicate Touches(step: Step, keys: set<TokenKey>) {
    || (step.Run? && step.c.w.key in keys)
    || ((step.LoseToken? || step.Corrupt?) && step.k in keys)
  }

  lemma TokensMove(limit: nat, s: Sys, step: Step, t: Sys, keys: set<TokenKey>)
    requires Moves(limit, s, step, t) && !Touches(step, keys)
    ensures Mget(t.v, keys) == Mget(s.v, keys)
  {
    assert forall k :: k in keys ==> (k in t.v.cells <==> k in s.v.cells);
  }

  lemma {:induction false} TokensStay(limit: nat, steps: seq<Step>, states: seq<Sys>, keys: set<TokenKey>, m: nat, n: nat)
    requires Trace(limit, steps, states) && m <= n <= |steps| && forall g :: m <= g < n ==> !Touches(steps[g], keys)
    ensures Mget(states[n].v, keys) == Mget(states[m].v, keys)
    decreases n
  {
    if m < n {
      TokensStay(limit, steps, states, keys, m, n - 1);
      TokensMove(limit, states[n - 1], steps[n - 1], states[n], keys);
    }
  }

  lemma ReadMoves(limit: nat, s: Sys, step: Step, t: Sys, i: nat)
    requires Moves(limit, s, step, t) && i < |s.looks| && s.looks[i].read.Some? && step != ReadBack(i)
    ensures i < |t.looks| && t.looks[i].read == s.looks[i].read
  {}

  lemma {:induction false} ReadStays(limit: nat, steps: seq<Step>, states: seq<Sys>, m: nat, n: nat, i: nat)
    requires Trace(limit, steps, states) && m <= n <= |steps| && i < |states[m].looks| && states[m].looks[i].read.Some?
    requires forall g :: m <= g < n ==> steps[g] != ReadBack(i)
    ensures i < |states[n].looks| && states[n].looks[i].read == states[m].looks[i].read
    decreases n
  {
    if m < n {
      ReadStays(limit, steps, states, m, n - 1, i);
      ReadMoves(limit, states[n - 1], steps[n - 1], states[n], i);
    }
  }

  // Reading tokens finds every token the server then holds for the lookup's keys, and no other;
  // and so the lookup is complete exactly when each of them holds one.
  lemma ReadIsExact(limit: nat, s: Sys, step: Step, t: Sys, i: nat)
    requires Moves(limit, s, step, t) && (step == ReadTokens(i) || step == ReadBack(i))
    ensures i < |s.looks| && i < |t.looks| && t.looks[i].read.Some?
    ensures var keys, found := Filed(s.looks[i].vk), t.looks[i].read.value.tokens;
      && (forall k :: k in found <==> k in keys && k in s.v.cells && s.v.cells[k].Tok?)
      && (forall k :: k in found ==> found[k] == s.v.cells[k].token)
      && (Complete(t.looks[i]) <==> forall k :: k in keys ==> k in s.v.cells && s.v.cells[k].Tok?)
  {
    var keys, found := Filed(s.looks[i].vk), t.looks[i].read.value.tokens;
    assert found.Keys == keys <==> forall k :: k in keys ==> k in found;
  }

  // Reading tokens finds whatever the server then holds for the lookup's keys.
  lemma ReadFinds(limit: nat, s: Sys, step: Step, t: Sys, i: nat)
    requires Moves(limit, s, step, t) && (step == ReadTokens(i) || step == ReadBack(i))
    ensures i < |s.looks| && i < |t.looks| && t.looks[i].vk == s.looks[i].vk && t.looks[i].read.Some?
    ensures t.looks[i].read.value.tokens == Mget(s.v, Filed(s.looks[i].vk))
  {}

  lemma FillerRead(limit: nat, steps: seq<Step>, states: seq<Sys>, n: nat, payload: Bytes, a: nat, f: nat)
    requires Trace(limit, steps, states) && n < |states[|steps|].looks|
    requires a < f < |steps| && (steps[a] == ReadTokens(n) || steps[a] == ReadBack(n)) && steps[f] == Fill(n, payload)
    requires forall g :: a < g < f ==> steps[g] != ReadBack(n)
    ensures var l := states[|steps|].looks[n]; Complete(l) && l.read.value.tokens == Mget(states[a].v, Filed(l.vk))
  {
    assert Moves(limit, states[a], steps[a], states[a + 1]);
    ReadFinds(limit, states[a], steps[a], states[a + 1], n);
    LookKept(limit, steps, states, a, |steps|, n);
    ReadStays(limit, steps, states, a + 1, f, n);
    assert Moves(limit, states[f], steps[f], states[f + 1]);
    LookKept(limit, steps, states, f, |steps|, n);
  }

  lemma ReaderRead(limit: nat, steps: seq<Step>, states: seq<Sys>, i: nat, b: nat)
    requires Trace(limit, steps, states) && i < |states[|steps|].looks| && b < |steps| && steps[b] == ReadTokens(i)
    requires var keys := Filed(states[|steps|].looks[i].vk); Mget(states[b].v, keys).Keys == keys
    ensures var l := states[|steps|].looks[i]; Complete(l) && l.read.value.tokens == Mget(states[b].v, Filed(l.vk))
  {
    assert Moves(limit, states[b], steps[b], states[b + 1]);
    ReadFinds(limit, states[b], steps[b], states[b + 1], i);
    LookKept(limit, steps, states, b, |steps|, i);
    LookKept(limit, steps, states, b + 1, |steps|, i);
  }

  // Steps a and f are lookup n's reading its tokens and its fill, b and r lookup i's reading its
  // tokens and its value; i is of the same entry and had no token to create. Between the two
  // token reads no write of their keys ran and none was lost, and between the fill and the value
  // read the entry was neither filled again nor lost. Then i hits exactly what n filled.
  lemma {:induction false} FillIsServed(limit: nat, steps: seq<Step>, n: nat, i: nat, payload: Bytes, a: nat, f: nat, b: nat, r: nat)
    requires Valid(limit, EMPTY, steps)
    requires var s := Exec(limit, EMPTY, steps);
      n < |s.looks| && i < |s.looks| && s.looks[n].vk == s.looks[i].vk && !s.looks[i].created
    requires a < f < |steps| && (steps[a] == ReadTokens(n) || steps[a] == ReadBack(n)) && steps[f] == Fill(n, payload)
    requires forall g :: a < g < f ==> steps[g] != ReadBack(n)
    requires a < b < |steps| && f < r < |steps| && steps[b] == ReadTokens(i) && steps[r] == ReadValue(i)
    requires var s := Exec(limit, EMPTY, steps);
      && (forall g :: a < g < b ==> !Touches(steps[g], Filed(s.looks[i].vk)))
      && (forall g :: f < g < r ==> !Fills(s, steps[g], s.looks[i].vk) && steps[g] != LoseValue(s.looks[i].vk))
    ensures var s := Exec(limit, EMPTY, steps);
      Complete(s.looks[n]) && Hits(s.looks[i], Entry(s.looks[n].read.value, payload))
  {
    var s := Exec(limit, EMPTY, steps);
    var states := Traced(limit, EMPTY, steps);
    var keys := Filed(s.looks[i].vk);
    FillerRead(limit, steps, states, n, payload, a, f);
    assert !Touches(steps[a], keys);
    TokensStay(limit, steps, states, keys, a, b);
    ReaderRead(limit, steps, states, i, b);
    ServedIsRead(limit, steps, states, i, Entry(s.looks[n].read.value, payload), f, r);
  }

  /******* A bump that is sent and runs is done with *******/

  function BumpOf(s: Sys, k: TokenKey): Cmd {
    Cmd(Write(k, s.v.next, true), false)
  }

  // The server runs it: the key then holds the fresh token, and the write is on record.
  lemma BumpRuns(v: Server, k: TokenKey)
    ensures var u, c := Send(v, k, false, true), Cmd(Write(k, v.next, true), false);
      && c in u.wire && RunCmd(u, c).cells == v.cells[k := Tok(v.next)] && RunCmd(u, c).log == v.log + [c.w]
      && c.w in RunCmd(u, c).log
  {
    assert (v.log + [Write(k, v.next, true)])[|v.log|] == Write(k, v.next, true);
  }

  // An invalidation's: it can be acknowledged, and that leaves one key fewer to deliver.
  lemma BumpDelivers(limit: nat, s: Sys, t: nat, k: TokenKey)
    requires Enabled(s, SendBump(t, k))
    ensures var u, c := Do(limit, s, SendBump(t, k)), BumpOf(s, k);
      Enabled(u, Run(c)) && var w := Do(limit, u, Run(c));
      && w.v.cells == s.v.cells[k := Tok(s.v.next)] && Enabled(w, Acked(t, k))
      && Do(limit, w, Acked(t, k)).tasks[t].left == s.tasks[t].left - {k}
      && Due(s.tasks[t].proc, k, s.tasks[t].at, 0) in Do(limit, w, Acked(t, k)).dues
  {
    BumpRuns(s.v, k);
  }

  // A drain's: it takes the key off what the process owes, unless it was added again since.
  lemma DrainDelivers(limit: nat, s: Sys, d: nat, k: TokenKey)
    requires Enabled(s, SendDrain(d, k)) && s.drains[d].proc in s.pend
    ensures var u, c := Do(limit, s, SendDrain(d, k)), BumpOf(s, k);
      Enabled(u, Run(c)) && var w := Do(limit, u, Run(c));
      && w.v.cells == s.v.cells[k := Tok(s.v.next)] && Enabled(w, DrainDone(d, {k}))
      && var p, q := s.pend[s.drains[d].proc].keys, Do(limit, w, DrainDone(d, {k})).pend[s.drains[d].proc].keys;
         q == if k in p && p[k].gen == s.drains[d].owed[k].gen then p - {k} else p
  {
    BumpRuns(s.v, k);
    var c := BumpOf(s, k);
    var w := Do(limit, Do(limit, s, SendDrain(d, k)), Run(c));
    assert w.drains[d].sent[k] == s.v.next;
    assert Enabled(w, DrainDone(d, {k}));
    var p := s.pend[s.drains[d].proc];
    DoneOne(p, k, s.drains[d].owed[k].gen);
    assert (map x | x in {k} && x in w.drains[d].owed :: w.drains[d].owed[x].gen) == map[k := s.drains[d].owed[k].gen];
  }

  lemma DoneOne(p: Pending, k: TokenKey, g: nat)
    ensures Done(p, map[k := g]).keys == if k in p.keys && p.keys[k].gen == g then p.keys - {k} else p.keys
  {}
}
