/** internal/cache/redis.go as a protocol: processes looking up, filling and invalidating over
    one server, which runs their commands one at a time, in any order and perhaps much later,
    and may lose or be given garbage in place of anything it holds. */
module SharedCache {
  import opened Common
  import opened Bytes
  import opened VersionIndex
  import opened RedisKeys
  import opened PendingBumps

  /******* The server *******/

  datatype Cell = Tok(token: nat) | Junk

  // bump tells an invalidation's or a drain's write from a lookup's creation of a token.
  datatype Write = Write(key: TokenKey, token: nat, bump: bool)

  // SET, or SET NX where nx, of a freshly generated token.
  datatype Cmd = Cmd(w: Write, nx: bool)

  datatype VKey = VKey(id: Bytes, sha: Bytes, deps: set<Namespace>)

  // The tokens a Lookup read, and how many token writes had landed by then.
  datatype Snap = Snap(vk: VKey, tokens: map<TokenKey, nat>, at: nat)

  datatype Entry = Entry(snap: Snap, payload: Bytes)

  // wire is every token write sent and not yet run; log every one that took effect, in order.
  // Tokens are numbered in the order they are generated.
  datatype Server = Server(cells: map<TokenKey, Cell>, values: map<VKey, Entry>, wire: set<Cmd>, next: nat, log: seq<Write>)

  function Filed(vk: VKey): set<TokenKey> {
    FiledUnder(vk.id, vk.deps)
  }

  // MGET, through readTokens: what is missing or is no token is left out.
  function Mget(v: Server, keys: set<TokenKey>): map<TokenKey, nat> {
    map k | k in keys && k in v.cells && v.cells[k].Tok? :: v.cells[k].token
  }

  function Send(v: Server, k: TokenKey, nx: bool, bump: bool): Server {
    v.(wire := v.wire + {Cmd(Write(k, v.next, bump), nx)}, next := v.next + 1)
  }

  function RunCmd(v: Server, c: Cmd): Server {
    if c.nx && c.w.key in v.cells then v.(wire := v.wire - {c})
    else v.(wire := v.wire - {c}, cells := v.cells[c.w.key := Tok(c.w.token)], log := v.log + [c.w])
  }

  /******* The processes *******/

  // Key's bump has been owed by proc since the log had since writes: since it was added to the
  // pending set, by addition gen; or, where the server acknowledged it instead and gen is 0,
  // since its invalidation began.
  datatype Due = Due(proc: nat, key: TokenKey, since: nat, gen: nat)

  // owed is what the lookup's own process had been asked to invalidate when it began.
  datatype Look = Look(proc: nat, vk: VKey, begun: nat, owed: set<Due>, read: Option<Snap>, value: Option<Option<Entry>>, created: bool)

  // An Invalidate still to deliver or defer its keys in left.
  datatype Task = Task(proc: nat, at: nat, left: set<TokenKey>, sent: map<TokenKey, nat>)

  datatype Drain = Drain(proc: nat, at: nat, owed: map<TokenKey, Held>, gen: nat, sent: map<TokenKey, nat>)

  datatype Sys = Sys(v: Server, pend: map<nat, Pending>, looks: seq<Look>, tasks: seq<Task>, drains: seq<Drain>, dues: set<Due>)

  predicate Complete(l: Look) {
    l.read.Some? && l.read.value.tokens.Keys == Filed(l.vk)
  }

  // Lookup's answer. One that had to create a token is a miss whatever it read afterwards.
  predicate Hits(l: Look, e: Entry) {
    Complete(l) && !l.created && l.value == Some(Some(e)) && e.snap.tokens == l.read.value.tokens
  }

  datatype Step =
    | Start(p: nat)
    | BeginLookup(p: nat, vk: VKey)
    | ReadTokens(i: nat)
    | ReadValue(i: nat)
    | CreateToken(i: nat, k: TokenKey, nx: bool) // NX where it was missing
    | ReadBack(i: nat)
    | Fill(i: nat, payload: Bytes)          // Set, whenever its command runs
    | Run(c: Cmd)
    | LoseToken(k: TokenKey)
    | Corrupt(k: TokenKey)
    | LoseValue(vk: VKey)                   // evicted, expired or unreadable
    | BeginBump(p: nat, keys: set<TokenKey>)
    | SendBump(t: nat, k: TokenKey)
    | Acked(t: nat, k: TokenKey)
    | Defer(t: nat, k: TokenKey)
    | BeginDrain(p: nat)
    | SendDrain(d: nat, k: TokenKey)
    | DrainDone(d: nat, landed: set<TokenKey>)

  ghost predicate Enabled(s: Sys, step: Step) {
    match step
    case Start(p) => p !in s.pend
    case BeginLookup(p, vk) => p in s.pend && (forall d :: d in vk.deps ==> d.tenant == vk.id) && !OwesAny(s.pend[p], Filed(vk))
    case ReadTokens(i) => i < |s.looks| && s.looks[i].read.None?
    case ReadValue(i) => i < |s.looks| && s.looks[i].value.None?
    case CreateToken(i, k, _) => i < |s.looks| && s.looks[i].read.Some? && k in Filed(s.looks[i].vk) && k !in s.looks[i].read.value.tokens
    case ReadBack(i) => i < |s.looks| && s.looks[i].created && !Complete(s.looks[i])
    case Fill(i, _) => i < |s.looks| && Complete(s.looks[i])
    case Run(c) => c in s.v.wire
    case LoseToken(_) => true
    case Corrupt(_) => true
    case LoseValue(_) => true
    case BeginBump(p, _) => p in s.pend
    case SendBump(t, k) => t < |s.tasks| && k in s.tasks[t].left && k !in s.tasks[t].sent
    case Acked(t, k) =>
      t < |s.tasks| && k in s.tasks[t].left && k in s.tasks[t].sent && Write(k, s.tasks[t].sent[k], true) in s.v.log
    case Defer(t, k) => t < |s.tasks| && k in s.tasks[t].left && s.tasks[t].proc in s.pend
    case BeginDrain(p) => p in s.pend
    case SendDrain(d, k) => d < |s.drains| && k in s.drains[d].owed && k !in s.drains[d].sent
    case DrainDone(d, landed) =>
      && d < |s.drains| && s.drains[d].proc in s.pend
      && forall k :: k in landed ==> k in s.drains[d].owed && k in s.drains[d].sent && Write(k, s.drains[d].sent[k], true) in s.v.log
  }

  function MgetFor(s: Sys, l: Look): Look {
    l.(read := Some(Snap(l.vk, Mget(s.v, Filed(l.vk)), |s.v.log|)))
  }

  ghost function OwedBy(s: Sys, p: nat): set<Due> {
    set u | u in s.dues && u.proc == p
  }

  ghost function Do(limit: nat, s: Sys, step: Step): Sys
    requires Enabled(s, step)
  {
    match step
    case Start(p) => s.(pend := s.pend[p := NOTHING_OWED])
    case BeginLookup(p, vk) => s.(looks := s.looks + [Look(p, vk, |s.v.log|, OwedBy(s, p), None, None, false)])
    case ReadTokens(i) => s.(looks := s.looks[i := MgetFor(s, s.looks[i])])
    case ReadValue(i) =>
      var vk := s.looks[i].vk;
      s.(looks := s.looks[i := s.looks[i].(value := Some(if vk in s.v.values then Some(s.v.values[vk]) else None))])
    case CreateToken(i, k, nx) => s.(v := Send(s.v, k, nx, false), looks := s.looks[i := s.looks[i].(created := true)])
    case ReadBack(i) => s.(looks := s.looks[i := MgetFor(s, s.looks[i])])
    case Fill(i, payload) => s.(v := s.v.(values := s.v.values[s.looks[i].vk := Entry(s.looks[i].read.value, payload)]))
    case Run(c) => s.(v := RunCmd(s.v, c))
    case LoseToken(k) => s.(v := s.v.(cells := s.v.cells - {k}))
    case Corrupt(k) => s.(v := s.v.(cells := s.v.cells[k := Junk]))
    case LoseValue(vk) => s.(v := s.v.(values := s.v.values - {vk}))
    case BeginBump(p, keys) => s.(tasks := s.tasks + [Task(p, |s.v.log|, keys, map[])])
    case SendBump(t, k) =>
      var task := s.tasks[t];
      s.(v := Send(s.v, k, false, true), tasks := s.tasks[t := task.(sent := task.sent[k := s.v.next])])
    case Acked(t, k) =>
      var task := s.tasks[t];
      s.(tasks := s.tasks[t := task.(left := task.left - {k})], dues := s.dues + {Due(task.proc, k, task.at, 0)})
    case Defer(t, k) =>
      var task := s.tasks[t];
      var p := Add(s.pend[task.proc], limit, k.id, {k});
      s.(pend := s.pend[task.proc := p], tasks := s.tasks[t := task.(left := task.left - {k})],
         dues := s.dues + {Due(task.proc, k, |s.v.log|, p.gen)})
    case BeginDrain(p) => s.(drains := s.drains + [Drain(p, |s.v.log|, s.pend[p].keys, s.pend[p].gen, map[])])
    case SendDrain(d, k) =>
      var drain := s.drains[d];
      s.(v := Send(s.v, k, false, true), drains := s.drains[d := drain.(sent := drain.sent[k := s.v.next])])
    case DrainDone(d, landed) =>
      var drain := s.drains[d];
      s.(pend := s.pend[drain.proc := Done(s.pend[drain.proc], map k | k in landed && k in drain.owed :: drain.owed[k].gen)])
  }

  ghost predicate Valid(limit: nat, s: Sys, steps: seq<Step>)
    decreases |steps|
  {
    steps == [] || (Enabled(s, steps[0]) && Valid(limit, Do(limit, s, steps[0]), steps[1..]))
  }

  ghost function Exec(limit: nat, s: Sys, steps: seq<Step>): Sys
    requires Valid(limit, s, steps)
    decreases |steps|
  {
    if steps == [] then s else Exec(limit, Do(limit, s, steps[0]), steps[1..])
  }

  // A server before its first process; one that has stopped takes no further steps.
  const EMPTY := Sys(Server(map[], map[], {}, 0, []), map[], [], [], [], {})

  /******* What every step keeps *******/

  ghost predicate LastWrite(log: seq<Write>, k: TokenKey, token: nat, at: nat, i: nat) {
    && i < at <= |log| && log[i].key == k && log[i].token == token
    && forall j :: i < j < at ==> log[j].key != k
  }

  ghost predicate Current(log: seq<Write>, k: TokenKey, token: nat, at: nat) {
    exists i :: LastWrite(log, k, token, at, i)
  }

  ghost predicate SnapOK(log: seq<Write>, s: Snap) {
    && s.at <= |log| && s.tokens.Keys <= Filed(s.vk)
    && forall k :: k in s.tokens ==> Current(log, k, s.tokens[k], s.at)
  }

  ghost predicate EntryOK(log: seq<Write>, vk: VKey, e: Entry) {
    e.snap.vk == vk && SnapOK(log, e.snap) && e.snap.tokens.Keys == Filed(vk)
  }

  ghost predicate TokensOnce(v: Server) {
    && (forall i, j :: 0 <= i < j < |v.log| ==> v.log[i].token != v.log[j].token)
    && (forall i :: 0 <= i < |v.log| ==> v.log[i].token < v.next)
    && (forall c :: c in v.wire ==> c.w.token < v.next)
    && (forall c, i :: c in v.wire && 0 <= i < |v.log| ==> v.log[i].token != c.w.token)
    && (forall c, d :: c in v.wire && d in v.wire && c.w.token == d.w.token ==> c == d)
  }

  ghost predicate ServerOK(v: Server) {
    && TokensOnce(v)
    && (forall k :: k in v.cells && v.cells[k].Tok? ==> Current(v.log, k, v.cells[k].token, |v.log|))
    && (forall vk :: vk in v.values ==> EntryOK(v.log, vk, v.values[vk]))
  }

  // The key, or its tenant's token, was bumped between two points of the log.
  ghost predicate BumpedAt(log: seq<Write>, k: TokenKey, from: nat, to: nat, j: nat) {
    from <= j < to <= |log| && log[j].bump && (log[j].key == k || log[j].key == TenantToken(k.id))
  }

  ghost predicate Bumped(log: seq<Write>, k: TokenKey, from: nat, to: nat) {
    exists j :: BumpedAt(log, k, from, to, j)
  }

  ghost predicate LookOK(log: seq<Write>, l: Look) {
    && l.begun <= |log|
    && (l.read.Some? ==> l.read.value.vk == l.vk && SnapOK(log, l.read.value) && l.begun <= l.read.value.at)
    && (l.value.Some? && l.value.value.Some? ==> EntryOK(log, l.vk, l.value.value.value))
    && (forall u :: u in l.owed && u.key in Filed(l.vk) ==> Bumped(log, u.key, u.since, l.begun))
  }

  // A bump somebody sent lands, if ever, as one, under its key and after it was sent.
  ghost predicate SentOK(v: Server, sent: map<TokenKey, nat>, at: nat) {
    && at <= |v.log|
    && (forall k :: k in sent ==> sent[k] < v.next)
    && (forall k, j :: k in sent && 0 <= j < |v.log| && v.log[j].token == sent[k] ==> v.log[j].key == k && v.log[j].bump && at <= j)
    && (forall k, c :: k in sent && c in v.wire && c.w.token == sent[k] ==> c.w.key == k && c.w.bump)
  }

  ghost predicate DueOK(s: Sys, u: Due) {
    && u.proc in s.pend && u.since <= |s.v.log| && u.gen <= s.pend[u.proc].gen
    && (Bumped(s.v.log, u.key, u.since, |s.v.log|) || (0 < u.gen && Holds(s.pend[u.proc], u.key, u.gen)))
  }

  ghost predicate DrainOK(s: Sys, d: Drain) {
    && d.proc in s.pend && d.gen <= s.pend[d.proc].gen
    && SentOK(s.v, d.sent, d.at)
    && (forall k :: k in d.owed ==> d.owed[k].gen <= d.gen)
    && (forall u :: u in s.dues && u.proc == d.proc && 0 < u.gen <= d.gen ==> u.since <= d.at)
  }

  ghost predicate Inv(s: Sys) {
    && ServerOK(s.v)
    && (forall i :: 0 <= i < |s.looks| ==> LookOK(s.v.log, s.looks[i]))
    && (forall i :: 0 <= i < |s.tasks| ==> s.tasks[i].proc in s.pend && SentOK(s.v, s.tasks[i].sent, s.tasks[i].at))
    && (forall p :: p in s.pend ==> WellFormed(s.pend[p]))
    && (forall i :: 0 <= i < |s.drains| ==> DrainOK(s, s.drains[i]))
    && (forall u :: u in s.dues ==> DueOK(s, u))
  }

  /******* The log only grows *******/

  ghost predicate Extends(v: Server, w: Server) {
    && |v.log| <= |w.log| && w.log[..|v.log|] == v.log && v.next <= w.next
    && (forall c :: c in w.wire ==> c in v.wire || v.next <= c.w.token)
    && (forall j :: |v.log| <= j < |w.log| ==> exists c :: c in v.wire && c.w == w.log[j])
  }

  lemma CurrentStays(v: Server, w: Server, k: TokenKey, token: nat, at: nat)
    requires Extends(v, w) && Current(v.log, k, token, at)
    ensures Current(w.log, k, token, at)
  {
    var i: nat :| LastWrite(v.log, k, token, at, i);
    assert forall j :: 0 <= j < |v.log| ==> v.log[j] == w.log[j];
    assert LastWrite(w.log, k, token, at, i);
  }

  lemma SnapStays(v: Server, w: Server, s: Snap)
    requires Extends(v, w) && SnapOK(v.log, s)
    ensures SnapOK(w.log, s)
  {
    forall k | k in s.tokens ensures Current(w.log, k, s.tokens[k], s.at) {
      CurrentStays(v, w, k, s.tokens[k], s.at);
    }
  }

  lemma BumpedStays(v: Server, w: Server, k: TokenKey, from: nat, to: nat, end: nat)
    requires Extends(v, w) && Bumped(v.log, k, from, to) && to <= end <= |w.log|
    ensures Bumped(w.log, k, from, end)
  {
    var j: nat :| BumpedAt(v.log, k, from, to, j);
    assert v.log[j] == w.log[j];
    assert BumpedAt(w.log, k, from, end, j);
  }

  lemma LookStays(v: Server, w: Server, l: Look)
    requires Extends(v, w) && LookOK(v.log, l)
    ensures LookOK(w.log, l)
  {
    if l.read.Some? {
      SnapStays(v, w, l.read.value);
    }
    if l.value.Some? && l.value.value.Some? {
      SnapStays(v, w, l.value.value.value.snap);
    }
    forall u | u in l.owed && u.key in Filed(l.vk) ensures Bumped(w.log, u.key, u.since, l.begun) {
      BumpedStays(v, w, u.key, u.since, l.begun, l.begun);
    }
  }

  lemma SentStays(v: Server, w: Server, sent: map<TokenKey, nat>, at: nat)
    requires Extends(v, w) && SentOK(v, sent, at)
    ensures SentOK(w, sent, at)
  {
    forall k, j | k in sent && 0 <= j < |w.log| && w.log[j].token == sent[k] ensures w.log[j].key == k && w.log[j].bump && at <= j {
      if j < |v.log| {
        assert v.log[j] == w.log[j];
      }
    }
  }

  // Everything but the server's own state survives its growing.
  lemma RestStays(s: Sys, w: Server)
    requires Inv(s) && Extends(s.v, w) && ServerOK(w)
    ensures Inv(s.(v := w))
  {
    var t := s.(v := w);
    forall i | 0 <= i < |s.looks| ensures LookOK(w.log, s.looks[i]) {
      LookStays(s.v, w, s.looks[i]);
    }
    forall i | 0 <= i < |s.tasks| ensures SentOK(w, s.tasks[i].sent, s.tasks[i].at) {
      SentStays(s.v, w, s.tasks[i].sent, s.tasks[i].at);
    }
    forall i | 0 <= i < |s.drains| ensures DrainOK(t, s.drains[i]) {
      assert DrainOK(s, s.drains[i]);
      SentStays(s.v, w, s.drains[i].sent, s.drains[i].at);
    }
    forall u | u in s.dues ensures DueOK(t, u) {
      assert DueOK(s, u);
      if Bumped(s.v.log, u.key, u.since, |s.v.log|) {
        BumpedStays(s.v, w, u.key, u.since, |s.v.log|, |w.log|);
      }
    }
  }

  lemma ValuesStay(v: Server, w: Server)
    requires ServerOK(v) && Extends(v, w)
    ensures forall vk :: vk in v.values ==> EntryOK(w.log, vk, v.values[vk])
  {
    forall vk | vk in v.values ensures EntryOK(w.log, vk, v.values[vk]) {
      SnapStays(v, w, v.values[vk].snap);
    }
  }

  /******* Server steps *******/

  lemma SendOK(v: Server, k: TokenKey, nx: bool, bump: bool)
    requires ServerOK(v)
    ensures ServerOK(Send(v, k, nx, bump)) && Extends(v, Send(v, k, nx, bump))
  {}

  lemma RunTokensOnce(v: Server, c: Cmd)
    requires TokensOnce(v) && c in v.wire
    ensures TokensOnce(RunCmd(v, c)) && Extends(v, RunCmd(v, c))
  {
    var w := RunCmd(v, c);
    if |w.log| != |v.log| {
      assert forall j :: 0 <= j < |v.log| ==> v.log[j] == w.log[j];
      assert w.log[|v.log|] == c.w;
    }
  }

  lemma RunOK(v: Server, c: Cmd)
    requires ServerOK(v) && c in v.wire
    ensures ServerOK(RunCmd(v, c)) && Extends(v, RunCmd(v, c))
  {
    var w := RunCmd(v, c);
    RunTokensOnce(v, c);
    ValuesStay(v, w);
    if w.log != v.log {
      forall k | k in w.cells && w.cells[k].Tok? ensures Current(w.log, k, w.cells[k].token, |w.log|) {
        if k == c.w.key {
          assert LastWrite(w.log, k, c.w.token, |w.log|, |v.log|);
        } else {
          var i: nat :| LastWrite(v.log, k, v.cells[k].token, |v.log|, i);
          assert LastWrite(w.log, k, v.cells[k].token, |w.log|, i);
        }
      }
    }
  }

  lemma FillOK(s: Sys, i: nat, payload: Bytes)
    requires Inv(s) && i < |s.looks| && Complete(s.looks[i])
    ensures var w := s.v.(values := s.v.values[s.looks[i].vk := Entry(s.looks[i].read.value, payload)]); ServerOK(w) && Extends(s.v, w)
  {
    assert LookOK(s.v.log, s.looks[i]);
  }

  lemma LossOK(limit: nat, s: Sys, step: Step)
    requires Inv(s) && Enabled(s, step) && (step.LoseToken? || step.Corrupt? || step.LoseValue?)
    ensures ServerOK(Do(limit, s, step).v) && Extends(s.v, Do(limit, s, step).v)
  {}

  lemma ServerStep(limit: nat, s: Sys, step: Step)
    requires Inv(s) && Enabled(s, step)
    requires step.Fill? || step.Run? || step.LoseToken? || step.Corrupt? || step.LoseValue?
    ensures Inv(Do(limit, s, step))
  {
    var t := Do(limit, s, step);
    if step.Run? {
      RunOK(s.v, step.c);
    } else if step.Fill? {
      FillOK(s, step.i, step.payload);
    } else {
      LossOK(limit, s, step);
    }
    RestStays(s, t.v);
    assert t == s.(v := t.v);
  }

  /******* Lookup steps *******/

  lemma MgetOK(s: Sys, i: nat)
    requires Inv(s) && i < |s.looks|
    ensures LookOK(s.v.log, MgetFor(s, s.looks[i]))
  {
    assert LookOK(s.v.log, s.looks[i]);
  }

  // A lookup that is not bypassed has nothing outstanding against its entry.
  lemma BeginLookupOK(s: Sys, p: nat, vk: VKey)
    requires Inv(s) && Enabled(s, BeginLookup(p, vk))
    ensures LookOK(s.v.log, Look(p, vk, |s.v.log|, OwedBy(s, p), None, None, false))
  {
    forall u | u in OwedBy(s, p) && u.key in Filed(vk) ensures Bumped(s.v.log, u.key, u.since, |s.v.log|) {
      assert DueOK(s, u);
      if Holds(s.pend[p], u.key, u.gen) {
        HeldIsBypassed(s.pend[p], Filed(vk), u.key, u.gen);
      }
    }
  }

  lemma LookStep(limit: nat, s: Sys, step: Step)
    requires Inv(s) && Enabled(s, step)
    requires step.BeginLookup? || step.ReadTokens? || step.ReadValue? || step.ReadBack?
    ensures Inv(Do(limit, s, step))
  {
    var t := Do(limit, s, step);
    if step.BeginLookup? {
      BeginLookupOK(s, step.p, step.vk);
    } else if step.ReadValue? {
      assert LookOK(s.v.log, s.looks[step.i]);
    } else {
      MgetOK(s, step.i);
    }
    assert forall j :: 0 <= j < |t.drains| ==> DrainOK(s, t.drains[j]);
    assert forall u :: u in t.dues ==> DueOK(s, u);
  }

  lemma MarkCreated(s: Sys, i: nat)
    requires Inv(s) && i < |s.looks|
    ensures Inv(s.(looks := s.looks[i := s.looks[i].(created := true)]))
  {
    var t := s.(looks := s.looks[i := s.looks[i].(created := true)]);
    assert LookOK(s.v.log, s.looks[i]);
    assert forall j :: 0 <= j < |t.drains| ==> DrainOK(s, t.drains[j]);
    assert forall u :: u in t.dues ==> DueOK(s, u);
  }

  lemma CreateStep(limit: nat, s: Sys, i: nat, k: TokenKey, nx: bool)
    requires Inv(s) && Enabled(s, CreateToken(i, k, nx))
    ensures Inv(Do(limit, s, CreateToken(i, k, nx)))
  {
    var w := Send(s.v, k, nx, false);
    SendOK(s.v, k, nx, false);
    RestStays(s, w);
    MarkCreated(s.(v := w), i);
  }

  /******* Bump steps *******/

  lemma SendBumpOK(v: Server, sent: map<TokenKey, nat>, at: nat, k: TokenKey)
    requires SentOK(v, sent, at)
    requires (forall c :: c in v.wire ==> c.w.token < v.next) && (forall i :: 0 <= i < |v.log| ==> v.log[i].token < v.next)
    ensures SentOK(Send(v, k, false, true), sent[k := v.next], at)
  {
    var w, more := Send(v, k, false, true), sent[k := v.next];
    forall x, c | x in more && c in w.wire && c.w.token == more[x] ensures c.w.key == x && c.w.bump {
      if x != k {
        assert sent[x] < v.next;
      }
    }
    forall x, j | x in more && 0 <= j < |w.log| && w.log[j].token == more[x] ensures w.log[j].key == x && w.log[j].bump && at <= j {
      assert v.log[j].token < v.next;
    }
  }

  lemma MarkTask(s: Sys, t: nat, task: Task)
    requires Inv(s) && t < |s.tasks| && task.proc in s.pend && SentOK(s.v, task.sent, task.at)
    ensures Inv(s.(tasks := s.tasks[t := task]))
  {
    var r := s.(tasks := s.tasks[t := task]);
    assert forall j :: 0 <= j < |r.drains| ==> DrainOK(s, r.drains[j]);
    assert forall u :: u in r.dues ==> DueOK(s, u);
  }

  lemma MarkDrain(s: Sys, d: nat, drain: Drain)
    requires Inv(s) && d < |s.drains| && DrainOK(s, drain)
    ensures Inv(s.(drains := s.drains[d := drain]))
  {
    var r := s.(drains := s.drains[d := drain]);
    assert forall j :: 0 <= j < |r.drains| ==> DrainOK(s, r.drains[j]);
    assert forall u :: u in r.dues ==> DueOK(s, u);
  }

  lemma SendBumpStep(limit: nat, s: Sys, t: nat, k: TokenKey)
    requires Inv(s) && Enabled(s, SendBump(t, k))
    ensures Inv(Do(limit, s, SendBump(t, k)))
  {
    var w, task := Send(s.v, k, false, true), s.tasks[t];
    SendOK(s.v, k, false, true);
    RestStays(s, w);
    SendBumpOK(s.v, task.sent, task.at, k);
    MarkTask(s.(v := w), t, task.(sent := task.sent[k := s.v.next]));
  }

  lemma SendDrainStep(limit: nat, s: Sys, d: nat, k: TokenKey)
    requires Inv(s) && Enabled(s, SendDrain(d, k))
    ensures Inv(Do(limit, s, SendDrain(d, k)))
  {
    var w, drain := Send(s.v, k, false, true), s.drains[d];
    SendOK(s.v, k, false, true);
    RestStays(s, w);
    assert DrainOK(s, drain);
    SendBumpOK(s.v, drain.sent, drain.at, k);
    MarkDrain(s.(v := w), d, drain.(sent := drain.sent[k := s.v.next]));
  }

  lemma AckedStep(limit: nat, s: Sys, t: nat, k: TokenKey)
    requires Inv(s) && Enabled(s, Acked(t, k))
    ensures Inv(Do(limit, s, Acked(t, k)))
  {
    var r := Do(limit, s, Acked(t, k));
    var task := s.tasks[t];
    var j :| 0 <= j < |s.v.log| && s.v.log[j] == Write(k, task.sent[k], true);
    assert BumpedAt(s.v.log, k, task.at, |s.v.log|, j);
    forall i | 0 <= i < |r.drains| ensures DrainOK(r, r.drains[i]) {
      assert DrainOK(s, s.drains[i]);
    }
    forall u | u in r.dues ensures DueOK(r, u) {
      assert u in s.dues ==> DueOK(s, u);
    }
  }

  lemma DeferKeepsDrain(limit: nat, s: Sys, t: nat, k: TokenKey, i: nat)
    requires Inv(s) && Enabled(s, Defer(t, k)) && i < |s.drains|
    ensures DrainOK(Do(limit, s, Defer(t, k)), s.drains[i])
  {
    assert DrainOK(s, s.drains[i]);
  }

  lemma DeferKeepsDue(limit: nat, s: Sys, t: nat, k: TokenKey, u: Due)
    requires Inv(s) && Enabled(s, Defer(t, k)) && u in s.dues
    ensures DueOK(Do(limit, s, Defer(t, k)), u)
  {
    assert DueOK(s, u);
    var was := s.pend[s.tasks[t].proc];
    if u.proc == s.tasks[t].proc && Holds(was, u.key, u.gen) {
      AddHolds(was, limit, k.id, {k}, u.key, u.gen);
    }
  }

  lemma DeferAddsDue(limit: nat, s: Sys, t: nat, k: TokenKey)
    requires Inv(s) && Enabled(s, Defer(t, k))
    ensures DueOK(Do(limit, s, Defer(t, k)), Due(s.tasks[t].proc, k, |s.v.log|, s.pend[s.tasks[t].proc].gen + 1))
  {
    var was := s.pend[s.tasks[t].proc];
    AddHolds(was, limit, k.id, {k}, k, was.gen + 1);
  }

  lemma DeferStep(limit: nat, s: Sys, t: nat, k: TokenKey)
    requires Inv(s) && Enabled(s, Defer(t, k))
    ensures Inv(Do(limit, s, Defer(t, k)))
  {
    var r := Do(limit, s, Defer(t, k));
    AddKeepsWellFormed(s.pend[s.tasks[t].proc], limit, k.id, {k});
    forall i | 0 <= i < |r.drains| ensures DrainOK(r, r.drains[i]) {
      DeferKeepsDrain(limit, s, t, k, i);
    }
    forall u | u in r.dues ensures DueOK(r, u) {
      if u in s.dues {
        DeferKeepsDue(limit, s, t, k, u);
      } else {
        DeferAddsDue(limit, s, t, k);
      }
    }
  }

  // What a drain drops it landed, after whatever had been added by its snapshot.
  lemma DroppedLanded(s: Sys, d: nat, landed: set<TokenKey>, u: Due)
    requires Inv(s) && Enabled(s, DrainDone(d, landed)) && u in s.dues && u.proc == s.drains[d].proc && 0 < u.gen
    requires Holds(s.pend[u.proc], u.key, u.gen)
    ensures var gens := map k | k in landed && k in s.drains[d].owed :: s.drains[d].owed[k].gen;
      Holds(Done(s.pend[u.proc], gens), u.key, u.gen) || Bumped(s.v.log, u.key, u.since, |s.v.log|)
  {
    var drain, p := s.drains[d], s.pend[u.proc];
    var gens := map k | k in landed && k in drain.owed :: drain.owed[k].gen;
    DoneKeeps(p, gens, u.key, u.gen);
    if !Holds(Done(p, gens), u.key, u.gen) {
      var h :| HeldAs(p, u.key, h, u.gen) && h in gens && gens[h] == p.keys[h].gen;
      assert DrainOK(s, drain);
      var j :| 0 <= j < |s.v.log| && s.v.log[j] == Write(h, drain.sent[h], true);
      assert BumpedAt(s.v.log, u.key, u.since, |s.v.log|, j);
    }
  }

  lemma DrainDoneStep(limit: nat, s: Sys, d: nat, landed: set<TokenKey>)
    requires Inv(s) && Enabled(s, DrainDone(d, landed))
    ensures Inv(Do(limit, s, DrainDone(d, landed)))
  {
    var r := Do(limit, s, DrainDone(d, landed));
    forall i | 0 <= i < |r.drains| ensures DrainOK(r, r.drains[i]) {
      assert DrainOK(s, s.drains[i]);
    }
    forall u | u in r.dues ensures DueOK(r, u) {
      assert DueOK(s, u);
      if u.proc == s.drains[d].proc && 0 < u.gen && Holds(s.pend[u.proc], u.key, u.gen) {
        DroppedLanded(s, d, landed, u);
      }
    }
  }

  lemma BeginStep(limit: nat, s: Sys, step: Step)
    requires Inv(s) && Enabled(s, step)
    requires step.Start? || step.BeginBump? || step.BeginDrain?
    ensures Inv(Do(limit, s, step))
  {
    var r := Do(limit, s, step);
    forall i | 0 <= i < |r.drains| ensures DrainOK(r, r.drains[i]) {
      if i < |s.drains| {
        assert DrainOK(s, s.drains[i]);
      } else {
        assert forall u :: u in s.dues ==> DueOK(s, u);
      }
    }
    forall u | u in r.dues ensures DueOK(r, u) {
      assert DueOK(s, u);
    }
  }

  lemma StepKeepsInv(limit: nat, s: Sys, step: Step)
    requires Inv(s) && Enabled(s, step)
    ensures Inv(Do(limit, s, step))
  {
    match step
    case Start(_) => BeginStep(limit, s, step);
    case BeginBump(_, _) => BeginStep(limit, s, step);
    case BeginDrain(_) => BeginStep(limit, s, step);
    case CreateToken(i, k, nx) => CreateStep(limit, s, i, k, nx);
    case SendBump(t, k) => SendBumpStep(limit, s, t, k);
    case Acked(t, k) => AckedStep(limit, s, t, k);
    case Defer(t, k) => DeferStep(limit, s, t, k);
    case SendDrain(d, k) => SendDrainStep(limit, s, d, k);
    case DrainDone(d, landed) => DrainDoneStep(limit, s, d, landed);
    case BeginLookup(_, _) => LookStep(limit, s, step);
    case ReadTokens(_) => LookStep(limit, s, step);
    case ReadValue(_) => LookStep(limit, s, step);
    case ReadBack(_) => LookStep(limit, s, step);
    case Fill(_, _) => ServerStep(limit, s, step);
    case Run(_) => ServerStep(limit, s, step);
    case LoseToken(_) => ServerStep(limit, s, step);
    case Corrupt(_) => ServerStep(limit, s, step);
    case LoseValue(_) => ServerStep(limit, s, step);
  }

  lemma {:induction false} InvRun(limit: nat, s: Sys, steps: seq<Step>)
    requires Inv(s) && Valid(limit, s, steps)
    ensures Inv(Exec(limit, s, steps))
    decreases |steps|
  {
    if steps != [] {
      StepKeepsInv(limit, s, steps[0]);
      InvRun(limit, Do(limit, s, steps[0]), steps[1..]);
    }
  }

  /******* The guarantees *******/

  // One token under one key: nothing was written to that key between the two reads of it.
  lemma SameTokenNoWrite(v: Server, k: TokenKey, token: nat, a: nat, b: nat, j: nat)
    requires TokensOnce(v) && Current(v.log, k, token, a) && Current(v.log, k, token, b)
    requires (a <= j < b || b <= j < a) && j < |v.log|
    ensures v.log[j].key != k
  {
    var i: nat :| LastWrite(v.log, k, token, a, i);
    var l: nat :| LastWrite(v.log, k, token, b, l);
    assert i == l;
  }

  // Over every run: where a lookup hits, no token the entry is filed under was replaced between
  // the read the entry was filled from and the lookup's own.
  lemma {:induction false} HitIsCurrent(limit: nat, steps: seq<Step>, i: nat, e: Entry, j: nat)
    requires Valid(limit, EMPTY, steps)
    requires var s := Exec(limit, EMPTY, steps);
      i < |s.looks| && Hits(s.looks[i], e) && j < |s.v.log|
      && (e.snap.at <= j < s.looks[i].read.value.at || s.looks[i].read.value.at <= j < e.snap.at)
    ensures var s := Exec(limit, EMPTY, steps); e.snap.vk == s.looks[i].vk && s.v.log[j].key !in Filed(e.snap.vk)
  {
    InvRun(limit, EMPTY, steps);
    var s := Exec(limit, EMPTY, steps);
    var l := s.looks[i];
    assert LookOK(s.v.log, l);
    var k := s.v.log[j].key;
    if k in Filed(l.vk) {
      SameTokenNoWrite(s.v, k, e.snap.tokens[k], e.snap.at, l.read.value.at, j);
    }
  }

  // A bump that landed before the lookup read its tokens orphaned every fill from before it.
  lemma {:induction false} LandedBumpOrphans(limit: nat, steps: seq<Step>, i: nat, e: Entry, j: nat)
    requires Valid(limit, EMPTY, steps)
    requires var s := Exec(limit, EMPTY, steps);
      i < |s.looks| && Hits(s.looks[i], e) && j < s.looks[i].read.value.at && j < |s.v.log| && s.v.log[j].key in Filed(s.looks[i].vk)
    ensures j < e.snap.at
  {
    if e.snap.at <= j {
      HitIsCurrent(limit, steps, i, e, j);
    }
  }

  // Every key ever added to a pending set is still held for retry, as itself or as its tenant's
  // token, or one of the two has been bumped since that addition: so since its last one. A
  // lookup's creating the token anew is no bump, and lets go of nothing. What was not added the
  // server acknowledged, and has been bumped since the invalidation began.
  lemma {:induction false} NothingForgotten(limit: nat, steps: seq<Step>, u: Due)
    requires Valid(limit, EMPTY, steps) && u in Exec(limit, EMPTY, steps).dues
    ensures var s := Exec(limit, EMPTY, steps);
      u.proc in s.pend && (Bumped(s.v.log, u.key, u.since, |s.v.log|) || (0 < u.gen && Holds(s.pend[u.proc], u.key, u.gen)))
  {
    InvRun(limit, EMPTY, steps);
    assert DueOK(Exec(limit, EMPTY, steps), u);
  }

  // So a process never serves itself a result from before an invalidation it was asked for,
  // delivered or not: a later lookup of an entry filed under the key is bypassed, or it hits
  // only what was filled from tokens read after the bump was owed, which is after the
  // invalidation began.
  lemma {:induction false} OwnInvalidationsHold(limit: nat, steps: seq<Step>, i: nat, e: Entry, u: Due)
    requires Valid(limit, EMPTY, steps)
    requires var s := Exec(limit, EMPTY, steps);
      i < |s.looks| && Hits(s.looks[i], e) && u in s.looks[i].owed && u.key in Filed(s.looks[i].vk)
    ensures u.since < e.snap.at
  {
    var j := OwedWasBumped(limit, steps, i, u);
    LandedBumpOrphans(limit, steps, i, e, j);
  }

  // What was owed against a lookup's entry when it began had landed by then.
  lemma OwedWasBumped(limit: nat, steps: seq<Step>, i: nat, u: Due) returns (j: nat)
    requires Valid(limit, EMPTY, steps)
    requires var s := Exec(limit, EMPTY, steps); i < |s.looks| && s.looks[i].read.Some? && u in s.looks[i].owed && u.key in Filed(s.looks[i].vk)
    ensures var s := Exec(limit, EMPTY, steps);
      u.since <= j < s.looks[i].read.value.at && j < |s.v.log| && s.v.log[j].key in Filed(s.looks[i].vk)
  {
    InvRun(limit, EMPTY, steps);
    var s := Exec(limit, EMPTY, steps);
    assert LookOK(s.v.log, s.looks[i]);
    j :| BumpedAt(s.v.log, u.key, u.since, s.looks[i].begun, j);
  }
}
