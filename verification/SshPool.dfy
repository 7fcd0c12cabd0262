/**
 The SSH connection pool.  `acquire` looks the host up under the lock, connects
 with the lock released, and takes the lock again to store the session or to use
 the one somebody else stored meanwhile.  Evictions and drains may happen between
 the two locked sections.
 */
module SshPool {
  import opened Common

  type HostId = nat
  type CallerId = nat

  const IDLE_TTL: nat := 300

  /** `begun` is the log position of the acquire that opened the session; it is
      history that no transition reads. */
  datatype Session = Session(id: nat, host: HostId, begun: nat)

  datatype Entry = Entry(session: Session, lastUsed: nat)

  type Entries = map<HostId, Entry>

  // ── The locked sections ────────────────────────────────────────────────────

  predicate Expired(e: Entry, now: nat) {
    now >= e.lastUsed + IDLE_TTL
  }

  /** First section: the pooled session if it is fresh. */
  function Reusable(entries: Entries, host: HostId, now: nat): Option<Session> {
    if host in entries && !Expired(entries[host], now) then Some(entries[host].session) else None
  }

  /** It re-stamps a fresh entry and removes an expired one. */
  function AfterLookup(entries: Entries, host: HostId, now: nat): Entries {
    if host !in entries then entries
    else if !Expired(entries[host], now) then entries[host := entries[host].(lastUsed := now)]
    else entries - {host}
  }

  /** Second section: whoever stored first wins. */
  function AfterStore(entries: Entries, session: Session, host: HostId, now: nat): Entries {
    if host in entries then entries[host := entries[host].(lastUsed := now)]
    else entries[host := Entry(session, now)]
  }

  class SshConnectionPool {
    var entries: Entries

    constructor ()
      ensures entries == map[]
    {
      entries := map[];
    }

    method Lookup(host: HostId, now: nat) returns (session: Option<Session>)
      modifies this
      ensures session == Reusable(old(entries), host, now)
      ensures entries == AfterLookup(old(entries), host, now)
    {
      if host in entries {
        var entry := entries[host];
        if !Expired(entry, now) {
          entries := entries[host := entry.(lastUsed := now)];
          return Some(entry.session);
        }
        entries := entries - {host};
      }
      session := None;
    }

    method StoreOrReuse(host: HostId, session: Session, now: nat) returns (result: Session)
      modifies this
      ensures entries == AfterStore(old(entries), session, host, now)
      ensures host in entries && result == entries[host].session
      ensures host in old(entries) ==> result == old(entries)[host].session
    {
      if host !in entries {
        entries := entries[host := Entry(session, now)];
        return session;
      }
      entries := entries[host := entries[host].(lastUsed := now)];
      result := entries[host].session;
    }

    method Evict(host: HostId) returns (removed: bool)
      modifies this
      ensures entries == old(entries) - {host}
      ensures removed <==> host in old(entries)
    {
      removed := host in entries;
      entries := entries - {host};
    }

    method DisconnectAll() returns (sessions: set<Session>)
      modifies this
      ensures entries == map[]
      ensures forall s :: s in sessions <==> exists h :: h in old(entries) && old(entries)[h].session == s
    {
      sessions := set h | h in entries :: entries[h].session;
      entries := map[];
    }
  }

  // ── Interleaving acquirers, evictions and drains ───────────────────────────

  /** Where a caller stands between the two locked sections. */
  datatype Caller = Connecting(host: HostId, begun: nat) | Connected(host: HostId, session: Session)

  /** What happened, in lock order. */
  datatype Happening =
    | Began(caller: CallerId, host: HostId)
    | Pooled(host: HostId, session: Session)
    | Returned(caller: CallerId, host: HostId, session: Session)
    | Removed(host: HostId)
    | Drained

  datatype State = State(
    entries: Entries,
    now: nat,
    callers: map<CallerId, Caller>,
    nextSession: nat,
    log: seq<Happening>)

  const Init := State(map[], 0, map[], 0, [])

  datatype Step =
    | Begin(caller: CallerId, host: HostId)
    | Connect(caller: CallerId, ok: bool)
    | Store(caller: CallerId)
    | Evict(host: HostId)
    | DisconnectAll
    | Pass(duration: nat)

  predicate Enabled(s: State, step: Step) {
    match step
    case Begin(caller, _) => caller !in s.callers
    case Connect(caller, _) => caller in s.callers && s.callers[caller].Connecting?
    case Store(caller) => caller in s.callers && s.callers[caller].Connected?
    case _ => true
  }

  function Apply(s: State, step: Step): State
    requires Enabled(s, step)
  {
    match step
    case Begin(caller, host) =>
      var t := s.(entries := AfterLookup(s.entries, host, s.now));
      var reused := Reusable(s.entries, host, s.now);
      if reused.Some? then t.(log := s.log + [Began(caller, host), Returned(caller, host, reused.value)])
      else
        t.(callers := s.callers[caller := Connecting(host, |s.log|)],
           log := s.log + [Began(caller, host)] + if host in s.entries then [Removed(host)] else [])
    case Connect(caller, ok) =>
      if ok then
        var c := s.callers[caller];
        s.(callers := s.callers[caller := Connected(c.host, Session(s.nextSession, c.host, c.begun))],
           nextSession := s.nextSession + 1)
      else s.(callers := s.callers - {caller})
    case Store(caller) =>
      var c := s.callers[caller];
      var entries := AfterStore(s.entries, c.session, c.host, s.now);
      s.(entries := entries,
         callers := s.callers - {caller},
         log := s.log + (if c.host in s.entries then [] else [Pooled(c.host, c.session)])
                      + [Returned(caller, c.host, entries[c.host].session)])
    case Evict(host) => s.(entries := s.entries - {host}, log := s.log + [Removed(host)])
    case DisconnectAll => s.(entries := map[], log := s.log + [Drained])
    case Pass(duration) => s.(now := s.now + duration)
  }

  // ── What the log shows ─────────────────────────────────────────────────────

  type Log = seq<Happening>

  predicate Removes(e: Happening, host: HostId) {
    e == Removed(host) || e == Drained
  }

  /** No removal for `host` from position `from` on, before position `to`. */
  ghost predicate Kept(log: Log, host: HostId, from: nat, to: nat) {
    to <= |log| && forall k :: from <= k < to ==> !Removes(log[k], host)
  }

  /** `session` was pooled for `host` before `to` and not removed up to there. */
  ghost predicate PooledSince(log: Log, host: HostId, session: Session, to: nat) {
    exists p: nat :: p < to <= |log| && log[p] == Pooled(host, session) && Kept(log, host, p, to)
  }

  predicate HandsOut(e: Happening) {
    e.Returned? || e.Pooled?
  }

  /** A return hands out a session of that host that is pooled at that moment. */
  ghost predicate ReturnsPooled(log: Log, j: nat)
    requires j < |log|
  {
    log[j].Returned? ==> log[j].session.host == log[j].host && PooledSince(log, log[j].host, log[j].session, j)
  }

  /** Two returns with no removal between them agree. */
  ghost predicate ReturnsAgree(log: Log, i: nat, j: nat)
    requires i < j < |log|
  {
    log[i].Returned? && log[j].Returned? && log[i].host == log[j].host && Kept(log, log[i].host, i, j)
    ==> log[i].session == log[j].session
  }

  /** What was handed out and not removed since is what the pool holds. */
  ghost predicate StillHeld(held: map<HostId, Session>, log: Log, j: nat)
    requires j < |log|
  {
    HandsOut(log[j]) && Kept(log, log[j].host, j, |log|)
    ==> log[j].host in held && held[log[j].host] == log[j].session
  }

  ghost predicate PooledBefore(log: Log, session: Session) {
    exists p: nat :: p < |log| && log[p].Pooled? && log[p].session == session
  }

  /** A session enters the pool at most once. */
  ghost predicate PooledOnce(log: Log, p: nat, q: nat)
    requires p < |log| && q < |log|
  {
    log[p].Pooled? && log[q].Pooled? && log[p].session == log[q].session ==> p == q
  }

  /** The pool's sessions against the log. */
  ghost predicate Consistent(held: map<HostId, Session>, log: Log) {
    && (forall h :: h in held ==> held[h].host == h && PooledSince(log, h, held[h], |log|))
    && (forall j: nat :: j < |log| ==> ReturnsPooled(log, j))
    && (forall j: nat :: j < |log| ==> StillHeld(held, log, j))
    && (forall i: nat, j: nat :: i < j < |log| ==> ReturnsAgree(log, i, j))
    && (forall p: nat, q: nat :: p < |log| && q < |log| ==> PooledOnce(log, p, q))
  }

  // ── One more happening ─────────────────────────────────────────────────────

  lemma KeptPrefix(log: Log, e: Happening, host: HostId, from: nat, to: nat)
    requires to <= |log|
    ensures Kept(log + [e], host, from, to) <==> Kept(log, host, from, to)
  {
    var longer := log + [e];
    assert forall k :: 0 <= k < |log| ==> longer[k] == log[k];
  }

  lemma KeptLast(log: Log, e: Happening, host: HostId, from: nat)
    requires from <= |log|
    ensures Kept(log + [e], host, from, |log| + 1) <==> Kept(log, host, from, |log|) && !Removes(e, host)
  {
    var longer := log + [e];
    assert longer[|log|] == e;
    KeptPrefix(log, e, host, from, |log|);
    if Kept(longer, host, from, |log| + 1) {
      assert Kept(longer, host, from, |log|);
    }
  }

  lemma PooledSincePrefix(log: Log, e: Happening, host: HostId, session: Session, to: nat)
    requires to <= |log| && PooledSince(log, host, session, to)
    ensures PooledSince(log + [e], host, session, to)
  {
    var p: nat :| p < to <= |log| && log[p] == Pooled(host, session) && Kept(log, host, p, to);
    KeptPrefix(log, e, host, p, to);
    assert (log + [e])[p] == log[p];
  }

  lemma PooledSinceLast(log: Log, e: Happening, host: HostId, session: Session)
    requires PooledSince(log, host, session, |log|) && !Removes(e, host)
    ensures PooledSince(log + [e], host, session, |log| + 1)
  {
    var p: nat :| p < |log| && log[p] == Pooled(host, session) && Kept(log, host, p, |log|);
    KeptLast(log, e, host, p);
    assert (log + [e])[p] == log[p];
  }

  /** The clauses about old positions survive any new happening. */
  lemma OldPositions(held: map<HostId, Session>, log: Log, e: Happening)
    requires Consistent(held, log)
    ensures forall j: nat :: j < |log| ==> ReturnsPooled(log + [e], j)
    ensures forall i: nat, j: nat :: i < j < |log| ==> ReturnsAgree(log + [e], i, j)
    ensures forall p: nat, q: nat :: p < |log| && q < |log| ==> PooledOnce(log + [e], p, q)
  {
    forall j: nat | j < |log| ensures ReturnsPooled(log + [e], j) {
      assert ReturnsPooled(log, j);
      if log[j].Returned? {
        PooledSincePrefix(log, e, log[j].host, log[j].session, j);
      }
    }
    forall i: nat, j: nat | i < j < |log| ensures ReturnsAgree(log + [e], i, j) {
      assert ReturnsAgree(log, i, j);
      if log[i].Returned? {
        KeptPrefix(log, e, log[i].host, i, j);
      }
    }
    forall p: nat, q: nat | p < |log| && q < |log| ensures PooledOnce(log + [e], p, q) {
      assert PooledOnce(log, p, q);
    }
  }

  /** Sessions held after the happening, when it removes nothing they need. */
  lemma HeldAfter(held: map<HostId, Session>, log: Log, e: Happening, kept: map<HostId, Session>)
    requires Consistent(held, log)
    requires forall h :: h in kept ==> h in held && kept[h] == held[h] && !Removes(e, h)
    requires forall h :: h in held && !Removes(e, h) ==> h in kept
    ensures forall h :: h in kept ==> kept[h].host == h && PooledSince(log + [e], h, kept[h], |log| + 1)
    ensures forall j: nat :: j < |log| ==> StillHeld(kept, log + [e], j)
  {
    forall h | h in kept ensures PooledSince(log + [e], h, kept[h], |log| + 1) {
      PooledSinceLast(log, e, h, held[h]);
    }
    forall j: nat | j < |log| ensures StillHeld(kept, log + [e], j) {
      assert StillHeld(held, log, j);
      if HandsOut(log[j]) {
        KeptLast(log, e, log[j].host, j);
      }
    }
  }

  /** A happening that hands nothing out: a begin, a removal or a drain. */
  lemma AddQuiet(held: map<HostId, Session>, log: Log, e: Happening, kept: map<HostId, Session>)
    requires Consistent(held, log) && !HandsOut(e)
    requires forall h :: h in kept ==> h in held && kept[h] == held[h] && !Removes(e, h)
    requires forall h :: h in held && !Removes(e, h) ==> h in kept
    ensures Consistent(kept, log + [e])
  {
    OldPositions(held, log, e);
    HeldAfter(held, log, e, kept);
  }

  /** Returning the pooled session. */
  lemma AddReturned(held: map<HostId, Session>, log: Log, caller: CallerId, host: HostId)
    requires Consistent(held, log) && host in held
    ensures Consistent(held, log + [Returned(caller, host, held[host])])
  {
    var e := Returned(caller, host, held[host]);
    var n := |log|;
    OldPositions(held, log, e);
    HeldAfter(held, log, e, held);
    assert (log + [e])[n] == e;
    PooledSincePrefix(log, e, host, held[host], n);
    forall i: nat | i < n ensures ReturnsAgree(log + [e], i, n) {
      assert StillHeld(held, log, i);
      if log[i].Returned? {
        KeptPrefix(log, e, log[i].host, i, n);
      }
    }
  }

  /** Pooling a session that was never pooled, for a host without one. */
  lemma AddPooled(held: map<HostId, Session>, log: Log, session: Session)
    requires Consistent(held, log) && session.host !in held && !PooledBefore(log, session)
    ensures Consistent(held[session.host := session], log + [Pooled(session.host, session)])
  {
    var e := Pooled(session.host, session);
    var n, longer, more := |log|, log + [e], held[session.host := session];
    OldPositions(held, log, e);
    HeldAfter(held, log, e, held);
    assert longer[n] == e;
    forall j: nat | j < n ensures StillHeld(more, longer, j) {
      assert StillHeld(held, longer, j);
    }
    assert PooledSince(longer, session.host, session, n + 1) by {
      assert Kept(longer, session.host, n, n + 1);
    }
    forall p: nat | p < n ensures PooledOnce(longer, p, n) && PooledOnce(longer, n, p) {
      assert longer[p] == log[p];
    }
  }

  // ── The invariant of the interleaving ──────────────────────────────────────

  function Held(entries: Entries): map<HostId, Session> {
    map h | h in entries :: entries[h].session
  }

  /** Sessions on their way in are new and all different. */
  ghost predicate FreshCallers(s: State) {
    && (forall p: nat :: p < |s.log| && s.log[p].Pooled? ==> s.log[p].session.id < s.nextSession)
    && (forall c :: c in s.callers && s.callers[c].Connected? ==>
          && s.callers[c].session.host == s.callers[c].host
          && s.callers[c].session.id < s.nextSession
          && !PooledBefore(s.log, s.callers[c].session))
    && (forall c, d :: c in s.callers && d in s.callers && s.callers[c].Connected? && s.callers[d].Connected? ==>
          s.callers[c].session == s.callers[d].session ==> c == d)
  }

  ghost predicate Inv(s: State) {
    Consistent(Held(s.entries), s.log) && FreshCallers(s)
  }

  lemma CallersUnaffected(s: State, t: State)
    requires FreshCallers(s) && s.nextSession == t.nextSession
    requires forall c :: c in t.callers && t.callers[c].Connected? ==> c in s.callers && s.callers[c] == t.callers[c]
    requires s.log <= t.log && forall p: nat :: |s.log| <= p < |t.log| ==> !t.log[p].Pooled?
    ensures FreshCallers(t)
  {
    forall x: Session | PooledBefore(t.log, x) ensures PooledBefore(s.log, x) {
      var p: nat :| p < |t.log| && t.log[p].Pooled? && t.log[p].session == x;
      assert s.log[p] == t.log[p];
    }
  }

  /** Two happenings in a row, each consistent. */
  lemma ReuseConsistent(held: map<HostId, Session>, log: Log, caller: CallerId, host: HostId)
    requires Consistent(held, log) && host in held
    ensures Consistent(held, log + [Began(caller, host), Returned(caller, host, held[host])])
  {
    var begun := log + [Began(caller, host)];
    AddQuiet(held, log, Began(caller, host), held);
    AddReturned(held, begun, caller, host);
    assert log + [Began(caller, host), Returned(caller, host, held[host])] ==
           begun + [Returned(caller, host, held[host])];
  }

  lemma ExpireConsistent(held: map<HostId, Session>, log: Log, caller: CallerId, host: HostId)
    requires Consistent(held, log)
    ensures Consistent(held - {host}, log + [Began(caller, host)] + [Removed(host)])
  {
    AddQuiet(held, log, Began(caller, host), held);
    AddQuiet(held, log + [Began(caller, host)], Removed(host), held - {host});
  }

  lemma PoolConsistent(held: map<HostId, Session>, log: Log, caller: CallerId, session: Session)
    requires Consistent(held, log) && session.host !in held && !PooledBefore(log, session)
    ensures Consistent(held[session.host := session],
                       log + [Pooled(session.host, session)] + [Returned(caller, session.host, session)])
  {
    AddPooled(held, log, session);
    AddReturned(held[session.host := session], log + [Pooled(session.host, session)], caller, session.host);
  }

  lemma BeginKeepsInv(s: State, caller: CallerId, host: HostId)
    requires Inv(s) && Enabled(s, Begin(caller, host))
    ensures Inv(Apply(s, Begin(caller, host)))
  {
    var t := Apply(s, Begin(caller, host));
    var held := Held(s.entries);
    if Reusable(s.entries, host, s.now).Some? {
      ReuseConsistent(held, s.log, caller, host);
      assert Held(t.entries) == held;
    } else if host in s.entries {
      ExpireConsistent(held, s.log, caller, host);
      assert Held(t.entries) == held - {host};
    } else {
      AddQuiet(held, s.log, Began(caller, host), held);
      assert t.log == s.log + [Began(caller, host)];
    }
    CallersUnaffected(s, t);
  }

  lemma StoreConsistent(s: State, caller: CallerId)
    requires Inv(s) && Enabled(s, Store(caller))
    ensures Consistent(Held(Apply(s, Store(caller)).entries), Apply(s, Store(caller)).log)
  {
    var t := Apply(s, Store(caller));
    var held, c := Held(s.entries), s.callers[caller];
    if c.host in s.entries {
      AddReturned(held, s.log, caller, c.host);
      assert Held(t.entries) == held;
      assert t.log == s.log + [Returned(caller, c.host, held[c.host])];
    } else {
      PoolConsistent(held, s.log, caller, c.session);
      assert Held(t.entries) == held[c.host := c.session];
    }
  }

  lemma StoreFresh(s: State, caller: CallerId)
    requires FreshCallers(s) && Enabled(s, Store(caller))
    ensures FreshCallers(Apply(s, Store(caller)))
  {
    var t := Apply(s, Store(caller));
    var c := s.callers[caller];
    forall x: Session | PooledBefore(t.log, x) ensures PooledBefore(s.log, x) || x == c.session {
      var p: nat :| p < |t.log| && t.log[p].Pooled? && t.log[p].session == x;
      assert p < |s.log| ==> s.log[p] == t.log[p];
    }
  }

  lemma StoreKeepsInv(s: State, caller: CallerId)
    requires Inv(s) && Enabled(s, Store(caller))
    ensures Inv(Apply(s, Store(caller)))
  {
    StoreConsistent(s, caller);
    StoreFresh(s, caller);
  }

  lemma StepKeepsInv(s: State, step: Step)
    requires Inv(s) && Enabled(s, step)
    ensures Inv(Apply(s, step))
  {
    var t := Apply(s, step);
    var held := Held(s.entries);
    match step
    case Begin(caller, host) => BeginKeepsInv(s, caller, host);
    case Connect(caller, ok) => ConnectKeepsInv(s, caller, ok);
    case Store(caller) => StoreKeepsInv(s, caller);
    case Evict(host) =>
      AddQuiet(held, s.log, Removed(host), held - {host});
      assert Held(t.entries) == held - {host};
      CallersUnaffected(s, t);
    case DisconnectAll =>
      AddQuiet(held, s.log, Drained, map[]);
      assert Held(t.entries) == map[];
      CallersUnaffected(s, t);
    case Pass(_) =>
  }

  lemma ConnectKeepsInv(s: State, caller: CallerId, ok: bool)
    requires Inv(s) && Enabled(s, Connect(caller, ok))
    ensures Inv(Apply(s, Connect(caller, ok)))
  {
    if ok {
      var fresh' := Session(s.nextSession, s.callers[caller].host, s.callers[caller].begun);
      assert !PooledBefore(s.log, fresh');
    }
  }

  // ── Runs ───────────────────────────────────────────────────────────────────

  ghost predicate MovesAt(run: seq<State>, steps: seq<Step>, i: nat)
    requires i < |steps| && |run| == |steps| + 1
  {
    Enabled(run[i], steps[i]) && run[i + 1] == Apply(run[i], steps[i])
  }

  ghost predicate IsRun(run: seq<State>, steps: seq<Step>) {
    && |run| == |steps| + 1
    && run[0] == Init
    && forall i: nat :: i < |steps| ==> MovesAt(run, steps, i)
  }

  lemma {:induction false} RunInvariant(run: seq<State>, steps: seq<Step>, n: nat)
    requires IsRun(run, steps) && n < |run|
    ensures Inv(run[n])
  {
    if n > 0 {
      RunInvariant(run, steps, n - 1);
      assert MovesAt(run, steps, n - 1);
      StepKeepsInv(run[n - 1], steps[n - 1]);
    }
  }

  /** Under any interleaving: all returns for a host with no removal of that host
      between them hand out the same session, it is a session of that host, and a
      return after a removal never hands out a session pooled before it. */
  lemma ReturnsAreConsistent(run: seq<State>, steps: seq<Step>, n: nat)
    requires IsRun(run, steps) && n < |run|
    ensures var log := run[n].log;
      && (forall i: nat, j: nat :: i < j < |log| ==> ReturnsAgree(log, i, j))
      && (forall j: nat :: j < |log| && log[j].Returned? ==> log[j].session.host == log[j].host)
      && (forall p: nat, k: nat, j: nat :: p < |log| && k < j < |log| && log[j].Returned? ==>
            log[p] == Pooled(log[j].host, log[j].session) && Removes(log[k], log[j].host) ==> k < p)
  {
    RunInvariant(run, steps, n);
    var log := run[n].log;
    forall p: nat, k: nat, j: nat | p < |log| && k < j < |log| && log[j].Returned?
      && log[p] == Pooled(log[j].host, log[j].session) && Removes(log[k], log[j].host)
      ensures k < p {
      assert ReturnsPooled(log, j);
      var q: nat :| q < j && log[q] == Pooled(log[j].host, log[j].session) && Kept(log, log[j].host, q, j);
      assert PooledOnce(log, p, q);
    }
    forall j: nat | j < |log| && log[j].Returned? ensures log[j].session.host == log[j].host {
      assert ReturnsPooled(log, j);
    }
  }

  /** A pooled entry is only ever re-stamped or removed, never overwritten. */
  lemma NeverOverwritten(s: State, step: Step, host: HostId)
    requires Enabled(s, step) && host in s.entries && host in Apply(s, step).entries
    ensures Apply(s, step).entries[host].session == s.entries[host].session
  {
  }

  // ── How long a session is reused ───────────────────────────────────────────

  /** The step hands out a session of `host`, or removes the one it has. */
  predicate Concerns(s: State, step: Step, host: HostId) {
    match step
    case Begin(_, h) => h == host
    case Store(caller) => caller in s.callers && s.callers[caller].host == host
    case Evict(h) => h == host
    case DisconnectAll => true
    case _ => false
  }

  /** The last thing that happened is that `session` was handed out for `host`. */
  ghost predicate JustReturned(s: State, host: HostId, session: Session) {
    s.log != [] && exists caller :: s.log[|s.log| - 1] == Returned(caller, host, session)
  }

  lemma ReturnStamps(s: State, step: Step, host: HostId, session: Session)
    requires Enabled(s, step) && Concerns(s, step, host) && JustReturned(Apply(s, step), host, session)
    ensures var t := Apply(s, step); host in t.entries && t.entries[host] == Entry(session, s.now)
  {
  }

  lemma OthersLeaveEntry(s: State, step: Step, host: HostId)
    requires Enabled(s, step) && !Concerns(s, step, host)
    ensures host in Apply(s, step).entries <==> host in s.entries
    ensures host in s.entries ==> Apply(s, step).entries[host] == s.entries[host]
  {
  }

  lemma {:induction false} EntryUntouched(run: seq<State>, steps: seq<Step>, m: nat, n: nat, host: HostId)
    requires IsRun(run, steps) && m <= n < |run| && forall i :: m <= i < n ==> !Concerns(run[i], steps[i], host)
    ensures host in run[n].entries <==> host in run[m].entries
    ensures host in run[m].entries ==> run[n].entries[host] == run[m].entries[host]
  {
    if m < n {
      EntryUntouched(run, steps, m, n - 1, host);
      assert MovesAt(run, steps, n - 1);
      OthersLeaveEntry(run[n - 1], steps[n - 1], host);
    }
  }

  /** Over every run: the next acquire of a host whose session was handed out at step `m`
      gets that session at once if fewer than 300 seconds have passed, and connects anew
      otherwise. */
  lemma ReusedWhileFresh(
      run: seq<State>, steps: seq<Step>, m: nat, n: nat, host: HostId, session: Session, caller: CallerId)
    requires IsRun(run, steps) && m < n < |steps| && steps[n] == Begin(caller, host)
    requires Concerns(run[m], steps[m], host) && JustReturned(run[m + 1], host, session)
    requires forall i :: m < i < n ==> !Concerns(run[i], steps[i], host)
    ensures run[n].now < run[m].now + 300 ==>
              run[n + 1].log == run[n].log + [Began(caller, host), Returned(caller, host, session)]
    ensures run[n].now >= run[m].now + 300 ==>
              && run[n + 1].log == run[n].log + [Began(caller, host), Removed(host)]
              && run[n + 1].callers == run[n].callers[caller := Connecting(host, |run[n].log|)]
  {
    assert MovesAt(run, steps, m) && MovesAt(run, steps, n);
    ReturnStamps(run[m], steps[m], host, session);
    EntryUntouched(run, steps, m + 1, n, host);
  }

  /** And one whose session was removed connects anew. */
  lemma RemovedIsReopened(run: seq<State>, steps: seq<Step>, m: nat, n: nat, host: HostId, caller: CallerId)
    requires IsRun(run, steps) && m < n < |steps| && steps[n] == Begin(caller, host)
    requires steps[m] == Evict(host) || steps[m] == DisconnectAll
    requires forall i :: m < i < n ==> !Concerns(run[i], steps[i], host)
    ensures run[n + 1].log == run[n].log + [Began(caller, host)]
    ensures run[n + 1].callers == run[n].callers[caller := Connecting(host, |run[n].log|)]
  {
    assert MovesAt(run, steps, m) && MovesAt(run, steps, n);
    EntryUntouched(run, steps, m + 1, n, host);
    assert run[n].log + [Began(caller, host)] + [] == run[n].log + [Began(caller, host)];
  }

  // ── What a removal says about the sessions handed out later ────────────────

  function Begun(c: Caller): nat {
    if c.Connecting? then c.begun else c.session.begun
  }

  /** Position `at` is where an acquire of `host` began. */
  predicate BeganAt(log: Log, at: nat, host: HostId) {
    at < |log| && log[at].Began? && log[at].host == host
  }

  /** Every opener on record began where its session says. */
  ghost predicate Recorded(s: State) {
    && (forall c :: c in s.callers ==> BeganAt(s.log, Begun(s.callers[c]), s.callers[c].host))
    && (forall h :: h in s.entries ==> BeganAt(s.log, s.entries[h].session.begun, h))
    && (forall j: nat :: j < |s.log| && s.log[j].Returned? ==> BeganAt(s.log, s.log[j].session.begun, s.log[j].host))
  }

  lemma StepKeepsRecorded(s: State, step: Step)
    requires Recorded(s) && Enabled(s, step)
    ensures Recorded(Apply(s, step))
  {
    match step
    case Begin(caller, host) => BeginKeepsRecorded(s, caller, host);
    case Store(caller) => StoreKeepsRecorded(s, caller);
    case _ => LongerLog(s.log, Apply(s, step).log);
  }

  lemma LongerLog(log: Log, longer: Log)
    requires log <= longer
    ensures forall at: nat, h :: BeganAt(log, at, h) ==> BeganAt(longer, at, h)
    ensures forall j: nat :: j < |log| ==> longer[j] == log[j]
  {
  }

  lemma BeginKeepsRecorded(s: State, caller: CallerId, host: HostId)
    requires Recorded(s) && Enabled(s, Begin(caller, host))
    ensures Recorded(Apply(s, Begin(caller, host)))
  {
    LongerLog(s.log, Apply(s, Begin(caller, host)).log);
  }

  lemma StoreKeepsRecorded(s: State, caller: CallerId)
    requires Recorded(s) && Enabled(s, Store(caller))
    ensures Recorded(Apply(s, Store(caller)))
  {
    LongerLog(s.log, Apply(s, Store(caller)).log);
  }

  lemma {:induction false} RunRecorded(run: seq<State>, steps: seq<Step>, n: nat)
    requires IsRun(run, steps) && n < |run|
    ensures Recorded(run[n])
  {
    if n > 0 {
      RunRecorded(run, steps, n - 1);
      assert MovesAt(run, steps, n - 1);
      StepKeepsRecorded(run[n - 1], steps[n - 1]);
    }
  }

  /** What may happen from `s` on. */
  ghost predicate Continues(s: State, run: seq<State>, steps: seq<Step>) {
    && |run| == |steps| + 1
    && run[0] == s
    && forall i: nat :: i < |steps| ==> MovesAt(run, steps, i)
  }

  /** From position `from` on, every session returned for `host` was opened by an
      acquire that began at position `since` or later. */
  ghost predicate OpenedSince(log: Log, host: HostId, from: nat, since: nat) {
    forall j: nat :: from <= j < |log| && log[j].Returned? && log[j].host == host ==> log[j].session.begun >= since
  }

  /** No acquire of `host` in progress began before position `since`. */
  predicate NoneBegunBefore(s: State, host: HostId, since: nat) {
    forall c :: c in s.callers && s.callers[c].host == host ==> Begun(s.callers[c]) >= since
  }

  /** No session of `host` opened before `since` is pooled, on its way in, or was
      returned from `from` on. */
  ghost predicate NoneOlder(s: State, host: HostId, from: nat, since: nat) {
    && since <= |s.log|
    && (host in s.entries ==> s.entries[host].session.begun >= since)
    && NoneBegunBefore(s, host, since)
    && OpenedSince(s.log, host, from, since)
  }

  lemma StepKeepsNoneOlder(s: State, step: Step, host: HostId, from: nat, since: nat)
    requires NoneOlder(s, host, from, since) && Enabled(s, step)
    ensures NoneOlder(Apply(s, step), host, from, since)
  {
    assert forall j: nat :: j < |s.log| ==> Apply(s, step).log[j] == s.log[j];
  }

  lemma {:induction false} RestIsNewer(
      s: State, run: seq<State>, steps: seq<Step>, host: HostId, from: nat, since: nat, n: nat)
    requires NoneOlder(s, host, from, since) && Continues(s, run, steps) && n < |run|
    ensures NoneOlder(run[n], host, from, since)
  {
    if n > 0 {
      RestIsNewer(s, run, steps, host, from, since, n - 1);
      assert MovesAt(run, steps, n - 1);
      StepKeepsNoneOlder(run[n - 1], steps[n - 1], host, from, since);
    }
  }

  /** An acquire in progress at the removal can finish after it and hand out the
      session it was opening. */
  lemma StragglerReturns(s: State, host: HostId, caller: CallerId, since: nat)
    returns (run: seq<State>, steps: seq<Step>)
    requires caller in s.callers && s.callers[caller].host == host && host !in s.entries
    requires Begun(s.callers[caller]) < since
    ensures Continues(s, run, steps)
    ensures !OpenedSince(run[|run| - 1].log, host, |s.log|, since)
  {
    var t := s;
    if s.callers[caller].Connecting? {
      t := Apply(s, Connect(caller, true));
      run, steps := [s, t], [Connect(caller, true)];
    } else {
      run, steps := [s], [];
    }
    var u := Apply(t, Store(caller));
    assert u.log[|s.log| + 1] == Returned(caller, host, t.callers[caller].session);
    run, steps := run + [u], steps + [Store(caller)];
    forall i: nat | i < |steps| ensures MovesAt(run, steps, i) {
    }
  }

  predicate IsRemoval(step: Step, host: HostId) {
    step == Evict(host) || step == DisconnectAll
  }

  predicate NoneInProgress(s: State, host: HostId) {
    forall c :: c in s.callers ==> s.callers[c].host != host
  }

  /** Whatever happens from `s` on, the sessions returned for the host were opened by
      acquires that began at `since` or later. */
  ghost predicate SessionsSince(s: State, host: HostId, since: nat) {
    forall rest: seq<State>, more: seq<Step> ::
      Continues(s, rest, more) ==> OpenedSince(rest[|more|].log, host, |s.log|, since)
  }

  /** After a removal nothing opened before an earlier moment is handed out, in any
      continuation, if and only if no acquire of the host begun before that moment is
      still in progress. */
  lemma RemovalBoundsSince(s: State, host: HostId, removal: Step, since: nat)
    requires IsRemoval(removal, host) && since <= |s.log| + 1
    ensures SessionsSince(Apply(s, removal), host, since) <==> NoneBegunBefore(s, host, since)
  {
    var t := Apply(s, removal);
    if NoneBegunBefore(s, host, since) {
      forall rest: seq<State>, more: seq<Step> | Continues(t, rest, more)
        ensures OpenedSince(rest[|more|].log, host, |t.log|, since) {
        RestIsNewer(t, rest, more, host, |t.log|, since, |more|);
      }
    } else {
      var c :| c in s.callers && s.callers[c].host == host && Begun(s.callers[c]) < since;
      var rest, more := StragglerReturns(t, host, c, since);
      assert Continues(t, rest, more) && !OpenedSince(rest[|more|].log, host, |t.log|, since);
    }
  }

  /** An eviction or a drain bounds what is handed out later -- in every
      continuation each session returned for the host was opened by an acquire that
      began after the removal -- if and only if no acquire of the host is in
      progress at the removal. */
  lemma RemovalBoundsSessions(run: seq<State>, steps: seq<Step>, n: nat, host: HostId, removal: Step)
    requires IsRun(run, steps) && n < |run| && IsRemoval(removal, host)
    ensures SessionsSince(Apply(run[n], removal), host, |run[n].log| + 1) <==> NoneInProgress(run[n], host)
  {
    RemovalBoundsSince(run[n], host, removal, |run[n].log| + 1);
    RunRecorded(run, steps, n);
  }

  /** The shortest case of it: a connection begun before an eviction is pooled after
      it and handed to a caller who starts later. */
  lemma ConnectionOutlivesEviction(host: HostId) returns (run: seq<State>, steps: seq<Step>)
    ensures IsRun(run, steps)
    ensures steps == [Begin(0, host), Evict(host), Connect(0, true), Store(0), Begin(1, host)]
    ensures var session := Session(0, host, 0);
      run[5].log == [Began(0, host), Removed(host), Pooled(host, session), Returned(0, host, session),
                     Began(1, host), Returned(1, host, session)]
  {
    steps := [Begin(0, host), Evict(host), Connect(0, true), Store(0), Begin(1, host)];
    var s1 := Apply(Init, steps[0]);
    var s2 := Apply(s1, steps[1]);
    var s3 := Apply(s2, steps[2]);
    var s4 := Apply(s3, steps[3]);
    var s5 := Apply(s4, steps[4]);
    run := [Init, s1, s2, s3, s4, s5];
    assert s2.callers[0] == Connecting(host, 0);
    assert s3.callers[0] == Connected(host, Session(0, host, 0));
    assert s4.entries[host] == Entry(Session(0, host, 0), 0);
    forall i: nat | i < |steps| ensures MovesAt(run, steps, i) {
    }
  }
}
