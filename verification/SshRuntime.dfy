/**
 The SSH runtime's own code for the protocol: `handle_event`, `poll_updates` and
 `shutdown` update the in-flight map and the transport in place.  Each method is
 tied to the transition functions of `UpdateProtocol`.
 */
module SshRuntime {
  import opened Common
  import opened UpdateProtocol
  import ResultSpec

  datatype LoopOutcome = Disconnected

  // ── The shutdown loop, as a fold of the same transition functions ──────────

  /** How many of the arriving events the loop consumes: it stops at the first
      moment the map is empty. */
  function Consumed(m: map<HostId, InFlight>, incoming: seq<Queued>): (n: nat)
    ensures n <= |incoming|
  {
    if m == map[] || incoming == [] then 0
    else 1 + Consumed(HandledMap(m, incoming[0].host, incoming[0].event), incoming[1..])
  }

  function DrainedMap(m: map<HostId, InFlight>, events: seq<Queued>): map<HostId, InFlight> {
    if events == [] then m
    else HandledMap(DrainedMap(m, events[..|events| - 1]), events[|events| - 1].host, events[|events| - 1].event)
  }

  function DrainedMessages(m: map<HostId, InFlight>, events: seq<Queued>): seq<Message> {
    if events == [] then []
    else
      var before := events[..|events| - 1];
      var last := events[|events| - 1];
      DrainedMessages(m, before) + HandledMessages(DrainedMap(m, before), last.host, last.event, true)
  }

  lemma DrainOneMore(m: map<HostId, InFlight>, events: seq<Queued>, n: nat)
    requires n < |events|
    ensures DrainedMap(m, events[..n + 1]) == HandledMap(DrainedMap(m, events[..n]), events[n].host, events[n].event)
    ensures DrainedMessages(m, events[..n + 1]) ==
            DrainedMessages(m, events[..n]) +
            HandledMessages(DrainedMap(m, events[..n]), events[n].host, events[n].event, true)
  {
    assert events[..n + 1][..n] == events[..n];
  }

  /** The map still holds something after the first `k` events. */
  ghost predicate BusyAfter(s: State, k: nat)
    requires k <= |s.queue|
  {
    DrainedMap(s.inFlight, s.queue[..k]) != map[]
  }

  function Drained(s: State, n: nat): State {
    if n == 0 then s
    else
      var t := Drained(s, n - 1);
      if Enabled(t, Handle(true)) then Apply(t, Handle(true)) else t
  }

  lemma {:induction false} DrainIsHandling(s: State, n: nat)
    requires s.starting.None? && n <= |s.queue|
    requires forall k: nat :: k < n ==> BusyAfter(s, k)
    ensures Drained(s, n).starting.None? && Drained(s, n).queue == s.queue[n..]
    ensures Drained(s, n).inFlight == DrainedMap(s.inFlight, s.queue[..n])
    ensures Drained(s, n).outbox == s.outbox + DrainedMessages(s.inFlight, s.queue[..n])
  {
    if n > 0 {
      DrainIsHandling(s, n - 1);
      assert BusyAfter(s, n - 1);
      DrainOneMore(s.inFlight, s.queue, n - 1);
      HandleOneMore(Drained(s, n - 1), s.queue, n - 1, s.outbox, DrainedMessages(s.inFlight, s.queue[..n - 1]));
    }
  }

  lemma HandleOneMore(t: State, queue: seq<Queued>, n: nat, outbox: seq<Message>, sent: seq<Message>)
    requires n < |queue| && t.queue == queue[n..] && t.outbox == outbox + sent && Enabled(t, Handle(true))
    ensures var u, q := Apply(t, Handle(true)), queue[n];
      && u.queue == queue[n + 1..] && u.starting == t.starting
      && u.inFlight == HandledMap(t.inFlight, q.host, q.event)
      && u.outbox == outbox + (sent + HandledMessages(t.inFlight, q.host, q.event, true))
  {
    assert t.queue[0] == queue[n];
    assert t.queue[1..] == queue[n + 1..];
  }

  lemma {:induction false} DrainFirst(m: map<HostId, InFlight>, events: seq<Queued>)
    requires events != []
    ensures DrainedMap(m, events) == DrainedMap(HandledMap(m, events[0].host, events[0].event), events[1..])
  {
    var front := events[..|events| - 1];
    if front == [] {
      assert DrainedMap(m, front) == m;
    } else {
      DrainFirst(m, front);
      assert events[1..][..|events| - 2] == front[1..];
    }
  }

  lemma {:induction false} BusyWhileConsuming(m: map<HostId, InFlight>, incoming: seq<Queued>, k: nat)
    requires k < Consumed(m, incoming)
    ensures DrainedMap(m, incoming[..k]) != map[]
    decreases k
  {
    if k > 0 {
      DrainFirst(m, incoming[..k]);
      assert incoming[..k][1..] == incoming[1..][..k - 1];
      BusyWhileConsuming(HandledMap(m, incoming[0].host, incoming[0].event), incoming[1..], k - 1);
    }
  }

  /** From a reachable state, what `DrainUntilDeadline` leaves behind is the end of
      a run of `Handle` steps: the protocol invariant and the one-result promise
      hold of it. */
  lemma ShutdownIsHandling(s: State)
    requires Inv(s) && ResultSpec.Inv(Abstract(s)) && s.starting.None?
    ensures var n := Consumed(s.inFlight, s.queue);
      var t := Drained(s, n);
      && t.queue == s.queue[n..]
      && t.inFlight == DrainedMap(s.inFlight, s.queue[..n])
      && t.outbox == s.outbox + DrainedMessages(s.inFlight, s.queue[..n])
      && Inv(t) && ResultSpec.Inv(Abstract(t))
  {
    var n := Consumed(s.inFlight, s.queue);
    forall k: nat | k < n ensures BusyAfter(s, k) {
      BusyWhileConsuming(s.inFlight, s.queue, k);
    }
    DrainIsHandling(s, n);
    DrainRefines(s, n);
  }

  /** What the shutdown loop does with the events of a reachable state is itself a
      run of `Handle` steps, so it keeps the protocol invariant and the one-result
      promise. */
  lemma {:induction false} DrainRefines(s: State, n: nat)
    requires Inv(s) && ResultSpec.Inv(Abstract(s))
    ensures Inv(Drained(s, n)) && ResultSpec.Inv(Abstract(Drained(s, n)))
  {
    if n > 0 {
      DrainRefines(s, n - 1);
      var t := Drained(s, n - 1);
      if Enabled(t, Handle(true)) {
        StepKeepsInv(t, Handle(true));
        StepRefines(t, Handle(true));
        ResultSpec.StepKeepsInv(Abstract(t), SpecStep(t, Handle(true)), Abstract(Drained(s, n)));
      }
    }
  }

  function LeftoverOutputs(m: map<HostId, InFlight>, events: seq<Queued>): seq<Message> {
    if events == [] then []
    else
      var next := events[0];
      (if next.host in m && next.event.Output? then [UpdateOutput(m[next.host].id, next.event.text)] else [])
      + LeftoverOutputs(m, events[1..])
  }

  /** With an empty map the last sweep forwards nothing. */
  lemma {:induction false} NothingLeftOver(events: seq<Queued>)
    ensures LeftoverOutputs(map[], events) == []
  {
    if events != [] {
      NothingLeftOver(events[1..]);
    }
  }

  // ── The deadline arm ───────────────────────────────────────────────────────

  /** The hosts whose entry carries `id`. */
  function EntriesOf(m: map<HostId, InFlight>, id: UpdateId): set<HostId> {
    set h | h in m && m[h].id == id
  }

  lemma OneEntry(s: State, id: UpdateId)
    requires Inv(s)
    ensures |EntriesOf(s.inFlight, id)| == if id in OpenIds(s.inFlight) then 1 else 0
  {
    var hosts := EntriesOf(s.inFlight, id);
    if id in OpenIds(s.inFlight) {
      var host :| host in s.inFlight && s.inFlight[host].id == id;
      OthersDiffer(s, host);
      assert hosts == {host};
    } else {
      assert forall h :: h in s.inFlight ==> s.inFlight[h].id in OpenIds(s.inFlight);
      assert hosts == {};
    }
  }

  /** The deadline arm sends a failure for every update still in the map without
      looking at `early_sent`.  It keeps the one-result promise for an update if and
      only if no early result of that update has been sent. */
  lemma DeadlineDoubleSends(s: State, id: UpdateId)
    requires Inv(s) && ResultSpec.Inv(Abstract(s))
    ensures Results(s.outbox)[id] + |EntriesOf(s.inFlight, id)| <= 1 <==> id !in ReportedIds(s.inFlight)
  {
    OneEntry(s, id);
    var a := Abstract(s);
    assert a.attempts == Results(s.outbox);
    assert OpenIds(s.inFlight) <= a.open;
  }

  lemma {:induction false} DrainForgetsNothing(s: State, n: nat)
    requires Inv(s) && ResultSpec.Inv(Abstract(s))
    ensures Abstract(s).open + s.settled <= Abstract(Drained(s, n)).open + Drained(s, n).settled
    ensures Drained(s, n).starting == s.starting
  {
    if n > 0 {
      DrainForgetsNothing(s, n - 1);
      DrainRefines(s, n - 1);
      HandleForgetsNothing(Drained(s, n - 1));
    }
  }

  lemma HandleForgetsNothing(t: State)
    requires Inv(t) && ResultSpec.Inv(Abstract(t))
    ensures Enabled(t, Handle(true)) ==>
              var u := Apply(t, Handle(true));
              u.starting == t.starting && Abstract(t).open + t.settled <= Abstract(u).open + u.settled
  {
    if Enabled(t, Handle(true)) {
      StepRefines(t, Handle(true));
      ResultSpec.StepKeepsInv(Abstract(t), SpecStep(t, Handle(true)), Abstract(Apply(t, Handle(true))));
    }
  }

  /** The map and the results when `Shutdown` gives up waiting. */
  ghost function AtDeadline(s: State): map<HostId, InFlight> {
    DrainedMap(s.inFlight, s.queue[..Consumed(s.inFlight, s.queue)])
  }

  /** The results `Shutdown` leaves behind for `id`: those handled in time and one per
      entry abandoned. */
  ghost function ShutdownAttempts(s: State, id: UpdateId): nat {
    var events := s.queue[..Consumed(s.inFlight, s.queue)];
    Results(s.outbox + DrainedMessages(s.inFlight, events))[id] + |EntriesOf(AtDeadline(s), id)|
  }

  /** The whole shutdown, from every reachable state: an update that was open or settled
      ends up with at least one result, and no update with more than one unless it had
      reported early and was still open at the deadline. */
  lemma ShutdownResults(run: seq<State>, steps: seq<Step>, n: nat, id: UpdateId)
    requires IsRun(run, steps) && n < |run| && run[n].starting.None?
    ensures ShutdownAttempts(run[n], id) <= 1 <==> id !in ReportedIds(AtDeadline(run[n]))
    ensures id in OpenIds(run[n].inFlight) || id in run[n].settled ==> ShutdownAttempts(run[n], id) >= 1
  {
    var s := run[n];
    RunInvariant(run, steps, n);
    RunRefines(run, steps, n);
    ShutdownIsHandling(s);
    var t := Drained(s, Consumed(s.inFlight, s.queue));
    DeadlineDoubleSends(t, id);
    DrainForgetsNothing(s, Consumed(s.inFlight, s.queue));
    OneEntry(t, id);
    assert Abstract(t).attempts == Results(t.outbox);
  }

  /** Such a state is reachable: an update that reported early and is still running at
      the deadline gets two results. */
  lemma EarlyThenDeadline(host: HostId, id: UpdateId, text: string) returns (run: seq<State>, steps: seq<Step>)
    ensures IsRun(run, steps) && steps == [Spawn(host, id), Insert, Emit(id, EarlyResult(id, text)), Handle(false)]
    ensures run[4].starting.None? && ShutdownAttempts(run[4], id) == 2
  {
    steps := [Spawn(host, id), Insert, Emit(id, EarlyResult(id, text)), Handle(false)];
    var s1 := Apply(Init, steps[0]);
    var s2 := Apply(s1, steps[1]);
    var s3 := Apply(s2, steps[2]);
    var s4 := Apply(s3, steps[3]);
    run := [Init, s1, s2, s3, s4];
    forall i: nat | i < |steps| ensures MovesAt(run, steps, i) {
    }
    assert s4.inFlight == map[host := InFlight(id, true)] && s4.queue == [];
    assert s4.outbox == [UpdateResult(id, Own(text))];
    AttemptsAfterEarly(s4, host, id, text);
  }

  lemma AttemptsAfterEarly(s: State, host: HostId, id: UpdateId, text: string)
    requires s.inFlight == map[host := InFlight(id, true)] && s.queue == []
    requires s.outbox == [UpdateResult(id, Own(text))]
    ensures ShutdownAttempts(s, id) == 2
  {
    ResultsPush([], UpdateResult(id, Own(text)));
    assert [] + [UpdateResult(id, Own(text))] == s.outbox;
    assert s.queue[..0] == [] && s.outbox + [] == s.outbox;
    assert EntriesOf(s.inFlight, id) == {host};
  }

  // ── The runtime ────────────────────────────────────────────────────────────

  lemma FewerEntries(m: map<HostId, InFlight>, host: HostId)
    requires host in m
    ensures |m - {host}| < |m|
    ensures forall id :: |EntriesOf(m, id)| == |EntriesOf(m - {host}, id)| + if m[host].id == id then 1 else 0
  {
    assert m == (m - {host})[host := m[host]];
    forall id ensures |EntriesOf(m, id)| == |EntriesOf(m - {host}, id)| + if m[host].id == id then 1 else 0 {
      assert EntriesOf(m, id) == EntriesOf(m - {host}, id) + if m[host].id == id then {host} else {};
    }
  }

  /** `after` is `before` followed by nothing but results that report the timeout. */
  ghost predicate OnlyTimeoutsAdded(before: seq<Message>, after: seq<Message>) {
    before <= after && forall i :: |before| <= i < |after| ==> after[i].UpdateResult? && after[i].body == TimedOut
  }

  class SshAgentRuntime {
    var inFlight: map<HostId, InFlight>
    var queue: seq<Queued>
    var outbox: seq<Message>

    constructor ()
      ensures inFlight == map[] && queue == [] && outbox == []
    {
      inFlight, queue, outbox := map[], [], [];
    }

    /** Polling an empty map never returns, so nothing is taken from the queue. */
    method PollUpdates() returns (event: Option<Queued>)
      modifies this`queue
      ensures event.Some? <==> old(inFlight) != map[] && old(queue) != []
      ensures event.Some? ==> old(queue) == [event.value] + queue
      ensures event.None? ==> queue == old(queue)
    {
      if inFlight == map[] || queue == [] {
        return None;
      }
      event := Some(queue[0]);
      queue := queue[1..];
    }

    /** A failed send of a result, and of nothing else, ends the connection. */
    method HandleUpdate(host: HostId, event: UpdateEvent, sendOk: bool) returns (outcome: Option<LoopOutcome>)
      modifies this`inFlight, this`outbox
      ensures inFlight == HandledMap(old(inFlight), host, event)
      ensures outbox == old(outbox) + HandledMessages(old(inFlight), host, event, false)
      ensures outcome.Some? <==> !sendOk && exists i :: |old(outbox)| <= i < |outbox| && outbox[i].UpdateResult?
    {
      outcome := None;
      if host in inFlight {
        var update := inFlight[host];
        match event {
          case Output(text) =>
            outbox := outbox + [UpdateOutput(update.id, text)];
          case Completed(ending) =>
            inFlight := inFlight - {host};
            if !update.earlySent {
              outbox := outbox + [UpdateResult(ResultId(ending, update), BodyOf(ending))];
              if !sendOk {
                outcome := Some(Disconnected);
              }
            }
          case Attention(id) =>
            outbox := outbox + [StdinAttention(id)];
          case EarlyResult(payload, text) =>
            if !update.earlySent {
              outbox := outbox + [UpdateResult(payload, Own(text))];
              // Marked sent whether or not the send succeeded.
              inFlight := inFlight[host := update.(earlySent := true)];
              if !sendOk {
                outcome := Some(Disconnected);
              }
            }
          case ChannelsResolved =>
        }
      }
      assert event.EarlyResult? && host in old(inFlight) && old(inFlight)[host].earlySent ==>
        old(inFlight)[host := old(inFlight)[host].(earlySent := true)] == old(inFlight);
      assert outbox != old(outbox) ==> outbox[|old(outbox)|] == outbox[|outbox| - 1];
    }

    method HandleDuringShutdown(host: HostId, event: UpdateEvent)
      modifies this`inFlight, this`outbox
      ensures inFlight == HandledMap(old(inFlight), host, event)
      ensures outbox == old(outbox) + HandledMessages(old(inFlight), host, event, true)
    {
      if host in inFlight {
        var update := inFlight[host];
        match event {
          case Output(text) =>
            outbox := outbox + [UpdateOutput(update.id, text)];
          case Completed(ending) =>
            inFlight := inFlight - {host};
            if !update.earlySent {
              outbox := outbox + [UpdateResult(ResultId(ending, update), BodyOf(ending))];
            }
          case Attention(id) =>
          case EarlyResult(payload, text) =>
            if !update.earlySent {
              outbox := outbox + [UpdateResult(payload, Own(text))];
              inFlight := inFlight[host := update.(earlySent := true)];
            }
          case ChannelsResolved =>
        }
      }
      assert event.EarlyResult? && host in old(inFlight) && old(inFlight)[host].earlySent ==>
        old(inFlight)[host := old(inFlight)[host].(earlySent := true)] == old(inFlight);
    }

    /** The deadline arm: entries are drained in no particular order. */
    method Abandon()
      modifies this`inFlight, this`outbox
      ensures inFlight == map[]
      ensures OnlyTimeoutsAdded(old(outbox), outbox)
      ensures forall id :: Results(outbox)[id] == Results(old(outbox))[id] + |EntriesOf(old(inFlight), id)|
    {
      while inFlight != map[]
        invariant OnlyTimeoutsAdded(old(outbox), outbox)
        invariant forall id :: Results(outbox)[id] + |EntriesOf(inFlight, id)| ==
                               Results(old(outbox))[id] + |EntriesOf(old(inFlight), id)|
        decreases |inFlight|
      {
        var host :| host in inFlight;
        FewerEntries(inFlight, host);
        ResultsPush(outbox, UpdateResult(inFlight[host].id, TimedOut));
        outbox := outbox + [UpdateResult(inFlight[host].id, TimedOut)];
        inFlight := inFlight - {host};
      }
    }

    /** The last sweep forwards output lines of updates that are still in the map. */
    method SweepLeftovers()
      modifies this`queue, this`outbox
      ensures queue == []
      ensures outbox == old(outbox) + LeftoverOutputs(inFlight, old(queue))
    {
      ghost var incoming, i := queue, 0;
      while queue != []
        invariant 0 <= i <= |incoming| && queue == incoming[i..]
        invariant outbox + LeftoverOutputs(inFlight, queue) == old(outbox) + LeftoverOutputs(inFlight, incoming)
        decreases |queue|
      {
        var next := queue[0];
        queue := queue[1..];
        if next.host in inFlight && next.event.Output? {
          outbox := outbox + [UpdateOutput(inFlight[next.host].id, next.event.text)];
        }
        i := i + 1;
      }
    }

    /** `queue` holds the events that arrive before the deadline. */
    method DrainUntilDeadline() returns (deadline: bool)
      modifies this
      ensures var n := Consumed(old(inFlight), old(queue));
        && inFlight == DrainedMap(old(inFlight), old(queue)[..n])
        && outbox == old(outbox) + DrainedMessages(old(inFlight), old(queue)[..n])
        && queue == old(queue)[n..]
      ensures deadline <==> inFlight != map[]
      ensures inFlight == map[] || queue == []
    {
      ghost var first, incoming, i := inFlight, queue, 0;
      assert incoming[..0] == [] && incoming[0..] == incoming;
      while inFlight != map[] && queue != []
        invariant 0 <= i <= |incoming| && queue == incoming[i..]
        invariant inFlight == DrainedMap(first, incoming[..i])
        invariant outbox == old(outbox) + DrainedMessages(first, incoming[..i])
        invariant Consumed(first, incoming) == i + Consumed(inFlight, queue)
        decreases |queue|
      {
        var next := queue[0];
        DrainOneMore(first, incoming, i);
        ghost var sent := HandledMessages(inFlight, next.host, next.event, true);
        Regroup(old(outbox), DrainedMessages(first, incoming[..i]), sent);
        queue := queue[1..];
        HandleDuringShutdown(next.host, next.event);
        i := i + 1;
      }
      deadline := inFlight != map[];
    }

    /** Handle what arrives in time, fail what is left, and sweep the queue. */
    method Shutdown() returns (deadline: bool)
      modifies this
      ensures inFlight == map[]
      ensures queue == if old(inFlight) == map[] then old(queue) else []
      ensures var events := old(queue)[..Consumed(old(inFlight), old(queue))];
        var handled := old(outbox) + DrainedMessages(old(inFlight), events);
        && (deadline <==> DrainedMap(old(inFlight), events) != map[])
        && (deadline ==> events == old(queue))
        && OnlyTimeoutsAdded(handled, outbox)
        && forall id :: Results(outbox)[id] == Results(handled)[id] + |EntriesOf(DrainedMap(old(inFlight), events), id)|
    {
      deadline := false;
      if inFlight == map[] {
        assert queue[..0] == [] && outbox + [] == outbox;
        assert forall id :: EntriesOf(inFlight, id) == {};
        return;
      }
      deadline := DrainUntilDeadline();
      Abandon();
      NothingLeftOver(queue);
      ghost var sent := outbox;
      SweepLeftovers();
      assert outbox == sent;
    }
  }
}
