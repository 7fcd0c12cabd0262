/**
 The SSH agent's update protocol.  One forwarder task per in-flight update feeds
 one bounded queue that is keyed by host, not by update; the event loop drains
 it.  The loop starts an update by spawning the forwarder first and inserting
 the map entry afterwards, so a forwarder may emit before its entry exists.
 */
module UpdateProtocol {
  import opened Common
  import ResultSpec

  type UpdateId = ResultSpec.UpdateId
  type HostId = string

  const QUEUE_CAPACITY := 64

  /** What the update task ended with: its own result payload, or a panic. */
  datatype Ending = Finished(payload: UpdateId, text: string) | Panicked

  /** What a result says: the update's own words, or why the agent speaks for it. */
  datatype Body = Own(text: string) | TaskPanicked | Refused | TimedOut

  datatype Report = Report(id: UpdateId, body: Body)

  datatype UpdateEvent =
    | Output(text: string)
    | Completed(ending: Ending)
    | Attention(id: UpdateId)
    | EarlyResult(payload: UpdateId, text: string)
    | ChannelsResolved

  datatype InFlight = InFlight(id: UpdateId, earlySent: bool)

  /** `from` names the emitting update; it is history that no transition reads. */
  datatype Queued = Queued(host: HostId, event: UpdateEvent, from: UpdateId)

  /** One send attempt on the controller transport; it may or may not succeed. */
  datatype Message =
    | UpdateOutput(id: UpdateId, text: string)
    | UpdateResult(id: UpdateId, body: Body)
    | StdinAttention(id: UpdateId)

  /** What a forwarder passes on as it comes: an output line, or a request for input. */
  datatype Item = Line(id: UpdateId, text: string) | Request(id: UpdateId)

  datatype Start = Start(host: HostId, id: UpdateId)

  datatype State = State(
    inFlight: map<HostId, InFlight>,
    queue: seq<Queued>,
    forwarders: map<UpdateId, HostId>,
    starting: Option<Start>,
    outbox: seq<Message>,
    emitted: seq<Item>,
    reports: seq<Report>,
    issued: set<UpdateId>,
    settled: set<UpdateId>)

  const Init := State(map[], [], map[], None, [], [], [], {}, {})

  // ── What the loop does with one event ──────────────────────────────────────

  /** The result identifier that travels with a completion: the payload's own, or
      the map entry's when the update panicked. */
  function ResultId(ending: Ending, entry: InFlight): UpdateId {
    match ending
    case Finished(payload, _) => payload
    case Panicked => entry.id
  }

  function BodyOf(ending: Ending): Body {
    match ending
    case Finished(_, text) => Own(text)
    case Panicked => TaskPanicked
  }

  function HandledMap(m: map<HostId, InFlight>, host: HostId, event: UpdateEvent): map<HostId, InFlight> {
    if host !in m then m
    else match event
      case Completed(_) => m - {host}
      case EarlyResult(_, _) => m[host := m[host].(earlySent := true)]
      case _ => m
  }

  /** `draining` is the shutdown loop, which drops attention requests. */
  function HandledMessages(m: map<HostId, InFlight>, host: HostId, event: UpdateEvent, draining: bool): seq<Message> {
    if host !in m then []
    else match event
      case Output(text) => [UpdateOutput(m[host].id, text)]
      case Completed(ending) =>
        if m[host].earlySent then [] else [UpdateResult(ResultId(ending, m[host]), BodyOf(ending))]
      case Attention(id) => if draining then [] else [StdinAttention(id)]
      case EarlyResult(payload, text) => if m[host].earlySent then [] else [UpdateResult(payload, Own(text))]
      case ChannelsResolved => []
  }

  // ── The transition system ──────────────────────────────────────────────────

  datatype Step =
    | Deny(id: UpdateId)
    | Reject(id: UpdateId)
    | Spawn(host: HostId, id: UpdateId)
    | Insert
    | Emit(id: UpdateId, event: UpdateEvent)
    | Finish(id: UpdateId, ending: Ending)
    | Handle(draining: bool)

  /** A forwarder only emits payloads of the update it owns. */
  predicate Owns(id: UpdateId, event: UpdateEvent) {
    match event
    case Attention(x) => x == id
    case EarlyResult(x, _) => x == id
    case Completed(Finished(x, _)) => x == id
    case _ => true
  }

  predicate Enabled(s: State, step: Step) {
    match step
    case Deny(id) => s.starting.None? && id !in s.issued
    case Reject(id) => s.starting.None? && id !in s.issued
    case Spawn(host, id) => s.starting.None? && id !in s.issued && host !in s.inFlight
    case Insert => s.starting.Some?
    case Emit(id, event) => id in s.forwarders && |s.queue| < QUEUE_CAPACITY && !event.Completed? && Owns(id, event)
    case Finish(id, ending) => id in s.forwarders && |s.queue| < QUEUE_CAPACITY && Owns(id, Completed(ending))
    case Handle(_) => s.starting.None? && s.inFlight != map[] && s.queue != []
  }

  function Apply(s: State, step: Step): State
    requires Enabled(s, step)
  {
    match step
    case Deny(id) => s.(issued := s.issued + {id})
    case Reject(id) =>
      s.(issued := s.issued + {id}, settled := s.settled + {id}, outbox := s.outbox + [UpdateResult(id, Refused)])
    case Spawn(host, id) =>
      s.(issued := s.issued + {id}, starting := Some(Start(host, id)), forwarders := s.forwarders[id := host])
    case Insert =>
      s.(inFlight := s.inFlight[s.starting.value.host := InFlight(s.starting.value.id, false)], starting := None)
    case Emit(id, event) =>
      s.(queue := s.queue + [Queued(s.forwarders[id], event, id)],
         emitted := if event.Output? then s.emitted + [Line(id, event.text)]
                    else if event.Attention? then s.emitted + [Request(id)]
                    else s.emitted,
         reports := if event.EarlyResult? then s.reports + [Report(id, Own(event.text))] else s.reports)
    case Finish(id, ending) =>
      s.(queue := s.queue + [Queued(s.forwarders[id], Completed(ending), id)],
         forwarders := s.forwarders - {id},
         reports := s.reports + [Report(id, BodyOf(ending))])
    case Handle(draining) =>
      var q := s.queue[0];
      s.(queue := s.queue[1..],
         inFlight := HandledMap(s.inFlight, q.host, q.event),
         outbox := s.outbox + HandledMessages(s.inFlight, q.host, q.event, draining),
         settled := if q.event.Completed? && q.host in s.inFlight
                    then s.settled + {s.inFlight[q.host].id} else s.settled)
  }

  // ── The invariant ──────────────────────────────────────────────────────────

  /** The update a host is running: entered in the map, or spawned and about to be. */
  function Current(s: State, host: HostId): Option<UpdateId> {
    if s.starting.Some? && s.starting.value.host == host then Some(s.starting.value.id)
    else if host in s.inFlight then Some(s.inFlight[host].id)
    else None
  }

  /** Open updates are distinct, known and not settled. */
  ghost predicate OpenUpdates(s: State) {
    && s.settled <= s.issued
    && (s.starting.Some? ==>
      && s.starting.value.host !in s.inFlight
      && s.starting.value.id in s.issued - s.settled)
    && (forall h :: h in s.inFlight ==> s.inFlight[h].id in s.issued - s.settled)
    && (forall h, k :: Current(s, h).Some? && Current(s, h) == Current(s, k) ==> h == k)
  }

  /** Every live forwarder and every queued event belongs to its host's current update. */
  ghost predicate Attributed(s: State) {
    && (forall id :: id in s.forwarders ==> Current(s, s.forwarders[id]) == Some(id))
    && (forall i :: 0 <= i < |s.queue| ==>
      Current(s, s.queue[i].host) == Some(s.queue[i].from) && Owns(s.queue[i].from, s.queue[i].event))
  }

  /** A completion is the last event of its host and its forwarder is gone. */
  ghost predicate CompletionLast(s: State) {
    && (forall i, j :: 0 <= i < j < |s.queue| && s.queue[i].event.Completed? ==> s.queue[j].host != s.queue[i].host)
    && (forall i :: 0 <= i < |s.queue| && s.queue[i].event.Completed? ==> s.queue[i].from !in s.forwarders)
  }

  ghost predicate CompletionQueued(s: State, host: HostId) {
    exists i :: 0 <= i < |s.queue| && s.queue[i].host == host && s.queue[i].event.Completed?
  }

  /** Every open update still has its forwarder, or its completion is already queued. */
  ghost predicate WillComplete(s: State) {
    forall h :: Current(s, h).Some? && Current(s, h).value !in s.forwarders ==> CompletionQueued(s, h)
  }

  ghost predicate Inv(s: State) {
    OpenUpdates(s) && Attributed(s) && CompletionLast(s) && WillComplete(s) && |s.queue| <= QUEUE_CAPACITY
  }

  lemma SpawnKeepsInv(s: State, host: HostId, id: UpdateId)
    requires Inv(s) && Enabled(s, Spawn(host, id))
    ensures Inv(Apply(s, Spawn(host, id)))
  {
    var t := Apply(s, Spawn(host, id));
    assert forall h :: h != host ==> Current(t, h) == Current(s, h);
    assert Current(s, host) == None;
    forall h | Current(t, h).Some? && Current(t, h).value !in t.forwarders ensures CompletionQueued(t, h) {
      assert CompletionQueued(s, h);
    }
  }

  lemma InsertKeepsInv(s: State)
    requires Inv(s) && Enabled(s, Insert)
    ensures Inv(Apply(s, Insert))
  {
    var t := Apply(s, Insert);
    assert forall h :: Current(t, h) == Current(s, h);
    forall h | Current(t, h).Some? && Current(t, h).value !in t.forwarders ensures CompletionQueued(t, h) {
      assert CompletionQueued(s, h);
    }
  }

  lemma EmitKeepsInv(s: State, id: UpdateId, event: UpdateEvent)
    requires Inv(s) && Enabled(s, Emit(id, event))
    ensures Inv(Apply(s, Emit(id, event)))
  {
    var t := Apply(s, Emit(id, event));
    assert forall h :: Current(t, h) == Current(s, h);
    assert forall i :: 0 <= i < |s.queue| ==> t.queue[i] == s.queue[i];
    forall h | Current(t, h).Some? && Current(t, h).value !in t.forwarders ensures CompletionQueued(t, h) {
      assert CompletionQueued(s, h);
      var i :| 0 <= i < |s.queue| && s.queue[i].host == h && s.queue[i].event.Completed?;
      assert t.queue[i] == s.queue[i];
    }
  }

  lemma FinishKeepsInv(s: State, id: UpdateId, ending: Ending)
    requires Inv(s) && Enabled(s, Finish(id, ending))
    ensures Inv(Apply(s, Finish(id, ending)))
  {
    var t := Apply(s, Finish(id, ending));
    assert forall h :: Current(t, h) == Current(s, h);
    assert forall i :: 0 <= i < |s.queue| ==> t.queue[i] == s.queue[i];
    forall h | Current(t, h).Some? && Current(t, h).value !in t.forwarders ensures CompletionQueued(t, h) {
      if Current(t, h).value == id {
        assert t.queue[|s.queue|].host == h;
      } else {
        assert CompletionQueued(s, h);
        var i :| 0 <= i < |s.queue| && s.queue[i].host == h && s.queue[i].event.Completed?;
        assert t.queue[i] == s.queue[i];
      }
    }
  }

  /** The event at the head of the queue always finds its map entry: the loop's
      "no in-flight update found for this host" branch is unreachable. */
  lemma HeadIsInFlight(s: State)
    requires Inv(s) && s.starting.None? && s.queue != []
    ensures s.queue[0].host in s.inFlight
    ensures s.inFlight[s.queue[0].host].id == s.queue[0].from
    ensures Owns(s.inFlight[s.queue[0].host].id, s.queue[0].event)
  {
    assert Current(s, s.queue[0].host) == Some(s.queue[0].from);
  }

  lemma OthersDiffer(s: State, host: HostId)
    requires Inv(s) && host in s.inFlight
    ensures forall h :: h in s.inFlight && h != host ==> s.inFlight[h].id != s.inFlight[host].id
  {
    forall h | h in s.inFlight && s.inFlight[h].id == s.inFlight[host].id ensures h == host {
      assert Current(s, h) == Current(s, host);
    }
  }

  lemma HandleKeepsInv(s: State, draining: bool)
    requires Inv(s) && Enabled(s, Handle(draining))
    ensures Inv(Apply(s, Handle(draining)))
  {
    var t := Apply(s, Handle(draining));
    var q := s.queue[0];
    HeadIsInFlight(s);
    OthersDiffer(s, q.host);
    assert forall i :: 0 <= i < |t.queue| ==> t.queue[i] == s.queue[i + 1];
    assert forall h :: h != q.host ==> Current(t, h) == Current(s, h);
    assert Current(t, q.host) == if q.event.Completed? then None else Current(s, q.host);
    forall h | Current(t, h).Some? && Current(t, h).value !in t.forwarders ensures CompletionQueued(t, h) {
      assert CompletionQueued(s, h);
      var i :| 0 <= i < |s.queue| && s.queue[i].host == h && s.queue[i].event.Completed?;
      assert t.queue[i - 1] == s.queue[i];
    }
  }

  lemma StepKeepsInv(s: State, step: Step)
    requires Inv(s) && Enabled(s, step)
    ensures Inv(Apply(s, step))
  {
    match step
    case Deny(id) => OpenOnly(s, Apply(s, step));
    case Reject(id) => OpenOnly(s, Apply(s, step));
    case Spawn(host, id) => SpawnKeepsInv(s, host, id);
    case Insert => InsertKeepsInv(s);
    case Emit(id, event) => EmitKeepsInv(s, id, event);
    case Finish(id, ending) => FinishKeepsInv(s, id, ending);
    case Handle(draining) => HandleKeepsInv(s, draining);
  }

  /** Growing the issued and settled sets by fresh ids disturbs nothing. */
  lemma OpenOnly(s: State, t: State)
    requires Inv(s)
    requires t == s.(issued := t.issued, settled := t.settled, outbox := t.outbox)
    requires s.issued <= t.issued && t.settled <= t.issued && t.settled - s.settled <= t.issued - s.issued
    ensures Inv(t)
  {
    assert forall h :: Current(t, h) == Current(s, h);
    forall h | Current(t, h).Some? && Current(t, h).value !in t.forwarders ensures CompletionQueued(t, h) {
      assert CompletionQueued(s, h);
    }
  }

  // ── Runs ───────────────────────────────────────────────────────────────────

  /** `run` is a sequence of states that starts empty and moves by enabled steps. */
  ghost predicate MovesAt(run: seq<State>, steps: seq<Step>, i: nat)
    requires i < |steps| && |run| == |steps| + 1
  {
    Enabled(run[i], steps[i]) && run[i + 1] == Apply(run[i], steps[i])
  }

  ghost predicate IsRun(run: seq<State>, steps: seq<Step>) {
    && |run| == |steps| + 1
    && run[0] == Init
    && forall i: nat :: i < |steps| ==> MovesAt(run, steps, i)
  }

  lemma {:induction false} RunInvariant(run: seq<State>, steps: seq<Step>, n: nat)
    requires IsRun(run, steps) && n < |run|
    ensures Inv(run[n])
  {
    if n > 0 {
      RunInvariant(run, steps, n - 1);
      assert MovesAt(run, steps, n - 1);
      StepKeepsInv(run[n - 1], steps[n - 1]);
    }
  }

  /** In every reachable state: queued events belong to the update their host is
      running, a completion is the last event of its host, a host that runs nothing
      has no queued event and no live forwarder, and once the loop is idle with an
      empty map the queue is empty, so parking there strands nothing. */
  lemma QueueBelongsToCurrent(run: seq<State>, steps: seq<Step>, n: nat)
    requires IsRun(run, steps) && n < |run|
    ensures var s := run[n];
      && (forall i :: 0 <= i < |s.queue| ==> Current(s, s.queue[i].host) == Some(s.queue[i].from))
      && (forall i, j :: 0 <= i < j < |s.queue| && s.queue[i].event.Completed? ==> s.queue[j].host != s.queue[i].host)
      && (forall h :: Current(s, h).None? ==>
            && (forall i :: 0 <= i < |s.queue| ==> s.queue[i].host != h)
            && (forall id :: id in s.forwarders ==> s.forwarders[id] != h))
      && (s.starting.None? && s.inFlight == map[] ==> s.queue == [] && s.forwarders == map[])
  {
    RunInvariant(run, steps, n);
    var s := run[n];
    assert forall id :: id in s.forwarders ==> Current(s, s.forwarders[id]).Some?;
    if s.starting.None? && s.inFlight == map[] {
      assert forall h :: Current(s, h).None?;
      assert |s.queue| > 0 ==> Current(s, s.queue[0].host).Some?;
      assert s.forwarders.Keys == {};
    }
  }

  // ── Refinement of the result specification ─────────────────────────────────

  function Results(outbox: seq<Message>): multiset<UpdateId> {
    if outbox == [] then multiset{}
    else
      var m := outbox[|outbox| - 1];
      Results(outbox[..|outbox| - 1]) + if m.UpdateResult? then multiset{m.id} else multiset{}
  }

  function OpenIds(m: map<HostId, InFlight>): set<UpdateId> {
    set h | h in m :: m[h].id
  }

  function ReportedIds(m: map<HostId, InFlight>): set<UpdateId> {
    set h | h in m && m[h].earlySent :: m[h].id
  }

  function Abstract(s: State): ResultSpec.Spec {
    ResultSpec.Spec(
      OpenIds(s.inFlight) + (if s.starting.Some? then {s.starting.value.id} else {}),
      ReportedIds(s.inFlight),
      s.settled,
      Results(s.outbox))
  }

  /** The specification step that a protocol step carries out. */
  function SpecStep(s: State, step: Step): ResultSpec.Step
    requires Enabled(s, step)
  {
    match step
    case Reject(id) => ResultSpec.Refuse(id)
    case Spawn(_, id) => ResultSpec.Begin(id)
    case Handle(_) =>
      var q := s.queue[0];
      if q.host !in s.inFlight then ResultSpec.Stutter
      else if q.event.Completed? then ResultSpec.Close(s.inFlight[q.host].id)
      else if q.event.EarlyResult? && !s.inFlight[q.host].earlySent then ResultSpec.Report(s.inFlight[q.host].id)
      else ResultSpec.Stutter
    case _ => ResultSpec.Stutter
  }

  lemma HandledResults(s: State, draining: bool)
    requires Enabled(s, Handle(draining)) && s.queue[0].host in s.inFlight
    requires Owns(s.inFlight[s.queue[0].host].id, s.queue[0].event)
    ensures var q, entry := s.queue[0], s.inFlight[s.queue[0].host];
      Results(Apply(s, Handle(draining)).outbox) ==
      if (q.event.Completed? || q.event.EarlyResult?) && !entry.earlySent
      then Results(s.outbox) + multiset{entry.id} else Results(s.outbox)
  {
    var q := s.queue[0];
    var sent := HandledMessages(s.inFlight, q.host, q.event, draining);
    if sent == [] {
      assert s.outbox + sent == s.outbox;
    } else {
      ResultsPush(s.outbox, sent[0]);
      assert s.outbox + sent == s.outbox + [sent[0]];
    }
  }

  lemma HandleRefines(s: State, draining: bool)
    requires Enabled(s, Handle(draining)) && s.queue[0].host in s.inFlight
    requires Owns(s.inFlight[s.queue[0].host].id, s.queue[0].event)
    requires forall h :: h in s.inFlight && h != s.queue[0].host ==> s.inFlight[h].id != s.inFlight[s.queue[0].host].id
    ensures ResultSpec.Next(Abstract(s), SpecStep(s, Handle(draining)), Abstract(Apply(s, Handle(draining))))
  {
    HandledResults(s, draining);
    var q := s.queue[0];
    if q.event.Completed? {
      RemoveIds(s.inFlight, q.host);
    } else if q.event.EarlyResult? {
      MarkIds(s.inFlight, q.host);
    }
  }

  /** Every step of the SSH runtime is a step of the result specification. */
  lemma StepRefines(s: State, step: Step)
    requires Inv(s) && Enabled(s, step)
    ensures ResultSpec.Next(Abstract(s), SpecStep(s, step), Abstract(Apply(s, step)))
  {
    match step
    case Reject(id) =>
      FreshIsUnknown(s, id);
      ResultsPush(s.outbox, UpdateResult(id, Refused));
    case Spawn(host, id) => FreshIsUnknown(s, id);
    case Insert => InsertIds(s.inFlight, s.starting.value.host, s.starting.value.id);
    case Handle(draining) =>
      HeadIsInFlight(s);
      OthersDiffer(s, s.queue[0].host);
      HandleRefines(s, draining);
    case _ =>
  }

  lemma {:induction false} RunRefines(run: seq<State>, steps: seq<Step>, n: nat)
    requires IsRun(run, steps) && n < |run|
    ensures ResultSpec.Inv(Abstract(run[n]))
  {
    if n == 0 {
      assert Abstract(run[0]) == ResultSpec.Start;
    } else {
      RunRefines(run, steps, n - 1);
      RunInvariant(run, steps, n - 1);
      assert MovesAt(run, steps, n - 1);
      StepRefines(run[n - 1], steps[n - 1]);
      ResultSpec.StepKeepsInv(Abstract(run[n - 1]), SpecStep(run[n - 1], steps[n - 1]), Abstract(run[n]));
    }
  }

  lemma {:induction false} SettledStays(run: seq<State>, steps: seq<Step>, m: nat, n: nat)
    requires IsRun(run, steps) && m <= n < |run|
    ensures run[m].settled <= run[n].settled
  {
    if m < n {
      SettledStays(run, steps, m, n - 1);
      assert MovesAt(run, steps, n - 1);
    }
  }

  /** Over every run, no update ever gets a second `UpdateResult` attempt, and one
      whose completion has been handled (or whose request was refused) has had
      exactly one. */
  lemma AtMostOneResult(run: seq<State>, steps: seq<Step>, n: nat, id: UpdateId)
    requires IsRun(run, steps) && n < |run|
    ensures Results(run[n].outbox)[id] <= 1
    ensures id in run[n].settled ==> Results(run[n].outbox)[id] == 1
  {
    RunRefines(run, steps, n);
    assert Abstract(run[n]).attempts == Results(run[n].outbox);
  }

  /** Exactly one for the rest of the run. */
  lemma SettledForGood(run: seq<State>, steps: seq<Step>, m: nat, n: nat, id: UpdateId)
    requires IsRun(run, steps) && m <= n < |run| && id in run[m].settled
    ensures Results(run[n].outbox)[id] == 1
  {
    SettledStays(run, steps, m, n);
    AtMostOneResult(run, steps, n, id);
  }

  /** Handling a completion settles the update that emitted it. */
  lemma HandledCompletionSettles(run: seq<State>, steps: seq<Step>, n: nat)
    requires IsRun(run, steps) && n < |steps| && steps[n].Handle?
    ensures run[n].queue != []
    ensures run[n].queue[0].event.Completed? ==> run[n].queue[0].from in run[n + 1].settled
  {
    assert MovesAt(run, steps, n);
    RunInvariant(run, steps, n);
    HeadIsInFlight(run[n]);
  }

  // ── Output and input requests go out in order and to the right update ──────

  /** Output lines, and the requests too if `requests` are asked for. */
  function SentItem(m: Message, requests: bool): seq<Item> {
    match m
    case UpdateOutput(id, text) => [Line(id, text)]
    case StdinAttention(id) => if requests then [Request(id)] else []
    case UpdateResult(_, _) => []
  }

  function QueuedItem(q: Queued, requests: bool): seq<Item> {
    match q.event
    case Output(text) => [Line(q.from, text)]
    case Attention(_) => if requests then [Request(q.from)] else []
    case _ => []
  }

  function SentItems(outbox: seq<Message>, requests: bool): seq<Item> {
    if outbox == [] then []
    else SentItems(outbox[..|outbox| - 1], requests) + SentItem(outbox[|outbox| - 1], requests)
  }

  function QueuedItems(queue: seq<Queued>, requests: bool): seq<Item> {
    if queue == [] then [] else QueuedItem(queue[0], requests) + QueuedItems(queue[1..], requests)
  }

  function Lines(items: seq<Item>): seq<Item> {
    if items == [] then []
    else Lines(items[..|items| - 1]) + if items[|items| - 1].Line? then [items[|items| - 1]] else []
  }

  function Wanted(items: seq<Item>, requests: bool): seq<Item> {
    if requests then items else Lines(items)
  }

  ghost predicate Conserved(s: State, requests: bool) {
    SentItems(s.outbox, requests) + QueuedItems(s.queue, requests) == Wanted(s.emitted, requests)
  }

  lemma HandleConserves(
      outbox: seq<Message>, queue: seq<Queued>, m: map<HostId, InFlight>, draining: bool, requests: bool)
    requires queue != [] && queue[0].host in m && m[queue[0].host].id == queue[0].from
    requires Owns(queue[0].from, queue[0].event) && (requests ==> !draining)
    ensures var sent := HandledMessages(m, queue[0].host, queue[0].event, draining);
      SentItems(outbox + sent, requests) + QueuedItems(queue[1..], requests) ==
      SentItems(outbox, requests) + QueuedItems(queue, requests)
  {
    var q := queue[0];
    var sent := HandledMessages(m, q.host, q.event, draining);
    if sent == [] {
      assert outbox + sent == outbox;
      assert [] + QueuedItems(queue[1..], requests) == QueuedItems(queue[1..], requests);
    } else {
      SentItemsPush(outbox, sent[0], requests);
      assert sent == [sent[0]] && SentItem(sent[0], requests) == QueuedItem(q, requests);
      Regroup(SentItems(outbox, requests), QueuedItem(q, requests), QueuedItems(queue[1..], requests));
    }
  }

  lemma EmitConserves(s: State, id: UpdateId, event: UpdateEvent, requests: bool)
    requires Enabled(s, Emit(id, event)) && Conserved(s, requests)
    ensures Conserved(Apply(s, Emit(id, event)), requests)
  {
    var q := Queued(s.forwarders[id], event, id);
    QueuedItemsPush(s.queue, q, requests);
    Regroup(SentItems(s.outbox, requests), QueuedItems(s.queue, requests), QueuedItem(q, requests));
    if event.Output? {
      LinesPush(s.emitted, Line(id, event.text));
    } else if event.Attention? {
      LinesPush(s.emitted, Request(id));
    }
    assert Wanted(s.emitted, requests) + [] == Wanted(s.emitted, requests);
  }

  lemma StepConserves(s: State, step: Step, requests: bool)
    requires Enabled(s, step) && Conserved(s, requests)
    requires step.Handle? ==>
      && s.queue[0].host in s.inFlight && s.inFlight[s.queue[0].host].id == s.queue[0].from
      && Owns(s.queue[0].from, s.queue[0].event) && (requests ==> !step.draining)
    ensures Conserved(Apply(s, step), requests)
  {
    match step
    case Reject(id) =>
      SentItemsPush(s.outbox, UpdateResult(id, Refused), requests);
      assert SentItems(s.outbox, requests) + [] == SentItems(s.outbox, requests);
    case Emit(id, event) => EmitConserves(s, id, event, requests);
    case Finish(id, ending) =>
      QueuedItemsPush(s.queue, Queued(s.forwarders[id], Completed(ending), id), requests);
      assert QueuedItems(s.queue, requests) + [] == QueuedItems(s.queue, requests);
    case Handle(draining) => HandleConserves(s.outbox, s.queue, s.inFlight, draining, requests);
    case _ =>
  }

  lemma {:induction false} RunConserves(run: seq<State>, steps: seq<Step>, n: nat, requests: bool)
    requires IsRun(run, steps) && n < |run|
    requires requests ==> forall i :: 0 <= i < n ==> steps[i] != Handle(true)
    ensures Conserved(run[n], requests)
  {
    if n > 0 {
      RunConserves(run, steps, n - 1, requests);
      RunInvariant(run, steps, n - 1);
      assert MovesAt(run, steps, n - 1);
      if steps[n - 1].Handle? {
        HeadIsInFlight(run[n - 1]);
      }
      StepConserves(run[n - 1], steps[n - 1], requests);
    }
  }

  /** Over every run the output messages attempted so far, followed by those still
      queued, are exactly the lines the forwarders emitted, in emission order and
      each under the id of the update that emitted it. */
  lemma OutputsInOrder(run: seq<State>, steps: seq<Step>, n: nat)
    requires IsRun(run, steps) && n < |run|
    ensures SentItems(run[n].outbox, false) + QueuedItems(run[n].queue, false) == Lines(run[n].emitted)
  {
    RunConserves(run, steps, n, false);
  }

  /** Over every run without the shutdown loop the same holds of output lines and input
      requests together: none is lost, reordered or sent under another id. */
  lemma RequestsInOrder(run: seq<State>, steps: seq<Step>, n: nat)
    requires IsRun(run, steps) && n < |run| && forall i :: 0 <= i < n ==> steps[i] != Handle(true)
    ensures SentItems(run[n].outbox, true) + QueuedItems(run[n].queue, true) == run[n].emitted
  {
    RunConserves(run, steps, n, true);
  }

  /** Whereas the shutdown loop never asks for input: what it sends are lines and results. */
  lemma DrainingAsksNothing(run: seq<State>, steps: seq<Step>, n: nat)
    requires IsRun(run, steps) && n < |steps| && steps[n] == Handle(true)
    ensures var before, after := run[n].outbox, run[n + 1].outbox;
      before <= after && forall i :: |before| <= i < |after| ==> !after[i].StdinAttention?
  {
    assert MovesAt(run, steps, n);
  }

  // ── Which of several reports is sent ───────────────────────────────────────

  /** What was reported by an update, in order. */
  function Made(reports: seq<Report>, id: UpdateId): seq<Body> {
    if reports == [] then []
    else
      var last := reports[|reports| - 1];
      Made(reports[..|reports| - 1], id) + if last.id == id then [last.body] else []
  }

  function Sent(outbox: seq<Message>, id: UpdateId): seq<Body> {
    if outbox == [] then []
    else
      var last := outbox[|outbox| - 1];
      Sent(outbox[..|outbox| - 1], id) + if last.UpdateResult? && last.id == id then [last.body] else []
  }

  function WaitingOne(q: Queued, id: UpdateId): seq<Body> {
    if q.from != id then []
    else match q.event
      case EarlyResult(_, text) => [Own(text)]
      case Completed(ending) => [BodyOf(ending)]
      case _ => []
  }

  function Waiting(queue: seq<Queued>, id: UpdateId): seq<Body> {
    if queue == [] then [] else WaitingOne(queue[0], id) + Waiting(queue[1..], id)
  }

  /** Nothing sent and every report still queued, or the request refused, or the first report
      sent. */
  ghost predicate FirstSent(s: State, id: UpdateId) {
    var sent, made := Sent(s.outbox, id), Made(s.reports, id);
    if sent == [] then Waiting(s.queue, id) == made
    else if made == [] then id in s.settled && sent == [Refused]
    else sent == [made[0]]
  }

  lemma {:induction false} SentCounts(outbox: seq<Message>, id: UpdateId)
    ensures |Sent(outbox, id)| == Results(outbox)[id]
  {
    if outbox != [] {
      SentCounts(outbox[..|outbox| - 1], id);
    }
  }

  lemma SentPush(outbox: seq<Message>, m: Message, id: UpdateId)
    ensures Sent(outbox + [m], id) == Sent(outbox, id) + if m.UpdateResult? && m.id == id then [m.body] else []
  {
    assert (outbox + [m])[..|outbox|] == outbox;
  }

  lemma MadePush(reports: seq<Report>, r: Report, id: UpdateId)
    ensures Made(reports + [r], id) == Made(reports, id) + if r.id == id then [r.body] else []
  {
    assert (reports + [r])[..|reports|] == reports;
  }

  lemma {:induction false} WaitingPush(queue: seq<Queued>, q: Queued, id: UpdateId)
    ensures Waiting(queue + [q], id) == Waiting(queue, id) + WaitingOne(q, id)
  {
    if queue == [] {
      assert (queue + [q])[1..] == [];
      assert WaitingOne(q, id) + [] == WaitingOne(q, id);
    } else {
      assert (queue + [q])[1..] == queue[1..] + [q];
      WaitingPush(queue[1..], q, id);
      Regroup(WaitingOne(queue[0], id), Waiting(queue[1..], id), WaitingOne(q, id));
    }
  }

  /** Nobody reports before being asked for. */
  ghost predicate AskedFirst(s: State) {
    forall id :: Made(s.reports, id) != [] ==> id in s.issued
  }

  /** Whether a result of an open update went out is what its flag says. */
  lemma FlagTells(s: State, host: HostId)
    requires Inv(s) && ResultSpec.Inv(Abstract(s)) && host in s.inFlight
    ensures s.inFlight[host].earlySent <==> Sent(s.outbox, s.inFlight[host].id) != []
  {
    var id := s.inFlight[host].id;
    OthersDiffer(s, host);
    MarkIds(s.inFlight, host);
    SentCounts(s.outbox, id);
    assert Abstract(s).attempts == Results(s.outbox);
    assert id in OpenIds(s.inFlight);
  }

  lemma ForwarderIsOpen(s: State, id: UpdateId)
    requires Inv(s) && id in s.forwarders
    ensures id in s.issued - s.settled
  {
    assert Current(s, s.forwarders[id]) == Some(id);
  }

  /** A forwarder queues one more event of its own update and remembers the same report. */
  lemma EmittedReport(s: State, step: Step, id: UpdateId)
    requires Enabled(s, step) && (step.Emit? || step.Finish?)
    ensures var t := Apply(s, step);
      && |t.queue| == |s.queue| + 1
      && var more := WaitingOne(t.queue[|s.queue|], id);
      && (step.id != id ==> more == [])
      && Waiting(t.queue, id) == Waiting(s.queue, id) + more
      && Made(t.reports, id) == Made(s.reports, id) + more
  {
    var event := if step.Emit? then step.event else Completed(step.ending);
    var q := Queued(s.forwarders[step.id], event, step.id);
    WaitingPush(s.queue, q, id);
    assert Made(s.reports, id) + [] == Made(s.reports, id);
    if event.EarlyResult? {
      MadePush(s.reports, Report(step.id, Own(event.text)), id);
    } else if event.Completed? {
      MadePush(s.reports, Report(step.id, BodyOf(event.ending)), id);
    }
  }

  lemma EmittedKeepsFirst(s: State, step: Step, id: UpdateId)
    requires Enabled(s, step) && (step.Emit? || step.Finish?) && step.id !in s.settled && FirstSent(s, id)
    ensures FirstSent(Apply(s, step), id)
  {
    EmittedReport(s, step, id);
    assert Made(s.reports, id) + [] == Made(s.reports, id);
  }

  /** What handling the head sends as a result: the report it carries, unless one went out. */
  lemma HandledReport(m: map<HostId, InFlight>, q: Queued, draining: bool, outbox: seq<Message>, id: UpdateId)
    requires q.host in m && m[q.host].id == q.from && Owns(q.from, q.event)
    ensures Sent(outbox + HandledMessages(m, q.host, q.event, draining), id) ==
            Sent(outbox, id) + if m[q.host].earlySent then [] else WaitingOne(q, id)
  {
    var sent := HandledMessages(m, q.host, q.event, draining);
    assert Sent(outbox, id) + [] == Sent(outbox, id);
    if sent == [] {
      assert outbox + sent == outbox;
    } else {
      SentPush(outbox, sent[0], id);
      assert sent == [sent[0]];
    }
  }

  lemma HandleKeepsFirst(s: State, draining: bool, id: UpdateId)
    requires Inv(s) && ResultSpec.Inv(Abstract(s)) && Enabled(s, Handle(draining)) && FirstSent(s, id)
    ensures FirstSent(Apply(s, Handle(draining)), id)
  {
    HeadIsInFlight(s);
    var q := s.queue[0];
    FlagTells(s, q.host);
    HandledReport(s.inFlight, q, draining, s.outbox, id);
    HeadTaken(Sent(s.outbox, id), s.queue, Made(s.reports, id), s.inFlight[q.host].earlySent, id);
  }

  /** The first of the waiting reports is the first one made. */
  lemma HeadTaken(sent: seq<Body>, queue: seq<Queued>, made: seq<Body>, early: bool, id: UpdateId)
    requires queue != [] && (sent == [] ==> Waiting(queue, id) == made)
    requires queue[0].from == id ==> (early <==> sent != [])
    ensures var after := sent + if early then [] else WaitingOne(queue[0], id);
      && (sent != [] ==> after == sent)
      && (after == [] ==> Waiting(queue[1..], id) == made)
      && (after != [] && sent == [] ==> made != [] && after == [made[0]])
  {
    var one, rest := WaitingOne(queue[0], id), Waiting(queue[1..], id);
    assert sent + [] == sent && [] + one == one && [] + rest == rest;
    assert one == [] || one == [one[0]];
  }

  lemma StepKeepsFirst(s: State, step: Step, id: UpdateId)
    requires Inv(s) && ResultSpec.Inv(Abstract(s)) && Enabled(s, step) && AskedFirst(s) && FirstSent(s, id)
    ensures FirstSent(Apply(s, step), id)
  {
    match step
    case Reject(other) =>
      SentPush(s.outbox, UpdateResult(other, Refused), id);
      assert Sent(s.outbox, id) + [] == Sent(s.outbox, id);
    case Emit(from, _) =>
      ForwarderIsOpen(s, from);
      EmittedKeepsFirst(s, step, id);
    case Finish(from, _) =>
      ForwarderIsOpen(s, from);
      EmittedKeepsFirst(s, step, id);
    case Handle(draining) => HandleKeepsFirst(s, draining, id);
    case _ =>
  }

  lemma StepKeepsAsked(s: State, step: Step)
    requires Inv(s) && Enabled(s, step) && AskedFirst(s)
    ensures AskedFirst(Apply(s, step))
  {
    var t := Apply(s, step);
    if t.reports != s.reports {
      ForwarderIsOpen(s, step.id);
      var r := t.reports[|s.reports|];
      assert t.reports == s.reports + [r];
      forall id | Made(t.reports, id) != [] ensures id in t.issued {
        MadePush(s.reports, r, id);
      }
    }
  }

  lemma {:induction false} RunFirst(run: seq<State>, steps: seq<Step>, n: nat, id: UpdateId)
    requires IsRun(run, steps) && n < |run|
    ensures AskedFirst(run[n]) && FirstSent(run[n], id)
  {
    if n > 0 {
      RunFirst(run, steps, n - 1, id);
      RunInvariant(run, steps, n - 1);
      RunRefines(run, steps, n - 1);
      assert MovesAt(run, steps, n - 1);
      StepKeepsAsked(run[n - 1], steps[n - 1]);
      StepKeepsFirst(run[n - 1], steps[n - 1], id);
    }
  }

  /** Over every run, what is sent about an update is the first thing its forwarder reported,
      be it the early result or the final one; a request that was refused gets the refusal; and
      while nothing is sent, every report still waits in the queue, in order. */
  lemma FirstReportWins(run: seq<State>, steps: seq<Step>, n: nat, id: UpdateId)
    requires IsRun(run, steps) && n < |run|
    ensures var sent, made := Sent(run[n].outbox, id), Made(run[n].reports, id);
      && (made != [] ==> sent == [] || sent == [made[0]])
      && (made == [] ==> sent == [] || sent == [Refused])
      && (sent == [] ==> Waiting(run[n].queue, id) == made)
      && (id in run[n].settled ==> |sent| == 1)
  {
    RunFirst(run, steps, n, id);
    AtMostOneResult(run, steps, n, id);
    SentCounts(run[n].outbox, id);
  }

  // ── Small steps used above ─────────────────────────────────────────────────

  lemma ResultsPush(outbox: seq<Message>, m: Message)
    ensures Results(outbox + [m]) == Results(outbox) + if m.UpdateResult? then multiset{m.id} else multiset{}
  {
    assert (outbox + [m])[..|outbox|] == outbox;
  }

  lemma InsertIds(m: map<HostId, InFlight>, host: HostId, id: UpdateId)
    requires host !in m
    ensures OpenIds(m[host := InFlight(id, false)]) == OpenIds(m) + {id}
    ensures ReportedIds(m[host := InFlight(id, false)]) == ReportedIds(m)
  {
    var n := m[host := InFlight(id, false)];
    assert n[host].id in OpenIds(n);
    forall h | h in m ensures m[h].id in OpenIds(n) && (m[h].earlySent ==> m[h].id in ReportedIds(n)) {
      assert h in n && n[h] == m[h];
    }
  }

  lemma MarkIds(m: map<HostId, InFlight>, host: HostId)
    requires host in m
    requires forall h :: h in m && h != host ==> m[h].id != m[host].id
    ensures OpenIds(m[host := m[host].(earlySent := true)]) == OpenIds(m)
    ensures ReportedIds(m[host := m[host].(earlySent := true)]) == ReportedIds(m) + {m[host].id}
    ensures m[host].id in ReportedIds(m) <==> m[host].earlySent
  {
    var n := m[host := m[host].(earlySent := true)];
    assert n[host].id in ReportedIds(n);
    forall h | h in m ensures m[h].id in OpenIds(n) && (m[h].earlySent ==> m[h].id in ReportedIds(n)) {
      assert h in n && n[h].id == m[h].id;
    }
  }

  lemma RemoveIds(m: map<HostId, InFlight>, host: HostId)
    requires host in m
    requires forall h :: h in m && h != host ==> m[h].id != m[host].id
    ensures OpenIds(m - {host}) == OpenIds(m) - {m[host].id}
    ensures ReportedIds(m - {host}) == ReportedIds(m) - {m[host].id}
    ensures m[host].id in ReportedIds(m) <==> m[host].earlySent
  {
    var n := m - {host};
    forall h | h in m && h != host ensures m[h].id in OpenIds(n) && (m[h].earlySent ==> m[h].id in ReportedIds(n)) {
      assert h in n && n[h] == m[h];
    }
  }

  lemma FreshIsUnknown(s: State, id: UpdateId)
    requires OpenUpdates(s) && id !in s.issued
    ensures !ResultSpec.Known(Abstract(s), id)
  {
  }

  lemma SentItemsPush(outbox: seq<Message>, m: Message, requests: bool)
    ensures SentItems(outbox + [m], requests) == SentItems(outbox, requests) + SentItem(m, requests)
  {
    assert (outbox + [m])[..|outbox|] == outbox;
  }

  lemma LinesPush(items: seq<Item>, item: Item)
    ensures Lines(items + [item]) == Lines(items) + if item.Line? then [item] else []
  {
    assert (items + [item])[..|items|] == items;
  }

  lemma {:induction false} QueuedItemsPush(queue: seq<Queued>, q: Queued, requests: bool)
    ensures QueuedItems(queue + [q], requests) == QueuedItems(queue, requests) + QueuedItem(q, requests)
  {
    if queue == [] {
      assert (queue + [q])[1..] == [];
      assert QueuedItem(q, requests) + [] == QueuedItem(q, requests);
    } else {
      assert (queue + [q])[1..] == queue[1..] + [q];
      QueuedItemsPush(queue[1..], q, requests);
      Regroup(QueuedItem(queue[0], requests), QueuedItems(queue[1..], requests), QueuedItem(q, requests));
    }
  }
}
