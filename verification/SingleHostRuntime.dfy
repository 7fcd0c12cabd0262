/**
 The single-host agent: one optional in-flight update whose early-result channel
 the loop reads directly.  A completion first drains that channel, so an early
 result that raced with the completion still wins over the final one.
 */
module SingleHostRuntime {
  import opened Common
  import opened UpdateProtocol
  import ResultSpec

  /** `early` is the content of the update's unbounded early-result channel. */
  datatype Update = Update(id: UpdateId, earlySent: bool, early: seq<Report>)

  /** `reports` remembers everything the updates reported; no transition reads it. */
  datatype Host = Host(
    update: Option<Update>,
    outbox: seq<Message>,
    reports: seq<Report>,
    issued: set<UpdateId>,
    settled: set<UpdateId>)

  const Idle := Host(None, [], [], {}, {})

  function ResultOf(report: Report): Message {
    UpdateResult(report.id, report.body)
  }

  function FinalResult(u: Update, ending: Ending): Message {
    UpdateResult(ResultId(ending, InFlight(u.id, false)), BodyOf(ending))
  }

  /** What handling a completion sends: a drained early result if none went out
      before, otherwise the final result if none went out at all. */
  function CompletionMessages(u: Update, ending: Ending): seq<Message> {
    if u.earlySent then []
    else if u.early != [] then [ResultOf(u.early[0])]
    else [FinalResult(u, ending)]
  }

  /** What the graceful shutdown sends about the update itself: its result unless an
      early one went out, or at the deadline (`None`) a failure in any case. */
  function ShutdownMessages(u: Update, ending: Option<Ending>): seq<Message> {
    match ending
    case Some(e) => if u.earlySent then [] else [FinalResult(u, e)]
    case None => [UpdateResult(u.id, TimedOut)]
  }

  datatype Action =
    | Deny(id: UpdateId)
    | Execute(id: UpdateId)
    | TaskReportsEarly(text: string)
    | HandleEarly
    | HandleCompleted(ending: Ending)
    | ShutdownCompleted(ending: Ending)

  predicate Possible(s: Host, a: Action) {
    match a
    case Deny(id) => id !in s.issued
    case Execute(id) => id !in s.issued
    case TaskReportsEarly(_) => s.update.Some?
    case HandleEarly => s.update.Some? && s.update.value.early != []
    case HandleCompleted(ending) => s.update.Some? && Owns(s.update.value.id, Completed(ending))
    case ShutdownCompleted(ending) => s.update.Some? && Owns(s.update.value.id, Completed(ending))
  }

  function Do(s: Host, a: Action): Host
    requires Possible(s, a)
  {
    match a
    case Deny(id) => s.(issued := s.issued + {id})
    case Execute(id) =>
      if s.update.Some? then
        s.(issued := s.issued + {id}, settled := s.settled + {id}, outbox := s.outbox + [UpdateResult(id, Refused)])
      else
        s.(issued := s.issued + {id}, update := Some(Update(id, false, [])))
    case TaskReportsEarly(text) =>
      var report := Report(s.update.value.id, Own(text));
      s.(update := Some(s.update.value.(early := s.update.value.early + [report])), reports := s.reports + [report])
    case HandleEarly =>
      var u := s.update.value;
      s.(update := Some(Update(u.id, true, u.early[1..])),
         outbox := if u.earlySent then s.outbox else s.outbox + [ResultOf(u.early[0])])
    case HandleCompleted(ending) =>
      var u := s.update.value;
      s.(update := None, settled := s.settled + {u.id},
         outbox := s.outbox + CompletionMessages(u, ending),
         reports := s.reports + [Report(u.id, BodyOf(ending))])
    case ShutdownCompleted(ending) =>
      // The graceful-shutdown loop never reads the early-result channel.
      var u := s.update.value;
      s.(update := None, settled := s.settled + {u.id},
         outbox := s.outbox + ShutdownMessages(u, Some(ending)),
         reports := s.reports + [Report(u.id, BodyOf(ending))])
  }

  ghost predicate HostInv(s: Host) {
    && s.settled <= s.issued
    && (s.update.Some? ==>
      && s.update.value.id in s.issued - s.settled
      && forall i :: 0 <= i < |s.update.value.early| ==> s.update.value.early[i].id == s.update.value.id)
  }

  function AbstractHost(s: Host): ResultSpec.Spec {
    ResultSpec.Spec(
      if s.update.Some? then {s.update.value.id} else {},
      if s.update.Some? && s.update.value.earlySent then {s.update.value.id} else {},
      s.settled,
      Results(s.outbox))
  }

  function SpecAction(s: Host, a: Action): ResultSpec.Step
    requires Possible(s, a)
  {
    match a
    case Execute(id) => if s.update.Some? then ResultSpec.Refuse(id) else ResultSpec.Begin(id)
    case HandleEarly => if s.update.value.earlySent then ResultSpec.Stutter else ResultSpec.Report(s.update.value.id)
    case HandleCompleted(_) => ResultSpec.Close(s.update.value.id)
    case ShutdownCompleted(_) => ResultSpec.Close(s.update.value.id)
    case _ => ResultSpec.Stutter
  }

  /** Every action of the single-host runtime is a step of the same specification
      that the SSH runtime refines. */
  lemma ActionRefines(s: Host, a: Action)
    requires HostInv(s) && Possible(s, a)
    ensures HostInv(Do(s, a))
    ensures ResultSpec.Next(AbstractHost(s), SpecAction(s, a), AbstractHost(Do(s, a)))
  {
    match a
    case Execute(id) => ResultsPush(s.outbox, UpdateResult(id, Refused));
    case HandleEarly => EarlyRefines(s);
    case HandleCompleted(ending) => CompletedRefines(s, ending);
    case ShutdownCompleted(ending) => ShutdownRefines(s, ending);
    case _ =>
  }

  lemma EarlyRefines(s: Host)
    requires HostInv(s) && Possible(s, HandleEarly)
    ensures HostInv(Do(s, HandleEarly))
    ensures ResultSpec.Next(AbstractHost(s), SpecAction(s, HandleEarly), AbstractHost(Do(s, HandleEarly)))
  {
    ResultsPush(s.outbox, ResultOf(s.update.value.early[0]));
  }

  lemma CompletedRefines(s: Host, ending: Ending)
    requires HostInv(s) && Possible(s, HandleCompleted(ending))
    ensures var a := HandleCompleted(ending);
      HostInv(Do(s, a)) && ResultSpec.Next(AbstractHost(s), SpecAction(s, a), AbstractHost(Do(s, a)))
  {
    var u := s.update.value;
    CompletionSends(s.outbox, u, ending);
    assert {u.id} - {u.id} == {};
  }

  lemma CompletionSends(outbox: seq<Message>, u: Update, ending: Ending)
    requires Owns(u.id, Completed(ending)) && (u.early != [] ==> u.early[0].id == u.id)
    ensures Results(outbox + CompletionMessages(u, ending)) ==
            if u.earlySent then Results(outbox) else Results(outbox) + multiset{u.id}
  {
    var sent := CompletionMessages(u, ending);
    if sent == [] {
      assert outbox + sent == outbox;
    } else {
      ResultsPush(outbox, sent[0]);
      assert sent == [sent[0]];
    }
  }

  lemma ShutdownRefines(s: Host, ending: Ending)
    requires HostInv(s) && Possible(s, ShutdownCompleted(ending))
    ensures var a := ShutdownCompleted(ending);
      HostInv(Do(s, a)) && ResultSpec.Next(AbstractHost(s), SpecAction(s, a), AbstractHost(Do(s, a)))
  {
    var u := s.update.value;
    ResultsPush(s.outbox, FinalResult(u, ending));
    assert {u.id} - {u.id} == {} && s.outbox + [] == s.outbox;
  }

  ghost predicate ActsAt(run: seq<Host>, actions: seq<Action>, i: nat)
    requires i < |actions| && |run| == |actions| + 1
  {
    Possible(run[i], actions[i]) && run[i + 1] == Do(run[i], actions[i])
  }

  ghost predicate IsHostRun(run: seq<Host>, actions: seq<Action>) {
    && |run| == |actions| + 1
    && run[0] == Idle
    && forall i: nat :: i < |actions| ==> ActsAt(run, actions, i)
  }

  lemma IdleIsStart()
    ensures HostInv(Idle) && AbstractHost(Idle) == ResultSpec.Start && ResultSpec.Inv(ResultSpec.Start)
  {
  }

  lemma ActionKeepsBoth(s: Host, a: Action)
    requires HostInv(s) && ResultSpec.Inv(AbstractHost(s)) && Possible(s, a)
    ensures HostInv(Do(s, a)) && ResultSpec.Inv(AbstractHost(Do(s, a)))
  {
    ActionRefines(s, a);
    ResultSpec.StepKeepsInv(AbstractHost(s), SpecAction(s, a), AbstractHost(Do(s, a)));
  }

  lemma {:induction false} HostRunRefines(run: seq<Host>, actions: seq<Action>, n: nat)
    requires IsHostRun(run, actions) && n < |run|
    ensures HostInv(run[n]) && ResultSpec.Inv(AbstractHost(run[n]))
  {
    if n == 0 {
      IdleIsStart();
    } else {
      HostRunRefines(run, actions, n - 1);
      assert ActsAt(run, actions, n - 1);
      ActionKeepsBoth(run[n - 1], actions[n - 1]);
    }
  }

  /** Over every run, an update gets at most one result attempt, exactly one once
      it is settled; and the deadline arm of the graceful shutdown, which sends a
      failure unconditionally, breaks this exactly when an early result of the
      open update already went out. */
  lemma HostAtMostOneResult(run: seq<Host>, actions: seq<Action>, n: nat, id: UpdateId)
    requires IsHostRun(run, actions) && n < |run|
    ensures Results(run[n].outbox)[id] <= 1
    ensures id in run[n].settled ==> Results(run[n].outbox)[id] == 1
    ensures run[n].update.Some? ==>
              (Results(run[n].outbox + [UpdateResult(run[n].update.value.id, TimedOut)])[run[n].update.value.id] <= 1
               <==> !run[n].update.value.earlySent)
  {
    HostRunRefines(run, actions, n);
    assert AbstractHost(run[n]).attempts == Results(run[n].outbox);
    if run[n].update.Some? {
      ResultsPush(run[n].outbox, UpdateResult(run[n].update.value.id, TimedOut));
    }
  }

  /** Such a state is reachable: an update that reported early and is still open when
      the deadline passes gets two results. */
  lemma EarlyThenDeadline(id: UpdateId, text: string) returns (run: seq<Host>, actions: seq<Action>)
    ensures IsHostRun(run, actions) && actions == [Execute(id), TaskReportsEarly(text), HandleEarly]
    ensures run[3].update.Some? && run[3].update.value.id == id && run[3].update.value.earlySent
    ensures Results(run[3].outbox + [UpdateResult(id, TimedOut)])[id] == 2
  {
    actions := [Execute(id), TaskReportsEarly(text), HandleEarly];
    var s1 := Do(Idle, actions[0]);
    var s2 := Do(s1, actions[1]);
    var s3 := Do(s2, actions[2]);
    run := [Idle, s1, s2, s3];
    var report := Report(id, Own(text));
    assert [] + [report] == [report] && [report][1..] == [];
    assert s2.update == Some(Update(id, false, [report])) && s3.update == Some(Update(id, true, []));
    assert ActsAt(run, actions, 0) && ActsAt(run, actions, 1) && ActsAt(run, actions, 2);
    assert s3.outbox == [UpdateResult(id, Own(text))];
    ResultsPush([], UpdateResult(id, Own(text)));
    ResultsPush(s3.outbox, UpdateResult(id, TimedOut));
    assert [] + [UpdateResult(id, Own(text))] == s3.outbox;
  }

  // ── Which of several reports is sent ───────────────────────────────────────

  function Bodies(reports: seq<Report>): seq<Body> {
    seq(|reports|, i requires 0 <= i < |reports| => reports[i].body)
  }

  /** While the update is open, either nothing was sent and the channel holds every report, or
      the first report was sent.  Afterwards, the first report was sent or the request refused. */
  ghost predicate HostFirst(s: Host, id: UpdateId) {
    var sent, made := Sent(s.outbox, id), Made(s.reports, id);
    if s.update.Some? && s.update.value.id == id
    then if s.update.value.earlySent then made != [] && sent == [made[0]]
         else sent == [] && Bodies(s.update.value.early) == made
    else if made == [] then sent == [] || (sent == [Refused] && id in s.settled)
    else sent == [made[0]] && id in s.issued
  }

  /** What a completion sends: the oldest report in the channel or else the final one. */
  lemma CompletionReport(outbox: seq<Message>, u: Update, ending: Ending, id: UpdateId)
    requires Owns(u.id, Completed(ending)) && (u.early != [] ==> u.early[0].id == u.id)
    ensures Sent(outbox + CompletionMessages(u, ending), id) ==
            if u.earlySent || id != u.id then Sent(outbox, id)
            else Sent(outbox, id) + [if u.early != [] then u.early[0].body else BodyOf(ending)]
  {
    var sent := CompletionMessages(u, ending);
    if sent == [] {
      assert outbox + sent == outbox;
    } else {
      SentPush(outbox, sent[0], id);
      assert sent == [sent[0]] && Sent(outbox, id) + [] == Sent(outbox, id);
    }
  }

  lemma CompletionKeepsFirst(s: Host, ending: Ending, id: UpdateId)
    requires HostInv(s) && Possible(s, HandleCompleted(ending)) && HostFirst(s, id)
    ensures HostFirst(Do(s, HandleCompleted(ending)), id)
  {
    var u := s.update.value;
    CompletionReport(s.outbox, u, ending, id);
    MadePush(s.reports, Report(u.id, BodyOf(ending)), id);
    assert Made(s.reports, id) + [] == Made(s.reports, id);
    assert u.early != [] ==> Bodies(u.early)[0] == u.early[0].body;
  }

  lemma EarlyKeepsFirst(s: Host, a: Action, id: UpdateId)
    requires HostInv(s) && Possible(s, a) && (a.TaskReportsEarly? || a.HandleEarly?) && HostFirst(s, id)
    ensures HostFirst(Do(s, a), id)
  {
    var u := s.update.value;
    assert Sent(s.outbox, id) + [] == Sent(s.outbox, id) && Made(s.reports, id) + [] == Made(s.reports, id);
    if a.TaskReportsEarly? {
      var report := Report(u.id, Own(a.text));
      MadePush(s.reports, report, id);
      assert Bodies(u.early + [report]) == Bodies(u.early) + [report.body];
    } else {
      SentPush(s.outbox, ResultOf(u.early[0]), id);
      assert Bodies(u.early)[0] == u.early[0].body;
    }
  }

  lemma ActionKeepsFirst(s: Host, a: Action, id: UpdateId)
    requires HostInv(s) && Possible(s, a) && !a.ShutdownCompleted? && HostFirst(s, id)
    ensures HostFirst(Do(s, a), id)
  {
    match a
    case Execute(other) =>
      SentPush(s.outbox, UpdateResult(other, Refused), id);
      assert Sent(s.outbox, id) + [] == Sent(s.outbox, id);
    case HandleCompleted(ending) => CompletionKeepsFirst(s, ending, id);
    case TaskReportsEarly(_) => EarlyKeepsFirst(s, a, id);
    case HandleEarly => EarlyKeepsFirst(s, a, id);
    case _ =>
  }

  lemma {:induction false} HostRunFirst(run: seq<Host>, actions: seq<Action>, n: nat, id: UpdateId)
    requires IsHostRun(run, actions) && n < |run|
    requires forall i :: 0 <= i < n ==> !actions[i].ShutdownCompleted?
    ensures HostFirst(run[n], id)
  {
    if n > 0 {
      HostRunFirst(run, actions, n - 1, id);
      HostRunRefines(run, actions, n - 1);
      assert ActsAt(run, actions, n - 1);
      ActionKeepsFirst(run[n - 1], actions[n - 1], id);
    }
  }

  /** Until the shutdown, what is sent about an update is the first thing its task reported, and
      a request that was refused gets the refusal. */
  lemma HostFirstReportWins(run: seq<Host>, actions: seq<Action>, n: nat, id: UpdateId)
    requires IsHostRun(run, actions) && n < |run|
    requires forall i :: 0 <= i < n ==> !actions[i].ShutdownCompleted?
    ensures var sent, made := Sent(run[n].outbox, id), Made(run[n].reports, id);
      && (made != [] ==> sent == [] || sent == [made[0]])
      && (made == [] ==> sent == [] || sent == [Refused])
      && (id in run[n].settled ==> |sent| == 1)
  {
    HostRunFirst(run, actions, n, id);
    HostAtMostOneResult(run, actions, n, id);
    SentCounts(run[n].outbox, id);
  }

  /** An update that ends during the shutdown: its first report is the one sent if and only if
      one was sent before, or the channel is empty, or both say the same.  Otherwise the final
      result goes out in place of the early one that nobody read. */
  lemma ShutdownSkipsChannel(run: seq<Host>, actions: seq<Action>, n: nat, ending: Ending)
    requires IsHostRun(run, actions) && n < |run| && Possible(run[n], ShutdownCompleted(ending))
    requires forall i :: 0 <= i < n ==> !actions[i].ShutdownCompleted?
    ensures var u, t := run[n].update.value, Do(run[n], ShutdownCompleted(ending));
      var sent, made := Sent(t.outbox, u.id), Made(t.reports, u.id);
      && made != []
      && (sent == [made[0]] <==> u.earlySent || u.early == [] || u.early[0].body == BodyOf(ending))
      && (!u.earlySent ==> sent == [BodyOf(ending)])
  {
    var s, u := run[n], run[n].update.value;
    HostRunFirst(run, actions, n, u.id);
    MadePush(s.reports, Report(u.id, BodyOf(ending)), u.id);
    SentPush(s.outbox, FinalResult(u, ending), u.id);
    assert s.outbox + [] == s.outbox;
    var t := Do(s, ShutdownCompleted(ending));
    if !u.earlySent {
      assert Sent(t.outbox, u.id) == [BodyOf(ending)] && [BodyOf(ending)][0] == BodyOf(ending);
      assert Made(t.reports, u.id)[0] == if u.early == [] then BodyOf(ending) else u.early[0].body;
    }
  }

  /** Such a state is reachable: the early result still sits in the channel when the update ends. */
  lemma UnreadEarlyIsLost(id: UpdateId, early: string, last: string) returns (run: seq<Host>, actions: seq<Action>)
    ensures IsHostRun(run, actions)
    ensures actions == [Execute(id), TaskReportsEarly(early), ShutdownCompleted(Finished(id, last))]
    ensures Made(run[3].reports, id) == [Own(early), Own(last)] && Sent(run[3].outbox, id) == [Own(last)]
  {
    actions := [Execute(id), TaskReportsEarly(early), ShutdownCompleted(Finished(id, last))];
    var s1 := Do(Idle, Execute(id));
    var s2 := Do(s1, TaskReportsEarly(early));
    EndsUnread(id, early, last);
    run := [Idle, s1, s2, Do(s2, ShutdownCompleted(Finished(id, last)))];
    assert ActsAt(run, actions, 0) && ActsAt(run, actions, 1) && ActsAt(run, actions, 2);
  }

  lemma EndsUnread(id: UpdateId, early: string, last: string)
    ensures var s := Do(Do(Idle, Execute(id)), TaskReportsEarly(early));
      && Possible(s, ShutdownCompleted(Finished(id, last)))
      && var t := Do(s, ShutdownCompleted(Finished(id, last)));
      Made(t.reports, id) == [Own(early), Own(last)] && Sent(t.outbox, id) == [Own(last)]
  {
    var first, final := Report(id, Own(early)), Report(id, Own(last));
    var s := Do(Do(Idle, Execute(id)), TaskReportsEarly(early));
    var t := Do(s, ShutdownCompleted(Finished(id, last)));
    assert t.reports == [first, final] && t.outbox == [ResultOf(final)];
    SaysBoth(first, final);
  }

  lemma SaysBoth(first: Report, final: Report)
    requires first.id == final.id
    ensures Made([first, final], first.id) == [first.body, final.body]
    ensures Sent([ResultOf(final)], final.id) == [final.body]
  {
    assert [first, final] == [] + [first] + [final] && [ResultOf(final)] == [] + [ResultOf(final)];
    MadePush([], first, first.id);
    MadePush([] + [first], final, first.id);
    SentPush([], ResultOf(final), final.id);
  }

  // ── The runtime ────────────────────────────────────────────────────────────

  function Outputs(id: UpdateId, lines: seq<string>): seq<Message> {
    seq(|lines|, i requires 0 <= i < |lines| => UpdateOutput(id, lines[i]))
  }

  /** Everything sent about an update during the shutdown. */
  function Farewell(u: Update, before: seq<string>, ending: Option<Ending>, after: seq<string>): seq<Message> {
    Outputs(u.id, before) + ShutdownMessages(u, ending) + Outputs(u.id, after)
  }

  lemma {:induction false} ResultsConcat(xs: seq<Message>, ys: seq<Message>)
    ensures Results(xs + ys) == Results(xs) + Results(ys)
  {
    if ys == [] {
      assert xs + ys == xs;
    } else {
      var front, last := ys[..|ys| - 1], ys[|ys| - 1];
      assert xs + ys == (xs + front) + [last] && ys == front + [last];
      ResultsPush(xs + front, last);
      ResultsPush(front, last);
      ResultsConcat(xs, front);
    }
  }

  lemma {:induction false} OutputsAreNoResults(id: UpdateId, lines: seq<string>)
    ensures Results(Outputs(id, lines)) == multiset{}
  {
    if lines != [] {
      var front := lines[..|lines| - 1];
      OutputsAreNoResults(id, front);
      assert Outputs(id, lines) == Outputs(id, front) + [UpdateOutput(id, lines[|lines| - 1])];
      ResultsPush(Outputs(id, front), UpdateOutput(id, lines[|lines| - 1]));
    }
  }

  lemma FarewellResults(u: Update, before: seq<string>, ending: Option<Ending>, after: seq<string>)
    ensures Results(Farewell(u, before, ending, after)) == Results(ShutdownMessages(u, ending))
  {
    OutputsAreNoResults(u.id, before);
    OutputsAreNoResults(u.id, after);
    ResultsConcat(Outputs(u.id, before), ShutdownMessages(u, ending));
    ResultsConcat(Outputs(u.id, before) + ShutdownMessages(u, ending), Outputs(u.id, after));
  }

  /** The whole shutdown: the open update ends up with at least one result, and with
      exactly one if and only if its task ended in time or it had not reported early. */
  lemma ShutdownResults(run: seq<Host>, actions: seq<Action>, n: nat,
                        before: seq<string>, ending: Option<Ending>, after: seq<string>)
    requires IsHostRun(run, actions) && n < |run| && run[n].update.Some?
    requires ending.Some? ==> Owns(run[n].update.value.id, Completed(ending.value))
    ensures var u := run[n].update.value;
      var results := Results(run[n].outbox + Farewell(u, before, ending, after));
      results[u.id] >= 1 && (results[u.id] == 1 <==> ending.Some? || !u.earlySent)
  {
    var u := run[n].update.value;
    HostRunRefines(run, actions, n);
    assert AbstractHost(run[n]).attempts == Results(run[n].outbox);
    ResultsConcat(run[n].outbox, Farewell(u, before, ending, after));
    FarewellResults(u, before, ending, after);
    var sent := ShutdownMessages(u, ending);
    if sent != [] {
      ResultsPush([], sent[0]);
      assert [] + [sent[0]] == sent;
    }
  }

  class AgentRuntime {
    var update: Option<Update>
    var outbox: seq<Message>
    ghost var reports: seq<Report>
    ghost var issued: set<UpdateId>
    ghost var settled: set<UpdateId>

    constructor ()
      ensures Value() == Idle
    {
      update, outbox, reports, issued, settled := None, [], [], {}, {};
    }

    ghost function Value(): Host
      reads this
    {
      Host(update, outbox, reports, issued, settled)
    }

    method HandleExecuteUpdate(id: UpdateId)
      modifies this
      ensures old(update).Some? ==> update == old(update) && outbox == old(outbox) + [UpdateResult(id, Refused)]
      ensures old(update).None? ==> update == Some(Update(id, false, [])) && outbox == old(outbox)
      ensures id !in old(issued) ==> Value() == Do(old(Value()), Execute(id))
    {
      issued := issued + {id};
      if update.Some? {
        outbox := outbox + [UpdateResult(id, Refused)];
        settled := settled + {id};
        return;
      }
      update := Some(Update(id, false, []));
    }

    /** Polling takes the oldest early result off the channel and handles it. */
    method PollEarlyResult(sendOk: bool) returns (disconnected: bool)
      requires Possible(Value(), HandleEarly)
      modifies this
      ensures Value() == Do(old(Value()), HandleEarly)
      ensures disconnected <==> !sendOk && !old(update).value.earlySent
    {
      var payload := update.value.early[0];
      update := Some(update.value.(early := update.value.early[1..]));
      disconnected := HandleEarlyResult(payload, sendOk);
    }

    /** A failed send ends the connection but still counts as the one attempt. */
    method HandleEarlyResult(payload: Report, sendOk: bool) returns (disconnected: bool)
      modifies this
      ensures reports == old(reports) && issued == old(issued) && settled == old(settled)
      ensures disconnected <==> !sendOk && old(update).Some? && !old(update).value.earlySent
      ensures old(update).None? ==> update == None && outbox == old(outbox)
      ensures old(update).Some? ==>
                && update == Some(old(update).value.(earlySent := true))
                && outbox == if old(update).value.earlySent then old(outbox) else old(outbox) + [ResultOf(payload)]
    {
      disconnected := false;
      if update.Some? {
        if !update.value.earlySent {
          outbox := outbox + [ResultOf(payload)];
          disconnected := !sendOk;
          update := Some(update.value.(earlySent := true));
        }
      }
    }

    /** Drains the early-result channel, then sends the final result if nothing
        has been sent yet. */
    method HandleCompleted(ending: Ending, sendOk: bool) returns (disconnected: bool)
      modifies this
      ensures old(update).None? ==> Value() == old(Value())
      ensures old(update).Some? ==>
                update == None && outbox == old(outbox) + CompletionMessages(old(update).value, ending)
      ensures old(update).Some? && Owns(old(update).value.id, Completed(ending)) ==>
                Value() == Do(old(Value()), Action.HandleCompleted(ending))
      ensures disconnected <==> !sendOk && old(update).Some? && !old(update).value.earlySent
    {
      disconnected := false;
      if update.None? {
        return;
      }
      var taken := update.value;
      update := None;
      settled, reports := settled + {taken.id}, reports + [Report(taken.id, BodyOf(ending))];
      var earlySent, early := taken.earlySent, taken.early;
      ghost var i := 0;
      while early != []
        invariant 0 <= i <= |taken.early| && early == taken.early[i..]
        invariant earlySent <==> taken.earlySent || i > 0
        invariant outbox == old(outbox) + if taken.earlySent || i == 0 then [] else [ResultOf(taken.early[0])]
        invariant update == None && (disconnected <==> !sendOk && earlySent && !taken.earlySent)
        invariant issued == old(issued) && settled == old(settled) + {taken.id}
        invariant reports == old(reports) + [Report(taken.id, BodyOf(ending))]
        decreases |early|
      {
        var payload := early[0];
        early := early[1..];
        if !earlySent {
          outbox := outbox + [ResultOf(payload)];
          disconnected := !sendOk;
          earlySent := true;
        }
        i := i + 1;
      }
      if !earlySent {
        outbox := outbox + [FinalResult(taken, ending)];
        disconnected := !sendOk;
      }
    }

    /** Forward output lines of the update being shut down. */
    method SendOutputs(id: UpdateId, lines: seq<string>)
      modifies this`outbox
      ensures outbox == old(outbox) + Outputs(id, lines)
    {
      for i := 0 to |lines|
        invariant outbox == old(outbox) + Outputs(id, lines)[..i]
      {
        outbox := outbox + [UpdateOutput(id, lines[i])];
      }
    }

    /** `before` are the lines read until the update ends (`ending`) or the deadline
        passes (`None`), `after` those drained afterwards.  The early-result channel
        is never read. */
    method GracefulShutdown(before: seq<string>, ending: Option<Ending>, after: seq<string>)
      modifies this
      ensures update == None
      ensures old(update).None? ==> outbox == old(outbox)
      ensures old(update).Some? ==> outbox == old(outbox) + Farewell(old(update).value, before, ending, after)
    {
      if update.None? {
        return;
      }
      var taken := update.value;
      update := None;
      SendOutputs(taken.id, before);
      if ending.Some? {
        if !taken.earlySent {
          outbox := outbox + [FinalResult(taken, ending.value)];
        }
      } else {
        outbox := outbox + [UpdateResult(taken.id, TimedOut)];
      }
      SendOutputs(taken.id, after);
    }
  }
}
