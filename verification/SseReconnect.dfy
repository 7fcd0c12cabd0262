/**
 The reconnect machine of the event streams: a closure over `attempt` and
 `disconnected` that starts fetches, timers and token refreshes.  The
 update-output stream stops when the server closes it; the admin stream
 reconnects.
 */
module SseReconnect {
  import opened Common

  /** An asynchronous operation whose callback is still to come. */
  datatype Op = Fetch | Body | Timer(delay: nat, unauthorized: bool) | Refresh

  /** `maxAttempts` is `None` for the admin stream's unlimited default;
      `reconnects` tells the admin stream from the update-output stream. */
  datatype Config = Config(maxAttempts: Option<nat>, reconnects: bool)

  /** `pending` are the operations in flight.  History: `issued` counts all fetches,
      `sinceOk` those since the last successful response, `wasOpen` tells whether
      there has been one. */
  datatype Stream = Stream(
    attempt: nat,
    disconnected: bool,
    pending: multiset<Op>,
    issued: nat,
    sinceOk: nat,
    wasOpen: bool,
    gaveUp: bool,
    revoked: bool,
    ended: bool)

  datatype Input =
    | ResponseOk
    | ResponseFailed(unauthorized: bool)
    | FetchAborted
    | BodyEnds
    | BodyBreaks
    | BodyAborted
    | TimerFires(delay: nat, unauthorized: bool)
    | RefreshSucceeds
    | RefreshFails(authClass: bool)
    | Disconnect

  const MAX_DELAY: nat := 30000

  function Pow2(n: nat): (r: nat)
    ensures r >= 1
  {
    if n == 0 then 1 else 2 * Pow2(n - 1)
  }

  /** Exponential backoff, capped. */
  function Backoff(attempt: nat): nat
    requires attempt >= 1
  {
    var delay := 1000 * Pow2(attempt - 1);
    if delay < MAX_DELAY then delay else MAX_DELAY
  }

  lemma {:induction false} BackoffIsCapped(attempt: nat)
    requires attempt >= 1
    ensures 1000 <= Backoff(attempt) <= MAX_DELAY
    ensures Backoff(attempt) <= Backoff(attempt + 1)
    ensures attempt >= 6 <==> Backoff(attempt) == MAX_DELAY
    ensures Backoff(1) == 1000 && MAX_DELAY == 30000
    ensures Backoff(attempt + 1) == if 2 * Backoff(attempt) < 30000 then 2 * Backoff(attempt) else 30000
  {
    if attempt >= 6 {
      Pow2Grows(5, attempt - 1);
      assert Pow2(5) == 32;
    } else {
      Pow2Grows(attempt - 1, 4);
      assert Pow2(4) == 16;
    }
  }

  lemma {:induction false} Pow2Grows(m: nat, n: nat)
    requires m <= n
    ensures Pow2(m) <= Pow2(n)
    decreases n - m
  {
    if m < n {
      Pow2Grows(m, n - 1);
    }
  }

  // ── Transitions ────────────────────────────────────────────────────────────

  predicate Within(c: Config, attempt: nat) {
    c.maxAttempts.None? || attempt <= c.maxAttempts.value
  }

  /** The operation whose callback an input is. */
  function Operation(i: Input): Option<Op> {
    match i
    case ResponseOk => Some(Fetch)
    case ResponseFailed(_) => Some(Fetch)
    case FetchAborted => Some(Fetch)
    case BodyEnds => Some(Body)
    case BodyBreaks => Some(Body)
    case BodyAborted => Some(Body)
    case TimerFires(delay, unauthorized) => Some(Timer(delay, unauthorized))
    case RefreshSucceeds => Some(Refresh)
    case RefreshFails(_) => Some(Refresh)
    case Disconnect => None
  }

  /** Only the disconnect function aborts a request. */
  predicate Enabled(s: Stream, i: Input) {
    && (Operation(i).Some? ==> Operation(i).value in s.pending)
    && (i == FetchAborted || i == BodyAborted ==> s.disconnected)
  }

  function Connect(s: Stream): Stream {
    if s.disconnected then s
    else s.(pending := s.pending + multiset{Fetch}, issued := s.issued + 1, sinceOk := s.sinceOk + 1)
  }

  /** The rejection handler: give up past the last attempt, else back off. */
  function Fail(c: Config, s: Stream, unauthorized: bool): Stream {
    if s.disconnected then s
    else
      var attempt := s.attempt + 1;
      if Within(c, attempt)
      then s.(attempt := attempt, pending := s.pending + multiset{Timer(Backoff(attempt), unauthorized)})
      else s.(attempt := attempt, gaveUp := true)
  }

  function Settle(s: Stream, i: Input): Stream {
    if Operation(i).Some? then s.(pending := s.pending - multiset{Operation(i).value}) else s
  }

  function Callback(c: Config, s: Stream, i: Input): Stream {
    match i
    case ResponseOk => s.(attempt := 0, sinceOk := 0, wasOpen := true, pending := s.pending + multiset{Body})
    case ResponseFailed(unauthorized) => Fail(c, s, unauthorized)
    case FetchAborted => s
    case BodyEnds =>
      if s.disconnected then s
      else if c.reconnects then
        s.(attempt := s.attempt + 1, pending := s.pending + multiset{Timer(Backoff(s.attempt + 1), false)})
      else s.(ended := true)
    case BodyBreaks => Fail(c, s, false)
    case BodyAborted => s
    case TimerFires(_, unauthorized) =>
      if s.disconnected then s
      else if unauthorized then s.(pending := s.pending + multiset{Refresh})
      else Connect(s)
    case RefreshSucceeds => Connect(s)
    case RefreshFails(authClass) => if authClass then s.(revoked := true) else Connect(s)
    case Disconnect => s.(disconnected := true)
  }

  function Step(c: Config, s: Stream, i: Input): Stream {
    Callback(c, Settle(s, i), i)
  }

  const Blank := Stream(0, false, multiset{}, 0, 0, false, false, false, false)

  const Opening := Connect(Blank)

  // ── The invariant ──────────────────────────────────────────────────────────

  /** The attempt counter behind a pending retry: within the limit, or the one
      unconditional retry after the admin stream was closed by the server. */
  predicate Allowed(c: Config, s: Stream) {
    Within(c, s.attempt) || (c.reconnects && s.wasOpen && s.attempt <= 1)
  }

  /** What a single pending operation says about the counters. */
  predicate Counts(c: Config, s: Stream, op: Op) {
    match op
    case Fetch => Allowed(c, s) && s.sinceOk == s.attempt + if s.wasOpen then 0 else 1
    case Body => s.wasOpen && s.attempt == 0 && s.sinceOk == 0
    case Timer(delay, _) =>
      && Allowed(c, s) && s.attempt >= 1 && delay == Backoff(s.attempt)
      && s.sinceOk == s.attempt - if s.wasOpen then 1 else 0
    case Refresh =>
      && Allowed(c, s) && s.attempt >= 1
      && s.sinceOk == s.attempt - if s.wasOpen then 1 else 0
  }

  ghost predicate Inv(c: Config, s: Stream) {
    && |s.pending| <= 1
    && (forall op :: op in s.pending ==> Counts(c, s, op))
    && (s.gaveUp ==> c.maxAttempts.Some? && s.attempt > c.maxAttempts.value)
    && (s.gaveUp || s.revoked || s.ended ==> s.pending == multiset{})
    && (s.pending == multiset{} ==> s.disconnected || s.gaveUp || s.revoked || s.ended)
    && (c.maxAttempts.Some? ==> s.sinceOk <= c.maxAttempts.value + 1)
  }

  lemma OnlyOne(p: multiset<Op>, op: Op)
    requires |p| <= 1 && op in p
    ensures p == multiset{op} && p - multiset{op} == multiset{}
  {
    assert p == (p - multiset{op}) + multiset{op};
    assert |p| == |p - multiset{op}| + 1;
  }

  /** Nothing pending any more, and no final state reached. */
  predicate AtRest(c: Config, s: Stream) {
    && s.pending == multiset{} && !s.gaveUp && !s.revoked && !s.ended
    && (c.maxAttempts.Some? ==> s.sinceOk <= c.maxAttempts.value + 1)
  }

  lemma ConnectKeepsInv(c: Config, s: Stream)
    requires AtRest(c, s) && s.attempt >= 1 && Allowed(c, s)
    requires s.sinceOk == s.attempt - if s.wasOpen then 1 else 0
    ensures Inv(c, Connect(s))
  {
    if !s.disconnected {
      assert Connect(s).pending == multiset{Fetch};
    }
  }

  lemma FailKeepsInv(c: Config, s: Stream, unauthorized: bool)
    requires AtRest(c, s) && s.sinceOk == s.attempt + if s.wasOpen then 0 else 1
    ensures Inv(c, Fail(c, s, unauthorized))
  {
    if !s.disconnected && Within(c, s.attempt + 1) {
      assert Fail(c, s, unauthorized).pending == multiset{Timer(Backoff(s.attempt + 1), unauthorized)};
    }
  }

  lemma RequestCallback(c: Config, s: Stream, i: Input)
    requires AtRest(c, s) && Operation(i).Some? && Operation(i).value in {Fetch, Body}
    requires Counts(c, s, Operation(i).value) && (i == FetchAborted || i == BodyAborted ==> s.disconnected)
    ensures Inv(c, Callback(c, s, i))
  {
    if i.ResponseOk? {
      assert Callback(c, s, i).pending == multiset{Body};
    } else if i.ResponseFailed? || i.BodyBreaks? {
      FailKeepsInv(c, s, i.ResponseFailed? && i.unauthorized);
    } else if i.BodyEnds? && !s.disconnected {
      EndKeepsInv(c, s);
      assert c.reconnects ==> Callback(c, s, i).pending == multiset{Timer(Backoff(1), false)};
    }
  }

  lemma RetryCallback(c: Config, s: Stream, i: Input)
    requires AtRest(c, s) && (i.TimerFires? || i.RefreshSucceeds? || i.RefreshFails?)
    requires Counts(c, s, Operation(i).value)
    ensures Inv(c, Callback(c, s, i))
  {
    if i.TimerFires? && i.unauthorized {
      assert !s.disconnected ==> Callback(c, s, i).pending == multiset{Refresh};
    } else {
      ConnectKeepsInv(c, s);
    }
  }

  /** Taking up a callback leaves nothing pending. */
  lemma SettleRests(c: Config, s: Stream, i: Input)
    requires Inv(c, s) && Enabled(s, i) && i != Disconnect
    ensures AtRest(c, Settle(s, i)) && Counts(c, Settle(s, i), Operation(i).value)
  {
    OnlyOne(s.pending, Operation(i).value);
  }

  lemma StepKeepsInv(c: Config, s: Stream, i: Input)
    requires Inv(c, s) && Enabled(s, i)
    ensures Inv(c, Step(c, s, i))
  {
    if i != Disconnect {
      var op, t := Operation(i).value, Settle(s, i);
      SettleRests(c, s, i);
      if op == Fetch || op == Body {
        RequestCallback(c, t, i);
      } else {
        RetryCallback(c, t, i);
      }
    }
  }

  lemma EndKeepsInv(c: Config, s: Stream)
    requires AtRest(c, s) && s.wasOpen && s.attempt == 0 && s.sinceOk == 0
    ensures c.reconnects ==>
              Inv(c, s.(attempt := 1, pending := multiset{Timer(Backoff(1), false)}))
    ensures !c.reconnects ==> Inv(c, s.(ended := true))
  {
  }

  ghost predicate MovesAt(c: Config, run: seq<Stream>, inputs: seq<Input>, i: nat)
    requires i < |inputs| && |run| == |inputs| + 1
  {
    Enabled(run[i], inputs[i]) && run[i + 1] == Step(c, run[i], inputs[i])
  }

  ghost predicate IsRun(c: Config, run: seq<Stream>, inputs: seq<Input>) {
    && |run| == |inputs| + 1
    && run[0] == Opening
    && forall i: nat :: i < |inputs| ==> MovesAt(c, run, inputs, i)
  }

  lemma {:induction false} RunInvariant(c: Config, run: seq<Stream>, inputs: seq<Input>, n: nat)
    requires IsRun(c, run, inputs) && n < |run|
    ensures Inv(c, run[n])
  {
    if n == 0 {
      assert run[0].pending == multiset{Fetch};
    } else {
      RunInvariant(c, run, inputs, n - 1);
      assert MovesAt(c, run, inputs, n - 1);
      StepKeepsInv(c, run[n - 1], inputs[n - 1]);
    }
  }

  /** In every reachable state at most one fetch, timer or refresh is pending;
      between successful responses at most `maxAttempts` + 1 fetches are issued;
      every wait is the capped backoff; and the machine is only ever idle after a
      disconnect, a server close, a revoked session or the last attempt. */
  lemma OneOperationAtATime(c: Config, run: seq<Stream>, inputs: seq<Input>, n: nat)
    requires IsRun(c, run, inputs) && n < |run|
    ensures var s := run[n];
      && |s.pending| <= 1
      && (c.maxAttempts.Some? ==> s.sinceOk <= c.maxAttempts.value + 1)
      && (forall delay: nat, unauthorized :: Timer(delay, unauthorized) in s.pending ==>
            s.attempt >= 1 && delay == Backoff(s.attempt) && 1000 <= delay <= MAX_DELAY)
      && (s.pending == multiset{} ==> s.disconnected || s.gaveUp || s.revoked || s.ended)
  {
    RunInvariant(c, run, inputs, n);
    var s := run[n];
    forall delay: nat, unauthorized | Timer(delay, unauthorized) in s.pending
      ensures s.attempt >= 1 && delay == Backoff(s.attempt) && 1000 <= delay <= MAX_DELAY {
      assert Counts(c, s, Timer(delay, unauthorized));
      BackoffIsCapped(s.attempt);
    }
  }

  lemma DisconnectedIssuesNothing(c: Config, s: Stream, i: Input)
    requires s.disconnected
    ensures Step(c, s, i).disconnected && Step(c, s, i).issued == s.issued
  {
  }

  /** After a disconnect no further fetch is ever issued. */
  lemma {:induction false} NoFetchAfterDisconnect(c: Config, run: seq<Stream>, inputs: seq<Input>, m: nat, n: nat)
    requires IsRun(c, run, inputs) && m <= n < |run| && run[m].disconnected
    ensures run[n].disconnected && run[n].issued == run[m].issued
  {
    if m < n {
      NoFetchAfterDisconnect(c, run, inputs, m, n - 1);
      assert MovesAt(c, run, inputs, n - 1);
      DisconnectedIssuesNothing(c, run[n - 1], inputs[n - 1]);
    }
  }

  /** Callbacks still to come once disconnected: a fetch may yet open a body. */
  function Outstanding(p: multiset<Op>): nat {
    p[Fetch] + |p|
  }

  /** After a disconnect every callback brings the machine closer to rest. */
  lemma DisconnectedComesToRest(c: Config, s: Stream, i: Input)
    requires s.disconnected && Enabled(s, i) && i != Disconnect
    ensures Outstanding(Step(c, s, i).pending) < Outstanding(s.pending)
  {
    var op := Operation(i).value;
    assert s.pending == (s.pending - multiset{op}) + multiset{op};
  }

  // ── What each callback starts, read off the inputs ─────────────────────────

  predicate IsFailure(i: Input) {
    i.ResponseFailed? || i.BodyBreaks?
  }

  /** Failures, and closes of a stream that reconnects, since the last successful response. */
  function Failures(c: Config, inputs: seq<Input>): nat {
    if inputs == [] then 0
    else
      var before, last := Failures(c, inputs[..|inputs| - 1]), inputs[|inputs| - 1];
      if last.ResponseOk? then 0
      else if IsFailure(last) || (last.BodyEnds? && c.reconnects) then before + 1
      else before
  }

  /** A callback takes up the one pending operation. */
  lemma StepFromRest(c: Config, s: Stream, i: Input)
    requires Inv(c, s) && Enabled(s, i) && i != Disconnect
    ensures Step(c, s, i) == Callback(c, s.(pending := multiset{}), i)
  {
    OnlyOne(s.pending, Operation(i).value);
  }

  lemma CallbackCounts(c: Config, s: Stream, i: Input)
    requires !s.disconnected
    ensures Callback(c, s, i).attempt ==
            if i.ResponseOk? then 0
            else if IsFailure(i) || (i.BodyEnds? && c.reconnects) then s.attempt + 1 else s.attempt
  {
  }

  /** What a callback leaves pending, from rest. */
  lemma CallbackLeaves(c: Config, s: Stream, i: Input)
    requires s.pending == multiset{} && i != Disconnect
    ensures var t := Callback(c, s, i);
      t.pending ==
      if i == ResponseOk then multiset{Body}
      else if s.disconnected || i == FetchAborted || i == BodyAborted || i == RefreshFails(true) then multiset{}
      else if i.TimerFires? && i.unauthorized then multiset{Refresh}
      else if i.TimerFires? || i == RefreshSucceeds || i == RefreshFails(false) then multiset{Fetch}
      else if (IsFailure(i) && Within(c, s.attempt + 1)) || (i == BodyEnds && c.reconnects)
      then multiset{Timer(Backoff(s.attempt + 1), i == ResponseFailed(true))}
      else multiset{}
  {
    match i
    case ResponseFailed(_) =>
    case BodyBreaks =>
    case BodyEnds =>
    case TimerFires(_, _) =>
    case RefreshFails(_) =>
    case _ =>
  }

  /** From rest, which callback starts which request. */
  lemma CallbackStarts(c: Config, s: Stream, i: Input)
    requires s.pending == multiset{} && i != Disconnect
    ensures var t := Callback(c, s, i);
      && (Refresh in t.pending <==> !s.disconnected && i.TimerFires? && i.unauthorized)
      && (Fetch in t.pending <==>
            !s.disconnected && ((i.TimerFires? && !i.unauthorized) || i == RefreshSucceeds || i == RefreshFails(false)))
      && (Body in t.pending <==> i == ResponseOk)
  {
    CallbackLeaves(c, s, i);
  }

  lemma CallbackIssues(c: Config, s: Stream, i: Input)
    ensures Callback(c, s, i).issued == s.issued +
            if !s.disconnected &&
               ((i.TimerFires? && !i.unauthorized) || i == RefreshSucceeds || i == RefreshFails(false))
            then 1 else 0
  {
  }

  /** From rest, which callback sets a timer. */
  lemma CallbackWaits(c: Config, s: Stream, i: Input, delay: nat, unauthorized: bool)
    requires s.pending == multiset{} && i != Disconnect
    ensures Timer(delay, unauthorized) in Callback(c, s, i).pending <==>
              && !s.disconnected
              && ((IsFailure(i) && (c.maxAttempts.None? || s.attempt + 1 <= c.maxAttempts.value))
                  || (i == BodyEnds && c.reconnects))
              && delay == Backoff(s.attempt + 1) && unauthorized == (i == ResponseFailed(true))
  {
    CallbackLeaves(c, s, i);
  }

  /** Which callback ends it all. */
  lemma CallbackStops(c: Config, s: Stream, i: Input)
    ensures var t := Callback(c, s, i);
      && (t.revoked <==> s.revoked || i == RefreshFails(true))
      && (t.gaveUp <==>
            || s.gaveUp
            || (!s.disconnected && IsFailure(i) && c.maxAttempts.Some? && s.attempt + 1 > c.maxAttempts.value))
      && (t.ended <==> s.ended || (!s.disconnected && i == BodyEnds && !c.reconnects))
  {
    match i
    case ResponseFailed(_) =>
    case BodyBreaks =>
    case BodyEnds =>
    case RefreshFails(_) =>
    case _ =>
  }

  lemma StepDisconnects(c: Config, s: Stream, i: Input)
    ensures Step(c, s, i).disconnected <==> s.disconnected || i == Disconnect
  {
  }

  lemma {:induction false} DisconnectedByInput(c: Config, run: seq<Stream>, inputs: seq<Input>, n: nat)
    requires IsRun(c, run, inputs) && n < |run|
    ensures run[n].disconnected <==> Disconnect in inputs[..n]
  {
    if n > 0 {
      DisconnectedByInput(c, run, inputs, n - 1);
      assert MovesAt(c, run, inputs, n - 1);
      StepDisconnects(c, run[n - 1], inputs[n - 1]);
      assert inputs[..n] == inputs[..n - 1] + [inputs[n - 1]];
    }
  }

  lemma FailuresPush(c: Config, inputs: seq<Input>, n: nat)
    requires n < |inputs|
    ensures Failures(c, inputs[..n + 1]) ==
            if inputs[n].ResponseOk? then 0
            else if IsFailure(inputs[n]) || (inputs[n].BodyEnds? && c.reconnects) then Failures(c, inputs[..n]) + 1
            else Failures(c, inputs[..n])
  {
    assert inputs[..n + 1][..n] == inputs[..n];
  }

  /** While connected, `attempt` counts the failures since the last success. */
  lemma {:induction false} AttemptCounts(c: Config, run: seq<Stream>, inputs: seq<Input>, n: nat)
    requires IsRun(c, run, inputs) && n < |run| && Disconnect !in inputs[..n]
    ensures run[n].attempt == Failures(c, inputs[..n])
  {
    if n > 0 {
      assert inputs[..n] == inputs[..n - 1] + [inputs[n - 1]];
      AttemptCounts(c, run, inputs, n - 1);
      DisconnectedByInput(c, run, inputs, n - 1);
      assert MovesAt(c, run, inputs, n - 1);
      CallbackCounts(c, Settle(run[n - 1], inputs[n - 1]), inputs[n - 1]);
      FailuresPush(c, inputs, n - 1);
    }
  }

  /** Every callback of a run finds the machine at rest. */
  lemma RunStep(c: Config, run: seq<Stream>, inputs: seq<Input>, n: nat)
    requires IsRun(c, run, inputs) && n < |inputs| && inputs[n] != Disconnect
    ensures run[n + 1] == Callback(c, run[n].(pending := multiset{}), inputs[n])
    ensures Operation(inputs[n]).value in run[n].pending
  {
    assert MovesAt(c, run, inputs, n);
    RunInvariant(c, run, inputs, n);
    StepFromRest(c, run[n], inputs[n]);
  }

  /** The timer that fires was set by the callback right before: for a refresh exactly if
      that was an unauthorized response. */
  lemma TimerCause(c: Config, run: seq<Stream>, inputs: seq<Input>, n: nat)
    requires IsRun(c, run, inputs) && n < |inputs| && inputs[n].TimerFires? && Disconnect !in inputs[..n]
    ensures n > 0 && (inputs[n].unauthorized <==> inputs[n - 1] == ResponseFailed(true))
    ensures IsFailure(inputs[n - 1]) || inputs[n - 1] == BodyEnds
  {
    assert run[0].pending == multiset{Fetch};
    RunStep(c, run, inputs, n);
    if n > 0 {
      assert inputs[..n][n - 1] == inputs[n - 1];
      RunStep(c, run, inputs, n - 1);
      CallbackWaits(c, run[n - 1].(pending := multiset{}), inputs[n - 1], inputs[n].delay, inputs[n].unauthorized);
    }
  }

  /** A timer set by an unauthorized response fires in a stream that is still wanted. */
  predicate AsksForToken(inputs: seq<Input>, n: nat)
    requires n < |inputs|
  {
    && Disconnect !in inputs[..n]
    && inputs[n].TimerFires? && n > 0 && inputs[n - 1] == ResponseFailed(true)
  }

  /** A timer set by anything else fires, or a refresh ends other than by an auth-class
      failure. */
  predicate AsksForStream(inputs: seq<Input>, n: nat)
    requires n < |inputs|
  {
    && Disconnect !in inputs[..n]
    && ((inputs[n].TimerFires? && n > 0 && inputs[n - 1] != ResponseFailed(true))
        || inputs[n] == RefreshSucceeds || inputs[n] == RefreshFails(false))
  }

  /** Over every run: the token is refreshed exactly when a timer set by an unauthorized
      response fires, a fetch is issued exactly when another timer fires or a refresh ends
      without revoking the session, a body is read exactly after a successful response, and
      neither refresh nor fetch after a disconnect. */
  lemma StartsExactly(c: Config, run: seq<Stream>, inputs: seq<Input>, n: nat)
    requires IsRun(c, run, inputs) && n < |inputs| && inputs[n] != Disconnect
    ensures var s, t := run[n], run[n + 1];
      && (Refresh in t.pending <==> AsksForToken(inputs, n))
      && (Fetch in t.pending <==> AsksForStream(inputs, n))
      && t.issued == s.issued + (if AsksForStream(inputs, n) then 1 else 0)
      && (Body in t.pending <==> inputs[n] == ResponseOk)
  {
    RunStep(c, run, inputs, n);
    CallbackStarts(c, run[n].(pending := multiset{}), inputs[n]);
    CallbackIssues(c, run[n].(pending := multiset{}), inputs[n]);
    DisconnectedByInput(c, run, inputs, n);
    if inputs[n].TimerFires? && Disconnect !in inputs[..n] {
      TimerCause(c, run, inputs, n);
    }
  }

  /** A retry is due at `n`: a failure with attempts left, or a close of a stream that
      reconnects. */
  predicate Retries(c: Config, inputs: seq<Input>, n: nat)
    requires n < |inputs|
  {
    && Disconnect !in inputs[..n]
    && ((IsFailure(inputs[n]) &&
         (c.maxAttempts.None? || Failures(c, inputs[..n + 1]) <= c.maxAttempts.value))
        || (inputs[n] == BodyEnds && c.reconnects))
  }

  /** Over every run: a timer is set exactly when a retry is due, for the backoff of the
      failures counted so far and remembering whether the response was unauthorized. */
  lemma WaitsExactly(c: Config, run: seq<Stream>, inputs: seq<Input>, n: nat, delay: nat, unauthorized: bool)
    requires IsRun(c, run, inputs) && n < |inputs| && inputs[n] != Disconnect
    ensures Timer(delay, unauthorized) in run[n + 1].pending <==>
              && Retries(c, inputs, n) && Failures(c, inputs[..n + 1]) >= 1
              && delay == Backoff(Failures(c, inputs[..n + 1]))
              && unauthorized == (inputs[n] == ResponseFailed(true))
  {
    RunStep(c, run, inputs, n);
    CallbackWaits(c, run[n].(pending := multiset{}), inputs[n], delay, unauthorized);
    DisconnectedByInput(c, run, inputs, n);
    FailuresPush(c, inputs, n);
    if Disconnect !in inputs[..n] {
      AttemptCounts(c, run, inputs, n);
    }
  }

  /** Over every run the machine stops for good exactly at an auth-class refresh failure,
      at a failure past the last attempt, or when the server closes a stream that does not
      reconnect. */
  lemma StopsExactly(c: Config, run: seq<Stream>, inputs: seq<Input>, n: nat)
    requires IsRun(c, run, inputs) && n < |inputs|
    ensures var s, t, live := run[n], run[n + 1], Disconnect !in inputs[..n];
      && (t.revoked <==> s.revoked || inputs[n] == RefreshFails(true))
      && (t.gaveUp <==> s.gaveUp || (live && IsFailure(inputs[n]) && !Retries(c, inputs, n)))
      && (t.ended <==> s.ended || (live && inputs[n] == BodyEnds && !c.reconnects))
  {
    assert MovesAt(c, run, inputs, n);
    CallbackStops(c, Settle(run[n], inputs[n]), inputs[n]);
    DisconnectedByInput(c, run, inputs, n);
    FailuresPush(c, inputs, n);
    if Disconnect !in inputs[..n] {
      AttemptCounts(c, run, inputs, n);
    }
  }

  // ── The closure ────────────────────────────────────────────────────────────

  class ReconnectingStream {
    const config: Config
    var state: Stream

    constructor (config: Config)
      ensures this.config == config && state == Opening
    {
      this.config := config;
      this.state := Blank;
      new;
      StartFetch();
    }

    method StartFetch()
      modifies this
      ensures state == Connect(old(state))
    {
      if state.disconnected {
        return;
      }
      state := state.(pending := state.pending + multiset{Fetch},
                      issued := state.issued + 1,
                      sinceOk := state.sinceOk + 1);
    }

    method OnRejected(unauthorized: bool)
      modifies this
      ensures state == Fail(config, old(state), unauthorized)
    {
      if state.disconnected {
        return;
      }
      state := state.(attempt := state.attempt + 1);
      if config.maxAttempts.None? || state.attempt <= config.maxAttempts.value {
        var delay := 1000 * Pow2(state.attempt - 1);
        if delay > MAX_DELAY {
          delay := MAX_DELAY;
        }
        state := state.(pending := state.pending + multiset{Timer(delay, unauthorized)});
      } else {
        state := state.(gaveUp := true);
      }
    }

    /** The server closed the stream. */
    method OnEnd()
      modifies this
      ensures state == Callback(config, old(state), BodyEnds)
    {
      if state.disconnected {
        return;
      }
      if config.reconnects {
        state := state.(attempt := state.attempt + 1);
        state := state.(pending := state.pending + multiset{Timer(Backoff(state.attempt), false)});
      } else {
        state := state.(ended := true);
      }
    }

    method OnTimer(unauthorized: bool)
      modifies this
      ensures forall delay :: state == Callback(config, old(state), TimerFires(delay, unauthorized))
    {
      if state.disconnected {
        return;
      }
      if unauthorized {
        state := state.(pending := state.pending + multiset{Refresh});
      } else {
        StartFetch();
      }
    }

    /** Run the callback of one completed operation, or the disconnect function. */
    method Receive(i: Input)
      requires Enabled(state, i)
      modifies this
      ensures state == Step(config, old(state), i)
    {
      state := Settle(state, i);
      match i {
        case ResponseOk =>
          state := state.(attempt := 0, sinceOk := 0, wasOpen := true, pending := state.pending + multiset{Body});
        case ResponseFailed(unauthorized) => OnRejected(unauthorized);
        case FetchAborted =>
        case BodyEnds => OnEnd();
        case BodyBreaks => OnRejected(false);
        case BodyAborted =>
        case TimerFires(_, unauthorized) => OnTimer(unauthorized);
        case RefreshSucceeds => StartFetch();
        case RefreshFails(authClass) =>
          if authClass {
            state := state.(revoked := true);
          } else {
            StartFetch();
          }
        case Disconnect => state := state.(disconnected := true);
      }
    }
  }
}
