/**
 Standard input and signals of an interactive SSH update.  The controller's data
 goes into bounded proxy channels from the moment the update starts; when the PTY
 is promoted the forwarder drains the proxies into the real channels and then
 bridges live.  Both sends are best effort and drop on a full channel.
 */
module InteractiveBridge {
  const PROXY_CAPACITY := 32

  /** One proxy channel with its history: what was accepted into the proxy, what
      the forwarder took out of it, and what reached the real channel. */
  datatype Channel<T> = Channel(proxy: seq<T>, accepted: seq<T>, taken: seq<T>, delivered: seq<T>)

  datatype Phase = Pending | DrainingStdin | DrainingSignals | Bridged | Unavailable | Ended

  datatype Bridge = Bridge(
    phase: Phase,
    stdin: Channel<seq<bv8>>,
    signals: Channel<int>,
    resolved: bool,
    channelsPending: bool)

  function Fresh<T>(): Channel<T> {
    Channel([], [], [], [])
  }

  const Started := Bridge(Pending, Fresh(), Fresh(), false, true)

  function TrySend<T>(c: Channel<T>, x: T): Channel<T> {
    if |c.proxy| < PROXY_CAPACITY then c.(proxy := c.proxy + [x], accepted := c.accepted + [x]) else c
  }

  /** Take the oldest buffered item and offer it to the real channel. */
  function Forward<T>(c: Channel<T>, fits: bool): Channel<T>
    requires c.proxy != []
  {
    Channel(c.proxy[1..], c.accepted, c.taken + [c.proxy[0]],
            if fits then c.delivered + [c.proxy[0]] else c.delivered)
  }

  datatype Step =
    | SendStdin(data: seq<bv8>)
    | SendSignal(signal: int)
    | PromotionSucceeds
    | PromotionFails
    | MoveStdin(fits: bool)
    | StdinDrained
    | MoveSignal(fits: bool)
    | SignalsDrained
    | UpdateEnds

  predicate Enabled(b: Bridge, step: Step) {
    match step
    case SendStdin(_) => b.phase != Ended
    case SendSignal(_) => b.phase != Ended
    case PromotionSucceeds => b.phase == Pending
    case PromotionFails => b.phase == Pending
    case MoveStdin(_) => (b.phase == DrainingStdin || b.phase == Bridged) && b.stdin.proxy != []
    case StdinDrained => b.phase == DrainingStdin && b.stdin.proxy == []
    case MoveSignal(_) => (b.phase == DrainingSignals || b.phase == Bridged) && b.signals.proxy != []
    case SignalsDrained => b.phase == DrainingSignals && b.signals.proxy == []
    case UpdateEnds => b.phase == Pending || b.phase == Bridged || b.phase == Unavailable
  }

  function Apply(b: Bridge, step: Step): Bridge
    requires Enabled(b, step)
  {
    match step
    case SendStdin(data) => b.(stdin := TrySend(b.stdin, data))
    case SendSignal(signal) => b.(signals := TrySend(b.signals, signal))
    case PromotionSucceeds => b.(phase := DrainingStdin)
    case PromotionFails => b.(phase := Unavailable, resolved := false, channelsPending := false)
    case MoveStdin(fits) => b.(stdin := Forward(b.stdin, fits))
    case StdinDrained => b.(phase := DrainingSignals)
    case MoveSignal(fits) => b.(signals := Forward(b.signals, fits))
    case SignalsDrained => b.(phase := Bridged, resolved := true, channelsPending := false)
    case UpdateEnds => b.(phase := Ended)
  }

  /** The flag a reconnect replays for this update. */
  predicate Interactive(b: Bridge) {
    b.resolved || b.channelsPending
  }

  // ── In-order subsequences ──────────────────────────────────────────────────

  ghost predicate Embeds<T>(xs: seq<T>, ys: seq<T>, at: seq<nat>) {
    && |at| == |xs|
    && (forall i :: 0 <= i < |at| ==> at[i] < |ys| && ys[at[i]] == xs[i])
    && (forall i, j :: 0 <= i < j < |at| ==> at[i] < at[j])
  }

  ghost predicate InOrder<T>(xs: seq<T>, ys: seq<T>) {
    exists at: seq<nat> :: Embeds(xs, ys, at)
  }

  lemma InOrderExtends<T>(xs: seq<T>, ys: seq<T>, zs: seq<T>)
    requires InOrder(xs, ys)
    ensures InOrder(xs, ys + zs)
  {
    var at: seq<nat> :| Embeds(xs, ys, at);
    assert Embeds(xs, ys + zs, at);
  }

  lemma InOrderPush<T>(xs: seq<T>, ys: seq<T>, y: T)
    requires InOrder(xs, ys)
    ensures InOrder(xs + [y], ys + [y])
  {
    var at: seq<nat> :| Embeds(xs, ys, at);
    assert Embeds(xs + [y], ys + [y], at + [|ys|]);
  }

  // ── The invariant ──────────────────────────────────────────────────────────

  ghost predicate ChannelInv<T>(c: Channel<T>) {
    && c.accepted == c.taken + c.proxy
    && |c.proxy| <= PROXY_CAPACITY
    && InOrder(c.delivered, c.taken)
  }

  predicate Unresolved(b: Bridge) {
    b.channelsPending || !b.resolved
  }

  ghost predicate Inv(b: Bridge) {
    && ChannelInv(b.stdin) && ChannelInv(b.signals)
    && (b.phase == Pending || b.phase == Unavailable ==> b.stdin.taken == [] && b.signals.taken == [])
    && (b.phase == DrainingStdin ==> b.signals.taken == [])
    && (b.phase in {Pending, DrainingStdin, DrainingSignals} ==> !b.resolved && b.channelsPending)
    && (b.phase == Bridged ==> b.resolved && !b.channelsPending)
    && (b.phase == Unavailable ==> !b.resolved && !b.channelsPending)
    && (b.phase == Ended && Unresolved(b) ==> b.stdin.taken == [] && b.signals.taken == [])
    && !(b.resolved && b.channelsPending)
  }

  lemma SendKeeps<T>(c: Channel<T>, x: T)
    requires ChannelInv(c)
    ensures ChannelInv(TrySend(c, x)) && TrySend(c, x).taken == c.taken
  {
  }

  lemma ForwardKeeps<T>(c: Channel<T>, fits: bool)
    requires ChannelInv(c) && c.proxy != []
    ensures ChannelInv(Forward(c, fits))
  {
    assert c.taken + c.proxy == c.taken + [c.proxy[0]] + c.proxy[1..];
    if fits {
      InOrderPush(c.delivered, c.taken, c.proxy[0]);
    } else {
      InOrderExtends(c.delivered, c.taken, [c.proxy[0]]);
    }
  }

  lemma StepKeepsInv(b: Bridge, step: Step)
    requires Inv(b) && Enabled(b, step)
    ensures Inv(Apply(b, step))
    // resolution is decided once, and the replayed flag never comes back on
    ensures !b.channelsPending ==> !Apply(b, step).channelsPending && Apply(b, step).resolved == b.resolved
    ensures Interactive(Apply(b, step)) ==> Interactive(b)
  {
    match step
    case SendStdin(data) => SendKeeps(b.stdin, data);
    case SendSignal(signal) => SendKeeps(b.signals, signal);
    case MoveStdin(fits) => ForwardKeeps(b.stdin, fits);
    case MoveSignal(fits) => ForwardKeeps(b.signals, fits);
    case _ =>
  }

  ghost predicate MovesAt(run: seq<Bridge>, steps: seq<Step>, i: nat)
    requires i < |steps| && |run| == |steps| + 1
  {
    Enabled(run[i], steps[i]) && run[i + 1] == Apply(run[i], steps[i])
  }

  ghost predicate IsRun(run: seq<Bridge>, steps: seq<Step>) {
    && |run| == |steps| + 1
    && run[0] == Started
    && forall i: nat :: i < |steps| ==> MovesAt(run, steps, i)
  }

  lemma {:induction false} RunInvariant(run: seq<Bridge>, steps: seq<Step>, n: nat)
    requires IsRun(run, steps) && n < |run|
    ensures Inv(run[n])
  {
    if n == 0 {
      assert Embeds<seq<bv8>>([], [], []) && Embeds<int>([], [], []);
    } else {
      RunInvariant(run, steps, n - 1);
      assert MovesAt(run, steps, n - 1);
      StepKeepsInv(run[n - 1], steps[n - 1]);
    }
  }

  /** Over every run: delivered chunks are an in-order subsequence of the accepted
      ones, and nothing is delivered unless the PTY promotion succeeded. */
  lemma DeliveryInOrder(run: seq<Bridge>, steps: seq<Step>, n: nat)
    requires IsRun(run, steps) && n < |run|
    ensures var b := run[n];
      && InOrder(b.stdin.delivered, b.stdin.accepted) && InOrder(b.signals.delivered, b.signals.accepted)
      && ((forall i :: 0 <= i < n ==> steps[i] != PromotionSucceeds) ==>
            b.stdin.delivered == [] && b.signals.delivered == [])
  {
    RunInvariant(run, steps, n);
    var b := run[n];
    InOrderExtends(b.stdin.delivered, b.stdin.taken, b.stdin.proxy);
    InOrderExtends(b.signals.delivered, b.signals.taken, b.signals.proxy);
    if forall i :: 0 <= i < n ==> steps[i] != PromotionSucceeds {
      NeverPromoted(run, steps, n);
    }
  }

  lemma {:induction false} NeverPromoted(run: seq<Bridge>, steps: seq<Step>, n: nat)
    requires IsRun(run, steps) && n < |run|
    requires forall i :: 0 <= i < n ==> steps[i] != PromotionSucceeds
    ensures run[n].phase in {Pending, Unavailable, Ended}
    ensures run[n].stdin.delivered == [] && run[n].signals.delivered == []
  {
    if n > 0 {
      NeverPromoted(run, steps, n - 1);
      assert MovesAt(run, steps, n - 1);
    }
  }

  // ── What is delivered ──────────────────────────────────────────────────────

  /** For each item taken out of the stdin proxy, whether the real channel had room. */
  function StdinFits(steps: seq<Step>): seq<bool> {
    if steps == [] then []
    else
      var last := steps[|steps| - 1];
      StdinFits(steps[..|steps| - 1]) + if last.MoveStdin? then [last.fits] else []
  }

  function SignalFits(steps: seq<Step>): seq<bool> {
    if steps == [] then []
    else
      var last := steps[|steps| - 1];
      SignalFits(steps[..|steps| - 1]) + if last.MoveSignal? then [last.fits] else []
  }

  /** The items that found room. */
  function Kept<T>(items: seq<T>, fits: seq<bool>): seq<T>
    requires |fits| <= |items|
  {
    if fits == [] then []
    else
      var k := |fits| - 1;
      Kept(items, fits[..k]) + if fits[k] then [items[k]] else []
  }

  lemma {:induction false} KeptOfPrefix<T>(items: seq<T>, more: seq<T>, fits: seq<bool>)
    requires |fits| <= |items|
    ensures Kept(items + more, fits) == Kept(items, fits)
  {
    if fits != [] {
      KeptOfPrefix(items, more, fits[..|fits| - 1]);
    }
  }

  /** With room for every item nothing is lost. */
  lemma {:induction false} AllKept<T>(items: seq<T>, fits: seq<bool>)
    requires |fits| <= |items| && false !in fits
    ensures Kept(items, fits) == items[..|fits|]
  {
    if fits != [] {
      AllKept(items, fits[..|fits| - 1]);
    }
  }

  /** `delivered` is what found room among the items taken out so far. */
  ghost predicate DeliveredOf<T>(c: Channel<T>, fits: seq<bool>) {
    |c.taken| == |fits| && c.delivered == Kept(c.taken, fits)
  }

  lemma ForwardDelivers<T>(c: Channel<T>, fits: seq<bool>, fit: bool)
    requires c.proxy != [] && DeliveredOf(c, fits)
    ensures DeliveredOf(Forward(c, fit), fits + [fit])
  {
    KeptOfPrefix(c.taken, [c.proxy[0]], fits);
    assert (fits + [fit])[..|fits|] == fits;
    assert c.delivered + [] == c.delivered;
  }

  lemma {:induction false} RunDelivers(run: seq<Bridge>, steps: seq<Step>, n: nat)
    requires IsRun(run, steps) && n < |run|
    ensures DeliveredOf(run[n].stdin, StdinFits(steps[..n])) && DeliveredOf(run[n].signals, SignalFits(steps[..n]))
  {
    if n > 0 {
      RunDelivers(run, steps, n - 1);
      assert MovesAt(run, steps, n - 1) && steps[..n][..n - 1] == steps[..n - 1];
      var b := run[n - 1];
      assert StdinFits(steps[..n - 1]) + [] == StdinFits(steps[..n - 1]);
      assert SignalFits(steps[..n - 1]) + [] == SignalFits(steps[..n - 1]);
      match steps[n - 1]
      case MoveStdin(fits) => ForwardDelivers(b.stdin, StdinFits(steps[..n - 1]), fits);
      case MoveSignal(fits) => ForwardDelivers(b.signals, SignalFits(steps[..n - 1]), fits);
      case _ =>
    }
  }

  /** Over every run: the k-th accepted item is delivered exactly if the k-th attempt to pass
      one on found room; as long as all did, what is delivered is a prefix of what was
      accepted and the rest is still buffered. */
  lemma DeliveredExactly(run: seq<Bridge>, steps: seq<Step>, n: nat)
    requires IsRun(run, steps) && n < |run|
    ensures var c, fits := run[n].stdin, StdinFits(steps[..n]);
      && |fits| <= |c.accepted| && c.delivered == Kept(c.accepted, fits) && c.proxy == c.accepted[|fits|..]
      && (false !in fits ==> c.delivered + c.proxy == c.accepted)
    ensures var c, fits := run[n].signals, SignalFits(steps[..n]);
      && |fits| <= |c.accepted| && c.delivered == Kept(c.accepted, fits) && c.proxy == c.accepted[|fits|..]
      && (false !in fits ==> c.delivered + c.proxy == c.accepted)
  {
    RunDelivers(run, steps, n);
    RunInvariant(run, steps, n);
    ChannelDelivers(run[n].stdin, StdinFits(steps[..n]));
    ChannelDelivers(run[n].signals, SignalFits(steps[..n]));
  }

  lemma ChannelDelivers<T>(c: Channel<T>, fits: seq<bool>)
    requires ChannelInv(c) && DeliveredOf(c, fits)
    ensures |fits| <= |c.accepted| && c.delivered == Kept(c.accepted, fits) && c.proxy == c.accepted[|fits|..]
    ensures false !in fits ==> c.delivered + c.proxy == c.accepted
  {
    KeptOfPrefix(c.taken, c.proxy, fits);
    if false !in fits {
      AllKept(c.taken, fits);
      assert c.taken[..|fits|] == c.taken;
    }
  }

  // ── What is accepted ───────────────────────────────────────────────────────

  function SentStdin(steps: seq<Step>): seq<seq<bv8>> {
    if steps == [] then []
    else
      var last := steps[|steps| - 1];
      SentStdin(steps[..|steps| - 1]) + if last.SendStdin? then [last.data] else []
  }

  function SentSignals(steps: seq<Step>): seq<int> {
    if steps == [] then []
    else
      var last := steps[|steps| - 1];
      SentSignals(steps[..|steps| - 1]) + if last.SendSignal? then [last.signal] else []
  }

  /** `accepted` against everything `sent`: in order, and all of it as long as no more than
      32 items were sent. */
  ghost predicate AcceptedOf<T>(c: Channel<T>, sent: seq<T>) {
    InOrder(c.accepted, sent) && |c.accepted| <= |sent| && (|sent| <= 32 ==> c.accepted == sent)
  }

  lemma SendAccepts<T>(c: Channel<T>, x: T, sent: seq<T>)
    requires ChannelInv(c) && AcceptedOf(c, sent)
    ensures AcceptedOf(TrySend(c, x), sent + [x])
  {
    if |c.proxy| < 32 {
      InOrderPush(c.accepted, sent, x);
    } else {
      InOrderExtends(c.accepted, sent, [x]);
    }
  }

  lemma {:induction false} RunAccepts(run: seq<Bridge>, steps: seq<Step>, n: nat)
    requires IsRun(run, steps) && n < |run|
    ensures AcceptedOf(run[n].stdin, SentStdin(steps[..n])) && AcceptedOf(run[n].signals, SentSignals(steps[..n]))
  {
    if n == 0 {
      assert Embeds<seq<bv8>>([], [], []) && Embeds<int>([], [], []);
    } else {
      RunAccepts(run, steps, n - 1);
      RunInvariant(run, steps, n - 1);
      assert MovesAt(run, steps, n - 1) && steps[..n][..n - 1] == steps[..n - 1];
      var b, last := run[n - 1], steps[n - 1];
      assert SentStdin(steps[..n - 1]) + [] == SentStdin(steps[..n - 1]);
      assert SentSignals(steps[..n - 1]) + [] == SentSignals(steps[..n - 1]);
      match last
      case SendStdin(data) => SendAccepts(b.stdin, data, SentStdin(steps[..n - 1]));
      case SendSignal(signal) => SendAccepts(b.signals, signal, SentSignals(steps[..n - 1]));
      case _ =>
    }
  }

  /** Over every run: what is accepted is sent, in order; the first 32 items of a channel
      always are; and a further one is dropped exactly when 32 accepted ones have not been
      taken out yet. */
  lemma AcceptedExactly(run: seq<Bridge>, steps: seq<Step>, n: nat)
    requires IsRun(run, steps) && n < |run|
    ensures AcceptedOf(run[n].stdin, SentStdin(steps[..n])) && AcceptedOf(run[n].signals, SentSignals(steps[..n]))
    ensures n < |steps| && steps[n].SendStdin? ==>
              var c := run[n].stdin;
              run[n + 1].stdin.accepted ==
              c.accepted + if |c.accepted| - |c.taken| < 32 then [steps[n].data] else []
    ensures n < |steps| && steps[n].SendSignal? ==>
              var c := run[n].signals;
              run[n + 1].signals.accepted ==
              c.accepted + if |c.accepted| - |c.taken| < 32 then [steps[n].signal] else []
  {
    RunAccepts(run, steps, n);
    RunInvariant(run, steps, n);
    if n < |steps| {
      assert MovesAt(run, steps, n);
    }
  }

  /** Between any two points of a run the resolution is decided at most once, and
      an update once replayed as non-interactive is never replayed as interactive. */
  lemma {:induction false} ReplayNeverReturns(run: seq<Bridge>, steps: seq<Step>, m: nat, n: nat)
    requires IsRun(run, steps) && m <= n < |run|
    ensures !run[m].channelsPending ==> !run[n].channelsPending && run[n].resolved == run[m].resolved
    ensures Interactive(run[n]) ==> Interactive(run[m])
  {
    if m < n {
      ReplayNeverReturns(run, steps, m, n - 1);
      RunInvariant(run, steps, n - 1);
      assert MovesAt(run, steps, n - 1);
      StepKeepsInv(run[n - 1], steps[n - 1]);
    }
  }

  // ── The drain, as the forwarder runs it ────────────────────────────────────

  class BoundedChannel<T> {
    var buffer: seq<T>
    const capacity: nat

    constructor (capacity: nat)
      ensures buffer == [] && this.capacity == capacity
    {
      this.buffer, this.capacity := [], capacity;
    }

    method TrySend(x: T) returns (ok: bool)
      modifies this
      ensures ok <==> |old(buffer)| < capacity
      ensures buffer == if ok then old(buffer) + [x] else old(buffer)
    {
      ok := |buffer| < capacity;
      if ok {
        buffer := buffer + [x];
      }
    }
  }

  /** How many of `n` items still fit. */
  function Room<T>(buffered: seq<T>, capacity: nat, n: nat): nat {
    if |buffered| >= capacity then 0
    else if capacity - |buffered| < n then capacity - |buffered|
    else n
  }

  /** A bounded channel after being offered `items` one by one. */
  function Filled<T>(buffered: seq<T>, capacity: nat, items: seq<T>): seq<T> {
    buffered + items[..Room(buffered, capacity, |items|)]
  }

  method DrainInto<T>(proxy: BoundedChannel<T>, target: BoundedChannel<T>)
    requires proxy != target
    modifies proxy, target
    ensures proxy.buffer == []
    ensures target.buffer == Filled(old(target.buffer), target.capacity, old(proxy.buffer))
  {
    ghost var buffered, i := proxy.buffer, 0;
    while proxy.buffer != []
      invariant 0 <= i <= |buffered| && proxy.buffer == buffered[i..]
      invariant target.buffer == old(target.buffer) + buffered[..Room(old(target.buffer), target.capacity, i)]
      decreases |proxy.buffer|
    {
      var x := proxy.buffer[0];
      proxy.buffer := proxy.buffer[1..];
      var _ := target.TrySend(x);
      i := i + 1;
    }
  }

  /** Everything buffered before the promotion reaches the PTY as far as it fits:
      stdin first, then signals. */
  method DrainProxies(stdinProxy: BoundedChannel<seq<bv8>>, signalProxy: BoundedChannel<int>,
                      realStdin: BoundedChannel<seq<bv8>>, realSignals: BoundedChannel<int>)
    requires stdinProxy != realStdin && signalProxy != realSignals
    modifies stdinProxy, signalProxy, realStdin, realSignals
    ensures stdinProxy.buffer == [] && signalProxy.buffer == []
    ensures realStdin.buffer == Filled(old(realStdin.buffer), realStdin.capacity, old(stdinProxy.buffer))
    ensures realSignals.buffer == Filled(old(realSignals.buffer), realSignals.capacity, old(signalProxy.buffer))
  {
    DrainInto(stdinProxy, realStdin);
    DrainInto(signalProxy, realSignals);
  }
}
