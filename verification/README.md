# Uptrakit: verified models

Dafny models of the parts of Uptrakit whose correctness is easiest to get wrong: the
agents' update protocol, the connection pool and host reload, the incremental text
machines, and the CI gates that reason about `cfg` expressions, module trees, crate
dependencies and lexical scopes.  `dafny verify dfyconfig.toml` checks everything.

| file | models |
|---|---|
| `ResultSpec.dfy` | the promise made to the controller: one `UpdateResult` per started or refused update |
| `UpdateProtocol.dfy` | the SSH agent's transition system: one queue keyed by host, one forwarder per update, a map filled after the forwarder is spawned |
| `SshRuntime.dfy` | `handle_event`, `poll_updates` and `shutdown` as methods on the in-flight map |
| `SingleHostRuntime.dfy` | the single-host runtime, refining the same promise |
| `InteractiveBridge.dfy` | proxy channels for stdin and signals until the PTY exists |
| `SshPool.dfy`, `HostReload.dfy`, `HostSessions.dfy` | the connection pool under interleaving; the reload tick that evicts from it; both together |
| `SshTarget.dfy` | printing and parsing of SSH targets |
| `RedactLog.dfy`, `LineBuffer.dfy` | log redaction by a sliding window; bounded output accumulation |
| `SseReader.dfy`, `SseReconnect.dfy` | the browser's event-stream readers and their reconnect machine |
| `CfgSyntax.dfy`, `CfgParser.dfy`, `CfgPolicy.dfy`, `CfgPossibility.dfy` | `cfg` expressions: language, parser, and the two checkers |
| `CfgCallText.dfy`, `CfgCallLayout.dfy`, `CfgTwoReadings.dfy` | the second checker's own reading of texts, and both readings compared |
| `ModuleScan.dfy`, `OrphanModules.dfy` | the walk over `mod`/`include!` files |
| `CrateSelect.dfy` | which plugin crates a change affects |
| `ScopeIndex.dfy` | brace scopes per line |

State machines are stated over runs: a sequence of states and a sequence of steps, each
step enabled where it is taken.  Loops and in-place updates of the program are methods
and classes here, each tied to a function of its inputs or its old state; what the
program promises is then proved about that function.

## What turned out false, and the exact condition

- The deadline arms of both shutdowns report a failure for every update still open
  without looking at `early_sent`.  They keep the one-result promise for an update
  exactly when no early result of it was sent (`SshRuntime.ShutdownResults`,
  `SingleHostRuntime.ShutdownResults`); runs that break it are given beside them.
- The first report of an update is the one sent, over every run of the SSH runtime and of
  the single-host runtime up to its shutdown (`UpdateProtocol.FirstReportWins`,
  `SingleHostRuntime.HostFirstReportWins`).  The single-host shutdown does not read the
  early-result channel: there the first report is sent exactly when one went out before,
  the channel is empty, or both say the same (`SingleHostRuntime.ShutdownSkipsChannel`,
  `SingleHostRuntime.UnreadEarlyIsLost`).
- A printed SSH target parses back to itself exactly when the host holds no `]`; the bare
  form with several colons lets one in (`SshTarget.RoundTrip`,
  `SshTarget.BracketOnlyInBareHosts`, `SshTarget.StrayBracketExample`).
- The owner of a changed path is independent of the order of the members exactly when no
  two members share a directory (`CrateSelect.OwnerIgnoresOrder`).
- A removal bounds the sessions handed out later, in every continuation, exactly when no
  acquire of the host is in progress at that moment (`SshPool.RemovalBoundsSessions`,
  `SshPool.ConnectionOutlivesEviction`).
- A reload tick evicts a listed, touched host exactly when its row does not carry the
  recorded stamp again; with a clock that rises at every edit it always does
  (`HostReload.TickEvictsTouched`, `HostReload.RisingClockMissesNothing`).  Touched means
  since the snapshot was taken, and a reconnect takes a new one without evicting.  So an
  addition or update is noticed by the next tick exactly when the last re-listing before
  it, if any, failed, and a removal exactly when the snapshot held the host and no
  re-listing and no reset came in between (`HostReload.EditIsNoticed`,
  `HostReload.RemovalIsNoticed`); a host is out of reach of the ticks exactly from a step
  that strands it to one that rescues it (`HostReload.LostExactly`,
  `HostReload.EditBeforeReconnectIsLost`, `HostReload.RemovalBeforeReconnectIsLost`).
- A noticed edit bounds the sessions handed out after the eviction exactly when no acquire
  begun before the edit is still in progress there
  (`HostSessions.NoticedEditBoundsSessions`).
- The plugin-boundary checker's values are exact where no option but `test` occurs both
  plainly and negated.  Beyond that exactness is satisfiability; every option fails with
  its own negation, and on `any(test, all(unix, not(unix)))` this checker and the
  database-access policy disagree (`CfgPossibility.PossibilityIsExact`,
  `CfgPossibility.BothPolaritiesFail`, `CfgPossibility.CheckersDiffer`).
- The two checkers read texts differently.  A call is read as a call exactly when its list
  does not end in a comma and no unquoted literal in it opens a parenthesis
  (`CfgCallLayout.CallText`, `CfgCallLayout.BlankPart`), so `all(test,)` goes unnoticed.
  What this checker calls test-requiring is test-only for the policy on every text whose
  unquoted literals close the quotes they open (`CfgTwoReadings.TextCheckersAgree`), and
  for each unquoted literal that is exactly the condition
  (`CfgTwoReadings.LiteralIsSafeIffInStep`): `r"x"` meets it, `r"\"` does not and misleads
  it in valid Rust (`CfgTwoReadings.RawBackslashMisleads`).
- The module walk collects `#[path]` by module name.  It follows every declaration of a
  file to where the declaration itself leads exactly when no name has a `#[path]` that
  another declaration of that name does not lead to (`OrphanModules.AgreesIffUniform`);
  otherwise declared files can go unvisited (`OrphanModules.LastPathWins`).  A dead
  declaration is reported exactly when no declaration of its name in the file has a
  `#[path]` (`OrphanModules.DeadIsReportedUnlessExplicit`,
  `OrphanModules.OtherPathIsTaken`).
- `all()` and `any()` without arguments are refused by the parser although `cfg` allows
  them (`CfgParser.EmptyGroupIsRefused`).
- An event stream is cut exactly at adjacent line feeds, so events with CRLF line ends are
  lost (`SseReader.CutAtAdjacentLineFeeds`, `SseReader.CrlfEventsAreLost`).  Events in LF
  format are recovered exactly when their types are newline-free and trimmed
  (`SseReader.RoundTrip`).

## Model

| member | source | states |
|---|---|---|
| `ResultSpec.StepKeepsInv` | crates/core/agent-ssh-runtime/src/lib.rs:764-812 | a step of the result promise keeps: exactly one attempt for a closed or early-reported update, none for any other |
| `UpdateProtocol.StepKeepsInv` | crates/core/agent-ssh-runtime/src/client.rs:578-806 | guard, spawn, insert, emit, finish and handle all keep: open updates distinct, every forwarder and queued event owned by its host's current update, a completion last, every open update still completing |
| `UpdateProtocol.HandleKeepsInv` | crates/core/agent-ssh-runtime/src/lib.rs:755-824 | handling any queued event keeps that invariant |
| `UpdateProtocol.HeadIsInFlight` | crates/core/agent-ssh-runtime/src/lib.rs:817-823 | the queue's head always finds the map entry of the update that emitted it, so the no-in-flight-update branch is unreachable |
| `UpdateProtocol.RunInvariant` | crates/core/agent-ssh-runtime/src/client.rs:664-806 | the invariant holds in every state of every run |
| `UpdateProtocol.QueueBelongsToCurrent` | crates/core/agent-ssh-runtime/src/lib.rs:966-978 | in every reachable state queued events belong to the host's current update with its completion last; an idle host has no queued event and no forwarder, so parking on an empty map strands nothing |
| `UpdateProtocol.StepRefines` | crates/core/agent-ssh-runtime/src/lib.rs:764-812 | every step of the SSH runtime is a step of the result promise |
| `UpdateProtocol.AtMostOneResult` | crates/core/agent-ssh-runtime/src/lib.rs:764-812 | over every run an update gets at most one result attempt, exactly one once its completion was handled (or it was refused) |
| `UpdateProtocol.SettledForGood` | crates/core/agent-ssh-runtime/src/lib.rs:764-812 | that one attempt stays the only one for the rest of the run |
| `UpdateProtocol.HandledCompletionSettles` | crates/core/agent-ssh-runtime/src/lib.rs:764-786 | handling a completion settles the update that emitted it |
| `UpdateProtocol.OutputsInOrder` | crates/core/agent-ssh-runtime/src/lib.rs:760-763 | output sent so far followed by output still queued is exactly what the forwarders emitted, in order, under the emitting update's id |
| `UpdateProtocol.RequestsInOrder` | crates/core/agent-ssh-runtime/src/lib.rs:785-792 | over every run without shutdown steps, output lines and input requests together: those sent followed by those queued are exactly what the forwarders emitted, in order, each under the emitting update's id |
| `UpdateProtocol.DrainingAsksNothing` | crates/core/agent-ssh-runtime/src/lib.rs:886-886 | a shutdown step never asks for input |
| `UpdateProtocol.FirstReportWins` | crates/core/agent-ssh-runtime/src/lib.rs:764-812 | over every run what is sent about an update is the first thing its forwarder reported, early or final, or the refusal if the request was refused; until then all its reports wait in the queue, in order |
| `SshRuntime.SshAgentRuntime.PollUpdates` | crates/core/agent-ssh-runtime/src/lib.rs:966-978 | takes the queue's head only while some update is in flight |
| `SshRuntime.SshAgentRuntime.HandleUpdate` | crates/core/agent-ssh-runtime/src/lib.rs:749-824 | new map and sends are those of the transition system; disconnects exactly when the send failed and what was sent is a result |
| `SshRuntime.SshAgentRuntime.HandleDuringShutdown` | crates/core/agent-ssh-runtime/src/lib.rs:863-905 | same transition, except that attention requests are dropped |
| `SshRuntime.SshAgentRuntime.Abandon` | crates/core/agent-ssh-runtime/src/lib.rs:907-932 | empties the map and adds exactly one timeout result per entry and nothing else |
| `SshRuntime.SshAgentRuntime.SweepLeftovers` | crates/core/agent-ssh-runtime/src/lib.rs:936-942 | empties the queue and forwards output of updates still in the map |
| `SshRuntime.SshAgentRuntime.DrainUntilDeadline` | crates/core/agent-ssh-runtime/src/lib.rs:859-905 | consumes events until the map is empty or none are left, with the map and sends of the folded transitions; the deadline is met exactly with a non-empty map |
| `SshRuntime.SshAgentRuntime.Shutdown` | crates/core/agent-ssh-runtime/src/lib.rs:851-943 | ends with an empty map; what arrived in time is handled, all of it if the deadline is met, and every entry left gets exactly one timeout result |
| `SshRuntime.ShutdownIsHandling` | crates/core/agent-ssh-runtime/src/lib.rs:859-905 | from a reachable state the shutdown loop is a run of protocol steps, so it keeps the invariant and the one-result promise |
| `SshRuntime.DeadlineDoubleSends` | crates/core/agent-ssh-runtime/src/lib.rs:907-932 | in a state with both invariants the deadline arm keeps the promise for an update if and only if no early result of it was sent |
| `SshRuntime.ShutdownResults` | crates/core/agent-ssh-runtime/src/lib.rs:851-943 | over every reachable state the whole shutdown leaves an open or settled update with at least one result, and more than one exactly if it had reported early and was still open at the deadline |
| `SshRuntime.EarlyThenDeadline` | crates/core/agent-ssh-runtime/src/lib.rs:907-932 | a run in which an update gets two results that way |
| `SingleHostRuntime.ActionRefines` | crates/core/agent-runtime/src/lib.rs:419-481 | every action of the single-host runtime is a step of the same result promise |
| `SingleHostRuntime.HostAtMostOneResult` | crates/shared/agent-core/src/client.rs:211-284 | over every run at most one result attempt, exactly one once settled; the deadline arm breaks this exactly after an early result |
| `SingleHostRuntime.ShutdownResults` | crates/shared/agent-core/src/client.rs:211-284 | over every reachable state the open update ends with at least one result, exactly one if and only if its task ended in time or it had not reported early |
| `SingleHostRuntime.EarlyThenDeadline` | crates/shared/agent-core/src/client.rs:248-263 | a run in which the deadline adds a second result |
| `SingleHostRuntime.HostFirstReportWins` | crates/core/agent-runtime/src/lib.rs:419-481 | over every run up to the shutdown what is sent about an update is the first thing its task reported, even when the completion overtakes it, or the refusal if the request was refused |
| `SingleHostRuntime.ShutdownSkipsChannel` | crates/shared/agent-core/src/client.rs:236-247 | when an update ends during the shutdown, its first report is the one sent if and only if one was sent before, the channel is empty, or both say the same; otherwise the final result is |
| `SingleHostRuntime.UnreadEarlyIsLost` | crates/shared/agent-core/src/client.rs:230-247 | a run in which the final result replaces an early one that was never read |
| `SingleHostRuntime.AgentRuntime.HandleExecuteUpdate` | crates/shared/agent-core/src/client.rs:627-668 | a request while busy is refused with one result, otherwise the update is started and nothing is sent; the action of the run model for a fresh id |
| `SingleHostRuntime.AgentRuntime.PollEarlyResult` | crates/core/agent-runtime/src/lib.rs:708-745 | takes the oldest early result off the channel and handles it: the action of the run model |
| `SingleHostRuntime.AgentRuntime.HandleEarlyResult` | crates/core/agent-runtime/src/lib.rs:459-481 | the first early result is sent and marked even when the send fails; later ones are not sent |
| `SingleHostRuntime.AgentRuntime.HandleCompleted` | crates/core/agent-runtime/src/lib.rs:419-458 | drains the early-result channel, sends its first payload if none went out before, else the final result if none went out at all: the action of the run model |
| `SingleHostRuntime.AgentRuntime.GracefulShutdown` | crates/shared/agent-core/src/client.rs:211-284 | output before, the result or the deadline failure, output after, in that order; the early-result channel is not read |
| `InteractiveBridge.StepKeepsInv` | crates/core/agent-ssh-runtime/src/client.rs:710-750 | each step keeps order and conservation per channel; resolution is decided once and the replayed flag never comes back on |
| `InteractiveBridge.DeliveryInOrder` | crates/core/agent-ssh-runtime/src/client.rs:710-750 | over every run delivered chunks are an in-order subsequence of the accepted ones, and nothing is delivered without promotion |
| `InteractiveBridge.DeliveredExactly` | crates/core/agent-ssh-runtime/src/client.rs:710-750 | over every run the k-th accepted item is delivered exactly if the k-th attempt to pass one on found room, and what was not taken is still buffered; while all found room delivered plus buffered is everything accepted |
| `InteractiveBridge.AcceptedExactly` | crates/core/agent-ssh-runtime/src/client.rs:1190-1210 | over every run accepted items are the sent ones in order, the first 32 always among them; a further one is dropped exactly while 32 accepted ones wait |
| `InteractiveBridge.ReplayNeverReturns` | crates/core/agent-ssh-runtime/src/lib.rs:602-612 | between any two points of a run resolution flips at most once and non-interactive never becomes interactive |
| `InteractiveBridge.DrainProxies` | crates/core/agent-ssh-runtime/src/client.rs:70-82 | both proxies end empty and each real channel gets the buffered prefix that fits, in order |
| `SshPool.SshConnectionPool.Lookup` | crates/core/agent-ssh-runtime/src/ssh_pool.rs:87-111 | returns the pooled session exactly if it is fresh, re-stamping it, and removes an expired one |
| `SshPool.SshConnectionPool.StoreOrReuse` | crates/core/agent-ssh-runtime/src/ssh_pool.rs:123-146 | whoever stored first wins: an existing entry's session is returned, otherwise the new one is pooled |
| `SshPool.SshConnectionPool.Evict` | crates/core/agent-ssh-runtime/src/ssh_pool.rs:155-160 | removes exactly the host's entry |
| `SshPool.SshConnectionPool.DisconnectAll` | crates/core/agent-ssh-runtime/src/ssh_pool.rs:166-188 | empties the pool and yields exactly the pooled sessions |
| `SshPool.StepKeepsInv` | crates/core/agent-ssh-runtime/src/ssh_pool.rs:87-188 | any interleaved step of acquirers, evictions and drains keeps the pool consistent with its history |
| `SshPool.ReturnsAreConsistent` | crates/core/agent-ssh-runtime/src/ssh_pool.rs:87-146 | under every interleaving all returns for a host between two removals hand out one session, of that host, never one pooled before the last removal |
| `SshPool.NeverOverwritten` | crates/core/agent-ssh-runtime/src/ssh_pool.rs:123-146 | no step replaces the session of an entry that stays |
| `SshPool.ReusedWhileFresh` | crates/core/agent-ssh-runtime/src/ssh_pool.rs:87-111 | over every run the next acquire after a session was handed out gets that session at once if fewer than 300 seconds passed, and otherwise removes it and connects |
| `SshPool.RemovedIsReopened` | crates/core/agent-ssh-runtime/src/ssh_pool.rs:113-188 | over every run the next acquire after an eviction or drain connects anew |
| `SshPool.RunRecorded` | crates/core/agent-ssh-runtime/src/ssh_pool.rs:87-146 | in every reachable state the begin position recorded with a session is where an acquire of its host began |
| `SshPool.RemovalBoundsSince` | crates/core/agent-ssh-runtime/src/ssh_pool.rs:113-188 | after a removal nothing opened before a given earlier moment is handed out, in any continuation, if and only if no acquire of the host begun before that moment is in progress |
| `SshPool.RemovalBoundsSessions` | crates/core/agent-ssh-runtime/src/ssh_pool.rs:113-188 | after an eviction or a drain every session returned for the host, in every continuation, was opened by an acquire begun after it, if and only if no acquire of the host was in progress |
| `SshPool.ConnectionOutlivesEviction` | crates/core/agent-ssh-runtime/src/ssh_pool.rs:113-146 | a run in which a connection begun before an eviction is pooled after it and handed to a later caller |
| `HostReload.DiffHostSnapshots` | crates/core/agent-ssh-runtime/src/lib.rs:107-137 | deleted ids in order and the set of new or re-stamped ids, the last duplicate winning |
| `HostReload.DeletedExact` | crates/core/agent-ssh-runtime/src/lib.rs:117-121 | an id is deleted exactly if the old list has it and the new one does not |
| `HostReload.ChangedExact` | crates/core/agent-ssh-runtime/src/lib.rs:123-134 | an id is changed exactly if the new list pairs it with a stamp the old one does not |
| `HostReload.ShortcutAgrees` | crates/core/agent-ssh-runtime/src/lib.rs:1033-1035 | on id-ordered snapshots the equality shortcut is taken exactly when the difference is empty |
| `HostReload.UnorderedDisagrees` | crates/core/agent-ssh-runtime/src/host_ops.rs:33-46 | without the ordering by id the shortcut and the difference disagree |
| `HostReload.HostMonitor.HandleHostConfigChanged` | crates/core/agent-ssh-runtime/src/lib.rs:1021-1068 | a failed listing changes nothing; otherwise the snapshot is replaced and exactly the deleted and changed hosts leave the pool, reporting only if the lists differ |
| `HostReload.HostMonitor.InitializeSnapshot` | crates/core/agent-ssh-runtime/src/lib.rs:583-594 | a connection replaces the snapshot by a new listing, or by nothing if that fails, and leaves the pool alone |
| `HostReload.TickEvictsTouched` | crates/core/agent-ssh-runtime/src/lib.rs:1033-1046 | over every run of edits, ticks, reconnects and resets a tick evicts exactly the hosts added, removed or re-stamped since the snapshot was taken, bar those in neither list or re-stamped to the recorded time |
| `HostReload.RisingClockMissesNothing` | crates/core/agent-ssh-runtime/src/lib.rs:1037-1046 | while the clock rises at every edit no touched host is missed |
| `HostReload.EqualStampIsMissed` | crates/core/agent-ssh-runtime/src/lib.rs:123-134 | an update stamped with the recorded time goes unnoticed |
| `HostReload.MachineIdsTouchNothing` | crates/core/agent-ssh-runtime/src/host_ops.rs:265-280 | after a tick, machine-id writes and failed ticks leave the next tick's listing equal to the snapshot |
| `HostReload.TouchIsNoticed` | crates/core/agent-ssh-runtime/src/lib.rs:1033-1047 | over every run the first tick after an edit evicts the host if and only if it is still in the snapshot or the table, the last re-listing in between, if any, failed, and its row does not carry the recorded stamp |
| `HostReload.RemovalIsNoticed` | crates/core/agent-ssh-runtime/src/lib.rs:117-121 | whatever the clock does, a removal is noticed if and only if the snapshot held the host and no re-listing and no reset came before the tick |
| `HostReload.EditIsNoticed` | crates/core/agent-ssh-runtime/src/lib.rs:123-134 | with a rising clock an addition or update is noticed if and only if the last re-listing before the tick, if any, failed |
| `HostReload.LostExactly` | crates/core/agent-ssh-runtime/src/lib.rs:583-594 | after any step a host is stale and out of reach of the ticks if and only if the step strands it, or it was so before and the step does not rescue it |
| `HostReload.TickLeavesStale` | crates/core/agent-ssh-runtime/src/lib.rs:1033-1047 | over every run a tick leaves un-evicted exactly the stale hosts that were out of its reach |
| `HostReload.RelistingLoses` | crates/core/agent-ssh-runtime/src/lib.rs:583-594 | a reconnect or reset newly loses exactly the stale hosts that a tick in its place would have evicted; a failed listing spares those still in the table, a reset adds the hosts it removes |
| `HostReload.RunLosesNobody` | crates/core/agent-ssh-runtime/src/lib.rs:583-594 | over every run a host is never out of reach if and only if no step strands it |
| `HostReload.LostStaysLost` | crates/core/agent-ssh-runtime/src/lib.rs:544-545 | a host out of reach is evicted by no later tick until it is edited again, a listing fails while it is in the table, or the pool is drained |
| `HostReload.EditBeforeReconnectIsLost` | crates/core/agent-ssh-runtime/src/lib.rs:583-594 | a run in which a host edited between a tick and a reconnect is never evicted |
| `HostReload.RemovalBeforeReconnectIsLost` | crates/core/agent-ssh-runtime/src/lib.rs:583-594 | the same for a host removed between a tick and a reconnect |
| `HostSessions.NoticedEditBoundsSessions` | crates/core/agent-ssh-runtime/src/lib.rs:1037-1046 | over every joint run of table and pool: the tick after an edit dooms the host exactly under the conditions of `TouchIsNoticed`, and from its eviction on every session handed out was opened after the edit if and only if no acquire begun before the edit is in progress |
| `SshTarget.DecimalReadsBack` | crates/core/agent-ssh-runtime/src/ssh_target.rs:51-53 | the decimal digits of a number read back as that number |
| `SshTarget.PortIsExact` | crates/core/agent-ssh-runtime/src/ssh_target.rs:287-293 | a port is accepted if and only if it is a decimal number of at most 16 bits, with an optional plus sign and leading zeros |
| `SshTarget.HostIsExact` | crates/core/agent-ssh-runtime/src/ssh_target.rs:219-285 | a host is accepted if and only if it has 1 to 253 bytes without white space or control characters and holds a colon, or is of digits and dots, or is a name of dot-separated labels of at most 63 letters, digits and inner hyphens |
| `SshTarget.HostPortIsExact` | crates/core/agent-ssh-runtime/src/ssh_target.rs:162-208 | a host part is read as host and port if and only if it is written as one of the bracketed, plain or bare colon forms |
| `SshTarget.UserIsExact` | crates/core/agent-ssh-runtime/src/ssh_target.rs:116-160 | the user split off is exactly the text before the first `@` of a string that does not start with a bracket, and none if that text is empty |
| `SshTarget.PlainIsExact` | crates/core/agent-ssh-runtime/src/ssh_target.rs:116-208 | a plain string parses to a target if and only if it is written as that user and that host part and the host is accepted |
| `SshTarget.AcceptedIsWellFormed` | crates/core/agent-ssh-runtime/src/ssh_target.rs:116-208 | every plain string that is accepted gives a valid host and a non-empty, `@`-free user that cannot be taken for a bracket or URL |
| `SshTarget.PlainHostChars` | crates/core/agent-ssh-runtime/src/ssh_target.rs:219-285 | an accepted host without a colon consists of label characters and dots |
| `SshTarget.StrayBracketFails` | crates/core/agent-ssh-runtime/src/ssh_target.rs:162-188 | a printed host with a `]` in it is always refused |
| `SshTarget.RoundTrip` | crates/core/agent-ssh-runtime/src/ssh_target.rs:40-73 | for every accepted plain string, printing and parsing gives the same target if and only if the host holds no `]` |
| `SshTarget.RoundTripsExactly` | crates/core/agent-ssh-runtime/src/ssh_target.rs:40-73 | every target whose printed form does not start with `ssh://` round-trips if and only if it is well formed and its host holds no `]` |
| `SshTarget.BracketOnlyInBareHosts` | crates/core/agent-ssh-runtime/src/ssh_target.rs:189-207 | the host holds a `]` exactly when the host part has one and is not in brackets |
| `SshTarget.StrayBracketExample` | crates/core/agent-ssh-runtime/src/ssh_target.rs:203-206 | `a]::b` is accepted and its printed form is refused |
| `RedactLog.RedactForLog` | crates/core/agent-ssh-runtime/src/ssh_transport.rs:70-100 | the fast path and the window loop both compute the leftmost-header specification |
| `RedactLog.RunIsRedact` | crates/core/agent-ssh-runtime/src/ssh_transport.rs:78-99 | the sliding window over the last characters equals finding the leftmost header and cutting its value |
| `RedactLog.HeaderByTheLetter` | crates/core/agent-ssh-runtime/src/ssh_transport.rs:70-100 | a header is the 14 characters `authorization:` with each letter in either case |
| `RedactLog.RedactsByTheLetter` | crates/core/agent-ssh-runtime/src/ssh_transport.rs:70-100 | the value of the first header, up to a quote, a newline or the end, becomes ` <redacted>`; what precedes is kept and what follows is redacted in turn |
| `RedactLog.EveryHeaderIsMarked` | crates/core/agent-ssh-runtime/src/ssh_transport.rs:70-100 | every header occurrence in the output is immediately followed by the marker |
| `RedactLog.ValueIsIrrelevant` | crates/core/agent-ssh-runtime/src/ssh_transport.rs:70-100 | replacing a header's value by any other leaves the output unchanged, whatever surrounds it |
| `RedactLog.RedactIsIdempotent` | crates/core/agent-ssh-runtime/src/ssh_transport.rs:70-100 | redacting twice is redacting once |
| `LineBuffer.OutputBuffer.PushText` | crates/core/agent-ssh-runtime/src/ssh_transport.rs:239-278 | in-place pushing is the character fold |
| `LineBuffer.OutputBuffer.FlushPartial` | crates/core/agent-ssh-runtime/src/ssh_transport.rs:282-309 | flushing ends a pending partial line and is otherwise idle |
| `LineBuffer.SplitLosesNothing` | crates/core/agent-ssh-runtime/src/ssh_transport.rs:239-278 | the lines and the rest that the batch form speaks of are the text cut at every newline and nowhere else |
| `LineBuffer.AllLinesAreTheText` | crates/core/agent-ssh-runtime/src/ssh_transport.rs:239-309 | the lines of a text, each ended by a newline, are the text with a final newline where one was missing |
| `LineBuffer.ChunkingIsIrrelevant` | crates/core/agent-ssh-runtime/src/ssh_transport.rs:239-278 | any chunking of the same characters leaves the same buffer |
| `LineBuffer.PushIsBatch` | crates/core/agent-ssh-runtime/src/ssh_transport.rs:239-278 | every line is streamed; the accumulated text is the whole-line prefix taken below the limit, then the marker once and nothing more |
| `LineBuffer.FlushIsBatch` | crates/core/agent-ssh-runtime/src/ssh_transport.rs:282-309 | after the flush the last partial line is accounted for in the same way |
| `LineBuffer.OutputIsBounded` | crates/core/agent-ssh-runtime/src/ssh_transport.rs:261-272 | output stays below limit + longest line + 1 + marker; it is the whole text unless truncated, and truncated only if the text has at least as many bytes as the limit |
| `LineBuffer.CollectOutput` | crates/core/agent-ssh-runtime/src/ssh_transport.rs:224-315 | the final output and the streamed lines depend on the whole text only; below 10 MiB the output is the whole text |
| `SseReader.BlocksConcat` | frontend/src/lib/sse.ts:187-194 | cutting at leftmost blank lines chunk by chunk is cutting the whole text |
| `SseReader.ParseSseEvent` | frontend/src/lib/sse.ts:428-446 | the field loop computes the block's event, if it has data |
| `SseReader.BlockIsExact` | frontend/src/lib/sse.ts:428-446 | any block read by its fields: the last type, trimmed, or `message`; the data lines in order less one leading space; other lines ignored; no event without data |
| `SseReader.EveryLineIsAField` | frontend/src/lib/sse.ts:428-446 | every line is one of those fields, so the reading covers every block |
| `SseReader.FollowIsExact` | frontend/src/lib/sse.ts:196-214 | the stream is done exactly from the first non-empty `completed` event on; the callbacks are the well-formed outputs before it and the completion if well formed |
| `SseReader.ParsedIsExact` | frontend/src/lib/sse.ts:412-418 | of a stretch of malformed events nothing is dispatched, a stretch of well-formed ones is dispatched whole |
| `SseReader.ReadAdminEventStream` | frontend/src/lib/sse.ts:394-425 | whatever the chunks, dispatches exactly the well-formed events of the whole text |
| `SseReader.ReadSseStream` | frontend/src/lib/sse.ts:177-220 | whatever the chunks, makes exactly the callbacks of the whole text up to the first completion |
| `SseReader.CompleteIsFinal` | frontend/src/lib/sse.ts:205-214 | nothing that arrives after the completion changes the callbacks |
| `SseReader.RoundTrip` | frontend/src/lib/sse.ts:428-446 | events written in the LF field format are recovered exactly, multi-line data included, under every chunking, if and only if every type is newline-free and trimmed |
| `SseReader.CutAtAdjacentLineFeeds` | frontend/src/lib/sse.ts:189-193 | a text is cut exactly when it holds two adjacent line feeds |
| `SseReader.CrlfEventsAreLost` | frontend/src/lib/sse.ts:189-193 | the events of the round trip written with CRLF line ends are all lost under every chunking and stay in the buffer |
| `SseReconnect.BackoffIsCapped` | frontend/src/lib/sse.ts:112-117 | waits are 1 s at first, then double up to 30 s, reached exactly from the sixth attempt on |
| `SseReconnect.StepKeepsInv` | frontend/src/lib/sse.ts:57-169 | every callback and the disconnect keep at most one operation pending, with counters that match it |
| `SseReconnect.OneOperationAtATime` | frontend/src/lib/sse.ts:57-169 | in every reachable state at most one fetch, body, timer or refresh is pending, at most `maxAttempts` + 1 fetches were issued without a success, and waits are capped |
| `SseReconnect.NoFetchAfterDisconnect` | frontend/src/lib/sse.ts:62-63 | after a disconnect no fetch is ever issued |
| `SseReconnect.DisconnectedComesToRest` | frontend/src/lib/sse.ts:165-169 | after a disconnect every callback leaves less outstanding, so the machine stops |
| `SseReconnect.AttemptCounts` | frontend/src/lib/sse.ts:297-345 | while connected the attempt counter is the number of failures since the last success |
| `SseReconnect.TimerCause` | frontend/src/lib/sse.ts:315-345 | a timer that fires was set by the callback before it, and leads to a refresh exactly if that was an unauthorized response |
| `SseReconnect.StartsExactly` | frontend/src/lib/sse.ts:117-160 | over every run: a refresh starts exactly when a timer set by an unauthorized response fires, a fetch exactly when another timer fires or a refresh ends without revoking the session, a body exactly after a successful response; neither refresh nor fetch after a disconnect |
| `SseReconnect.WaitsExactly` | frontend/src/lib/sse.ts:315-345 | over every run a timer is set exactly when a retry is due, for the backoff of the failures so far, remembering whether the response was unauthorized |
| `SseReconnect.StopsExactly` | frontend/src/lib/sse.ts:97-160 | over every run the stream is revoked exactly at an auth-class refresh failure, gives up exactly at a failure past the last attempt, and ends exactly when the server closes one that does not reconnect |
| `SseReconnect.ReconnectingStream.Receive` | frontend/src/lib/sse.ts:269-388 | running a callback in place is the machine's step |
| `CfgParser.Parser.ParseExpr` | ci/verify_db_access_policy.py:440-468 | recursive descent with a moving position reads what the grammar function reads, or fails with it |
| `CfgParser.Parser.ConsumeLiteral` | ci/verify_db_access_policy.py:413-438 | reads a quoted literal to its unescaped quote (or the end) or a bare one to the next comma or parenthesis, stripped |
| `CfgParser.NamesParseWhole` | ci/verify_db_access_policy.py:401-411 | letters, digits, underscores, hyphens, colons and dots in any order are one option name |
| `CfgParser.ParseCfgExpr` | ci/verify_db_access_policy.py:489-495 | accepts exactly if the expression is followed by white space only |
| `CfgParser.LayoutReads` | ci/verify_db_access_policy.py:440-468 | every written layout of an expression (any white space, trailing commas, literals) is read back as that expression |
| `CfgParser.ExprRebuilt` | ci/verify_db_access_policy.py:440-468 | conversely everything that is read was written by some layout |
| `CfgParser.ParseIsExact` | ci/verify_db_access_policy.py:489-495 | a text parses to an expression if and only if it is a layout of it |
| `CfgParser.LayoutIsUnambiguous` | ci/verify_db_access_policy.py:489-495 | layouts with the same text denote the same expression |
| `CfgParser.ParsedVerdictIsExact` | ci/verify_db_access_policy.py:498-582 | for whatever text is parsed, the policy answers exactly whether the expression can hold without `test` |
| `CfgParser.EmptyGroupIsRefused` | ci/verify_db_access_policy.py:451-461 | `all()` and `any()` without arguments never parse |
| `CfgPolicy.Simplify` | ci/verify_db_access_policy.py:499-535 | terminates, is applied to constant-free expressions only, yields a constant or a constant-free expression that weighs no more |
| `CfgPolicy.SimplifyMeaning` | ci/verify_db_access_policy.py:499-535 | simplification preserves the value under every assignment with `test` off |
| `CfgPolicy.SimplifyIsNormal` | ci/verify_db_access_policy.py:499-535 | its result is a constant or in negation normal form without `test` |
| `CfgPolicy.GatherExact` | ci/verify_db_access_policy.py:537-578 | on normal forms the expansion never raises and an assignment satisfies the expression exactly if it meets one requirement |
| `CfgPolicy.MergeRequirement` | ci/verify_db_access_policy.py:566-574 | the merge loop yields the union exactly when the dictionaries agree |
| `CfgPolicy.CombineRequirements` | ci/verify_db_access_policy.py:563-575 | one round yields every consistent join, in order |
| `CfgPolicy.CanBeTrueIsExact` | ci/verify_db_access_policy.py:498-582 | the procedure never raises and says true exactly when some assignment with `test` off satisfies the expression |
| `CfgPolicy.ItemIsTestOnlyIsExact` | ci/verify_db_access_policy.py:585-591 | an item is test-only exactly when it has a `cfg` and no assignment with `test` off satisfies all of them |
| `CfgPossibility.PossibilityIsSound` | ci/check_plugin_semantic_boundary.py:521-547 | every value taken under some assignment is admitted |
| `CfgPossibility.PossibilityIsExact` | ci/check_plugin_semantic_boundary.py:521-547 | when no option but `test` occurs both plainly and negated, exactly the values taken are admitted |
| `CfgPossibility.ReadOnceHasOnePolarity` | ci/check_plugin_semantic_boundary.py:521-547 | in particular when no option but `test` occurs twice |
| `CfgPossibility.BothPolaritiesFail` | ci/check_plugin_semantic_boundary.py:532-539 | for every other option, itself and its negation together already admit a value that no assignment gives |
| `CfgPossibility.CheckersAgree` | ci/check_plugin_semantic_boundary.py:550-553 | on one expression tree: whatever this checker calls test-requiring is test-only for the other; with one polarity per option it is also complete for satisfiable ones |
| `CfgPossibility.CheckersDiffer` | ci/check_plugin_semantic_boundary.py:550-553 | a test-only expression that this checker misses |
| `CfgCallText.SplitCfgArgs` | ci/check_plugin_semantic_boundary.py:423-466 | the loop with its two-character escapes cuts at exactly the commas outside quotes and parentheses, or fails on an imbalance or a blank part |
| `CfgCallText.QuotesHide` | ci/check_plugin_semantic_boundary.py:430-444 | within either kind of quotes commas and parentheses mean nothing: the whole is one part |
| `CfgCallText.FindClosing` | ci/check_plugin_semantic_boundary.py:474-507 | the loop finds the parenthesis outside quotes that brings the depth back to zero |
| `CfgCallText.ParseCfgCall` | ci/check_plugin_semantic_boundary.py:469-518 | an operator, its arguments and nothing behind, or no call |
| `CfgCallText.CfgPossible` | ci/check_plugin_semantic_boundary.py:521-547 | the recursion on texts computes the values of the call tree the text is read as |
| `CfgCallLayout.BodyParts` | ci/check_plugin_semantic_boundary.py:423-466 | the argument list of every written expression whose unquoted literals close their quotes and open no parenthesis is cut at exactly its written commas |
| `CfgCallLayout.CallText` | ci/check_plugin_semantic_boundary.py:469-518 | a written operator is read with its written arguments, or as a leaf if some part is blank or some unquoted literal opens a parenthesis |
| `CfgCallLayout.BlankPart` | ci/check_plugin_semantic_boundary.py:463-466 | some part is blank exactly when the list ends in a comma |
| `CfgCallLayout.LeafText` | ci/check_plugin_semantic_boundary.py:545-547 | a written option is read as a leaf, and as `test` exactly if it is that option |
| `CfgTwoReadings.TextAgrees` | ci/check_plugin_semantic_boundary.py:521-547 | for every layout whose unquoted literals close the quotes they open this checker admits at least the values of the expression the other parser reads, and exactly those if no list ends in a comma and no unquoted literal opens a parenthesis |
| `CfgTwoReadings.TextCheckersAgree` | ci/check_plugin_semantic_boundary.py:550-553 | on such a text whatever this checker calls test-requiring is test-only for the other; without final commas and opened parentheses and with one polarity per option it is complete for satisfiable ones |
| `CfgTwoReadings.TrailingCommaHides` | ci/check_plugin_semantic_boundary.py:463-466 | a call whose list ends in a comma, or with a parenthesis opened by an unquoted literal at any depth, may be anything to this checker |
| `CfgTwoReadings.BlankMayBeAnything` | ci/check_plugin_semantic_boundary.py:522-524 | a blank text may be anything to this checker |
| `CfgTwoReadings.NegatedListMayBeAnything` | ci/check_plugin_semantic_boundary.py:540-541 | so may a negation of several arguments, however it is laid out |
| `CfgTwoReadings.TrailingCommaExample` | ci/check_plugin_semantic_boundary.py:463-466 | `all(test,)` is test-only and this checker misses it |
| `CfgTwoReadings.LiteralIsSafeIffInStep` | ci/check_plugin_semantic_boundary.py:432-444 | for every unquoted literal: this checker is sound on every text whose unquoted literals are all that one if and only if every quote opened in the literal is closed in it |
| `CfgTwoReadings.RawBackslashMisleads` | ci/check_plugin_semantic_boundary.py:432-444 | `all(a=r"\",b=",test,\"")` is test-requiring to this checker and not test-only |
| `CfgTwoReadings.RawStringsKeepStep` | ci/check_plugin_semantic_boundary.py:432-444 | a raw string without quotes, backslashes, commas and closing parentheses meets that condition and opens no parenthesis |
| `ModuleScan.ScanFollowsTree` | ci/verify_no_orphan_modules.py:285-312 | for every nested tree flattened to events each file module is resolved under exactly its enclosing inline modules, and depth and stack are restored |
| `OrphanModules.Walker.Visit` | ci/verify_no_orphan_modules.py:256-312 | terminates on cycles; visits only what the walk reaches, closes what it visits, records each visited file's gaps exactly once |
| `OrphanModules.Walker.ScanModules` | ci/verify_no_orphan_modules.py:285-312 | the running depth and stack resolve every declaration of the file in order |
| `OrphanModules.Walker.ResolveModule` | ci/verify_no_orphan_modules.py:298-312 | one declaration is followed to its file or recorded as a gap |
| `OrphanModules.StemIsExact` | ci/verify_no_orphan_modules.py:279-279 | the stem is the name up to its last dot, unless that dot is at either end or missing |
| `OrphanModules.BaseIsExact` | ci/verify_no_orphan_modules.py:278-279 | a file looks for its modules in its own directory if it is a root or `lib.rs`, `main.rs` or `mod.rs`, otherwise in the directory beside it that has its stem for a name: exactly one directory for every file |
| `OrphanModules.PlainFileLooksIn` | ci/verify_no_orphan_modules.py:278-279 | any other `dir/stem.rs` looks in `dir/stem` |
| `OrphanModules.BesideIsExact` | ci/verify_no_orphan_modules.py:302-312 | a declaration without `#[path]` leads to `name.rs` in that directory under its inline modules, else to `name/mod.rs` there, else nowhere |
| `OrphanModules.DeclarationIsFollowed` | ci/verify_no_orphan_modules.py:298-312 | of what the walk visits and records: a declaration whose name has no `#[path]` in the file has that written target visited, or is recorded as a gap |
| `OrphanModules.Walker.HasStaleEntry` | ci/verify_no_orphan_modules.py:347-352 | an allowlist is stale exactly if a path in it, or the file of a declaration in it, is not tracked |
| `OrphanModules.Walker.VisitAll` | ci/verify_no_orphan_modules.py:372-376 | the visited set is exactly the existing files the walk reaches from a root, and the gaps are exactly those of the visited files, each once |
| `OrphanModules.Walker.Judge` | ci/verify_no_orphan_modules.py:315-406 | orphans are exactly tracked minus allowed minus reached, which is minus declared where every reached file is uniform; the exit code is 2, 1 or 0 exactly as allowlist, gaps and orphans say |
| `OrphanModules.AgreesIffUniform` | ci/verify_no_orphan_modules.py:281-300 | the walk follows every declaration of a file to where the declaration itself leads if and only if no name has a `#[path]` that another declaration of it does not lead to |
| `OrphanModules.DeclaredAreVisited` | ci/verify_no_orphan_modules.py:281-312 | everything the declarations reach from the roots is visited if and only if no declaration passed on the way leads to an existing file that the walk misses |
| `OrphanModules.VisitedAreDeclared` | ci/verify_no_orphan_modules.py:281-312 | everything visited is declared if and only if no step of the walk leads from a declared file to one that no declaration reaches |
| `OrphanModules.VisitedIsDeclared` | ci/verify_no_orphan_modules.py:281-312 | where every reached file is uniform, the visited files are exactly those the declarations themselves reach |
| `OrphanModules.GapsAreTheUnfound` | ci/verify_no_orphan_modules.py:281-312 | the gaps of a visited file are its dead declarations without `#[path]`, each once and in order, if and only if none of them shares its name with a `#[path]` elsewhere in the file |
| `OrphanModules.DeadIsReportedUnlessExplicit` | ci/verify_no_orphan_modules.py:281-312 | a declaration in a visited file that itself leads to no existing file is recorded if and only if no declaration of that name in the file has a `#[path]` |
| `OrphanModules.MissingPathIsSilent` | ci/verify_no_orphan_modules.py:298-301 | a crate root whose only module has a `#[path]` to a missing file records nothing |
| `OrphanModules.OtherPathIsTaken` | ci/verify_no_orphan_modules.py:281-300 | `#[path = "p.rs"] mod x; mod inner { mod x; }`: the second declaration has no file and no `#[path]` and is not recorded |
| `OrphanModules.LastPathWins` | ci/verify_no_orphan_modules.py:281-300 | two `#[path]` declarations of one name behind different `cfg`s: the first file is declared and never visited |
| `CrateSelect.OwnsIsComponentPrefix` | ci/bare_crate_select.py:71-102 | the text-prefix test past a slash is the component-prefix test |
| `CrateSelect.FindOwner` | ci/bare_crate_select.py:90-101 | yields the first member with the longest owning directory, none exactly if no member owns the path |
| `CrateSelect.ContainsIsFirstOwner` | ci/bare_crate_select.py:71-101 | by path components: the owner is the first member of the order whose manifest directory is the innermost non-empty one that holds the path |
| `CrateSelect.OwnerIgnoresOrder` | ci/bare_crate_select.py:77-102 | every two iteration orders find the same owner for every path if and only if no two members share a directory |
| `CrateSelect.DependencyClosure` | ci/bare_crate_select.py:105-138 | the worklist terminates on cycles and yields exactly what is reached over one or more edges |
| `CrateSelect.DependsIsLeads` | ci/bare_crate_select.py:105-138 | what is reached over the edge map is what a chain of declared dependencies between members leads to |
| `CrateSelect.ChangedMembers` | ci/bare_crate_select.py:77-102 | exactly the owners of the changed paths |
| `CrateSelect.SelectAffected` | ci/bare_crate_select.py:141-167 | the names returned are those of the affected plugin crates: the root manifest or lockfile changed, or a chain of zero or more declared dependencies leads to the innermost member that holds a changed path |
| `CrateSelect.SelectedIsAffected` | ci/bare_crate_select.py:141-167 | the selection by edge map, owner table and text prefixes is the one by declared dependencies and path components |
| `CrateSelect.SelectionIgnoresOrder` | ci/bare_crate_select.py:141-167 | with distinct directories the selection is the same in every iteration order |
| `ScopeIndex.StateIsWellFormed` | ci/check_plugin_semantic_boundary.py:1613-1634 | for every brace sequence, balanced or not, scopes form a tree rooted at 0 with parents numbered below children and the stack is a parent chain |
| `ScopeIndex.ChainIsAncestors` | ci/check_plugin_semantic_boundary.py:1622-1634 | the stack is exactly the ancestor chain of its top |
| `ScopeIndex.StackIsExact` | ci/check_plugin_semantic_boundary.py:1622-1634 | for every brace sequence the scope opened by a brace is on the stack later if and only if no brace in between closes it, and besides those only the root is |
| `ScopeIndex.BalancedRestores` | ci/check_plugin_semantic_boundary.py:1622-1634 | a balanced group of braces leaves the stack as it was |
| `ScopeIndex.LineIsGood` | ci/check_plugin_semantic_boundary.py:1622-1636 | against the finished index each line's ids start at the root, strictly increase and are closed under parent |
| `ScopeIndex.LineIsExact` | ci/check_plugin_semantic_boundary.py:1622-1641 | for every text the ids of a line are exactly the root and the scopes open at its start or opened on it |
| `ScopeIndex.DedupKeepsLine` | ci/check_plugin_semantic_boundary.py:1636-1636 | deduplication drops nothing |
| `ScopeIndex.BuildScopeIndex` | ci/check_plugin_semantic_boundary.py:1613-1641 | the loop builds that tree and those lines, of which `LineIsExact` says what they hold |
| `ScopeIndex.VisibleScopeBindings` | ci/check_plugin_semantic_boundary.py:1652-1661 | the union loop over the line's scopes, the root alone for an unscanned line |
| `ScopeIndex.VisibleIsExact` | ci/check_plugin_semantic_boundary.py:1652-1661 | a name is visible exactly when some active scope binds it |
| `ScopeIndex.VisibleOnLine` | ci/check_plugin_semantic_boundary.py:1644-1661 | from text to names: a name is visible on a line exactly when the root binds it, or a scope open at the start of the line or opened on it does; beyond the text only the root's are |
| `ScopeIndex.AncestorBindingsVisible` | ci/check_plugin_semantic_boundary.py:1644-1661 | on every line the bindings of all ancestors of an active scope are visible |

## Left out

- Network, SSH handshake and authentication, SFTP, database drivers, the file system and logging: foreign calls, present only as nondeterministic results or parameters.
- The clock: a parameter of the pool, arbitrary stamps in the reload model; the shutdown deadline is the point at which no further event arrives.
- UpdateProtocol.StepKeepsInv: update ids are fresh per request, as the controller issues them; a repeated id is outside the model.
- UpdateProtocol.FirstReportWins: a result is its update's id and one text; its status, versions and resume data are not told apart.
- UpdateProtocol.RunInvariant: the forwarder's early exit when the receiver is gone is left out, because the receiver lives as long as the runtime.
- SingleHostRuntime.ActionRefines: polls are atomic; cancellation inside `poll_in_flight_update` and the single-host interactive channels are left out.
- InteractiveBridge.DeliveryInOrder: base64 decoding of the stdin payload and the attention channel are left out.
- SshPool.StepKeepsInv: connecting succeeds or fails nondeterministically; the connect timeout and closing of removed sessions are left out.
- HostReload.HostMonitor.HandleHostConfigChanged: the report sent afterwards is left out except for its machine-id writes, which are edits of the run model.
- SshTarget.RoundTrip: strings starting with `ssh://` go to a URL parser that is a parameter, so targets accepted through it are covered by SshTarget.RoundTripsExactly only.
- SshTarget.AcceptedIsWellFormed: error messages are reduced to their kinds.
- LineBuffer.OutputBuffer.PushText: works on decoded characters; lossy UTF-8 decoding of each received chunk and a full streaming channel are left out.
- RedactLog.RedactForLog: lower-casing is modelled for ASCII letters, the only ones the header contains.
- SseReader.ReadSseStream: UTF-8 decoding of network chunks and JSON parsing are left out; a payload parses or not by a parameter.
- SseReconnect.StepKeepsInv: request headers, the token refresh body and the callbacks' own effects are left out.
- CfgParser.Parser.ParseExpr: which non-ASCII characters count as letters is left open; the model fixes some classification that separates letters from spaces and punctuation.
- CfgParser.ParsedVerdictIsExact: cutting attributes and `cfg(...)` texts out of a Rust item is left out.
- CfgTwoReadings.TextCheckersAgree: finding the `cfg` attribute lines with regular expressions is left out; a text is what stands between the parentheses of `cfg(...)`.
- OrphanModules.Walker.Visit: comment and string sanitizing, the regular expressions that find events and path resolution on disk are left out; a file is given by its events, each `mod name;` with the path that ci/verify_no_orphan_modules.py:281 resolves for its own `#[path]`.
- CrateSelect.SelectAffected: running `git diff` and `cargo metadata` is left out.
- ScopeIndex.BuildScopeIndex: finding braces outside strings and comments is left out; a line is its sequence of braces.
- Regular-expression finding rules, manifest checks, key rotation, encryption columns, batch updates, discovery, surfaces and plugin hooks: thin dispatch or pattern tables that would only add easy members.
