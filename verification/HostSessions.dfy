/**
 The host table and the connection pool together: a tick decides whose sessions go,
 and drops them one by one while acquires carry on.
 */
module HostSessions {
  import Reload = HostReload
  import Pool = SshPool

  type HostId = Pool.HostId

  /** `doomed` are the hosts a tick has decided to evict and not evicted yet. */
  datatype State = State(table: Reload.HostTable, pool: Pool.State, doomed: set<HostId>)

  const Init := State(Reload.Fresh, Pool.Init, {})

  datatype Step = OnTable(edit: Reload.Edit) | OnPool(step: Pool.Step) | Drop(host: HostId)

  ghost predicate Enabled(s: State, step: Step) {
    match step
    case OnTable(e) => Reload.Possible(s.table, e) && !e.DrainPool?
    case OnPool(p) => Pool.Enabled(s.pool, p)
    case Drop(host) => host in s.doomed
  }

  /** What a step of the pool is to the table: a drain, or like a tick whose listing
      failed, which does nothing. */
  function Seen(p: Pool.Step): Reload.Edit {
    if p.DisconnectAll? then Reload.DrainPool else Reload.FailedTick
  }

  function Doomed(s: Reload.HostTable, e: Reload.Edit): set<HostId> {
    if e.Tick? then Reload.Evicted(s.snapshot, e.listing) else {}
  }

  ghost function Apply(s: State, step: Step): State
    requires Enabled(s, step)
  {
    match step
    case OnTable(e) => s.(table := Reload.Do(s.table, e), doomed := s.doomed + Doomed(s.table, e))
    case OnPool(p) => s.(pool := Pool.Apply(s.pool, p), table := Reload.Do(s.table, Seen(p)))
    case Drop(host) => s.(pool := Pool.Apply(s.pool, Pool.Evict(host)), doomed := s.doomed - {host})
  }

  ghost predicate MovesAt(run: seq<State>, steps: seq<Step>, i: nat)
    requires i < |steps| && |run| == |steps| + 1
  {
    Enabled(run[i], steps[i]) && run[i + 1] == Apply(run[i], steps[i])
  }

  ghost predicate IsRun(run: seq<State>, steps: seq<Step>) {
    && |run| == |steps| + 1
    && run[0] == Init
    && forall i: nat :: i < |steps| ==> MovesAt(run, steps, i)
  }

  // ── The table's view ───────────────────────────────────────────────────────

  function Tables(run: seq<State>): seq<Reload.HostTable> {
    seq(|run|, i requires 0 <= i < |run| => run[i].table)
  }

  function EditOf(step: Step): Reload.Edit {
    match step
    case OnTable(e) => e
    case OnPool(p) => Seen(p)
    case Drop(_) => Reload.FailedTick
  }

  function Edits(steps: seq<Step>): seq<Reload.Edit> {
    seq(|steps|, i requires 0 <= i < |steps| => EditOf(steps[i]))
  }

  lemma TableRuns(run: seq<State>, steps: seq<Step>)
    requires IsRun(run, steps)
    ensures Reload.IsRun(Tables(run), Edits(steps))
  {
    forall i: nat | i < |steps| ensures Reload.MovesAt(Tables(run), Edits(steps), i) {
      assert MovesAt(run, steps, i);
    }
  }

  lemma {:induction false} LogGrows(run: seq<State>, steps: seq<Step>, m: nat, n: nat)
    requires IsRun(run, steps) && m <= n < |run|
    ensures |run[m].pool.log| <= |run[n].pool.log|
  {
    if m < n {
      LogGrows(run, steps, m, n - 1);
      assert MovesAt(run, steps, n - 1);
    }
  }

  lemma {:induction false} StaysDoomed(run: seq<State>, steps: seq<Step>, m: nat, n: nat, host: HostId)
    requires IsRun(run, steps) && m <= n < |run| && host in run[m].doomed
    requires forall i :: m <= i < n ==> steps[i] != Drop(host)
    ensures host in run[n].doomed
  {
    if m < n {
      StaysDoomed(run, steps, m, n - 1, host);
      assert MovesAt(run, steps, n - 1);
    }
  }

  // ── From an edit to the sessions handed out ────────────────────────────────

  /** An edit at step `m`, the first tick after it at step `n`, and what follows: the
      tick dooms the host if and only if it is still listed, the last re-listing in
      between failed and its row does not carry the recorded stamp.  Then it can be
      dropped at any later step `k`, and from there on every session handed out for it was
      opened after the edit if and only if no acquire begun before the edit is still in
      progress at the drop. */
  lemma NoticedEditBoundsSessions(run: seq<State>, steps: seq<Step>, m: nat, n: nat, k: nat, host: HostId)
    requires IsRun(run, steps) && n < k < |run| && Edits(steps)[n].Tick?
    requires Reload.LastTouched(Tables(run), Edits(steps), m, n, host)
    requires host !in run[n].doomed && forall i :: n < i < k ==> steps[i] != Drop(host)
    ensures var s := run[n].table;
      host in run[n + 1].doomed <==>
        Reload.Listed(s, host) && !Reload.Relisted(Edits(steps), m, n) && !Reload.SameStamp(s, host)
    ensures host in run[n + 1].doomed ==> Enabled(run[k], Drop(host))
    ensures Enabled(run[k], Drop(host)) ==>
      (Pool.SessionsSince(Apply(run[k], Drop(host)).pool, host, |run[m].pool.log|) <==>
       Pool.NoneBegunBefore(run[k].pool, host, |run[m].pool.log|))
  {
    TableRuns(run, steps);
    assert MovesAt(run, steps, n);
    Reload.TouchIsNoticed(Tables(run), Edits(steps), m, n, host);
    if host in run[n + 1].doomed {
      StaysDoomed(run, steps, n + 1, k, host);
    }
    LogGrows(run, steps, m, k);
    Pool.RemovalBoundsSince(run[k].pool, host, Pool.Evict(host), |run[m].pool.log|);
  }
}
