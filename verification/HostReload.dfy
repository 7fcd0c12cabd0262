/**
 The host reload tick: compare the stored snapshot of `ssh_hosts` with the current
 one, drop the pooled sessions of every host that was deleted, added or
 re-stamped, and remember the new snapshot.
 */
module HostReload {
  import opened Common
  import opened SshPool

  type Stamp = nat

  datatype Snapshot = Snapshot(id: HostId, updatedAt: Stamp)

  // ── The difference of two snapshots ────────────────────────────────────────

  /** What a map collected from the list holds for `id`: the last entry wins. */
  function Stored(xs: seq<Snapshot>, id: HostId): Option<Stamp> {
    if xs == [] then None
    else if xs[|xs| - 1].id == id then Some(xs[|xs| - 1].updatedAt)
    else Stored(xs[..|xs| - 1], id)
  }

  function Ids(xs: seq<Snapshot>): set<HostId> {
    set i | 0 <= i < |xs| :: xs[i].id
  }

  /** Ids of `prev` that `curr` does not have, in order. */
  function Deleted(prev: seq<Snapshot>, curr: seq<Snapshot>): seq<HostId> {
    if prev == [] then []
    else
      var last := prev[|prev| - 1].id;
      Deleted(prev[..|prev| - 1], curr) + if last in Ids(curr) then [] else [last]
  }

  /** Ids of `curr` that are new or carry another stamp. */
  function Changed(prev: seq<Snapshot>, curr: seq<Snapshot>): set<HostId> {
    set i | 0 <= i < |curr| && Stored(prev, curr[i].id) != Some(curr[i].updatedAt) :: curr[i].id
  }

  /** The hosts whose pooled sessions a tick drops. */
  function Evicted(prev: seq<Snapshot>, curr: seq<Snapshot>): set<HostId> {
    Changed(prev, curr) + set id | id in Deleted(prev, curr)
  }

  method DiffHostSnapshots(prev: seq<Snapshot>, curr: seq<Snapshot>)
    returns (deleted: seq<HostId>, changed: set<HostId>)
    ensures deleted == Deleted(prev, curr)
    ensures changed == Changed(prev, curr)
  {
    var prevMap: map<HostId, Stamp> := map[];
    for i := 0 to |prev|
      invariant forall id :: Stored(prev[..i], id) == if id in prevMap then Some(prevMap[id]) else None
    {
      assert prev[..i + 1][..i] == prev[..i];
      prevMap := prevMap[prev[i].id := prev[i].updatedAt];
    }
    assert prev[..|prev|] == prev;
    var currIds := Ids(curr);
    deleted := [];
    for i := 0 to |prev|
      invariant deleted == Deleted(prev[..i], curr)
    {
      assert prev[..i + 1][..i] == prev[..i];
      if prev[i].id !in currIds {
        deleted := deleted + [prev[i].id];
      }
    }
    changed := {};
    for i := 0 to |curr|
      invariant changed == set j | 0 <= j < i && Stored(prev, curr[j].id) != Some(curr[j].updatedAt) :: curr[j].id
    {
      var snapshot := curr[i];
      if snapshot.id !in prevMap || prevMap[snapshot.id] != snapshot.updatedAt {
        changed := changed + {snapshot.id};
      }
    }
  }

  /** Snapshots come out of the database ordered by their primary key. */
  ghost predicate Ordered(xs: seq<Snapshot>) {
    forall i, j :: 0 <= i < j < |xs| ==> xs[i].id < xs[j].id
  }

  lemma {:induction false} StoredIsMembership(xs: seq<Snapshot>, id: HostId, t: Stamp)
    requires Ordered(xs)
    ensures Stored(xs, id) == Some(t) <==> Snapshot(id, t) in xs
  {
    if xs != [] {
      var front, last := xs[..|xs| - 1], xs[|xs| - 1];
      assert xs == front + [last];
      StoredIsMembership(front, id, t);
    }
  }

  lemma {:induction false} DeletedExact(prev: seq<Snapshot>, curr: seq<Snapshot>, id: HostId)
    ensures id in Deleted(prev, curr) <==> id in Ids(prev) && id !in Ids(curr)
  {
    if prev != [] {
      var front := prev[..|prev| - 1];
      DeletedExact(front, curr, id);
      assert prev == front + [prev[|prev| - 1]];
      assert id in Ids(prev) <==> id in Ids(front) || id == prev[|prev| - 1].id by {
        if id in Ids(front) {
          var i :| 0 <= i < |front| && front[i].id == id;
          assert prev[i].id == id;
        }
      }
    }
  }

  lemma IdsHold(xs: seq<Snapshot>, id: HostId)
    ensures id in Ids(xs) <==> exists t :: Snapshot(id, t) in xs
  {
    if id in Ids(xs) {
      var i :| 0 <= i < |xs| && xs[i].id == id;
      assert xs[i] == Snapshot(id, xs[i].updatedAt);
    }
  }

  lemma SameFirst(xs: seq<Snapshot>, ys: seq<Snapshot>)
    requires Ordered(xs) && Ordered(ys) && xs != [] && ys != [] && xs[0] in ys && ys[0] in xs
    ensures xs[0] == ys[0]
  {
    var i :| 0 <= i < |ys| && ys[i] == xs[0];
    var j :| 0 <= j < |xs| && xs[j] == ys[0];
  }

  /** Ordered lists with the same members are the same list. */
  lemma {:induction false} OrderedUnique(xs: seq<Snapshot>, ys: seq<Snapshot>)
    requires Ordered(xs) && Ordered(ys) && forall s :: s in xs <==> s in ys
    ensures xs == ys
  {
    assert xs != [] ==> xs[0] in xs;
    assert ys != [] ==> ys[0] in ys;
    if xs != [] {
      SameFirst(xs, ys);
      forall s ensures s in xs[1..] <==> s in ys[1..] {
        MemberOfTail(xs, s);
        MemberOfTail(ys, s);
      }
      OrderedUnique(xs[1..], ys[1..]);
      assert xs == [xs[0]] + xs[1..] && ys == [ys[0]] + ys[1..];
    }
  }

  lemma MemberOfTail(xs: seq<Snapshot>, s: Snapshot)
    requires Ordered(xs) && xs != []
    ensures s in xs[1..] <==> s in xs && s != xs[0]
  {
    assert xs == [xs[0]] + xs[1..];
  }

  /** On ordered snapshots the equality shortcut is taken exactly when the full
      comparison would find nothing. */
  lemma ShortcutAgrees(prev: seq<Snapshot>, curr: seq<Snapshot>)
    requires Ordered(prev) && Ordered(curr)
    ensures prev == curr <==> Deleted(prev, curr) == [] && Changed(prev, curr) == {}
  {
    var deleted := Deleted(prev, curr);
    assert deleted != [] ==> deleted[0] in deleted;
    forall id ensures id in deleted <==> id in Ids(prev) && id !in Ids(curr) {
      DeletedExact(prev, curr, id);
    }
    forall id: HostId, t: Stamp ensures Stored(prev, id) == Some(t) <==> Snapshot(id, t) in prev {
      StoredIsMembership(prev, id, t);
    }
    if prev == curr {
      forall i | 0 <= i < |curr| ensures Stored(prev, curr[i].id) == Some(curr[i].updatedAt) {
        assert curr[i] == Snapshot(curr[i].id, curr[i].updatedAt);
      }
    }
    if Deleted(prev, curr) == [] && Changed(prev, curr) == {} {
      NothingFoundMeansSame(prev, curr);
    }
  }

  lemma NothingFoundMeansSame(prev: seq<Snapshot>, curr: seq<Snapshot>)
    requires Ordered(prev) && Ordered(curr)
    requires forall id :: id in Ids(prev) ==> id in Ids(curr)
    requires forall id: HostId, t: Stamp :: Stored(prev, id) == Some(t) <==> Snapshot(id, t) in prev
    requires Changed(prev, curr) == {}
    ensures prev == curr
  {
    forall s | s in curr ensures s in prev {
      var i :| 0 <= i < |curr| && curr[i] == s;
      assert Stored(prev, s.id) != Some(s.updatedAt) ==> s.id in Changed(prev, curr);
      assert s == Snapshot(s.id, s.updatedAt);
    }
    forall s | s in prev ensures s in curr {
      var i :| 0 <= i < |prev| && prev[i] == s;
      assert s.id in Ids(prev);
      IdsHold(curr, s.id);
      var t :| Snapshot(s.id, t) in curr;
      assert Snapshot(s.id, t) in prev;
      StoredIsMembership(prev, s.id, t);
      StoredIsMembership(prev, s.id, s.updatedAt);
      assert s == Snapshot(s.id, s.updatedAt);
    }
    OrderedUnique(prev, curr);
  }

  /** Without the ordering the shortcut can miss: the same hosts in another order
      are unequal lists with an empty difference. */
  lemma UnorderedDisagrees()
    ensures var prev, curr := [Snapshot(1, 0), Snapshot(0, 0)], [Snapshot(0, 0), Snapshot(1, 0)];
      prev != curr && Deleted(prev, curr) == [] && Changed(prev, curr) == {}
  {
    var prev, curr := [Snapshot(1, 0), Snapshot(0, 0)], [Snapshot(0, 0), Snapshot(1, 0)];
    assert prev[0] != curr[0];
    assert curr[0].id in Ids(curr) && curr[1].id in Ids(curr);
    assert prev[..1] == [Snapshot(1, 0)] && prev[..1][..0] == [];
    assert Stored(prev, 0) == Some(0) && Stored(prev[..1], 1) == Some(0);
  }

  // ── The tick ───────────────────────────────────────────────────────────────

  class HostMonitor {
    var snapshot: seq<Snapshot>
    const pool: SshConnectionPool

    constructor (pool: SshConnectionPool)
      ensures snapshot == [] && this.pool == pool
    {
      this.snapshot, this.pool := [], pool;
    }

    /** On every connection the snapshot is listed anew, without looking at the old
        one and without touching the pool. */
    method InitializeSnapshot(listing: Option<seq<Snapshot>>)
      modifies this
      ensures snapshot == if listing.Some? then listing.value else []
    {
      snapshot := [];
      if listing.Some? {
        snapshot := listing.value;
      }
    }

    /** `listing` is the database query; a failed one leaves everything alone. */
    method HandleHostConfigChanged(listing: Option<seq<Snapshot>>) returns (reported: bool, changed: set<HostId>)
      modifies this, pool
      ensures listing.None? ==> snapshot == old(snapshot) && pool.entries == old(pool.entries) && !reported
      ensures listing.Some? ==>
        && snapshot == listing.value
        && reported == (listing.value != old(snapshot))
        && (reported ==>
              && changed == Changed(old(snapshot), listing.value)
              && pool.entries == old(pool.entries) - Evicted(old(snapshot), listing.value))
        && (!reported ==> pool.entries == old(pool.entries))
    {
      reported, changed := false, {};
      if listing.None? {
        return;
      }
      var current := listing.value;
      if current == snapshot {
        return;
      }
      var deleted;
      deleted, changed := DiffHostSnapshots(snapshot, current);
      ghost var evicted := {};
      for i := 0 to |deleted|
        invariant evicted == set id | id in deleted[..i]
        invariant pool.entries == old(pool.entries) - evicted
        invariant snapshot == old(snapshot)
      {
        var _ := pool.Evict(deleted[i]);
        assert deleted[..i + 1] == deleted[..i] + [deleted[i]];
        evicted := evicted + {deleted[i]};
      }
      assert deleted[..|deleted|] == deleted;
      var todo := changed;
      while todo != {}
        invariant todo <= changed
        invariant pool.entries == old(pool.entries) - (evicted + (changed - todo))
        invariant snapshot == old(snapshot)
        decreases todo
      {
        var id :| id in todo;
        var _ := pool.Evict(id);
        todo := todo - {id};
      }
      snapshot := current;
      reported := true;
    }
  }

  // ── Runs of edits and ticks ────────────────────────────────────────────────

  datatype Row = Row(updatedAt: Stamp, machineId: Option<string>)

  /** `touched` are the hosts added, removed or re-stamped since the snapshot was
      taken, `stale` those not evicted since they were; `clock` is the latest stamp. */
  datatype HostTable = HostTable(
    rows: map<HostId, Row>,
    snapshot: seq<Snapshot>,
    clock: Stamp,
    touched: set<HostId>,
    stale: set<HostId>)

  const Fresh := HostTable(map[], [], 0, {}, {})

  /** `list_host_snapshots`: every row, ordered by id. */
  ghost predicate Lists(rows: map<HostId, Row>, xs: seq<Snapshot>) {
    Ordered(xs) && forall id, t: Stamp :: Snapshot(id, t) in xs <==> id in rows && rows[id].updatedAt == t
  }

  /** Edits are stamped with the wall clock, which promises nothing about order.
      `Relist` is a reconnect; `Reset` drops all local data; `DrainPool` is the end of
      a shutdown. */
  datatype Edit =
    | AddHost(id: HostId, now: Stamp)
    | RemoveHost(id: HostId)
    | UpdateHost(id: HostId, now: Stamp)
    | SetMachineId(id: HostId, machineId: string)
    | Tick(listing: seq<Snapshot>)
    | FailedTick
    | Relist(result: Option<seq<Snapshot>>)
    | Reset
    | DrainPool

  ghost predicate Possible(s: HostTable, e: Edit) {
    match e
    case AddHost(id, _) => id !in s.rows
    case RemoveHost(id) => id in s.rows
    case UpdateHost(id, _) => id in s.rows
    case SetMachineId(id, _) => id in s.rows
    case Tick(listing) => Lists(s.rows, listing)
    case Relist(Some(listing)) => Lists(s.rows, listing)
    case _ => true
  }

  function Later(a: Stamp, b: Stamp): Stamp {
    if a < b then b else a
  }

  function Touch(s: HostTable, rows: map<HostId, Row>, id: HostId): HostTable {
    s.(rows := rows, touched := s.touched + {id}, stale := s.stale + {id})
  }

  function Do(s: HostTable, e: Edit): HostTable {
    match e
    case AddHost(id, now) => Touch(s, s.rows[id := Row(now, None)], id).(clock := Later(s.clock, now))
    case RemoveHost(id) => Touch(s, s.rows - {id}, id)
    case UpdateHost(id, now) =>
      if id !in s.rows then s
      else Touch(s, s.rows[id := s.rows[id].(updatedAt := now)], id).(clock := Later(s.clock, now))
    case SetMachineId(id, machineId) =>
      if id !in s.rows then s
      else s.(rows := s.rows[id := s.rows[id].(machineId := Some(machineId))])
    case Tick(listing) => s.(snapshot := listing, touched := {}, stale := s.stale - Evicted(s.snapshot, listing))
    case FailedTick => s
    case Relist(Some(listing)) => s.(snapshot := listing, touched := {})
    case Relist(None) => s.(snapshot := [], touched := s.rows.Keys)
    case Reset => HostTable(map[], [], s.clock, {}, s.stale + s.rows.Keys)
    case DrainPool => s.(stale := {})
  }

  /** Away from the touched hosts the snapshot still describes the table. */
  ghost predicate Inv(s: HostTable) {
    && Ordered(s.snapshot)
    && (forall x :: x in s.snapshot ==> x.updatedAt <= s.clock)
    && (forall id :: id in s.rows ==> s.rows[id].updatedAt <= s.clock)
    && (forall id, t: Stamp :: id !in s.touched ==>
          (Snapshot(id, t) in s.snapshot <==> id in s.rows && s.rows[id].updatedAt == t))
  }

  lemma EditKeepsInv(s: HostTable, e: Edit)
    requires Inv(s) && Possible(s, e)
    ensures Inv(Do(s, e))
  {
    match e
    case Tick(listing) => assert forall x :: x in listing ==> x == Snapshot(x.id, x.updatedAt);
    case Relist(Some(listing)) => assert forall x :: x in listing ==> x == Snapshot(x.id, x.updatedAt);
    case _ =>
  }

  ghost predicate MovesAt(run: seq<HostTable>, edits: seq<Edit>, i: nat)
    requires i < |edits| && |run| == |edits| + 1
  {
    Possible(run[i], edits[i]) && run[i + 1] == Do(run[i], edits[i])
  }

  ghost predicate IsRun(run: seq<HostTable>, edits: seq<Edit>) {
    && |run| == |edits| + 1
    && run[0] == Fresh
    && forall i: nat :: i < |edits| ==> MovesAt(run, edits, i)
  }

  lemma {:induction false} RunInvariant(run: seq<HostTable>, edits: seq<Edit>, n: nat)
    requires IsRun(run, edits) && n < |run|
    ensures Inv(run[n])
  {
    if n > 0 {
      RunInvariant(run, edits, n - 1);
      assert MovesAt(run, edits, n - 1);
      EditKeepsInv(run[n - 1], edits[n - 1]);
    }
  }

  /** The host's row carries the stamp the snapshot recorded for it. */
  predicate SameStamp(s: HostTable, id: HostId) {
    id in s.rows && Snapshot(id, s.rows[id].updatedAt) in s.snapshot
  }

  predicate Listed(s: HostTable, id: HostId) {
    id in Ids(s.snapshot) || id in s.rows
  }

  /** Over every run, a successful tick evicts exactly the hosts touched since the
      snapshot was taken, except those in neither list (added and removed in between)
      and those whose row ended up with the recorded stamp again.  It stays silent
      exactly when it evicts nobody. */
  lemma TickEvictsTouched(run: seq<HostTable>, edits: seq<Edit>, n: nat)
    requires IsRun(run, edits) && n < |edits| && edits[n].Tick?
    ensures var s, evicted := run[n], Evicted(run[n].snapshot, edits[n].listing);
      && (forall id :: id in evicted <==> id in s.touched && Listed(s, id) && !SameStamp(s, id))
      && (s.snapshot == edits[n].listing <==> evicted == {})
  {
    RunInvariant(run, edits, n);
    assert MovesAt(run, edits, n);
    var s, listing := run[n], edits[n].listing;
    forall id ensures id in Evicted(s.snapshot, listing) <==> id in s.touched && Listed(s, id) && !SameStamp(s, id) {
      TickExact(s, listing, id);
    }
    ShortcutAgrees(s.snapshot, listing);
    NothingEvicted(s.snapshot, listing);
  }

  lemma TickExact(s: HostTable, listing: seq<Snapshot>, id: HostId)
    requires Inv(s) && Lists(s.rows, listing)
    ensures id in Evicted(s.snapshot, listing) <==> id in s.touched && Listed(s, id) && !SameStamp(s, id)
  {
    DeletedExact(s.snapshot, listing, id);
    ChangedExact(s.snapshot, listing, id);
    IdsHold(s.snapshot, id);
    IdsHold(listing, id);
  }

  lemma NothingEvicted(prev: seq<Snapshot>, curr: seq<Snapshot>)
    ensures Evicted(prev, curr) == {} <==> Deleted(prev, curr) == [] && Changed(prev, curr) == {}
  {
    var deleted := Deleted(prev, curr);
    assert deleted != [] ==> deleted[0] in deleted && deleted[0] in Evicted(prev, curr);
    assert Changed(prev, curr) <= Evicted(prev, curr);
  }

  lemma ChangedExact(prev: seq<Snapshot>, curr: seq<Snapshot>, id: HostId)
    requires Ordered(prev)
    ensures id in Changed(prev, curr) <==> exists t: Stamp :: Snapshot(id, t) in curr && Snapshot(id, t) !in prev
  {
    if id in Changed(prev, curr) {
      var i :| 0 <= i < |curr| && Stored(prev, curr[i].id) != Some(curr[i].updatedAt) && curr[i].id == id;
      StoredIsMembership(prev, id, curr[i].updatedAt);
      assert curr[i] == Snapshot(id, curr[i].updatedAt);
    }
    if t: Stamp :| Snapshot(id, t) in curr && Snapshot(id, t) !in prev {
      StoredIsMembership(prev, id, t);
      var i :| 0 <= i < |curr| && curr[i] == Snapshot(id, t);
      assert curr[i].id in Changed(prev, curr);
    }
  }

  // ── What a rising clock adds ───────────────────────────────────────────────

  predicate Rises(s: HostTable, e: Edit) {
    (e.AddHost? || e.UpdateHost?) ==> e.now > s.clock
  }

  ghost predicate ClockRises(run: seq<HostTable>, edits: seq<Edit>, n: nat)
    requires n <= |edits| <= |run|
  {
    forall i :: 0 <= i < n ==> Rises(run[i], edits[i])
  }

  ghost predicate TouchedDiffers(s: HostTable) {
    forall id :: id in s.touched ==> !SameStamp(s, id)
  }

  lemma RisingEdit(s: HostTable, e: Edit)
    requires Inv(s) && Possible(s, e) && Rises(s, e) && TouchedDiffers(s)
    ensures TouchedDiffers(Do(s, e))
  {
  }

  lemma {:induction false} RisingRun(run: seq<HostTable>, edits: seq<Edit>, n: nat)
    requires IsRun(run, edits) && n < |run| && ClockRises(run, edits, n)
    ensures TouchedDiffers(run[n])
  {
    if n > 0 {
      RisingRun(run, edits, n - 1);
      RunInvariant(run, edits, n - 1);
      assert MovesAt(run, edits, n - 1);
      RisingEdit(run[n - 1], edits[n - 1]);
    }
  }

  /** As long as the clock rises with every edit, no touched host is missed. */
  lemma RisingClockMissesNothing(run: seq<HostTable>, edits: seq<Edit>, n: nat)
    requires IsRun(run, edits) && n < |edits| && edits[n].Tick? && ClockRises(run, edits, n)
    ensures forall id ::
      id in Evicted(run[n].snapshot, edits[n].listing) <==> id in run[n].touched && Listed(run[n], id)
  {
    TickEvictsTouched(run, edits, n);
    RisingRun(run, edits, n);
  }

  /** And it can miss one otherwise: an update stamped with the recorded time. */
  lemma EqualStampIsMissed(s: HostTable, id: HostId, listing: seq<Snapshot>)
    requires Inv(s) && s.touched == {} && id in s.rows
    requires var e := UpdateHost(id, s.rows[id].updatedAt); Lists(Do(s, e).rows, listing)
    ensures var t := Do(s, UpdateHost(id, s.rows[id].updatedAt));
      id in t.touched && t.snapshot == listing && id !in Evicted(t.snapshot, listing)
  {
    var t := Do(s, UpdateHost(id, s.rows[id].updatedAt));
    EditKeepsInv(s, UpdateHost(id, s.rows[id].updatedAt));
    TickExact(t, listing, id);
    forall x ensures x in s.snapshot <==> x in listing {
      assert x == Snapshot(x.id, x.updatedAt);
    }
    OrderedUnique(s.snapshot, listing);
  }

  /** After a tick, machine-id writes and failed ticks touch nothing, so the next
      tick finds the snapshot unchanged and reports nothing. */
  lemma {:induction false} MachineIdsTouchNothing(run: seq<HostTable>, edits: seq<Edit>, m: nat, n: nat)
    requires IsRun(run, edits) && m < n <= |edits| && edits[m].Tick?
    requires forall i :: m < i < n ==> edits[i].SetMachineId? || edits[i].FailedTick?
    ensures run[n].touched == {}
    ensures n < |edits| && edits[n].Tick? ==> edits[n].listing == run[n].snapshot
  {
    assert MovesAt(run, edits, n - 1);
    if m + 1 < n {
      MachineIdsTouchNothing(run, edits, m, n - 1);
    }
    if n < |edits| && edits[n].Tick? {
      TickEvictsTouched(run, edits, n);
      assert Evicted(run[n].snapshot, edits[n].listing) == {};
    }
  }

  // ── Which touched hosts the next tick finds ────────────────────────────────

  /** What a tick in this state would evict. */
  predicate Due(s: HostTable, id: HostId) {
    id in s.touched && Listed(s, id) && !SameStamp(s, id)
  }

  predicate Touches(s: HostTable, e: Edit, id: HostId) {
    match e
    case AddHost(x, _) => x == id
    case RemoveHost(x) => x == id
    case UpdateHost(x, _) => x == id
    case Reset => id in s.rows
    case _ => false
  }

  /** The last re-listing strictly between the two steps, if there is one, succeeded. */
  predicate Relisted(edits: seq<Edit>, m: nat, n: nat)
    requires n <= |edits|
    decreases n
  {
    n > m + 1 && if edits[n - 1].Relist? then edits[n - 1].result.Some? else Relisted(edits, m, n - 1)
  }

  /** The host is touched at step `m`, and not again nor looked at before step `n`. */
  ghost predicate LastTouched(run: seq<HostTable>, edits: seq<Edit>, m: nat, n: nat, id: HostId)
    requires n <= |edits| <= |run|
  {
    && m < n && Touches(run[m], edits[m], id)
    && forall i :: m < i < n ==> !edits[i].Tick? && !Touches(run[i], edits[i], id)
  }

  lemma ListedIds(rows: map<HostId, Row>, listing: seq<Snapshot>)
    requires Lists(rows, listing)
    ensures Ids(listing) == rows.Keys
  {
    forall id ensures id in Ids(listing) <==> id in rows {
      IdsHold(listing, id);
      assert id in rows ==> Snapshot(id, rows[id].updatedAt) in listing;
    }
  }

  /** One step that neither touches the host nor is a tick. */
  lemma QuietStep(s: HostTable, e: Edit, id: HostId)
    requires Possible(s, e) && !e.Tick? && !Touches(s, e, id)
    ensures var t := Do(s, e);
      && (id in t.rows <==> id in s.rows)
      && (Listed(t, id) <==> if e.Relist? || e == Reset then id in s.rows else Listed(s, id))
      && (!e.Relist? && e != Reset ==> (id in t.touched <==> id in s.touched))
  {
    if e.Relist? && e.result.Some? {
      ListedIds(s.rows, e.result.value);
    }
  }

  lemma {:induction false} TouchHeld(run: seq<HostTable>, edits: seq<Edit>, m: nat, n: nat, id: HostId)
    requires IsRun(run, edits) && n <= |edits| && LastTouched(run, edits, m, n, id)
    ensures Listed(run[n], id) ==> (id in run[n].touched <==> !Relisted(edits, m, n))
  {
    assert MovesAt(run, edits, n - 1);
    if n > m + 1 {
      TouchHeld(run, edits, m, n - 1, id);
      QuietStep(run[n - 1], edits[n - 1], id);
    }
  }

  /** Over every run: the first successful tick after a touch evicts the host if and
      only if the host is still in the snapshot or the table at that tick, the last
      re-listing in between, if any, failed, and the row does not carry the recorded
      stamp. */
  lemma TouchIsNoticed(run: seq<HostTable>, edits: seq<Edit>, m: nat, n: nat, id: HostId)
    requires IsRun(run, edits) && n < |edits| && edits[n].Tick? && LastTouched(run, edits, m, n, id)
    ensures id in Evicted(run[n].snapshot, edits[n].listing) <==>
              Listed(run[n], id) && !Relisted(edits, m, n) && !SameStamp(run[n], id)
    ensures ClockRises(run, edits, n) ==>
              (id in Evicted(run[n].snapshot, edits[n].listing) <==> Listed(run[n], id) && !Relisted(edits, m, n))
  {
    TickEvictsTouched(run, edits, n);
    TouchHeld(run, edits, m, n, id);
    if ClockRises(run, edits, n) {
      RisingRun(run, edits, n);
    }
  }

  ghost predicate NoneBetween(edits: seq<Edit>, m: nat, n: nat)
    requires n <= |edits|
  {
    forall i :: m < i < n ==> !edits[i].Relist? && edits[i] != Reset
  }

  lemma {:induction false} RemovedStaysListed(run: seq<HostTable>, edits: seq<Edit>, m: nat, n: nat, id: HostId)
    requires IsRun(run, edits) && n <= |edits| && LastTouched(run, edits, m, n, id) && edits[m] == RemoveHost(id)
    ensures id !in run[n].rows
    ensures Listed(run[n], id) <==> id in Ids(run[m].snapshot) && NoneBetween(edits, m, n)
  {
    assert MovesAt(run, edits, n - 1);
    if n > m + 1 {
      RemovedStaysListed(run, edits, m, n - 1, id);
      QuietStep(run[n - 1], edits[n - 1], id);
      assert NoneBetween(edits, m, n) <==>
             NoneBetween(edits, m, n - 1) && !edits[n - 1].Relist? && edits[n - 1] != Reset;
    }
  }

  lemma {:induction false} NotRelisted(edits: seq<Edit>, m: nat, n: nat)
    requires n <= |edits| && NoneBetween(edits, m, n)
    ensures !Relisted(edits, m, n)
    decreases n
  {
    if n > m + 1 {
      NotRelisted(edits, m, n - 1);
    }
  }

  /** Whatever the clock does, the removal of a host is noticed if and only if the
      snapshot held it and no re-listing, successful or not, and no reset came before
      the tick. */
  lemma RemovalIsNoticed(run: seq<HostTable>, edits: seq<Edit>, m: nat, n: nat, id: HostId)
    requires IsRun(run, edits) && n < |edits| && edits[n].Tick?
    requires LastTouched(run, edits, m, n, id) && edits[m] == RemoveHost(id)
    ensures id in Evicted(run[n].snapshot, edits[n].listing) <==>
              id in Ids(run[m].snapshot) && NoneBetween(edits, m, n)
  {
    TouchIsNoticed(run, edits, m, n, id);
    RemovedStaysListed(run, edits, m, n, id);
    if NoneBetween(edits, m, n) {
      NotRelisted(edits, m, n);
    }
  }

  lemma {:induction false} EditedStaysListed(run: seq<HostTable>, edits: seq<Edit>, m: nat, n: nat, id: HostId)
    requires IsRun(run, edits) && n <= |edits| && LastTouched(run, edits, m, n, id)
    requires edits[m].AddHost? || edits[m].UpdateHost?
    ensures id in run[n].rows
  {
    assert MovesAt(run, edits, n - 1);
    if n > m + 1 {
      EditedStaysListed(run, edits, m, n - 1, id);
      QuietStep(run[n - 1], edits[n - 1], id);
    }
  }

  /** With a rising clock an added or updated host is noticed if and only if the last
      re-listing before the tick, if any, failed. */
  lemma EditIsNoticed(run: seq<HostTable>, edits: seq<Edit>, m: nat, n: nat, id: HostId)
    requires IsRun(run, edits) && n < |edits| && edits[n].Tick? && ClockRises(run, edits, n)
    requires LastTouched(run, edits, m, n, id) && (edits[m].AddHost? || edits[m].UpdateHost?)
    ensures id in Evicted(run[n].snapshot, edits[n].listing) <==> !Relisted(edits, m, n)
  {
    TouchIsNoticed(run, edits, m, n, id);
    EditedStaysListed(run, edits, m, n, id);
  }

  // ── Which hosts get out of reach of the ticks ──────────────────────────────

  /** Touched, not evicted since, and passed over by a tick in this state. */
  predicate Lost(s: HostTable, id: HostId) {
    id in s.stale && !Due(s, id)
  }

  /** The steps that put a host out of reach: an edit that leaves the recorded stamp, a
      removal between two listings of a host added since the first, and a re-listing or
      a reset before the tick that would have evicted it. */
  predicate Strands(s: HostTable, e: Edit, id: HostId) {
    match e
    case AddHost(x, now) => x == id && Snapshot(id, now) in s.snapshot
    case UpdateHost(x, now) => x == id && Snapshot(id, now) in s.snapshot
    case RemoveHost(x) => x == id && id !in Ids(s.snapshot)
    case Relist(Some(_)) => id in s.stale
    case Relist(None) => id in s.stale && id !in s.rows
    case Reset => id in s.stale || id in s.rows
    case _ => false
  }

  /** The steps that bring it back. */
  predicate Rescues(s: HostTable, e: Edit, id: HostId) {
    match e
    case Relist(None) => id in s.rows
    case Relist(Some(_)) => false
    case Reset => false
    case DrainPool => true
    case _ => Touches(s, e, id)
  }

  /** A host is out of reach after a step if and only if that step strands it, or it
      was out of reach before and the step does not rescue it. */
  lemma LostExactly(s: HostTable, e: Edit, id: HostId)
    requires Inv(s) && Possible(s, e)
    ensures Lost(Do(s, e), id) <==> Strands(s, e, id) || (Lost(s, id) && !Rescues(s, e, id))
  {
    match e
    case Tick(listing) => TickExact(s, listing, id);
    case AddHost(x, now) => IdsHold(s.snapshot, id);
    case UpdateHost(x, now) => IdsHold(s.snapshot, id);
    case _ =>
  }

  /** Over every run, a reconnect or a reset loses exactly the stale hosts that a tick in
      its place would have evicted; a failed listing spares those still in the table, and
      a reset adds the hosts it removes. */
  lemma RelistingLoses(run: seq<HostTable>, edits: seq<Edit>, n: nat, listing: seq<Snapshot>, id: HostId)
    requires IsRun(run, edits) && n < |edits| && (edits[n].Relist? || edits[n].Reset?)
    requires Lists(run[n].rows, listing)
    ensures var s, e := run[n], edits[n];
      Lost(run[n + 1], id) && !Lost(s, id) <==>
        || (id in s.stale && id in Evicted(s.snapshot, listing) && (e == Relist(None) ==> id !in s.rows))
        || (e == Reset && id in s.rows && id !in s.stale)
  {
    RunInvariant(run, edits, n);
    assert MovesAt(run, edits, n);
    TickExact(run[n], listing, id);
    LostExactly(run[n], edits[n], id);
  }

  /** The hosts a successful tick leaves stale are exactly those out of reach. */
  lemma TickLeavesStale(run: seq<HostTable>, edits: seq<Edit>, n: nat, id: HostId)
    requires IsRun(run, edits) && n < |edits| && edits[n].Tick?
    ensures id in run[n + 1].stale <==> Lost(run[n], id)
  {
    assert MovesAt(run, edits, n);
    TickEvictsTouched(run, edits, n);
  }

  /** The host is out of reach in no state up to `n`. */
  ghost predicate NeverLost(run: seq<HostTable>, n: nat, id: HostId)
    requires n < |run|
  {
    forall i :: 0 <= i <= n ==> !Lost(run[i], id)
  }

  ghost predicate NeverStranded(run: seq<HostTable>, edits: seq<Edit>, n: nat, id: HostId)
    requires n <= |edits| <= |run|
  {
    forall i :: 0 <= i < n ==> !Strands(run[i], edits[i], id)
  }

  /** Over every run a host is never out of reach if and only if no step strands it. */
  lemma {:induction false} RunLosesNobody(run: seq<HostTable>, edits: seq<Edit>, n: nat, id: HostId)
    requires IsRun(run, edits) && n < |run|
    ensures NeverLost(run, n, id) <==> NeverStranded(run, edits, n, id)
  {
    if n > 0 {
      RunLosesNobody(run, edits, n - 1, id);
      RunInvariant(run, edits, n - 1);
      assert MovesAt(run, edits, n - 1);
      LostExactly(run[n - 1], edits[n - 1], id);
      assert NeverLost(run, n, id) <==> NeverLost(run, n - 1, id) && !Lost(run[n], id);
      assert NeverStranded(run, edits, n, id) <==>
             NeverStranded(run, edits, n - 1, id) && !Strands(run[n - 1], edits[n - 1], id);
    }
  }

  /** A host out of reach is evicted by no later tick until it is edited again, a
      listing fails while it is in the table, or the pool is drained. */
  lemma {:induction false} LostStaysLost(run: seq<HostTable>, edits: seq<Edit>, m: nat, n: nat, id: HostId)
    requires IsRun(run, edits) && m <= n <= |edits| && Lost(run[m], id)
    requires forall i :: m <= i < n ==> !Rescues(run[i], edits[i], id)
    ensures Lost(run[n], id)
    ensures n < |edits| && edits[n].Tick? ==> id !in Evicted(run[n].snapshot, edits[n].listing)
  {
    if m < n {
      LostStaysLost(run, edits, m, n - 1, id);
      RunInvariant(run, edits, n - 1);
      assert MovesAt(run, edits, n - 1);
      LostExactly(run[n - 1], edits[n - 1], id);
    }
    if n < |edits| && edits[n].Tick? {
      TickEvictsTouched(run, edits, n);
    }
  }

  /** A host edited between a tick and a reconnect: a tick in place of the reconnect
      would have evicted it, the one after it does not. */
  lemma EditBeforeReconnectIsLost(id: HostId) returns (run: seq<HostTable>, edits: seq<Edit>)
    ensures IsRun(run, edits)
    ensures edits == [AddHost(id, 1), Tick([Snapshot(id, 1)]), UpdateHost(id, 2),
                      Relist(Some([Snapshot(id, 2)])), Tick([Snapshot(id, 2)])]
    ensures Due(run[3], id) && Lost(run[4], id) && id in run[5].stale && ClockRises(run, edits, 5)
  {
    var before, after := [Snapshot(id, 1)], [Snapshot(id, 2)];
    edits := [AddHost(id, 1), Tick(before), UpdateHost(id, 2), Relist(Some(after)), Tick(after)];
    var s1 := Do(Fresh, edits[0]);
    var s2 := Do(s1, edits[1]);
    var s3 := Do(s2, edits[2]);
    var s4 := Do(s3, edits[3]);
    var s5 := Do(s4, edits[4]);
    run := [Fresh, s1, s2, s3, s4, s5];
    assert s1.rows == map[id := Row(1, None)] && s3.rows == map[id := Row(2, None)] == s4.rows;
    assert Lists(s1.rows, before) && Lists(s3.rows, after);
    forall i: nat | i < |edits| ensures MovesAt(run, edits, i) {
    }
    TickLeavesStale(run, edits, 4, id);
  }

  /** The same for a host removed before the reconnect. */
  lemma RemovalBeforeReconnectIsLost(id: HostId) returns (run: seq<HostTable>, edits: seq<Edit>)
    ensures IsRun(run, edits)
    ensures edits == [AddHost(id, 1), Tick([Snapshot(id, 1)]), RemoveHost(id), Relist(Some([])), Tick([])]
    ensures Due(run[3], id) && Lost(run[4], id) && id in run[5].stale && ClockRises(run, edits, 5)
  {
    var before := [Snapshot(id, 1)];
    edits := [AddHost(id, 1), Tick(before), RemoveHost(id), Relist(Some([])), Tick([])];
    var s1 := Do(Fresh, edits[0]);
    var s2 := Do(s1, edits[1]);
    var s3 := Do(s2, edits[2]);
    var s4 := Do(s3, edits[3]);
    var s5 := Do(s4, edits[4]);
    run := [Fresh, s1, s2, s3, s4, s5];
    assert s1.rows == map[id := Row(1, None)] && s3.rows == map[] == s4.rows;
    assert Lists(s1.rows, before) && Lists(s3.rows, []);
    assert before[0].id in Ids(before);
    forall i: nat | i < |edits| ensures MovesAt(run, edits, i) {
    }
    TickLeavesStale(run, edits, 4, id);
  }
}
