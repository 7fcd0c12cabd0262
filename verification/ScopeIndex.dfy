/**
 The plugin-boundary checker's scope index: braces open numbered scopes, a stack
 tracks the open ones, and every line records the scopes active anywhere on it.
 Unbalanced input is allowed; the root scope is never popped.
 */
module ScopeIndex {
  import opened Common

  datatype Brace = OpenBrace | CloseBrace

  type Parents = map<nat, Option<nat>>

  /** Scopes are numbered in the order they open; the root is 0. */
  datatype Scopes = Scopes(stack: seq<nat>, next: nat, parent: Parents)

  const Root := Scopes([0], 1, map[0 := None])

  function Top(s: Scopes): nat {
    if s.stack == [] then 0 else s.stack[|s.stack| - 1]
  }

  function Advance(s: Scopes, b: Brace): Scopes {
    match b
    case OpenBrace => Scopes(s.stack + [s.next], s.next + 1, s.parent[s.next := Some(Top(s))])
    case CloseBrace => if |s.stack| > 1 then s.(stack := s.stack[..|s.stack| - 1]) else s
  }

  function Run(s: Scopes, line: seq<Brace>): Scopes {
    if line == [] then s else Advance(Run(s, line[..|line| - 1]), line[|line| - 1])
  }

  /** The scan at the start of line `k`. */
  function StateAt(lines: seq<seq<Brace>>, k: nat): Scopes
    requires k <= |lines|
  {
    if k == 0 then Root else Run(StateAt(lines, k - 1), lines[k - 1])
  }

  function Range(a: nat, b: nat): seq<nat> {
    if a < b then Range(a, b - 1) + [b - 1] else []
  }

  /** What line `k` records: the scopes open at its start, then those it opens. */
  function LineIds(lines: seq<seq<Brace>>, k: nat): seq<nat>
    requires k < |lines|
  {
    StateAt(lines, k).stack + Range(StateAt(lines, k).next, StateAt(lines, k + 1).next)
  }

  // ── The index is a tree and the stack an ancestor chain ────────────────────

  /** Scopes are 0..n-1, only the root has no parent, and parents come first. */
  ghost predicate IsTree(parent: Parents, n: nat) {
    && n > 0
    && (forall id: nat :: id in parent <==> id < n)
    && parent[0] == None
    && (forall id: nat :: 0 < id < n ==> parent[id].Some? && parent[id].value < id)
  }

  predicate LinkAt(parent: Parents, stack: seq<nat>, k: nat)
    requires k + 1 < |stack|
  {
    stack[k + 1] in parent && parent[stack[k + 1]] == Some(stack[k])
  }

  /** Each stack element is the parent of the next. */
  ghost predicate IsChain(parent: Parents, stack: seq<nat>) {
    stack != [] && stack[0] == 0 && forall k: nat :: k + 1 < |stack| ==> LinkAt(parent, stack, k)
  }

  ghost predicate Increasing(ids: seq<nat>) {
    forall i, j :: 0 <= i < j < |ids| ==> ids[i] < ids[j]
  }

  ghost predicate Below(ids: seq<nat>, n: nat) {
    forall i :: 0 <= i < |ids| ==> ids[i] < n
  }

  ghost predicate Inv(s: Scopes) {
    IsTree(s.parent, s.next) && IsChain(s.parent, s.stack) && Increasing(s.stack) && Below(s.stack, s.next)
  }

  lemma AdvanceKeepsInv(s: Scopes, b: Brace)
    requires Inv(s)
    ensures Inv(Advance(s, b))
  {
    var t := Advance(s, b);
    forall k: nat | k + 1 < |t.stack| ensures LinkAt(t.parent, t.stack, k) {
      assert k + 1 < |s.stack| ==> LinkAt(s.parent, s.stack, k);
    }
  }

  lemma {:induction false} RunKeepsInv(s: Scopes, line: seq<Brace>)
    requires Inv(s)
    ensures Inv(Run(s, line))
    ensures s.next <= Run(s, line).next
    ensures forall id :: id in s.parent ==> id in Run(s, line).parent && Run(s, line).parent[id] == s.parent[id]
  {
    if line != [] {
      var front := line[..|line| - 1];
      RunKeepsInv(s, front);
      AdvanceKeepsInv(Run(s, front), line[|line| - 1]);
    }
  }

  /** For every brace sequence, balanced or not, the scan is well formed at the
      start of every line. */
  lemma {:induction false} StateIsWellFormed(lines: seq<seq<Brace>>, k: nat)
    requires k <= |lines|
    ensures Inv(StateAt(lines, k))
  {
    if k == 0 {
      assert IsChain(Root.parent, Root.stack);
    } else {
      StateIsWellFormed(lines, k - 1);
      RunKeepsInv(StateAt(lines, k - 1), lines[k - 1]);
    }
  }

  /** The chain from the root down to `id`. */
  function Ancestors(parent: Parents, id: nat): seq<nat> {
    if id !in parent || parent[id].None? || parent[id].value >= id then [id]
    else Ancestors(parent, parent[id].value) + [id]
  }

  /** A chain is exactly the ancestors of its last element. */
  lemma {:induction false} ChainIsAncestors(parent: Parents, n: nat, stack: seq<nat>)
    requires IsTree(parent, n) && IsChain(parent, stack) && Below(stack, n)
    ensures stack == Ancestors(parent, stack[|stack| - 1])
  {
    var front := stack[..|stack| - 1];
    assert stack == front + [stack[|stack| - 1]];
    if front != [] {
      assert LinkAt(parent, stack, |stack| - 2);
      forall k: nat | k + 1 < |front| ensures LinkAt(parent, front, k) {
        assert LinkAt(parent, stack, k);
      }
      ChainIsAncestors(parent, n, front);
    }
  }

  // ── What a line records ────────────────────────────────────────────────────

  ghost predicate ParentClosed(parent: Parents, ids: seq<nat>) {
    forall x :: x in ids && x in parent && parent[x].Some? ==> parent[x].value in ids
  }

  ghost predicate GoodLine(parent: Parents, ids: seq<nat>) {
    && Increasing(ids) && ids != [] && ids[0] == 0
    && (forall x :: x in ids ==> x in parent)
    && ParentClosed(parent, ids)
  }

  lemma ChainIsClosed(parent: Parents, stack: seq<nat>)
    requires IsChain(parent, stack) && 0 in parent && parent[0].None?
    ensures ParentClosed(parent, stack)
  {
    forall x | x in stack && x in parent && parent[x].Some? ensures parent[x].value in stack {
      var k :| 0 <= k < |stack| && stack[k] == x;
      if k > 0 {
        assert LinkAt(parent, stack, k - 1);
      }
    }
  }

  /** The ids collected so far on a line, once the scan stands at `t`. */
  ghost predicate LineInv(t: Scopes, ids: seq<nat>) {
    && GoodLine(t.parent, ids) && Below(ids, t.next)
    && (forall x :: x in t.stack ==> x in ids)
  }

  lemma LineOpens(t: Scopes, ids: seq<nat>)
    requires Inv(t) && LineInv(t, ids)
    ensures LineInv(Advance(t, OpenBrace), ids + [t.next])
  {
    var u, more := Advance(t, OpenBrace), ids + [t.next];
    assert Top(t) in t.stack;
    forall x | x in more && x in u.parent && u.parent[x].Some? ensures u.parent[x].value in more {
      if x != t.next {
        assert x in ids && u.parent[x] == t.parent[x];
        assert t.parent[x].value in ids;
      }
    }
  }

  lemma LineCloses(t: Scopes, ids: seq<nat>)
    requires Inv(t) && LineInv(t, ids)
    ensures LineInv(Advance(t, CloseBrace), ids)
  {
    assert forall x :: x in Advance(t, CloseBrace).stack ==> x in t.stack;
  }

  lemma LineStarts(s: Scopes)
    requires Inv(s)
    ensures LineInv(s, s.stack)
  {
    ChainIsClosed(s.parent, s.stack);
  }

  lemma {:induction false} LineRuns(s: Scopes, line: seq<Brace>)
    requires Inv(s)
    ensures LineInv(Run(s, line), s.stack + Range(s.next, Run(s, line).next))
  {
    if line == [] {
      LineStarts(s);
      assert s.stack + Range(s.next, s.next) == s.stack;
    } else {
      var front, last := line[..|line| - 1], line[|line| - 1];
      var t := Run(s, front);
      var ids := s.stack + Range(s.next, t.next);
      LineRuns(s, front);
      RunKeepsInv(s, front);
      assert Run(s, line) == Advance(t, last);
      LineStep(t, ids, last);
      RangePush(s.stack, s.next, t.next);
    }
  }

  lemma LineStep(t: Scopes, ids: seq<nat>, b: Brace)
    requires Inv(t) && LineInv(t, ids)
    ensures LineInv(Advance(t, b), if b.OpenBrace? then ids + [t.next] else ids)
    ensures Advance(t, b).next == if b.OpenBrace? then t.next + 1 else t.next
  {
    if b.OpenBrace? {
      LineOpens(t, ids);
    } else {
      LineCloses(t, ids);
    }
  }

  lemma RangePush(stack: seq<nat>, from: nat, to: nat)
    requires from <= to
    ensures stack + Range(from, to + 1) == stack + Range(from, to) + [to]
  {
  }

  lemma {:induction false} ParentsPersist(lines: seq<seq<Brace>>, k: nat, m: nat)
    requires k <= m <= |lines|
    ensures forall id :: id in StateAt(lines, k).parent ==>
              id in StateAt(lines, m).parent && StateAt(lines, m).parent[id] == StateAt(lines, k).parent[id]
  {
    if k < m {
      ParentsPersist(lines, k, m - 1);
      StateIsWellFormed(lines, m - 1);
      RunKeepsInv(StateAt(lines, m - 1), lines[m - 1]);
    }
  }

  /** Against the finished index, each line's ids start at the root, are strictly
      increasing and closed under parents. */
  lemma LineIsGood(lines: seq<seq<Brace>>, k: nat)
    requires k < |lines|
    ensures GoodLine(StateAt(lines, |lines|).parent, LineIds(lines, k))
  {
    StateIsWellFormed(lines, k);
    LineRuns(StateAt(lines, k), lines[k]);
    ParentsPersist(lines, k + 1, |lines|);
    GoodLineKept(StateAt(lines, k + 1).parent, StateAt(lines, |lines|).parent, LineIds(lines, k));
  }

  lemma GoodLineKept(parent: Parents, later: Parents, ids: seq<nat>)
    requires GoodLine(parent, ids)
    requires forall id :: id in parent ==> id in later && later[id] == parent[id]
    ensures GoodLine(later, ids)
  {
  }

  /** `dict.fromkeys`: first occurrences, in order. */
  function Dedup(ids: seq<nat>): seq<nat> {
    if ids == [] then []
    else
      var front := ids[..|ids| - 1];
      Dedup(front) + if ids[|ids| - 1] in front then [] else [ids[|ids| - 1]]
  }

  /** Strictly increasing ids contain no duplicate to drop. */
  lemma {:induction false} DedupDropsNothing(ids: seq<nat>)
    requires Increasing(ids)
    ensures Dedup(ids) == ids
  {
    if ids != [] {
      DedupDropsNothing(ids[..|ids| - 1]);
      assert ids == ids[..|ids| - 1] + [ids[|ids| - 1]];
    }
  }

  /** Deduplication drops nothing from a recorded line. */
  lemma DedupKeepsLine(lines: seq<seq<Brace>>, k: nat)
    requires k < |lines|
    ensures Dedup(LineIds(lines, k)) == LineIds(lines, k)
  {
    LineIsGood(lines, k);
    DedupDropsNothing(LineIds(lines, k));
  }

  // ── Which scopes are open, read off the braces ─────────────────────────────

  function Opens(bs: seq<Brace>): nat {
    if bs == [] then 0 else Opens(bs[..|bs| - 1]) + if bs[|bs| - 1].OpenBrace? then 1 else 0
  }

  /** Opening braces minus closing ones. */
  function Balance(bs: seq<Brace>): int {
    if bs == [] then 0 else Balance(bs[..|bs| - 1]) + if bs[|bs| - 1].OpenBrace? then 1 else -1
  }

  /** The scope opened by the brace at `i`. */
  function IdAt(bs: seq<Brace>, i: nat): nat
    requires i < |bs|
  {
    1 + Opens(bs[..i])
  }

  /** The balance of what lies between the brace at `i` and position `j`. */
  function Behind(bs: seq<Brace>, i: nat, j: nat): int
    requires i < j <= |bs|
  {
    Balance(bs[i + 1..j])
  }

  /** The brace at `i` opens a scope that no brace before `j` closes: no stretch behind it
      has more closing than opening braces. */
  ghost predicate StaysOpen(bs: seq<Brace>, i: nat, j: nat)
    requires i < |bs| && j <= |bs|
  {
    bs[i].OpenBrace? && forall k :: i < k <= j ==> Behind(bs, i, k) >= 0
  }

  lemma BehindSnoc(bs: seq<Brace>, i: nat, j: nat)
    requires i < j < |bs|
    ensures Behind(bs, i, j + 1) == Behind(bs, i, j) + if bs[j].OpenBrace? then 1 else -1
  {
    assert bs[i + 1..j + 1][..j - i - 1] == bs[i + 1..j];
  }

  lemma StaysOpenSnoc(bs: seq<Brace>, i: nat, j: nat)
    requires i < j < |bs|
    ensures StaysOpen(bs, i, j + 1) <==> StaysOpen(bs, i, j) && Behind(bs, i, j + 1) >= 0
  {
  }

  lemma OpensSnoc(bs: seq<Brace>, j: nat)
    requires j < |bs|
    ensures Opens(bs[..j + 1]) == Opens(bs[..j]) + if bs[j].OpenBrace? then 1 else 0
  {
    assert bs[..j + 1][..j] == bs[..j];
  }

  /** The braces whose scopes are open after the first `j`: each close undoes the last. */
  function Still(bs: seq<Brace>, j: nat): seq<nat>
    requires j <= |bs|
  {
    if j == 0 then []
    else
      var before := Still(bs, j - 1);
      if bs[j - 1].OpenBrace? then before + [j - 1]
      else if before == [] then [] else before[..|before| - 1]
  }

  /** An open brace, and as many scopes above its own as the braces behind it leave open. */
  ghost predicate HeldAt(bs: seq<Brace>, j: nat, still: seq<nat>, m: nat)
    requires j <= |bs| && m < |still|
  {
    still[m] < j && StaysOpen(bs, still[m], j) && Behind(bs, still[m], j) == |still| - 1 - m
  }

  lemma HeldSnoc(bs: seq<Brace>, j: nat, m: nat)
    requires j < |bs| && m < |Still(bs, j)| && m < |Still(bs, j + 1)| && HeldAt(bs, j, Still(bs, j), m)
    ensures HeldAt(bs, j + 1, Still(bs, j + 1), m)
  {
    var i := Still(bs, j)[m];
    assert Still(bs, j + 1)[m] == i;
    BehindSnoc(bs, i, j);
    StaysOpenSnoc(bs, i, j);
  }

  lemma {:induction false} StillIsHeld(bs: seq<Brace>, j: nat, m: nat)
    requires j <= |bs| && m < |Still(bs, j)|
    ensures HeldAt(bs, j, Still(bs, j), m)
  {
    if m < |Still(bs, j - 1)| {
      StillIsHeld(bs, j - 1, m);
      HeldSnoc(bs, j - 1, m);
    } else {
      assert bs[j..j] == [];
    }
  }

  lemma {:induction false} OpenIsStill(bs: seq<Brace>, j: nat, i: nat)
    requires i < j <= |bs| && StaysOpen(bs, i, j)
    ensures i in Still(bs, j)
  {
    var still := Still(bs, j);
    if i == j - 1 {
      assert still[|still| - 1] == i;
    } else {
      var before := Still(bs, j - 1);
      StaysOpenSnoc(bs, i, j - 1);
      BehindSnoc(bs, i, j - 1);
      OpenIsStill(bs, j - 1, i);
      var m :| 0 <= m < |before| && before[m] == i;
      StillIsHeld(bs, j - 1, m);
      assert still[m] == i;
    }
  }

  /** Reading the stack as the root and the scopes of those braces. */
  ghost predicate Tracks(bs: seq<Brace>, j: nat, s: Scopes)
    requires j <= |bs|
  {
    var still := Still(bs, j);
    && s.next == 1 + Opens(bs[..j])
    && |s.stack| == |still| + 1 && s.stack[0] == 0
    && forall m :: 0 <= m < |still| ==> still[m] < |bs| && s.stack[m + 1] == IdAt(bs, still[m])
  }

  lemma {:induction false} RunTracks(bs: seq<Brace>, j: nat)
    requires j <= |bs|
    ensures Tracks(bs, j, Run(Root, bs[..j]))
  {
    if j > 0 {
      RunTracks(bs, j - 1);
      assert bs[..j][..j - 1] == bs[..j - 1];
      OpensSnoc(bs, j - 1);
    }
  }

  /** For every brace sequence, balanced or not: the scope opened by a brace is on the
      stack later if and only if no brace in between closes it, and besides those only
      the root is there. */
  lemma StackIsExact(bs: seq<Brace>, j: nat, id: nat)
    requires j <= |bs|
    ensures id in Run(Root, bs[..j]).stack <==>
              id == 0 || exists i: nat :: i < j && StaysOpen(bs, i, j) && id == IdAt(bs, i)
  {
    RunTracks(bs, j);
    var stack, still := Run(Root, bs[..j]).stack, Still(bs, j);
    if id in stack && id != 0 {
      var m :| 0 < m < |stack| && stack[m] == id;
      StillIsHeld(bs, j, m - 1);
      assert stack[(m - 1) + 1] == IdAt(bs, still[m - 1]);
    }
    if i: nat :| i < j && StaysOpen(bs, i, j) && id == IdAt(bs, i) {
      OpenIsStill(bs, j, i);
      var m :| 0 <= m < |still| && still[m] == i;
      assert stack[m + 1] == id;
    }
  }

  /** A balanced group: never more closed than opened, and in the end as many. */
  ghost predicate IsBalanced(bs: seq<Brace>) {
    Balance(bs) == 0 && forall k :: 0 <= k <= |bs| ==> Balance(bs[..k]) >= 0
  }

  lemma {:induction false} GroupKeepsStack(s: Scopes, bs: seq<Brace>, n: nat)
    requires s.stack != [] && n <= |bs| && forall k :: 0 <= k <= n ==> Balance(bs[..k]) >= 0
    ensures s.stack <= Run(s, bs[..n]).stack && |Run(s, bs[..n]).stack| == |s.stack| + Balance(bs[..n])
  {
    if n > 0 {
      GroupKeepsStack(s, bs, n - 1);
      assert bs[..n][..n - 1] == bs[..n - 1];
    }
  }

  /** A balanced group leaves the stack as it was, whatever surrounds it. */
  lemma BalancedRestores(s: Scopes, bs: seq<Brace>)
    requires s.stack != [] && IsBalanced(bs)
    ensures Run(s, bs).stack == s.stack
  {
    assert bs[..|bs|] == bs;
    GroupKeepsStack(s, bs, |bs|);
  }

  // ── What a line records, read off the braces ───────────────────────────────

  /** All braces up to the start of line `k`. */
  function Before(lines: seq<seq<Brace>>, k: nat): seq<Brace>
    requires k <= |lines|
  {
    if k == 0 then [] else Before(lines, k - 1) + lines[k - 1]
  }

  lemma {:induction false} RunConcat(s: Scopes, xs: seq<Brace>, ys: seq<Brace>)
    ensures Run(s, xs + ys) == Run(Run(s, xs), ys)
  {
    if ys == [] {
      assert xs + ys == xs;
    } else {
      var front := ys[..|ys| - 1];
      assert (xs + ys)[..|xs + ys| - 1] == xs + front;
      RunConcat(s, xs, front);
    }
  }

  lemma {:induction false} StateIsRun(lines: seq<seq<Brace>>, k: nat)
    requires k <= |lines|
    ensures StateAt(lines, k) == Run(Root, Before(lines, k))
  {
    if k > 0 {
      StateIsRun(lines, k - 1);
      RunConcat(Root, Before(lines, k - 1), lines[k - 1]);
    }
  }

  lemma {:induction false} RangeHolds(a: nat, b: nat, x: nat)
    ensures x in Range(a, b) <==> a <= x < b
  {
    if a < b {
      RangeHolds(a, b - 1, x);
    }
  }

  /** The ids given out between two positions are those of the braces there. */
  lemma {:induction false} OpenedBetween(bs: seq<Brace>, a: nat, b: nat, id: nat)
    requires a <= b <= |bs|
    ensures 1 + Opens(bs[..a]) <= id < 1 + Opens(bs[..b]) <==>
              exists i: nat :: a <= i < b && bs[i].OpenBrace? && id == IdAt(bs, i)
  {
    if a < b {
      OpenedBetween(bs, a, b - 1, id);
      OpensSnoc(bs, b - 1);
      OpensRise(bs, a, b - 1);
      if bs[b - 1].OpenBrace? && id == IdAt(bs, b - 1) {
        assert a <= b - 1 < b;
      }
    }
  }

  lemma {:induction false} OpensRise(bs: seq<Brace>, a: nat, b: nat)
    requires a <= b <= |bs|
    ensures Opens(bs[..a]) <= Opens(bs[..b])
  {
    if a < b {
      OpensRise(bs, a, b - 1);
      OpensSnoc(bs, b - 1);
    }
  }

  /** The brace at `i` opens scope `id`, which is active on line `k`: opened on the line,
      or before it and still open at its start. */
  ghost predicate ActiveOn(lines: seq<seq<Brace>>, k: nat, i: nat, id: nat)
    requires k < |lines|
  {
    var bs, start := Before(lines, k + 1), |Before(lines, k)|;
    && i < |bs| && bs[i].OpenBrace? && id == IdAt(bs, i)
    && (start <= i || StaysOpen(bs, i, start))
  }

  lemma LineNumbers(lines: seq<seq<Brace>>, k: nat)
    requires k < |lines|
    ensures var bs, start := Before(lines, k + 1), |Before(lines, k)|;
      && start <= |bs| && StateAt(lines, k) == Run(Root, bs[..start])
      && StateAt(lines, k).next == 1 + Opens(bs[..start]) && StateAt(lines, k + 1).next == 1 + Opens(bs[..|bs|])
  {
    var bs, start := Before(lines, k + 1), |Before(lines, k)|;
    assert bs[..start] == Before(lines, k) && bs[..|bs|] == bs;
    StateIsRun(lines, k);
    StateIsRun(lines, k + 1);
    RunTracks(bs, start);
    RunTracks(bs, |bs|);
  }

  /** For every text: the ids recorded for a line are exactly the root's and those of the
      scopes open at its start or opened on it. */
  lemma LineIsExact(lines: seq<seq<Brace>>, k: nat, id: nat)
    requires k < |lines|
    ensures id in LineIds(lines, k) <==> id == 0 || exists i: nat :: ActiveOn(lines, k, i, id)
  {
    var bs, start := Before(lines, k + 1), |Before(lines, k)|;
    LineNumbers(lines, k);
    StackIsExact(bs, start, id);
    RangeHolds(StateAt(lines, k).next, StateAt(lines, k + 1).next, id);
    OpenedBetween(bs, start, |bs|, id);
    if i: nat :| i < start && StaysOpen(bs, i, start) && id == IdAt(bs, i) {
      assert ActiveOn(lines, k, i, id);
    }
    if i: nat :| start <= i < |bs| && bs[i].OpenBrace? && id == IdAt(bs, i) {
      assert ActiveOn(lines, k, i, id);
    }
  }

  // ── Building the index ─────────────────────────────────────────────────────

  datatype Index = Index(parent: Parents, activeByLine: map<nat, seq<nat>>)

  method ScanLine(s0: Scopes, line: seq<Brace>) returns (s: Scopes, ids: seq<nat>)
    requires s0.stack != []
    ensures s == Run(s0, line) && s.stack != []
    ensures ids == s0.stack + Range(s0.next, s.next)
  {
    var stack, next, parent := s0.stack, s0.next, s0.parent;
    ids := stack;
    for i := 0 to |line|
      invariant stack != []
      invariant Scopes(stack, next, parent) == Run(s0, line[..i])
      invariant s0.next <= next
      invariant ids == s0.stack + Range(s0.next, next)
    {
      assert line[..i + 1][..i] == line[..i];
      if line[i].OpenBrace? {
        var id := next;
        RangePush(s0.stack, s0.next, id);
        next := next + 1;
        parent := parent[id := Some(stack[|stack| - 1])];
        stack := stack + [id];
        ids := ids + [id];
      } else if |stack| > 1 {
        stack := stack[..|stack| - 1];
      }
    }
    assert line[..|line|] == line;
    s := Scopes(stack, next, parent);
  }

  /** The first `n` lines' ids, keyed by line number from 1. */
  function Recorded(lines: seq<seq<Brace>>, n: nat): map<nat, seq<nat>>
    requires n <= |lines|
  {
    if n == 0 then map[] else Recorded(lines, n - 1)[n := LineIds(lines, n - 1)]
  }

  lemma {:induction false} RecordedHolds(lines: seq<seq<Brace>>, n: nat, k: nat)
    requires n <= |lines|
    ensures k in Recorded(lines, n) <==> 1 <= k <= n
    ensures 1 <= k <= n ==> Recorded(lines, n)[k] == LineIds(lines, k - 1)
  {
    if n > 0 {
      RecordedHolds(lines, n - 1, k);
    }
  }

  method BuildScopeIndex(lines: seq<seq<Brace>>) returns (index: Index)
    ensures index.parent == StateAt(lines, |lines|).parent
    ensures index.activeByLine == Recorded(lines, |lines|)
  {
    var s := Root;
    var active: map<nat, seq<nat>> := map[];
    for l := 0 to |lines|
      invariant s == StateAt(lines, l) && s.stack != []
      invariant active == Recorded(lines, l)
    {
      var ids;
      s, ids := ScanLine(s, lines[l]);
      DedupKeepsLine(lines, l);
      active := active[l + 1 := Dedup(ids)];
    }
    index := Index(s.parent, active);
  }

  // ── Reading the index ──────────────────────────────────────────────────────

  /** A line that was not scanned counts as being in the root scope. */
  function LineScopeIds(index: Index, line: nat): seq<nat> {
    if line in index.activeByLine then index.activeByLine[line] else [0]
  }

  function Visible(ids: seq<nat>, bindings: map<nat, set<string>>): set<string> {
    if ids == [] then {}
    else Visible(ids[..|ids| - 1], bindings) + if ids[|ids| - 1] in bindings then bindings[ids[|ids| - 1]] else {}
  }

  method VisibleScopeBindings(index: Index, line: nat, bindings: map<nat, set<string>>) returns (visible: set<string>)
    ensures visible == Visible(LineScopeIds(index, line), bindings)
  {
    var ids := LineScopeIds(index, line);
    visible := {};
    for i := 0 to |ids|
      invariant visible == Visible(ids[..i], bindings)
    {
      assert ids[..i + 1][..i] == ids[..i];
      if ids[i] in bindings {
        visible := visible + bindings[ids[i]];
      }
    }
    assert ids[..|ids|] == ids;
  }

  /** A name is visible exactly when some active scope binds it. */
  lemma {:induction false} VisibleIsExact(ids: seq<nat>, bindings: map<nat, set<string>>, name: string)
    ensures name in Visible(ids, bindings) <==> exists id :: id in ids && id in bindings && name in bindings[id]
  {
    if ids != [] {
      assert ids == ids[..|ids| - 1] + [ids[|ids| - 1]];
      VisibleIsExact(ids[..|ids| - 1], bindings, name);
    }
  }

  lemma {:induction false} AncestorsAreActive(parent: Parents, ids: seq<nat>, id: nat, up: nat)
    requires GoodLine(parent, ids) && id in ids && up in Ancestors(parent, id)
    ensures up in ids
  {
    if up != id {
      AncestorsAreActive(parent, ids, parent[id].value, up);
    }
  }

  /** On every line of every text, the bindings of all ancestors of an active scope
      are visible: the index never loses an enclosing scope. */
  lemma AncestorBindingsVisible(lines: seq<seq<Brace>>, k: nat, bindings: map<nat, set<string>>, id: nat, up: nat)
    requires k < |lines| && id in LineIds(lines, k)
    requires up in Ancestors(StateAt(lines, |lines|).parent, id) && up in bindings
    ensures var index := Index(StateAt(lines, |lines|).parent, Recorded(lines, |lines|));
      bindings[up] <= Visible(LineScopeIds(index, k + 1), bindings)
  {
    LineIsGood(lines, k);
    RecordedHolds(lines, |lines|, k + 1);
    AncestorsAreActive(StateAt(lines, |lines|).parent, LineIds(lines, k), id, up);
    forall name | name in bindings[up] ensures name in Visible(LineIds(lines, k), bindings) {
      VisibleIsExact(LineIds(lines, k), bindings, name);
    }
  }

  /** Reading the index of every text: a name is visible on a line exactly when the root
      binds it, or a scope that is open at the start of the line or opened on it; on a
      line beyond the text exactly when the root does. */
  lemma VisibleOnLine(lines: seq<seq<Brace>>, line: nat, bindings: map<nat, set<string>>, name: string)
    ensures var index := Index(StateAt(lines, |lines|).parent, Recorded(lines, |lines|));
      name in Visible(LineScopeIds(index, line), bindings) <==>
        || (0 in bindings && name in bindings[0])
        || (1 <= line <= |lines| &&
            var k := line - 1;
            exists i: nat, id: nat :: ActiveOn(lines, k, i, id) && id in bindings && name in bindings[id])
  {
    var index := Index(StateAt(lines, |lines|).parent, Recorded(lines, |lines|));
    var ids := LineScopeIds(index, line);
    RecordedHolds(lines, |lines|, line);
    VisibleIsExact(ids, bindings, name);
    if 1 <= line <= |lines| {
      var k := line - 1;
      forall id: nat ensures id in ids <==> id == 0 || exists i: nat :: ActiveOn(lines, k, i, id) {
        LineIsExact(lines, k, id);
      }
    }
  }
}
