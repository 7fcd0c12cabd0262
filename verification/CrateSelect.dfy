/**
 Which plugin crates a change can affect: the member that owns each changed path
 is found by longest prefix, and a plugin is selected when an owner is among its
 transitive workspace-internal dependencies.
 */
module CrateSelect {
  import opened Common

  type Id = string
  /** A relative path as its components. */
  type Path = seq<string>

  datatype Package = Package(name: string, manifest: Path)

  /** The workspace members and, per package, its resolved dependencies. */
  datatype Metadata = Metadata(members: map<Id, Package>, deps: map<Id, seq<Id>>)

  // ── Paths as text ──────────────────────────────────────────────────────────

  predicate ValidPath(p: Path) {
    forall i :: 0 <= i < |p| ==> p[i] != "" && '/' !in p[i]
  }

  function Join(p: Path): string {
    if p == [] then "" else if |p| == 1 then p[0] else p[0] + "/" + Join(p[1..])
  }

  /** The textual ownership test: equal, or extended past a slash. */
  predicate Owns(dir: string, path: string) {
    dir != "" && (path == dir || dir + "/" <= path)
  }

  function Closed(p: Path): string {
    if p == [] then "" else p[0] + "/" + Closed(p[1..])
  }

  lemma {:induction false} JoinClosed(p: Path)
    requires p != []
    ensures Join(p) + "/" == Closed(p)
  {
    if |p| == 1 {
      assert Closed(p[1..]) == "";
    } else {
      JoinClosed(p[1..]);
    }
  }

  /** The first slash ends the first component. */
  lemma SameHead(a: string, r: string, b: string, t: string)
    requires '/' !in a && '/' !in b
    ensures a + "/" + r <= b + "/" + t <==> a == b && r <= t
  {
    var x, y := a + "/" + r, b + "/" + t;
    assert x[|a|] == '/' && y[|b|] == '/';
    assert forall i :: 0 <= i < |a| ==> x[i] == a[i];
    assert forall i :: 0 <= i < |b| ==> y[i] == b[i];
    if x <= y {
      assert |a| == |b|;
      assert a == x[..|a|] && b == y[..|b|];
      assert r == x[|a| + 1..] && t == y[|b| + 1..];
    }
  }

  lemma {:induction false} ClosedPrefix(d: Path, p: Path)
    requires ValidPath(d) && ValidPath(p)
    ensures Closed(d) <= Closed(p) <==> d <= p
  {
    if d != [] && p != [] {
      ClosedPrefix(d[1..], p[1..]);
      SameHead(d[0], Closed(d[1..]), p[0], Closed(p[1..]));
      assert d == [d[0]] + d[1..] && p == [p[0]] + p[1..];
    }
  }

  /** Testing text prefixes past a slash is testing component prefixes: `crates/a`
      owns `crates/a/x` but not `crates/ab`. */
  lemma OwnsIsComponentPrefix(d: Path, p: Path)
    requires ValidPath(d) && ValidPath(p) && d != []
    ensures Owns(Join(d), Join(p)) <==> d <= p
  {
    JoinClosed(d);
    ClosedPrefix(d, p);
    var x, y := Join(d), Join(p);
    assert x != "" by {
      assert d[0] != "";
    }
    if p == [] {
      assert y == "";
    } else {
      JoinClosed(p);
      if x + "/" <= y + "/" && |x| < |y| {
        assert (x + "/")[..|x| + 1] <= y;
      }
    }
  }

  // ── Owners ─────────────────────────────────────────────────────────────────

  /** A member whose directory is a longest matching prefix of `path`. */
  ghost predicate IsOwner(dirs: map<Id, string>, path: string, id: Id) {
    && id in dirs && Owns(dirs[id], path)
    && forall other :: other in dirs && Owns(dirs[other], path) ==> |dirs[other]| <= |dirs[id]|
  }

  /** The first such member in iteration order. */
  ghost predicate IsFirstOwner(dirs: map<Id, string>, order: seq<Id>, path: string, id: Id) {
    && IsOwner(dirs, path, id)
    && exists k :: 0 <= k < |order| && order[k] == id && forall j :: 0 <= j < k ==> !IsOwner(dirs, path, order[j])
  }

  method FindOwner(dirs: map<Id, string>, order: seq<Id>, path: string) returns (owner: Option<Id>)
    requires forall id :: id in order <==> id in dirs
    ensures owner.Some? ==> IsFirstOwner(dirs, order, path, owner.value)
    ensures owner.None? ==> forall id :: id in dirs ==> !Owns(dirs[id], path)
  {
    owner := None;
    var bestLen := -1;
    ghost var at := 0;
    for i := 0 to |order|
      invariant owner.None? ==> bestLen == -1 && forall j :: 0 <= j < i ==> !Owns(dirs[order[j]], path)
      invariant owner.Some? ==>
        && 0 <= at < i && order[at] == owner.value && Owns(dirs[owner.value], path) && bestLen == |dirs[owner.value]|
        && (forall j :: 0 <= j < i && Owns(dirs[order[j]], path) ==> |dirs[order[j]]| <= bestLen)
        && (forall j :: 0 <= j < at && Owns(dirs[order[j]], path) ==> |dirs[order[j]]| < bestLen)
    {
      var dir := dirs[order[i]];
      if dir != "" && (path == dir || dir + "/" <= path) {
        if |dir| > bestLen {
          bestLen := |dir|;
          owner := Some(order[i]);
          at := i;
        }
      }
    }
  }

  lemma FirstOwnerIsUnique(dirs: map<Id, string>, order: seq<Id>, path: string, a: Id, b: Id)
    requires IsFirstOwner(dirs, order, path, a) && IsFirstOwner(dirs, order, path, b)
    ensures a == b
  {
  }

  lemma OwnersShareDirectory(dirs: map<Id, string>, path: string, a: Id, b: Id)
    requires IsOwner(dirs, path, a) && IsOwner(dirs, path, b)
    ensures dirs[a] == dirs[b]
  {
    assert |dirs[a]| == |dirs[b]|;
    assert dirs[a] == path[..|dirs[a]|] && dirs[b] == path[..|dirs[b]|];
  }

  ghost predicate DistinctDirs(dirs: map<Id, string>) {
    forall a, b :: a in dirs && b in dirs && dirs[a] == dirs[b] != "" ==> a == b
  }

  /** An order in which a dictionary with these keys can be iterated. */
  ghost predicate Iterates(order: seq<Id>, ids: set<Id>) {
    && (forall id :: id in order <==> id in ids)
    && (forall i, j :: 0 <= i < j < |order| ==> order[i] != order[j])
  }

  lemma {:induction false} SomeOrder(ids: set<Id>) returns (order: seq<Id>)
    ensures Iterates(order, ids)
  {
    order := [];
    if ids != {} {
      var id :| id in ids;
      var rest := SomeOrder(ids - {id});
      order := [id] + rest;
    }
  }

  /** An owner tried first is found. */
  lemma OwnerTriedFirst(dirs: map<Id, string>, path: string, a: Id) returns (order: seq<Id>)
    requires IsOwner(dirs, path, a)
    ensures Iterates(order, dirs.Keys) && IsFirstOwner(dirs, order, path, a)
  {
    var rest := SomeOrder(dirs.Keys - {a});
    order := [a] + rest;
    assert order[0] == a;
  }

  /** Whatever the path, every iteration order finds the same owner. */
  ghost predicate OrderIsIrrelevant(dirs: map<Id, string>) {
    forall path, one, two, a, b ::
      && Iterates(one, dirs.Keys) && Iterates(two, dirs.Keys)
      && IsFirstOwner(dirs, one, path, a) && IsFirstOwner(dirs, two, path, b)
      ==> a == b
  }

  /** The owner found does not depend on the order in which members are tried, for
      any path, exactly when no two members share a (non-root) directory. */
  lemma OwnerIgnoresOrder(dirs: map<Id, string>)
    ensures OrderIsIrrelevant(dirs) <==> DistinctDirs(dirs)
  {
    if DistinctDirs(dirs) {
      forall path, one, two, a, b | IsFirstOwner(dirs, one, path, a) && IsFirstOwner(dirs, two, path, b)
        ensures a == b {
        OwnersShareDirectory(dirs, path, a, b);
      }
    }
    if OrderIsIrrelevant(dirs) {
      forall a, b | a in dirs && b in dirs && dirs[a] == dirs[b] != "" ensures a == b {
        // no longer directory owns the directory itself
        var one := OwnerTriedFirst(dirs, dirs[a], a);
        var two := OwnerTriedFirst(dirs, dirs[a], b);
      }
    }
  }

  lemma OwnerInEveryOrder(dirs: map<Id, string>, one: seq<Id>, two: seq<Id>, path: string, a: Id)
    requires DistinctDirs(dirs) && Iterates(two, dirs.Keys) && IsFirstOwner(dirs, one, path, a)
    ensures IsFirstOwner(dirs, two, path, a)
  {
    var k :| 0 <= k < |two| && two[k] == a;
    forall j | 0 <= j < k ensures !IsOwner(dirs, path, two[j]) {
      if IsOwner(dirs, path, two[j]) {
        OwnersShareDirectory(dirs, path, two[j], a);
      }
    }
  }

  // ── The dependency closure ─────────────────────────────────────────────────

  ghost predicate StepAt(direct: map<Id, set<Id>>, p: seq<Id>, i: nat)
    requires i + 1 < |p|
  {
    p[i] in direct && p[i + 1] in direct[p[i]]
  }

  ghost predicate IsChain(direct: map<Id, set<Id>>, p: seq<Id>) {
    p != [] && forall i: nat :: i + 1 < |p| ==> StepAt(direct, p, i)
  }

  /** `b` is reached from `a` over `n` dependency edges. */
  ghost predicate DependsIn(direct: map<Id, set<Id>>, a: Id, b: Id, n: nat) {
    exists p :: |p| == n + 1 && IsChain(direct, p) && p[0] == a && p[n] == b
  }

  /** Zero or more edges. */
  ghost predicate Depends(direct: map<Id, set<Id>>, a: Id, b: Id) {
    exists n: nat :: DependsIn(direct, a, b, n)
  }

  /** One or more edges. */
  ghost predicate DependsProperly(direct: map<Id, set<Id>>, a: Id, b: Id) {
    exists n: nat :: n > 0 && DependsIn(direct, a, b, n)
  }

  lemma ChainPush(direct: map<Id, set<Id>>, p: seq<Id>, b: Id)
    requires IsChain(direct, p) && p[|p| - 1] in direct && b in direct[p[|p| - 1]]
    ensures IsChain(direct, p + [b])
  {
    var q := p + [b];
    forall i: nat | i + 1 < |q| ensures StepAt(direct, q, i) {
      assert i + 1 < |p| ==> StepAt(direct, p, i);
    }
  }

  lemma DirectDependsProperly(direct: map<Id, set<Id>>, a: Id, b: Id)
    requires a in direct && b in direct[a]
    ensures DependsProperly(direct, a, b)
  {
    ChainPush(direct, [a], b);
    assert DependsIn(direct, a, b, 1) by {
      assert IsChain(direct, [a] + [b]);
    }
  }

  lemma DependsFurther(direct: map<Id, set<Id>>, a: Id, b: Id, c: Id)
    requires DependsProperly(direct, a, b) && b in direct && c in direct[b]
    ensures DependsProperly(direct, a, c)
  {
    var n: nat :| n > 0 && DependsIn(direct, a, b, n);
    var p :| |p| == n + 1 && IsChain(direct, p) && p[0] == a && p[n] == b;
    ChainPush(direct, p, c);
    assert DependsIn(direct, a, c, n + 1) by {
      assert |p + [c]| == n + 2 && (p + [c])[0] == a && (p + [c])[n + 1] == c;
    }
  }

  /** A set that holds the direct dependencies and is closed holds every chain. */
  lemma {:induction false} ClosedHoldsChain(direct: map<Id, set<Id>>, seen: set<Id>, p: seq<Id>, n: nat)
    requires IsChain(direct, p) && 0 < n < |p|
    requires p[0] in direct && direct[p[0]] <= seen
    requires forall y :: y in seen && y in direct ==> direct[y] <= seen
    ensures p[n] in seen
  {
    assert StepAt(direct, p, n - 1);
    if n > 1 {
      ClosedHoldsChain(direct, seen, p, n - 1);
    }
  }

  /** Append the elements of a set to a stack, in some order. */
  method PushAll(stack0: seq<Id>, xs: set<Id>) returns (stack: seq<Id>)
    ensures forall x :: x in stack <==> x in stack0 || x in xs
  {
    stack := stack0;
    var todo := xs;
    while todo != {}
      invariant todo <= xs
      invariant forall x :: x in stack <==> x in stack0 || x in xs - todo
      decreases todo
    {
      var x :| x in todo;
      stack := stack + [x];
      todo := todo - {x};
    }
  }

  /** The worklist holds every unseen dependency of what has been seen. */
  ghost predicate Worklist(direct: map<Id, set<Id>>, pid: Id, seen: set<Id>, stack: seq<Id>) {
    && pid in direct && seen <= direct.Keys
    && (forall x :: x in direct[pid] ==> x in seen || x in stack)
    && (forall y, z :: y in seen && z in direct[y] ==> z in seen || z in stack)
    && (forall x {:trigger DependsProperly(direct, pid, x)} ::
          x in seen || x in stack ==> DependsProperly(direct, pid, x))
  }

  lemma WorklistDone(direct: map<Id, set<Id>>, pid: Id, seen: set<Id>)
    requires Worklist(direct, pid, seen, [])
    ensures forall x :: x in seen <==> DependsProperly(direct, pid, x)
  {
    forall x | DependsProperly(direct, pid, x) ensures x in seen {
      var n: nat :| n > 0 && DependsIn(direct, pid, x, n);
      var p :| |p| == n + 1 && IsChain(direct, p) && p[0] == pid && p[n] == x;
      ClosedHoldsChain(direct, seen, p, n);
    }
  }

  lemma WorklistStep(direct: map<Id, set<Id>>, pid: Id, seen: set<Id>, rest: seq<Id>, current: Id, stack: seq<Id>)
    requires Worklist(direct, pid, seen, rest + [current]) && current in direct
    requires forall x :: x in stack <==> x in rest || x in direct[current] - (seen + {current})
    ensures Worklist(direct, pid, seen + {current}, stack)
  {
    assert current in rest + [current];
    assert DependsProperly(direct, pid, current);
    forall x | x in direct[current] ensures DependsProperly(direct, pid, x) {
      DependsFurther(direct, pid, current, x);
    }
    forall x | x in rest ensures x in rest + [current] && DependsProperly(direct, pid, x) {
      assert x in rest + [current];
    }
  }

  /** The worklist closure terminates on cyclic graphs and yields exactly the
      packages reached over one or more edges. */
  method DependencyClosure(direct: map<Id, set<Id>>, pid: Id) returns (seen: set<Id>)
    requires pid in direct
    requires forall id :: id in direct ==> direct[id] <= direct.Keys
    ensures forall x :: x in seen <==> DependsProperly(direct, pid, x)
  {
    seen := {};
    var stack := PushAll([], direct[pid]);
    forall x | x in direct[pid] ensures DependsProperly(direct, pid, x) {
      DirectDependsProperly(direct, pid, x);
    }
    while stack != []
      invariant Worklist(direct, pid, seen, stack)
      invariant forall x :: x in stack ==> x in direct
      decreases direct.Keys - seen, |stack|
    {
      var current, rest := stack[|stack| - 1], stack[..|stack| - 1];
      assert stack == rest + [current];
      if current in seen {
        stack := rest;
      } else {
        var more := PushAll(rest, direct[current] - (seen + {current}));
        WorklistStep(direct, pid, seen, rest, current, more);
        seen := seen + {current};
        stack := more;
      }
    }
    WorklistDone(direct, pid, seen);
  }

  // ── Selection ──────────────────────────────────────────────────────────────

  function Direct(m: Metadata): (direct: map<Id, set<Id>>)
    ensures direct.Keys == m.members.Keys
    ensures forall id :: id in direct ==> direct[id] <= m.members.Keys
  {
    map id | id in m.members :: set d | id in m.deps && d in m.deps[id] && d in m.members
  }

  function CrateDir(p: Package): Path {
    if p.manifest == [] then [] else p.manifest[..|p.manifest| - 1]
  }

  function Dirs(m: Metadata): map<Id, string> {
    map id | id in m.members :: Join(CrateDir(m.members[id]))
  }

  predicate IsPlugin(p: Package) {
    && |p.manifest| == 5
    && p.manifest[0] == "crates" && p.manifest[1] == "plugins" && p.manifest[4] == "Cargo.toml"
  }

  predicate Escalates(p: Path) {
    p == ["Cargo.toml"] || p == ["Cargo.lock"]
  }

  predicate Escalated(changed: seq<Path>) {
    exists i :: 0 <= i < |changed| && Escalates(changed[i])
  }

  /** Some changed path's owner is `id`. */
  ghost predicate Changed(m: Metadata, order: seq<Id>, changed: seq<Path>, id: Id) {
    exists i :: 0 <= i < |changed| && IsFirstOwner(Dirs(m), order, Join(changed[i]), id)
  }

  /** The specification of selection. */
  ghost predicate Selected(m: Metadata, order: seq<Id>, changed: seq<Path>, id: Id) {
    && id in m.members && IsPlugin(m.members[id])
    && (Escalated(changed) || exists c :: Changed(m, order, changed, c) && Depends(Direct(m), id, c))
  }

  lemma DependsSplit(direct: map<Id, set<Id>>, a: Id, b: Id)
    ensures Depends(direct, a, b) <==> a == b || DependsProperly(direct, a, b)
  {
    if a == b {
      assert IsChain(direct, [a]);
      assert DependsIn(direct, a, b, 0);
    }
    if Depends(direct, a, b) {
      var n: nat :| DependsIn(direct, a, b, n);
    }
  }

  lemma ChangedPush(m: Metadata, order: seq<Id>, changed: seq<Path>, i: nat)
    requires i < |changed|
    ensures forall id :: Changed(m, order, changed[..i + 1], id) <==>
              Changed(m, order, changed[..i], id) || IsFirstOwner(Dirs(m), order, Join(changed[i]), id)
  {
    var front, more := changed[..i], changed[..i + 1];
    forall id ensures Changed(m, order, more, id) <==>
      Changed(m, order, front, id) || IsFirstOwner(Dirs(m), order, Join(changed[i]), id) {
      assert forall k :: 0 <= k < i ==> more[k] == front[k];
      assert more[i] == changed[i];
    }
  }

  method ChangedMembers(m: Metadata, order: seq<Id>, changed: seq<Path>) returns (owners: set<Id>)
    requires forall id :: id in order <==> id in m.members
    ensures forall id :: id in owners <==> Changed(m, order, changed, id)
  {
    owners := {};
    for i := 0 to |changed|
      invariant forall id :: id in owners <==> Changed(m, order, changed[..i], id)
    {
      var owner := FindOwner(Dirs(m), order, Join(changed[i]));
      ChangedPush(m, order, changed, i);
      if owner.Some? {
        forall id | IsFirstOwner(Dirs(m), order, Join(changed[i]), id) ensures id == owner.value {
          FirstOwnerIsUnique(Dirs(m), order, Join(changed[i]), id, owner.value);
        }
        owners := owners + {owner.value};
      }
    }
    assert changed[..|changed|] == changed;
  }

  method SelectByOwners(m: Metadata, order: seq<Id>, changed: seq<Path>, plugins: set<Id>, owners: set<Id>)
    returns (selected: set<Id>)
    requires forall id :: id in plugins <==> id in m.members && IsPlugin(m.members[id])
    requires forall id :: id in owners <==> Changed(m, order, changed, id)
    requires !Escalated(changed)
    ensures forall id :: id in selected <==> Selected(m, order, changed, id)
  {
    selected := {};
    var todo := plugins;
    while todo != {}
      invariant todo <= plugins
      invariant forall id :: id in selected <==> id in plugins - todo && Selected(m, order, changed, id)
      decreases todo
    {
      var id :| id in todo;
      var closure := DependencyClosure(Direct(m), id);
      SelectedByOwner(m, order, changed, id, owners, closure);
      if id in owners || closure * owners != {} {
        selected := selected + {id};
      }
      todo := todo - {id};
    }
  }

  /** A plugin crate is selected exactly when a root manifest or lockfile changed,
      or the owner of some changed path is reached from it in zero or more edges. */
  method SelectAffected(m: Metadata, order: seq<Id>, changed: seq<Path>) returns (names: set<string>)
    requires forall id :: id in order <==> id in m.members
    ensures forall name :: name in names <==> exists id :: Selected(m, order, changed, id) && m.members[id].name == name
    ensures ValidPaths(m, changed) ==>
              forall name :: name in names <==>
                exists id :: Affected(m, order, changed, id) && m.members[id].name == name
  {
    var plugins := set id | id in m.members && IsPlugin(m.members[id]);
    var selected := plugins;
    if !Escalated(changed) {
      var owners := ChangedMembers(m, order, changed);
      selected := SelectByOwners(m, order, changed, plugins, owners);
    }
    assert forall id :: id in selected <==> Selected(m, order, changed, id);
    names := set id | id in selected :: m.members[id].name;
    if ValidPaths(m, changed) {
      forall id ensures Selected(m, order, changed, id) <==> Affected(m, order, changed, id) {
        SelectedIsAffected(m, order, changed, id);
      }
    }
  }

  lemma SelectedByOwner(m: Metadata, order: seq<Id>, changed: seq<Path>, id: Id, owners: set<Id>, closure: set<Id>)
    requires id in m.members && IsPlugin(m.members[id])
    requires !Escalated(changed)
    requires forall c :: c in owners <==> Changed(m, order, changed, c)
    requires forall c :: c in closure <==> DependsProperly(Direct(m), id, c)
    ensures Selected(m, order, changed, id) <==> id in owners || closure * owners != {}
  {
    forall c ensures Depends(Direct(m), id, c) <==> c == id || c in closure {
      DependsSplit(Direct(m), id, c);
    }
    if id in owners || closure * owners != {} {
      var c :| c in owners && (c == id || c in closure);
      assert Changed(m, order, changed, c) && Depends(Direct(m), id, c);
    }
    if Selected(m, order, changed, id) {
      var c :| Changed(m, order, changed, c) && Depends(Direct(m), id, c);
      assert c != id ==> c in closure * owners;
    }
  }

  /** With distinct directories the selection is the same in every order. */
  lemma SelectionIgnoresOrder(m: Metadata, one: seq<Id>, two: seq<Id>, changed: seq<Path>, id: Id)
    requires DistinctDirs(Dirs(m)) && Iterates(one, m.members.Keys) && Iterates(two, m.members.Keys)
    ensures Selected(m, one, changed, id) <==> Selected(m, two, changed, id)
  {
    ChangedInEveryOrder(m, one, two, changed);
    ChangedInEveryOrder(m, two, one, changed);
  }

  lemma ChangedInEveryOrder(m: Metadata, one: seq<Id>, two: seq<Id>, changed: seq<Path>)
    requires DistinctDirs(Dirs(m)) && Iterates(two, m.members.Keys)
    ensures forall c :: Changed(m, one, changed, c) ==> Changed(m, two, changed, c)
  {
    forall c | Changed(m, one, changed, c) ensures Changed(m, two, changed, c) {
      var i :| 0 <= i < |changed| && IsFirstOwner(Dirs(m), one, Join(changed[i]), c);
      OwnerInEveryOrder(Dirs(m), one, two, Join(changed[i]), c);
    }
  }

  // ── Selection, read off the metadata ───────────────────────────────────────

  /** Member `b` is among the resolved dependencies of member `a`. */
  predicate Uses(m: Metadata, a: Id, b: Id) {
    a in m.members && b in m.members && a in m.deps && b in m.deps[a]
  }

  predicate UsesAt(m: Metadata, p: seq<Id>, i: nat)
    requires i + 1 < |p|
  {
    Uses(m, p[i], p[i + 1])
  }

  /** A chain of members, each using the next. */
  ghost predicate Leads(m: Metadata, p: seq<Id>, a: Id, b: Id) {
    && p != [] && p[0] == a && p[|p| - 1] == b
    && forall i: nat :: i + 1 < |p| ==> UsesAt(m, p, i)
  }

  lemma DirectIsUses(m: Metadata, a: Id, b: Id)
    ensures Uses(m, a, b) <==> a in Direct(m) && b in Direct(m)[a]
  {
  }

  lemma DependsIsLeads(m: Metadata, a: Id, b: Id)
    ensures Depends(Direct(m), a, b) <==> exists p :: Leads(m, p, a, b)
  {
    if Depends(Direct(m), a, b) {
      var n: nat :| DependsIn(Direct(m), a, b, n);
      var p :| |p| == n + 1 && IsChain(Direct(m), p) && p[0] == a && p[n] == b;
      forall i: nat | i + 1 < |p| ensures UsesAt(m, p, i) {
        assert StepAt(Direct(m), p, i);
        DirectIsUses(m, p[i], p[i + 1]);
      }
      assert Leads(m, p, a, b);
    }
    if p :| Leads(m, p, a, b) {
      forall i: nat | i + 1 < |p| ensures StepAt(Direct(m), p, i) {
        assert UsesAt(m, p, i);
        DirectIsUses(m, p[i], p[i + 1]);
      }
      assert DependsIn(Direct(m), a, b, |p| - 1);
    }
  }

  /** The path lies in the directory of the member's manifest, which is not the root. */
  predicate Holds(m: Metadata, id: Id, path: Path) {
    && id in m.members && |m.members[id].manifest| >= 2
    && m.members[id].manifest[..|m.members[id].manifest| - 1] <= path
  }

  /** No member's directory around the path is deeper. */
  ghost predicate Innermost(m: Metadata, id: Id, path: Path) {
    && Holds(m, id, path)
    && forall other :: Holds(m, other, path) ==> |m.members[other].manifest| <= |m.members[id].manifest|
  }

  /** The member tried first among the innermost ones. */
  ghost predicate InnermostAt(m: Metadata, order: seq<Id>, k: nat, path: Path)
    requires k < |order|
  {
    Innermost(m, order[k], path) && forall j :: 0 <= j < k ==> !Innermost(m, order[j], path)
  }

  ghost predicate Contains(m: Metadata, order: seq<Id>, path: Path, id: Id) {
    exists k: nat :: k < |order| && order[k] == id && InnermostAt(m, order, k, path)
  }

  ghost predicate ValidPaths(m: Metadata, changed: seq<Path>) {
    && (forall id :: id in m.members ==> ValidPath(m.members[id].manifest))
    && (forall i :: 0 <= i < |changed| ==> ValidPath(changed[i]))
  }

  /** A deeper directory has the longer text. */
  lemma {:induction false} LongerIsDeeper(d: Path, e: Path)
    requires ValidPath(e) && d <= e && |d| < |e|
    ensures |Closed(d)| < |Closed(e)|
  {
    assert e[0] != "";
    if d != [] {
      assert d[0] == e[0] && d[1..] <= e[1..];
      LongerIsDeeper(d[1..], e[1..]);
    }
  }

  lemma HoldsIsOwns(m: Metadata, id: Id, path: Path)
    requires id in m.members && ValidPath(m.members[id].manifest) && ValidPath(path)
    ensures Holds(m, id, path) <==> Owns(Dirs(m)[id], Join(path))
  {
    var dir := CrateDir(m.members[id]);
    if dir != [] {
      OwnsIsComponentPrefix(dir, path);
    }
  }

  lemma DepthIsLength(m: Metadata, a: Id, b: Id, path: Path)
    requires Holds(m, a, path) && Holds(m, b, path)
    requires ValidPath(m.members[a].manifest) && ValidPath(m.members[b].manifest)
    ensures |m.members[a].manifest| <= |m.members[b].manifest| <==> |Dirs(m)[a]| <= |Dirs(m)[b]|
  {
    var d, e := CrateDir(m.members[a]), CrateDir(m.members[b]);
    JoinClosed(d);
    JoinClosed(e);
    if |d| < |e| {
      assert d == path[..|d|] && e == path[..|e|];
      LongerIsDeeper(d, e);
    } else if |e| < |d| {
      assert d == path[..|d|] && e == path[..|e|];
      LongerIsDeeper(e, d);
    } else {
      assert d == e;
    }
  }

  lemma InnermostIsOwner(m: Metadata, path: Path, id: Id)
    requires ValidPaths(m, [path])
    ensures Innermost(m, id, path) <==> IsOwner(Dirs(m), Join(path), id)
  {
    assert [path][0] == path;
    forall x | x in m.members ensures Holds(m, x, path) <==> Owns(Dirs(m)[x], Join(path)) {
      HoldsIsOwns(m, x, path);
    }
    if id in m.members && Holds(m, id, path) {
      forall x | Holds(m, x, path)
        ensures |m.members[x].manifest| <= |m.members[id].manifest| <==> |Dirs(m)[x]| <= |Dirs(m)[id]| {
        DepthIsLength(m, x, id, path);
      }
    }
  }

  lemma ContainsIsFirstOwner(m: Metadata, order: seq<Id>, path: Path, id: Id)
    requires ValidPaths(m, [path])
    ensures Contains(m, order, path, id) <==> IsFirstOwner(Dirs(m), order, Join(path), id)
  {
    forall x ensures Innermost(m, x, path) <==> IsOwner(Dirs(m), Join(path), x) {
      InnermostIsOwner(m, path, x);
    }
    if IsFirstOwner(Dirs(m), order, Join(path), id) {
      var k: nat :| k < |order| && order[k] == id && forall j :: 0 <= j < k ==> !IsOwner(Dirs(m), Join(path), order[j]);
      assert InnermostAt(m, order, k, path);
    }
  }

  /** The selection without directories as text and without the graph built from the
      metadata: a crate two levels below `crates/plugins` is affected if the root manifest or
      lockfile changed, or if a chain of members, each using the next, leads from it to
      the one that contains a changed path. */
  ghost predicate Affected(m: Metadata, order: seq<Id>, changed: seq<Path>, id: Id) {
    && id in m.members
    && (exists group, name :: m.members[id].manifest == ["crates", "plugins", group, name, "Cargo.toml"])
    && (["Cargo.toml"] in changed || ["Cargo.lock"] in changed ||
        exists path, c, p :: path in changed && Contains(m, order, path, c) && Leads(m, p, id, c))
  }

  lemma PluginManifest(p: Package)
    ensures IsPlugin(p) <==> exists group, name :: p.manifest == ["crates", "plugins", group, name, "Cargo.toml"]
  {
    if IsPlugin(p) {
      assert p.manifest == ["crates", "plugins", p.manifest[2], p.manifest[3], "Cargo.toml"];
    }
  }

  lemma ChangedIsContains(m: Metadata, order: seq<Id>, changed: seq<Path>, c: Id)
    requires ValidPaths(m, changed)
    ensures Changed(m, order, changed, c) <==> exists path :: path in changed && Contains(m, order, path, c)
  {
    forall i | 0 <= i < |changed|
      ensures Contains(m, order, changed[i], c) <==> IsFirstOwner(Dirs(m), order, Join(changed[i]), c) {
      ContainsIsFirstOwner(m, order, changed[i], c);
    }
    if path :| path in changed && Contains(m, order, path, c) {
      var i :| 0 <= i < |changed| && changed[i] == path;
    }
  }

  lemma EscalatedByName(changed: seq<Path>)
    ensures Escalated(changed) <==> ["Cargo.toml"] in changed || ["Cargo.lock"] in changed
  {
    if Escalated(changed) {
      var i :| 0 <= i < |changed| && Escalates(changed[i]);
    }
  }

  lemma ReachedByChain(m: Metadata, order: seq<Id>, changed: seq<Path>, id: Id)
    requires ValidPaths(m, changed)
    ensures (exists c :: Changed(m, order, changed, c) && Depends(Direct(m), id, c)) <==>
            (exists path, c, p :: path in changed && Contains(m, order, path, c) && Leads(m, p, id, c))
  {
    if c :| Changed(m, order, changed, c) && Depends(Direct(m), id, c) {
      ChangedIsContains(m, order, changed, c);
      DependsIsLeads(m, id, c);
      var path :| path in changed && Contains(m, order, path, c);
      var p :| Leads(m, p, id, c);
      assert path in changed && Contains(m, order, path, c) && Leads(m, p, id, c);
    }
    if path, c, p :| path in changed && Contains(m, order, path, c) && Leads(m, p, id, c) {
      ChangedIsContains(m, order, changed, c);
      DependsIsLeads(m, id, c);
      assert Changed(m, order, changed, c) && Depends(Direct(m), id, c);
    }
  }

  /** What is selected is what is affected. */
  lemma SelectedIsAffected(m: Metadata, order: seq<Id>, changed: seq<Path>, id: Id)
    requires ValidPaths(m, changed)
    ensures Selected(m, order, changed, id) <==> Affected(m, order, changed, id)
  {
    if id in m.members {
      PluginManifest(m.members[id]);
    }
    EscalatedByName(changed);
    ReachedByChain(m, order, changed, id);
  }
}
