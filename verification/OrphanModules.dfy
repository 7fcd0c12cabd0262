/**
 The orphan-module gate: a depth-first walk over Rust sources that follows
 `include!`, `#[path]` and `mod name;`, sharing one visited set between all
 target roots.
 */
module OrphanModules {
  import opened Common
  import opened ModuleScan

  /** What the walk reads from one file: resolved `include!` targets and the
      module-shape events. */
  datatype Source = Source(includes: seq<Path>, events: seq<Event>)

  /** The existing files and the set of cargo target roots. */
  datatype World = World(files: map<Path, Source>, roots: set<Path>)

  // ── Resolution ─────────────────────────────────────────────────────────────

  function Parent(p: Path): Path {
    if p == [] then [] else p[..|p| - 1]
  }

  function FileName(p: Path): string {
    if p == [] then "" else p[|p| - 1]
  }

  function LastDot(name: string): (i: int)
    ensures -1 <= i < |name|
  {
    if name == [] then -1
    else if name[|name| - 1] == '.' then |name| - 1
    else LastDot(name[..|name| - 1])
  }

  function Stem(name: string): string {
    var i := LastDot(name);
    if 0 < i < |name| - 1 then name[..i] else name
  }

  /** Crate roots and `mod.rs` look for child modules beside themselves, any other
      `foo.rs` in `foo/`. */
  function Base(w: World, file: Path): Path {
    if file in w.roots || FileName(file) in {"lib.rs", "main.rs", "mod.rs"} then Parent(file)
    else Parent(file) + [Stem(FileName(file))]
  }

  function AsFile(base: Path, d: Decl): Path {
    base + d.path + [d.name + ".rs"]
  }

  function AsDir(base: Path, d: Decl): Path {
    base + d.path + [d.name, "mod.rs"]
  }

  function WithPath(explicit: map<string, Path>, e: Event): map<string, Path> {
    if e.FileModule? && e.attr.Some? then explicit[e.name := e.attr.value] else explicit
  }

  /** The `#[path]` targets of a file by module name: the last one of a name wins. */
  function Explicit(events: seq<Event>): map<string, Path> {
    if events == [] then map[] else WithPath(Explicit(events[..|events| - 1]), events[|events| - 1])
  }

  function ExplicitOf(w: World, file: Path): map<string, Path>
    requires file in w.files
  {
    Explicit(w.files[file].events)
  }

  /** Where a declaration without `#[path]` leads; `None` if there is no such file. */
  function Beside(w: World, file: Path, d: Decl): Option<Path> {
    if AsFile(Base(w, file), d) in w.files then Some(AsFile(Base(w, file), d))
    else if AsDir(Base(w, file), d) in w.files then Some(AsDir(Base(w, file), d))
    else None
  }

  /** Where the walk goes for a declaration; `None` is a resolver gap.  A `#[path]` of
      that name is followed without asking whose it is or whether the file exists. */
  function Target(w: World, file: Path, d: Decl): Option<Path>
    requires file in w.files
  {
    if d.name in ExplicitOf(w, file) then Some(ExplicitOf(w, file)[d.name]) else Beside(w, file, d)
  }

  function DeclsOf(w: World, file: Path): seq<Decl>
    requires file in w.files
  {
    Decls(Start, w.files[file].events)
  }

  ghost predicate Leads(w: World, file: Path, ds: seq<Decl>, to: Path)
    requires file in w.files
  {
    exists i :: 0 <= i < |ds| && Target(w, file, ds[i]) == Some(to)
  }

  ghost predicate Followed(w: World, file: Path, ds: seq<Decl>, visited: set<Path>)
    requires file in w.files
  {
    forall h :: Leads(w, file, ds, h) && h in w.files ==> h in visited
  }

  /** One step of the walk between existing files. */
  ghost predicate Edge(w: World, file: Path, to: Path) {
    file in w.files && to in w.files && (to in w.files[file].includes || Leads(w, file, DeclsOf(w, file), to))
  }

  ghost predicate EdgeAt(w: World, p: seq<Path>, i: nat)
    requires i + 1 < |p|
  {
    Edge(w, p[i], p[i + 1])
  }

  ghost predicate IsWalk(w: World, p: seq<Path>) {
    p != [] && p[0] in w.files && forall i: nat :: i + 1 < |p| ==> EdgeAt(w, p, i)
  }

  ghost predicate Reachable(w: World, from: Path, to: Path) {
    exists p :: IsWalk(w, p) && p[0] == from && p[|p| - 1] == to
  }

  lemma ReachableSelf(w: World, file: Path)
    requires file in w.files
    ensures Reachable(w, file, file)
  {
    assert IsWalk(w, [file]);
  }

  lemma ReachableVia(w: World, file: Path, next: Path, to: Path)
    requires next in w.files ==> Edge(w, file, next)
    requires Reachable(w, next, to)
    ensures Reachable(w, file, to)
  {
    var p :| IsWalk(w, p) && p[0] == next && p[|p| - 1] == to;
    WalkExtends(w, file, p);
    var q := [file] + p;
    assert q[0] == file && q[|q| - 1] == to;
  }

  lemma WalkExtends(w: World, file: Path, p: seq<Path>)
    requires IsWalk(w, p) && Edge(w, file, p[0])
    ensures IsWalk(w, [file] + p)
  {
    var q := [file] + p;
    forall i: nat | i + 1 < |q| ensures EdgeAt(w, q, i) {
      assert q[i + 1] == p[i];
      if i > 0 {
        assert q[i] == p[i - 1] && EdgeAt(w, p, i - 1);
      }
    }
  }

  // ── Resolver gaps ──────────────────────────────────────────────────────────

  /** The names declared by `ds` that resolve to no file, in order. */
  function Missing(w: World, file: Path, ds: seq<Decl>): seq<string>
    requires file in w.files
  {
    if ds == [] then []
    else
      Missing(w, file, ds[..|ds| - 1]) +
      if Target(w, file, ds[|ds| - 1]).None? then [ds[|ds| - 1].name] else []
  }

  function MissingIn(w: World, file: Path): seq<string>
    requires file in w.files
  {
    Missing(w, file, DeclsOf(w, file))
  }

  datatype Gap = Gap(file: Path, name: string)

  /** The gaps recorded for one file, in order. */
  function GapsOf(gaps: seq<Gap>, file: Path): seq<string> {
    if gaps == [] then []
    else GapsOf(gaps[..|gaps| - 1], file) + if gaps[|gaps| - 1].file == file then [gaps[|gaps| - 1].name] else []
  }

  lemma GapsPush(gaps: seq<Gap>, g: Gap, file: Path)
    ensures GapsOf(gaps + [g], file) == GapsOf(gaps, file) + if g.file == file then [g.name] else []
  {
    assert (gaps + [g])[..|gaps|] == gaps;
  }

  lemma MissingPush(w: World, file: Path, ds: seq<Decl>, d: Decl)
    requires file in w.files
    ensures Missing(w, file, ds + [d]) == Missing(w, file, ds) + if Target(w, file, d).None? then [d.name] else []
  {
    assert (ds + [d])[..|ds|] == ds;
  }

  // ── What one visit adds ────────────────────────────────────────────────────

  datatype Progress = Progress(visited: set<Path>, gaps: seq<Gap>)

  /** From `p` to `q`: the newly visited files are reachable from `from`, every
      file they lead to is visited, and their gaps are recorded once. */
  ghost predicate Explored(w: World, from: Path, p: Progress, q: Progress) {
    && p.visited <= q.visited <= w.files.Keys
    && (forall g :: g in q.visited - p.visited ==> Reachable(w, from, g))
    && (forall g, h :: g in q.visited - p.visited && Edge(w, g, h) ==> h in q.visited)
    && (forall g {:trigger GapsOf(q.gaps, g)} ::
          GapsOf(q.gaps, g) == GapsOf(p.gaps, g) + if g in q.visited - p.visited then MissingIn(w, g) else [])
  }

  /** The same while `file` itself is being scanned: its first `ds` declarations
      are recorded, and every other new file is complete. */
  ghost predicate Underway(w: World, file: Path, ds: seq<Decl>, p: Progress, q: Progress) {
    && file in w.files
    && p.visited <= q.visited <= w.files.Keys && file in q.visited - p.visited
    && (forall g :: g in q.visited - p.visited ==> Reachable(w, file, g))
    && (forall g, h :: g in q.visited - p.visited && g != file && Edge(w, g, h) ==> h in q.visited)
    && (forall g {:trigger GapsOf(q.gaps, g)} :: g != file ==>
          GapsOf(q.gaps, g) == GapsOf(p.gaps, g) + if g in q.visited - p.visited then MissingIn(w, g) else [])
    && GapsOf(q.gaps, file) == GapsOf(p.gaps, file) + Missing(w, file, ds)
  }

  /** Visiting a file that the scanned one leads to keeps the scan on course. */
  lemma VisitChild(w: World, file: Path, child: Path, ds: seq<Decl>, p: Progress, q: Progress, r: Progress)
    requires Underway(w, file, ds, p, q) && Explored(w, child, q, r)
    requires child in w.files ==> Edge(w, file, child)
    ensures Underway(w, file, ds, p, r)
  {
    forall g | g in r.visited - p.visited ensures Reachable(w, file, g) {
      if g !in q.visited {
        assert Reachable(w, child, g);
        ReachableVia(w, file, child, g);
      }
    }
  }

  lemma ResolvedDecl(w: World, file: Path, ds: seq<Decl>, d: Decl, p: Progress, q: Progress)
    requires Underway(w, file, ds, p, q) && Target(w, file, d).Some?
    ensures Underway(w, file, ds + [d], p, q)
  {
    MissingPush(w, file, ds, d);
  }

  lemma MissingDecl(w: World, file: Path, ds: seq<Decl>, d: Decl, p: Progress, q: Progress)
    requires Underway(w, file, ds, p, q) && Target(w, file, d).None?
    ensures Underway(w, file, ds + [d], p, q.(gaps := q.gaps + [Gap(file, d.name)]))
  {
    var more := q.gaps + [Gap(file, d.name)];
    MissingPush(w, file, ds, d);
    forall g ensures GapsOf(more, g) == GapsOf(q.gaps, g) + if g == file then [d.name] else [] {
      GapsPush(q.gaps, Gap(file, d.name), g);
    }
    Regroup(GapsOf(p.gaps, file), Missing(w, file, ds), [d.name]);
  }

  lemma RecordGap(w: World, file: Path, ds: seq<Decl>, d: Decl, p: Progress, q: Progress)
    requires Underway(w, file, ds, p, q)
    ensures Target(w, file, d).None? ==> Underway(w, file, ds + [d], p, q.(gaps := q.gaps + [Gap(file, d.name)]))
    ensures Target(w, file, d).Some? ==> Underway(w, file, ds + [d], p, q)
  {
    if Target(w, file, d).None? {
      MissingDecl(w, file, ds, d, p, q);
    } else {
      ResolvedDecl(w, file, ds, d, p, q);
    }
  }

  /** A scan whose every include and every target is visited is a complete visit. */
  lemma ScanComplete(w: World, file: Path, p: Progress, q: Progress)
    requires file in w.files && Underway(w, file, DeclsOf(w, file), p, q)
    requires forall h :: h in w.files[file].includes && h in w.files ==> h in q.visited
    requires Followed(w, file, DeclsOf(w, file), q.visited)
    ensures Explored(w, file, p, q)
  {
  }

  /** A visited set closed under the walk holds everything reachable from it. */
  lemma {:induction false} ClosedHoldsWalk(w: World, visited: set<Path>, p: seq<Path>, n: nat)
    requires forall g, h :: g in visited && Edge(w, g, h) ==> h in visited
    requires IsWalk(w, p) && p[0] in visited && n < |p|
    ensures p[n] in visited
  {
    if n > 0 {
      ClosedHoldsWalk(w, visited, p, n - 1);
      assert EdgeAt(w, p, n - 1);
    }
  }

  // ── One file's declarations ────────────────────────────────────────────────

  lemma FollowedPush(w: World, file: Path, ds: seq<Decl>, d: Decl, before: set<Path>, after: set<Path>)
    requires file in w.files && Followed(w, file, ds, before) && before <= after
    requires forall h :: Target(w, file, d) == Some(h) && h in w.files ==> h in after
    ensures Followed(w, file, ds + [d], after)
  {
    forall h | Leads(w, file, ds + [d], h) && h in w.files ensures h in after {
      var i :| 0 <= i < |ds + [d]| && Target(w, file, (ds + [d])[i]) == Some(h);
      if i < |ds| {
        assert Target(w, file, ds[i]) == Some(h);
        assert Leads(w, file, ds, h);
      }
    }
  }

  /** The target of a declaration met in the scan is an edge of the walk. */
  lemma TargetIsEdge(w: World, file: Path, i: nat, d: Decl)
    requires file in w.files && i < |w.files[file].events|
    requires Found(Run(Start, w.files[file].events[..i]), w.files[file].events[i]) == [d]
    ensures forall h :: Target(w, file, d) == Some(h) && h in w.files ==> Edge(w, file, h)
  {
    var events := w.files[file].events;
    RunSnoc(Start, events, i);
    RunConcat(Start, events[..i + 1], events[i + 1..]);
    assert events[..i + 1] + events[i + 1..] == events;
    assert DeclsOf(w, file)[|Decls(Start, events[..i])|] == d;
  }

  // ── From all roots ─────────────────────────────────────────────────────────

  ghost predicate ReachableFromSome(w: World, roots: seq<Path>, g: Path) {
    exists i :: 0 <= i < |roots| && Reachable(w, roots[i], g)
  }

  ghost predicate IsMissing(w: World, g: Path, name: string) {
    g in w.files && name in MissingIn(w, g)
  }

  /** An allowlist entry names a file that is not tracked. */
  ghost predicate Stale(tracked: set<Path>, allowedPaths: set<Path>, allowedDecls: set<Gap>) {
    (exists p :: p in allowedPaths && p !in tracked) || exists d :: d in allowedDecls && d.file !in tracked
  }

  /** The visited set is reached from the roots, holds them and is closed under the walk. */
  ghost predicate Covered(w: World, roots: seq<Path>, visited: set<Path>) {
    && visited <= w.files.Keys
    && (forall i :: 0 <= i < |roots| && roots[i] in w.files ==> roots[i] in visited)
    && (forall g {:trigger ReachableFromSome(w, roots, g)} :: g in visited ==> ReachableFromSome(w, roots, g))
    && (forall g, h :: g in visited && Edge(w, g, h) ==> h in visited)
  }

  ghost predicate Recorded(w: World, p: Progress) {
    && p.visited <= w.files.Keys
    && (forall g {:trigger GapsOf(p.gaps, g)} :: GapsOf(p.gaps, g) == if g in p.visited then MissingIn(w, g) else [])
  }

  lemma OneMoreRoot(w: World, roots: seq<Path>, root: Path, p: Progress, q: Progress)
    requires Covered(w, roots, p.visited) && Explored(w, root, p, q)
    requires root in w.files ==> root in q.visited
    ensures Covered(w, roots + [root], q.visited)
  {
    var all := roots + [root];
    forall g | g in q.visited ensures ReachableFromSome(w, all, g) {
      if g in p.visited {
        assert ReachableFromSome(w, roots, g);
        var i :| 0 <= i < |roots| && Reachable(w, roots[i], g);
        assert all[i] == roots[i];
      } else {
        assert all[|roots|] == root;
      }
    }
  }

  lemma CoveredIsExact(w: World, roots: seq<Path>, visited: set<Path>)
    requires Covered(w, roots, visited)
    ensures forall g :: g in visited <==> ReachableFromSome(w, roots, g)
  {
    forall g | ReachableFromSome(w, roots, g) ensures g in visited {
      var i :| 0 <= i < |roots| && Reachable(w, roots[i], g);
      var walk :| IsWalk(w, walk) && walk[0] == roots[i] && walk[|walk| - 1] == g;
      ClosedHoldsWalk(w, visited, walk, |walk| - 1);
    }
  }

  lemma RecordedGrows(w: World, root: Path, p: Progress, q: Progress)
    requires Recorded(w, p) && Explored(w, root, p, q)
    ensures Recorded(w, q)
  {
  }

  lemma {:induction false} GapRecorded(gaps: seq<Gap>, file: Path, name: string)
    ensures Gap(file, name) in gaps <==> name in GapsOf(gaps, file)
  {
    if gaps != [] {
      var front := gaps[..|gaps| - 1];
      GapRecorded(front, file, name);
      assert gaps == front + [gaps[|gaps| - 1]];
    }
  }

  /** Some reachable file declares a module that resolves nowhere and is not allowed. */
  ghost predicate UnallowedGap(w: World, roots: seq<Path>, allowedDecls: set<Gap>) {
    exists g, name :: ReachableFromSome(w, roots, g) && IsMissing(w, g, name) && Gap(g, name) !in allowedDecls
  }

  lemma UnallowedGapRecorded(w: World, roots: seq<Path>, p: Progress, allowedDecls: set<Gap>)
    requires Recorded(w, p)
    requires forall g :: g in p.visited <==> ReachableFromSome(w, roots, g)
    ensures UnallowedGap(w, roots, allowedDecls) <==>
              exists g, name :: Gap(g, name) in p.gaps && Gap(g, name) !in allowedDecls
  {
    forall g, name ensures Gap(g, name) in p.gaps <==> ReachableFromSome(w, roots, g) && IsMissing(w, g, name) {
      GapRecorded(p.gaps, g, name);
    }
  }

  // ── What each declaration itself says ──────────────────────────────────────

  /** Where a declaration leads by its own `#[path]`, or beside its file without one. */
  function Own(w: World, file: Path, d: Decl): Option<Path> {
    if d.attr.Some? then d.attr else Beside(w, file, d)
  }

  /** Every declaration of the file is followed to where it itself leads. */
  ghost predicate Agrees(w: World, file: Path)
    requires file in w.files
  {
    forall i :: 0 <= i < |DeclsOf(w, file)| ==>
      Target(w, file, DeclsOf(w, file)[i]) == Own(w, file, DeclsOf(w, file)[i])
  }

  /** All declarations of a name lead to the file of each `#[path]` on that name. */
  ghost predicate Uniform(w: World, file: Path)
    requires file in w.files
  {
    var ds := DeclsOf(w, file);
    forall i, j :: 0 <= i < |ds| && 0 <= j < |ds| && ds[i].attr.Some? && ds[i].name == ds[j].name ==>
      Own(w, file, ds[j]) == ds[i].attr
  }

  /** The names with a `#[path]`, each with the file of some declaration of it. */
  ghost predicate IsDeclared(explicit: map<string, Path>, ds: seq<Decl>) {
    && (forall i :: 0 <= i < |ds| && ds[i].attr.Some? ==> ds[i].name in explicit)
    && (forall name :: name in explicit ==>
          exists i :: 0 <= i < |ds| && ds[i].name == name && ds[i].attr == Some(explicit[name]))
  }

  lemma DeclaredPush(explicit: map<string, Path>, ds: seq<Decl>, s: Scan, e: Event)
    requires IsDeclared(explicit, ds)
    ensures IsDeclared(WithPath(explicit, e), ds + Found(s, e))
  {
    var after, longer := WithPath(explicit, e), ds + Found(s, e);
    forall name | name in after
      ensures exists i :: 0 <= i < |longer| && longer[i].name == name && longer[i].attr == Some(after[name]) {
      if name in explicit && after[name] == explicit[name] {
        var i :| 0 <= i < |ds| && ds[i].name == name && ds[i].attr == Some(explicit[name]);
        assert longer[i] == ds[i];
      } else {
        assert longer[|ds|].name == name;
      }
    }
  }

  lemma {:induction false} ExplicitHolds(events: seq<Event>, n: nat)
    requires n <= |events|
    ensures IsDeclared(Explicit(events[..n]), Decls(Start, events[..n]))
  {
    if n > 0 {
      ExplicitHolds(events, n - 1);
      RunSnoc(Start, events, n - 1);
      assert events[..n][..n - 1] == events[..n - 1];
      var front := events[..n - 1];
      DeclaredPush(Explicit(front), Decls(Start, front), Run(Start, front), events[n - 1]);
    }
  }

  lemma ExplicitIsDeclared(w: World, file: Path)
    requires file in w.files
    ensures IsDeclared(ExplicitOf(w, file), DeclsOf(w, file))
  {
    var events := w.files[file].events;
    assert events[..|events|] == events;
    ExplicitHolds(events, |events|);
  }

  /** The walk follows every declaration of a file to where it itself leads if and only
      if no name is given a `#[path]` that another declaration of it does not lead to. */
  lemma AgreesIffUniform(w: World, file: Path)
    requires file in w.files
    ensures Agrees(w, file) <==> Uniform(w, file)
  {
    ExplicitIsDeclared(w, file);
    var explicit, ds := ExplicitOf(w, file), DeclsOf(w, file);
    if Uniform(w, file) {
      forall j | 0 <= j < |ds| ensures Target(w, file, ds[j]) == Own(w, file, ds[j]) {
        if ds[j].name in explicit {
          var i :| 0 <= i < |ds| && ds[i].name == ds[j].name && ds[i].attr == Some(explicit[ds[j].name]);
        }
      }
    }
    if Agrees(w, file) {
      forall i, j | 0 <= i < |ds| && 0 <= j < |ds| && ds[i].attr.Some? && ds[i].name == ds[j].name
        ensures Own(w, file, ds[j]) == ds[i].attr {
        assert Target(w, file, ds[i]) == Own(w, file, ds[i]) && Target(w, file, ds[j]) == Own(w, file, ds[j]);
      }
    }
  }

  // ── What the declarations reach ────────────────────────────────────────────

  /** One step along a declaration as it stands, between existing files. */
  ghost predicate OwnEdge(w: World, file: Path, to: Path) {
    && file in w.files && to in w.files
    && (to in w.files[file].includes ||
        exists i :: 0 <= i < |DeclsOf(w, file)| && Own(w, file, DeclsOf(w, file)[i]) == Some(to))
  }

  ghost predicate OwnEdgeAt(w: World, p: seq<Path>, i: nat)
    requires i + 1 < |p|
  {
    OwnEdge(w, p[i], p[i + 1])
  }

  ghost predicate IsChain(w: World, p: seq<Path>) {
    p != [] && p[0] in w.files && forall i: nat :: i + 1 < |p| ==> OwnEdgeAt(w, p, i)
  }

  /** Some chain of declarations and includes leads from a root to the file. */
  ghost predicate Declared(w: World, roots: seq<Path>, g: Path) {
    exists p :: IsChain(w, p) && p[0] in roots && p[|p| - 1] == g
  }

  lemma SameEdges(w: World, file: Path)
    requires file in w.files && Uniform(w, file)
    ensures forall to :: Edge(w, file, to) <==> OwnEdge(w, file, to)
  {
    AgreesIffUniform(w, file);
    var ds := DeclsOf(w, file);
    forall to | Leads(w, file, ds, to)
      ensures exists i :: 0 <= i < |ds| && Own(w, file, ds[i]) == Some(to) {
      var i :| 0 <= i < |ds| && Target(w, file, ds[i]) == Some(to);
      assert Own(w, file, ds[i]) == Some(to);
    }
    forall to | exists i :: 0 <= i < |ds| && Own(w, file, ds[i]) == Some(to)
      ensures Leads(w, file, ds, to) {
      var i :| 0 <= i < |ds| && Own(w, file, ds[i]) == Some(to);
      assert Target(w, file, ds[i]) == Some(to);
    }
  }

  /** Every file that the walk reaches is uniform. */
  ghost predicate AllUniform(w: World, roots: seq<Path>) {
    forall g :: g in w.files && ReachableFromSome(w, roots, g) ==> Uniform(w, g)
  }

  lemma ReachedFromRoot(w: World, roots: seq<Path>, file: Path)
    requires file in roots && file in w.files
    ensures ReachableFromSome(w, roots, file) && Declared(w, roots, file)
  {
    var i :| 0 <= i < |roots| && roots[i] == file;
    ReachableSelf(w, file);
    assert IsChain(w, [file]);
  }

  lemma WalkGoesOn(w: World, p: seq<Path>, h: Path)
    requires IsWalk(w, p) && Edge(w, p[|p| - 1], h)
    ensures IsWalk(w, p + [h])
  {
    var q := p + [h];
    forall j: nat | j + 1 < |q| ensures EdgeAt(w, q, j) {
      if j + 1 < |p| {
        assert EdgeAt(w, p, j);
      }
    }
  }

  lemma ReachesNext(w: World, roots: seq<Path>, g: Path, h: Path)
    requires ReachableFromSome(w, roots, g) && Edge(w, g, h)
    ensures ReachableFromSome(w, roots, h)
  {
    var i :| 0 <= i < |roots| && Reachable(w, roots[i], g);
    var p :| IsWalk(w, p) && p[0] == roots[i] && p[|p| - 1] == g;
    WalkGoesOn(w, p, h);
    assert (p + [h])[0] == roots[i] && (p + [h])[|p|] == h;
    assert Reachable(w, roots[i], h);
  }

  lemma ChainGoesOn(w: World, p: seq<Path>, h: Path)
    requires IsChain(w, p) && OwnEdge(w, p[|p| - 1], h)
    ensures IsChain(w, p + [h])
  {
    var q := p + [h];
    forall j: nat | j + 1 < |q| ensures OwnEdgeAt(w, q, j) {
      if j + 1 < |p| {
        assert OwnEdgeAt(w, p, j);
      }
    }
  }

  lemma DeclaresNext(w: World, roots: seq<Path>, g: Path, h: Path)
    requires Declared(w, roots, g) && OwnEdge(w, g, h)
    ensures Declared(w, roots, h)
  {
    var p :| IsChain(w, p) && p[0] in roots && p[|p| - 1] == g;
    ChainGoesOn(w, p, h);
    assert (p + [h])[0] == p[0] && (p + [h])[|p|] == h;
  }

  /** No declaration that the walk passes leads to an existing file that it misses. */
  ghost predicate NoneSkipped(w: World, roots: seq<Path>) {
    forall g, h ::
      ReachableFromSome(w, roots, g) && Declared(w, roots, g) && OwnEdge(w, g, h) ==> ReachableFromSome(w, roots, h)
  }

  lemma {:induction false} ChainIsWalked(w: World, roots: seq<Path>, p: seq<Path>, n: nat)
    requires NoneSkipped(w, roots) && IsChain(w, p) && p[0] in roots && n < |p|
    ensures ReachableFromSome(w, roots, p[n]) && Declared(w, roots, p[n])
  {
    if n == 0 {
      ReachedFromRoot(w, roots, p[0]);
    } else {
      ChainIsWalked(w, roots, p, n - 1);
      assert OwnEdgeAt(w, p, n - 1);
      DeclaresNext(w, roots, p[n - 1], p[n]);
    }
  }

  lemma DeclaredIsReached(w: World, roots: seq<Path>, g: Path)
    requires NoneSkipped(w, roots) && Declared(w, roots, g)
    ensures ReachableFromSome(w, roots, g)
  {
    var p :| IsChain(w, p) && p[0] in roots && p[|p| - 1] == g;
    ChainIsWalked(w, roots, p, |p| - 1);
  }

  /** The walk visits everything that the declarations reach if and only if none of
      those it passes leads to an existing file that no walk visits. */
  lemma DeclaredAreVisited(w: World, roots: seq<Path>)
    ensures (forall g :: Declared(w, roots, g) ==> ReachableFromSome(w, roots, g)) <==> NoneSkipped(w, roots)
  {
    if NoneSkipped(w, roots) {
      forall g | Declared(w, roots, g) ensures ReachableFromSome(w, roots, g) {
        DeclaredIsReached(w, roots, g);
      }
    }
    if forall g :: Declared(w, roots, g) ==> ReachableFromSome(w, roots, g) {
      forall g, h | ReachableFromSome(w, roots, g) && Declared(w, roots, g) && OwnEdge(w, g, h)
        ensures ReachableFromSome(w, roots, h) {
        DeclaresNext(w, roots, g, h);
      }
    }
  }

  lemma UniformSkipsNone(w: World, roots: seq<Path>)
    requires AllUniform(w, roots)
    ensures NoneSkipped(w, roots)
  {
    forall g, h | ReachableFromSome(w, roots, g) && Declared(w, roots, g) && OwnEdge(w, g, h)
      ensures ReachableFromSome(w, roots, h) {
      SameEdges(w, g);
      ReachesNext(w, roots, g, h);
    }
  }

  /** No step of the walk leads from a declared file to one that no declaration reaches. */
  ghost predicate NoneStray(w: World, roots: seq<Path>) {
    forall g, h :: ReachableFromSome(w, roots, g) && Declared(w, roots, g) && Edge(w, g, h) ==> Declared(w, roots, h)
  }

  ghost function ReachedAndDeclared(w: World, roots: seq<Path>): set<Path> {
    set g | g in w.files && ReachableFromSome(w, roots, g) && Declared(w, roots, g)
  }

  lemma WalkStaysDeclared(w: World, roots: seq<Path>)
    requires NoneStray(w, roots)
    ensures forall g, h :: g in ReachedAndDeclared(w, roots) && Edge(w, g, h) ==> h in ReachedAndDeclared(w, roots)
  {
    forall g, h | g in ReachedAndDeclared(w, roots) && Edge(w, g, h) ensures h in ReachedAndDeclared(w, roots) {
      ReachesNext(w, roots, g, h);
    }
  }

  lemma RootIsIn(w: World, roots: seq<Path>, root: Path)
    requires root in roots && root in w.files
    ensures root in ReachedAndDeclared(w, roots)
  {
    ReachedFromRoot(w, roots, root);
  }

  lemma ReachedIsDeclared(w: World, roots: seq<Path>, g: Path)
    requires NoneStray(w, roots) && ReachableFromSome(w, roots, g)
    ensures Declared(w, roots, g)
  {
    var i :| 0 <= i < |roots| && Reachable(w, roots[i], g);
    var p :| IsWalk(w, p) && p[0] == roots[i] && p[|p| - 1] == g;
    WalkStaysDeclared(w, roots);
    RootIsIn(w, roots, roots[i]);
    ClosedHoldsWalk(w, ReachedAndDeclared(w, roots), p, |p| - 1);
  }

  /** Everything the walk visits is declared if and only if no step of it strays. */
  lemma VisitedAreDeclared(w: World, roots: seq<Path>)
    ensures (forall g :: ReachableFromSome(w, roots, g) ==> Declared(w, roots, g)) <==> NoneStray(w, roots)
  {
    if NoneStray(w, roots) {
      forall g | ReachableFromSome(w, roots, g) ensures Declared(w, roots, g) {
        ReachedIsDeclared(w, roots, g);
      }
    }
    if forall g :: ReachableFromSome(w, roots, g) ==> Declared(w, roots, g) {
      forall g, h | ReachableFromSome(w, roots, g) && Declared(w, roots, g) && Edge(w, g, h)
        ensures Declared(w, roots, h) {
        ReachesNext(w, roots, g, h);
      }
    }
  }

  lemma UniformStraysNone(w: World, roots: seq<Path>)
    requires AllUniform(w, roots)
    ensures NoneStray(w, roots)
  {
    forall g, h | ReachableFromSome(w, roots, g) && Declared(w, roots, g) && Edge(w, g, h)
      ensures Declared(w, roots, h) {
      SameEdges(w, g);
      DeclaresNext(w, roots, g, h);
    }
  }

  /** If every file the walk reaches is uniform, it reaches exactly the files that the
      declarations themselves reach from the roots. */
  lemma VisitedIsDeclared(w: World, roots: seq<Path>)
    requires AllUniform(w, roots)
    ensures forall g :: ReachableFromSome(w, roots, g) <==> Declared(w, roots, g)
  {
    UniformSkipsNone(w, roots);
    UniformStraysNone(w, roots);
    DeclaredAreVisited(w, roots);
    VisitedAreDeclared(w, roots);
  }

  // ── Which dead declarations are recorded ───────────────────────────────────

  /** The names in `ds` that have no `#[path]` of their own and no file, in order. */
  function Unfound(w: World, file: Path, ds: seq<Decl>): seq<string> {
    if ds == [] then []
    else
      var last := ds[|ds| - 1];
      Unfound(w, file, ds[..|ds| - 1]) + if last.attr.None? && Beside(w, file, last).None? then [last.name] else []
  }

  /** Such a declaration shares its name with a `#[path]` elsewhere in the file. */
  predicate Masked(w: World, file: Path, d: Decl)
    requires file in w.files
  {
    d.attr.None? && Beside(w, file, d).None? && d.name in ExplicitOf(w, file)
  }

  lemma {:induction false} MissingOfUnfound(w: World, file: Path, ds: seq<Decl>)
    requires file in w.files
    requires forall i :: 0 <= i < |ds| && ds[i].attr.Some? ==> ds[i].name in ExplicitOf(w, file)
    ensures |Missing(w, file, ds)| <= |Unfound(w, file, ds)|
    ensures Missing(w, file, ds) == Unfound(w, file, ds) <==> forall i :: 0 <= i < |ds| ==> !Masked(w, file, ds[i])
    ensures |Missing(w, file, ds)| == |Unfound(w, file, ds)| ==> Missing(w, file, ds) == Unfound(w, file, ds)
  {
    if ds != [] {
      var front, last := ds[..|ds| - 1], ds[|ds| - 1];
      MissingOfUnfound(w, file, front);
      assert ds == front + [last];
      assert (forall i :: 0 <= i < |ds| ==> !Masked(w, file, ds[i])) <==>
             (forall i :: 0 <= i < |front| ==> !Masked(w, file, front[i])) && !Masked(w, file, last) by {
        assert ds[|front|] == last && forall i :: 0 <= i < |front| ==> ds[i] == front[i];
      }
    }
  }

  /** The gaps recorded for a visited file are its dead declarations without `#[path]`,
      each once and in order, if and only if none of them shares its name with a
      `#[path]` elsewhere in the file. */
  lemma GapsAreTheUnfound(w: World, p: Progress, file: Path)
    requires Recorded(w, p) && file in p.visited
    ensures GapsOf(p.gaps, file) == Unfound(w, file, DeclsOf(w, file)) <==>
              forall i :: 0 <= i < |DeclsOf(w, file)| ==> !Masked(w, file, DeclsOf(w, file)[i])
  {
    ExplicitIsDeclared(w, file);
    MissingOfUnfound(w, file, DeclsOf(w, file));
  }

  lemma {:induction false} MissingHolds(w: World, file: Path, ds: seq<Decl>, name: string)
    requires file in w.files
    ensures name in Missing(w, file, ds) <==>
              exists i :: 0 <= i < |ds| && ds[i].name == name && Target(w, file, ds[i]).None?
  {
    if ds != [] {
      var front, last := ds[..|ds| - 1], ds[|ds| - 1];
      MissingHolds(w, file, front, name);
      assert ds == front + [last];
      if last.name == name && Target(w, file, last).None? {
        assert ds[|ds| - 1] == last;
      }
      forall i | 0 <= i < |front| ensures ds[i] == front[i] {
      }
    }
  }

  /** The declaration itself leads to no existing file. */
  ghost predicate Dead(w: World, file: Path, d: Decl) {
    forall h :: Own(w, file, d) == Some(h) ==> h !in w.files
  }

  /** A dead declaration in a visited file is reported if and only if no declaration of
      that name in the file, itself included, has a `#[path]`. */
  lemma DeadIsReportedUnlessExplicit(w: World, p: Progress, file: Path, k: nat)
    requires Recorded(w, p) && file in p.visited && k < |DeclsOf(w, file)| && Dead(w, file, DeclsOf(w, file)[k])
    ensures var ds := DeclsOf(w, file);
      Gap(file, ds[k].name) in p.gaps <==>
        forall i :: 0 <= i < |ds| && ds[i].name == ds[k].name ==> ds[i].attr.None?
  {
    var ds := DeclsOf(w, file);
    GapRecorded(p.gaps, file, ds[k].name);
    MissingHolds(w, file, ds, ds[k].name);
    ExplicitIsDeclared(w, file);
  }

  // ── Where child modules lie, by written paths ──────────────────────────────

  ghost predicate Extends(name: string, stem: string, ext: string) {
    name == stem + "." + ext && stem != "" && ext != "" && '.' !in ext
  }

  /** A file name without its extension, if it has one. */
  ghost predicate IsStem(name: string, stem: string) {
    (exists ext :: Extends(name, stem, ext)) || (stem == name && forall t, ext :: !Extends(name, t, ext))
  }

  lemma {:induction false} LastDotIs(stem: string, ext: string)
    requires '.' !in ext
    ensures LastDot(stem + "." + ext) == |stem|
  {
    var name := stem + "." + ext;
    if ext == "" {
      assert name[|stem|] == '.';
    } else {
      assert name[|name| - 1] == ext[|ext| - 1];
      assert name[..|name| - 1] == stem + "." + ext[..|ext| - 1];
      LastDotIs(stem, ext[..|ext| - 1]);
    }
  }

  lemma {:induction false} LastDotSplits(name: string)
    ensures var i := LastDot(name);
      i >= 0 ==> name == name[..i] + "." + name[i + 1..] && '.' !in name[i + 1..]
  {
    if name != [] && name[|name| - 1] != '.' {
      var front := name[..|name| - 1];
      LastDotSplits(front);
      var i := LastDot(front);
      if i >= 0 {
        assert name[..i] == front[..i] && name[i + 1..] == front[i + 1..] + [name[|name| - 1]];
      }
    }
  }

  lemma StemIsExact(name: string, stem: string)
    ensures Stem(name) == stem <==> IsStem(name, stem)
  {
    forall t, ext | Extends(name, t, ext) ensures Stem(name) == t {
      LastDotIs(t, ext);
      assert name[..|t|] == t;
    }
    LastDotSplits(name);
    var i := LastDot(name);
    if 0 < i < |name| - 1 {
      assert Extends(name, name[..i], name[i + 1..]);
    }
  }

  /** Whether a file looks for its child modules in its own directory. */
  predicate BesideItself(w: World, file: Path) {
    file in w.roots || (file != [] && file[|file| - 1] in {"lib.rs", "main.rs", "mod.rs"})
  }

  /** `dir` is where the child modules of a file lie: its own directory for a crate root
      or one of the three names, else the directory named like the file without its
      extension. */
  ghost predicate LooksIn(w: World, file: Path, dir: Path) {
    if BesideItself(w, file) then exists name :: file == dir + [name]
    else exists parent, stem, name :: file == parent + [name] && dir == parent + [stem] && IsStem(name, stem)
  }

  /** Every file has exactly one such directory. */
  lemma BaseIsExact(w: World, file: Path, dir: Path)
    requires file != []
    ensures LooksIn(w, file, dir) <==> Base(w, file) == dir
  {
    var parent, name := file[..|file| - 1], file[|file| - 1];
    assert file == parent + [name];
    forall p, n | file == p + [n] ensures p == parent && n == name {
      assert file[..|p|] == p;
    }
    StemIsExact(name, Stem(name));
    if dir != [] {
      StemIsExact(name, dir[|dir| - 1]);
    }
  }

  /** In particular `dir/stem.rs` keeps them in `dir/stem` unless it is a root or has one of
      the three names. */
  lemma PlainFileLooksIn(w: World, dir: Path, stem: string)
    requires stem != "" && stem !in {"lib", "main", "mod"} && dir + [stem + ".rs"] !in w.roots
    ensures LooksIn(w, dir + [stem + ".rs"], dir + [stem])
  {
    var name := stem + ".rs";
    assert name == stem + "." + "rs" && Extends(name, stem, "rs") && IsStem(name, stem);
    assert name[..|stem|] == stem && "lib.rs"[..3] == "lib" && "main.rs"[..4] == "main" && "mod.rs"[..3] == "mod";
  }

  /** Where a declaration without `#[path]` in inline modules `ns` leads, as the paths are
      written. */
  ghost predicate Resolves(w: World, dir: Path, ns: seq<string>, name: string, target: Option<Path>) {
    var asFile, asDir := dir + ns + [name + ".rs"], dir + ns + [name, "mod.rs"];
    && (asFile in w.files ==> target == Some(asFile))
    && (asFile !in w.files && asDir in w.files ==> target == Some(asDir))
    && (asFile !in w.files && asDir !in w.files ==> target == None)
  }

  /** `src/foo.rs` has its modules in `src/foo`, a root and `mod.rs` beside them: for every
      file, wherever its modules lie, a declaration without `#[path]` leads to `name.rs`
      there under its inline modules, else to `name/mod.rs`, else nowhere. */
  lemma BesideIsExact(w: World, file: Path, dir: Path, d: Decl)
    requires file != [] && LooksIn(w, file, dir)
    ensures Resolves(w, dir, d.path, d.name, Beside(w, file, d))
  {
    BaseIsExact(w, file, dir);
  }

  /** Of what the walk visits and records: a declaration of a visited file whose name has no
      `#[path]` in it has its written target visited, or is recorded. */
  lemma DeclarationIsFollowed(w: World, roots: seq<Path>, p: Progress, file: Path, dir: Path, k: nat)
    requires Covered(w, roots, p.visited) && Recorded(w, p) && file in p.visited
    requires file != [] && LooksIn(w, file, dir)
    requires k < |DeclsOf(w, file)|
    requires forall i :: 0 <= i < |DeclsOf(w, file)| && DeclsOf(w, file)[i].name == DeclsOf(w, file)[k].name ==>
               DeclsOf(w, file)[i].attr.None?
    ensures var d := DeclsOf(w, file)[k];
      var asFile, asDir := dir + d.path + [d.name + ".rs"], dir + d.path + [d.name, "mod.rs"];
      && (asFile in w.files ==> asFile in p.visited)
      && (asFile !in w.files && asDir in w.files ==> asDir in p.visited)
      && (asFile !in w.files && asDir !in w.files ==> Gap(file, d.name) in p.gaps)
  {
    var ds := DeclsOf(w, file);
    var d := ds[k];
    ExplicitIsDeclared(w, file);
    BesideIsExact(w, file, dir, d);
    assert Target(w, file, d) == Beside(w, file, d);
    if Target(w, file, d).Some? {
      assert Leads(w, file, ds, Target(w, file, d).value);
      assert Edge(w, file, Target(w, file, d).value);
    } else {
      MissingHolds(w, file, ds, d.name);
      GapRecorded(p.gaps, file, d.name);
    }
  }

  // ── The walk ───────────────────────────────────────────────────────────────

  class Walker {
    const world: World
    var visited: set<Path>
    var gaps: seq<Gap>

    constructor (w: World)
      ensures world == w && visited == {} && gaps == []
    {
      world, visited, gaps := w, {}, [];
    }

    ghost function Now(): Progress
      reads this
    {
      Progress(visited, gaps)
    }

    /** Terminates on cyclic graphs: every entered file is marked first. */
    method Visit(file: Path)
      requires visited <= world.files.Keys
      modifies this
      ensures Explored(world, file, old(Now()), Now())
      ensures file in world.files ==> file in visited
      decreases world.files.Keys - visited, 2
    {
      if file in visited || file !in world.files {
        return;
      }
      ghost var start := Now();
      visited := visited + {file};
      ReachableSelf(world, file);
      assert Underway(world, file, [], start, Now());
      VisitIncludes(file, start);
      ScanModules(file, start);
      ScanComplete(world, file, start, Now());
    }

    method VisitIncludes(file: Path, ghost start: Progress)
      requires Underway(world, file, [], start, Now())
      modifies this
      ensures Underway(world, file, [], start, Now())
      ensures forall h :: h in world.files[file].includes && h in world.files ==> h in visited
      ensures old(visited) <= visited
      decreases world.files.Keys - visited, 4
    {
      var includes := world.files[file].includes;
      for i := 0 to |includes|
        invariant old(visited) <= visited
        invariant Underway(world, file, [], start, Now())
        invariant forall h :: h in includes[..i] && h in world.files ==> h in visited
      {
        Follow(file, includes[i], [], start);
        assert includes[..i + 1] == includes[..i] + [includes[i]];
      }
      assert includes[..|includes|] == includes;
    }

    /** Visit a file that the scanned one leads to. */
    method Follow(file: Path, to: Path, ghost seen: seq<Decl>, ghost start: Progress)
      requires Underway(world, file, seen, start, Now())
      requires to in world.files ==> Edge(world, file, to)
      modifies this
      ensures Underway(world, file, seen, start, Now())
      ensures old(visited) <= visited
      ensures to in world.files ==> to in visited
      decreases world.files.Keys - visited, 3
    {
      ghost var before := Now();
      Visit(to);
      VisitChild(world, file, to, seen, start, before, Now());
    }

    /** Brace tracking: depth, and the stack of open inline modules. */
    static method Track(depth0: int, stack0: seq<Frame>, e: Event) returns (depth: int, stack: seq<Frame>)
      ensures Scan(depth, stack) == Advance(Scan(depth0, stack0), e)
    {
      depth, stack := depth0, stack0;
      match e {
        case Open =>
          depth := depth + 1;
        case Close =>
          depth := depth - 1;
          if stack != [] && stack[|stack| - 1].depth == depth {
            stack := stack[..|stack| - 1];
          }
        case InlineOpen(name) =>
          stack := stack + [Frame(depth, name)];
          depth := depth + 1;
        case FileModule(_, _) =>
      }
    }

    /** Scan the events with the running depth and stack, resolving every file
        module where it is met. */
    method ScanModules(file: Path, ghost start: Progress)
      requires Underway(world, file, [], start, Now())
      modifies this
      ensures Underway(world, file, DeclsOf(world, file), start, Now())
      ensures Followed(world, file, DeclsOf(world, file), visited)
      ensures old(visited) <= visited
      decreases world.files.Keys - visited, 5
    {
      var events := world.files[file].events;
      var explicit := Explicit(events);
      var depth, stack := 0, [];
      for i := 0 to |events|
        invariant old(visited) <= visited
        invariant Scan(depth, stack) == Run(Start, events[..i])
        invariant Underway(world, file, Decls(Start, events[..i]), start, Now())
        invariant Followed(world, file, Decls(Start, events[..i]), visited)
      {
        RunSnoc(Start, events, i);
        ghost var seen := Decls(Start, events[..i]);
        if events[i].FileModule? {
          var d := Decl(Names(stack), events[i].name, events[i].attr);
          assert Decls(Start, events[..i + 1]) == seen + [d];
          TargetIsEdge(world, file, i, d);
          ghost var before := visited;
          ResolveModule(file, d, explicit, seen, start);
          FollowedPush(world, file, seen, d, before, visited);
        } else {
          assert Decls(Start, events[..i + 1]) == seen;
        }
        depth, stack := Track(depth, stack, events[i]);
      }
      assert events[..|events|] == events;
    }

    /** Follow one `mod name;`, or record that it leads nowhere. */
    method ResolveModule(
        file: Path, d: Decl, explicit: map<string, Path>, ghost seen: seq<Decl>, ghost start: Progress)
      requires Underway(world, file, seen, start, Now()) && explicit == ExplicitOf(world, file)
      requires forall h :: Target(world, file, d) == Some(h) && h in world.files ==> Edge(world, file, h)
      modifies this
      ensures Underway(world, file, seen + [d], start, Now())
      ensures forall h :: Target(world, file, d) == Some(h) && h in world.files ==> h in visited
      ensures old(visited) <= visited
      decreases world.files.Keys - visited, 4
    {
      RecordGap(world, file, seen, d, start, Now());
      if d.name in explicit {
        Follow(file, explicit[d.name], seen + [d], start);
        return;
      }
      var asFile, asDir := AsFile(Base(world, file), d), AsDir(Base(world, file), d);
      if asFile in world.files {
        Follow(file, asFile, seen + [d], start);
      } else if asDir in world.files {
        Follow(file, asDir, seen + [d], start);
      } else {
        gaps := gaps + [Gap(file, d.name)];
      }
    }

    /** Visit every root; afterwards the visited set is exactly what the roots
        reach, and the recorded gaps are exactly those of the visited files. */
    method VisitAll(roots: seq<Path>)
      requires visited == {} && gaps == []
      modifies this
      ensures visited <= world.files.Keys
      ensures forall g :: g in visited <==> ReachableFromSome(world, roots, g)
      ensures Covered(world, roots, visited) && Recorded(world, Now())
    {
      for i := 0 to |roots|
        invariant Covered(world, roots[..i], visited)
        invariant Recorded(world, Now())
      {
        ghost var before := Now();
        Visit(roots[i]);
        OneMoreRoot(world, roots[..i], roots[i], before, Now());
        RecordedGrows(world, roots[i], before, Now());
        assert roots[..i + 1] == roots[..i] + [roots[i]];
      }
      assert roots[..|roots|] == roots;
      CoveredIsExact(world, roots, visited);
    }

    /** Whether some recorded gap is not on the allowlist. */
    method HasUnallowedGap(allowedDecls: set<Gap>) returns (bad: bool)
      ensures bad <==> exists g, name :: Gap(g, name) in gaps && Gap(g, name) !in allowedDecls
    {
      bad := false;
      for i := 0 to |gaps|
        invariant bad <==> exists j :: 0 <= j < i && gaps[j] !in allowedDecls
      {
        if gaps[i] !in allowedDecls {
          bad := true;
        }
      }
      if bad {
        ghost var j :| 0 <= j < |gaps| && gaps[j] !in allowedDecls;
        assert Gap(gaps[j].file, gaps[j].name) in gaps;
      }
    }

    static method HasStaleEntry(tracked: set<Path>, allowedPaths: set<Path>, allowedDecls: set<Gap>)
      returns (stale: bool)
      ensures stale <==> Stale(tracked, allowedPaths, allowedDecls)
    {
      var staleAllow := allowedPaths - tracked;
      var staleDecls := set d | d in allowedDecls && d.file !in tracked;
      stale := staleAllow != {} || staleDecls != {};
      if staleAllow != {} {
        ghost var p :| p in staleAllow;
        assert p in allowedPaths && p !in tracked;
      }
      if staleDecls != {} {
        ghost var d :| d in staleDecls;
        assert d in allowedDecls && d.file !in tracked;
      }
      assert forall p :: p in allowedPaths && p !in tracked ==> p in staleAllow;
      assert forall d :: d in allowedDecls && d.file !in tracked ==> d in staleDecls;
    }

    /** The gate's verdict: 2 for a stale allowlist entry or a resolver gap that is
        not allowed, 1 for an orphan that is not allowed, 0 otherwise. */
    method Judge(roots: seq<Path>, tracked: set<Path>, allowedPaths: set<Path>, allowedDecls: set<Gap>)
      returns (exit: int, orphans: set<Path>)
      requires visited == {} && gaps == []
      modifies this
      ensures exit in {0, 1, 2}
      ensures exit == 2 <==> Stale(tracked, allowedPaths, allowedDecls) || UnallowedGap(world, roots, allowedDecls)
      ensures exit == 1 ==> orphans != {}
      ensures exit == 0 ==> orphans == {}
      ensures !Stale(tracked, allowedPaths, allowedDecls) ==>
                forall p :: p in orphans <==> p in tracked && p !in allowedPaths && !ReachableFromSome(world, roots, p)
      ensures !Stale(tracked, allowedPaths, allowedDecls) && AllUniform(world, roots) ==>
                forall p :: p in orphans <==> p in tracked && p !in allowedPaths && !Declared(world, roots, p)
    {
      orphans := {};
      var stale := HasStaleEntry(tracked, allowedPaths, allowedDecls);
      if stale {
        return 2, orphans;
      }
      VisitAll(roots);
      orphans := set p | p in tracked - visited && p !in allowedPaths;
      var bad := HasUnallowedGap(allowedDecls);
      UnallowedGapRecorded(world, roots, Now(), allowedDecls);
      exit := if bad then 2 else if orphans != {} then 1 else 0;
      if AllUniform(world, roots) {
        VisitedIsDeclared(world, roots);
      }
    }
  }

  // ── Three sources that go wrong ────────────────────────────────────────────

  /** A crate root with these events, and the given other files without any. */
  function RootWith(root: Path, events: seq<Event>, others: set<Path>): World {
    World(map f | f in others + {root} :: Source([], if f == root then events else []), {root})
  }

  lemma TwoDecls(a: Event, b: Event)
    requires a.FileModule? && b.FileModule?
    ensures Decls(Start, [a, b]) == [Decl([], a.name, a.attr), Decl([], b.name, b.attr)]
  {
    assert [a, b][1..] == [b] && [b][1..] == [] && Names(Start.stack) == [];
    assert Decls(Start, [b]) == Found(Start, b) + Decls(Start, []);
  }

  /** `#[path = "gone.rs"] mod x;` in a crate root: no such file, and no report. */
  lemma MissingPathIsSilent(root: Path, gone: Path, p: Progress)
    requires root != gone
    requires Recorded(RootWith(root, [FileModule("x", Some(gone))], {}), p) && root in p.visited
    ensures var w := RootWith(root, [FileModule("x", Some(gone))], {});
      DeclsOf(w, root) == [Decl([], "x", Some(gone))] && Dead(w, root, DeclsOf(w, root)[0]) && Gap(root, "x") !in p.gaps
  {
    var events := [FileModule("x", Some(gone))];
    var w := RootWith(root, events, {});
    assert events[1..] == [] && Names(Start.stack) == [];
    assert Decls(Start, events) == Found(Start, events[0]) + [];
    assert DeclsOf(w, root) == [Decl([], "x", Some(gone))];
    DeadIsReportedUnlessExplicit(w, p, root, 0);
  }

  function PathThenInner(other: Path): seq<Event> {
    [FileModule("x", Some(other)), InlineOpen("inner"), FileModule("x", None), Close]
  }

  lemma DeclsCons(s: Scan, e: Event, rest: seq<Event>)
    ensures Decls(s, [e] + rest) == Found(s, e) + Decls(Advance(s, e), rest)
  {
    assert ([e] + rest)[1..] == rest;
  }

  lemma PathThenInnerDecls(other: Path)
    ensures Decls(Start, PathThenInner(other)) == [Decl([], "x", Some(other)), Decl(["inner"], "x", None)]
  {
    var first, open, second := FileModule("x", Some(other)), InlineOpen("inner"), FileModule("x", None);
    var inside := Advance(Start, open);
    assert inside.stack == [Frame(0, "inner")] && Names(inside.stack) == ["inner"] && Names(Start.stack) == [];
    assert Advance(Start, first) == Start && Advance(inside, second) == inside;
    DeclsCons(inside, Close, []);
    DeclsCons(inside, second, [Close] + []);
    DeclsCons(Start, open, [second] + ([Close] + []));
    DeclsCons(Start, first, [open] + ([second] + ([Close] + [])));
    assert PathThenInner(other) == [first] + ([open] + ([second] + ([Close] + [])));
  }

  /** `#[path = "p.rs"] mod x; mod inner { mod x; }`: the second declaration has no file
      and no `#[path]`, and is not reported. */
  lemma OtherPathIsTaken(root: Path, other: Path, p: Progress)
    requires root != other && FileName(other) != "x.rs" && FileName(other) != "mod.rs"
    requires Recorded(RootWith(root, PathThenInner(other), {other}), p) && root in p.visited
    ensures var w := RootWith(root, PathThenInner(other), {other});
      && DeclsOf(w, root) == [Decl([], "x", Some(other)), Decl(["inner"], "x", None)]
      && Dead(w, root, DeclsOf(w, root)[1]) && Gap(root, "x") !in p.gaps
  {
    var w := RootWith(root, PathThenInner(other), {other});
    PathThenInnerDecls(other);
    var d := DeclsOf(w, root)[1];
    assert FileName(AsFile(Base(w, root), d)) == "x.rs" && FileName(AsDir(Base(w, root), d)) == "mod.rs";
    assert |AsFile(Base(w, root), d)| > |root| && |AsDir(Base(w, root), d)| > |root|;
    DeadIsReportedUnlessExplicit(w, p, root, 1);
    assert DeclsOf(w, root)[0].attr.Some?;
  }

  /** `#[path = "unix.rs"] mod imp;` and `#[path = "win.rs"] mod imp;`, each behind its
      `cfg`: the first file is declared and never visited. */
  lemma LastPathWins(root: Path, unix: Path, win: Path)
    requires root != unix && unix != win
    ensures var events := [FileModule("imp", Some(unix)), FileModule("imp", Some(win))];
      var w := RootWith(root, events, {unix, win});
      Declared(w, [root], unix) && !ReachableFromSome(w, [root], unix)
  {
    var a, b := FileModule("imp", Some(unix)), FileModule("imp", Some(win));
    var w := RootWith(root, [a, b], {unix, win});
    TwoDecls(a, b);
    var ds := DeclsOf(w, root);
    assert Own(w, root, ds[0]) == Some(unix);
    assert OwnEdge(w, root, unix);
    var chain := [root, unix];
    assert OwnEdgeAt(w, chain, 0);
    assert IsChain(w, chain);
    assert [a, b][..1] == [a] && Explicit([a, b]) == Explicit([a])["imp" := win];
    var closed := {root, win};
    forall g, h | g in closed && Edge(w, g, h) ensures h in closed {
      if g != root {
        assert DeclsOf(w, g) == [];
      }
    }
    if ReachableFromSome(w, [root], unix) {
      var p :| IsWalk(w, p) && p[0] == root && p[|p| - 1] == unix;
      ClosedHoldsWalk(w, closed, p, |p| - 1);
      assert false;
    }
  }
}
