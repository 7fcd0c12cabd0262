/**
 The database-access policy's decision procedure for "can this `cfg` hold without
 `test`?": rewrite to negation normal form with `test` replaced by false, expand
 to a list of consistent requirement dictionaries, and ask whether any is left.
 */
module CfgPolicy {
  import opened Common
  import opened CfgSyntax

  // ── Termination of the rewriting ───────────────────────────────────────────

  /** De Morgan rewriting enlarges the tree but not this weight. */
  function Weight(e: Expr): (w: nat)
    ensures w >= 1
  {
    match e
    case Atom(_) => 1
    case Not(arg) => 2 * Weight(arg)
    case All(args) => 1 + Weights(args)
    case Any(args) => 1 + Weights(args)
    case Const(_) => 1
  }

  function Weights(es: seq<Expr>): nat {
    if es == [] then 0 else Weight(es[0]) + Weights(es[1..])
  }

  function Negated(es: seq<Expr>): (r: seq<Expr>)
    ensures |r| == |es| && forall i :: 0 <= i < |r| ==> r[i] == Not(es[i])
    ensures Weights(r) == 2 * Weights(es)
  {
    if es == [] then [] else [Not(es[0])] + Negated(es[1..])
  }

  /** Drop every occurrence of the constant `c`. */
  function Without(es: seq<Expr>, c: Expr): (r: seq<Expr>)
    requires c.Const?
    ensures Weights(r) <= Weights(es)
    ensures forall i :: 0 <= i < |r| ==> r[i] in es && r[i] != c
    ensures forall e :: e in es && e != c ==> e in r
  {
    if es == [] then []
    else if es[0] == c then Without(es[1..], c)
    else [es[0]] + Without(es[1..], c)
  }

  // ── The procedure ──────────────────────────────────────────────────────────

  /** Never applied to a constant, which the source could not iterate over. */
  function Simplify(e: Expr): (r: Expr)
    requires ConstFree(e)
    ensures r.Const? || ConstFree(r)
    ensures Weight(r) <= Weight(e)
    decreases Weight(e), 0
  {
    match e
    case Atom(name) => if name == TEST then Const(false) else e
    case Not(arg) =>
      (match Simplify(arg)
       case Const(value) => Const(!value)
       case Atom(name) => Not(Atom(name))
       case Not(inner) => Simplify(inner)
       case All(args) => Simplify(Any(Negated(args)))
       case Any(args) => Simplify(All(Negated(args))))
    case All(args) =>
      var children := SimplifyEach(args);
      if Const(false) in children then Const(false)
      else
        var kept := Without(children, Const(true));
        if kept == [] then Const(true) else All(kept)
    case Any(args) =>
      var children := SimplifyEach(args);
      if Const(true) in children then Const(true)
      else
        var kept := Without(children, Const(false));
        if kept == [] then Const(false) else Any(kept)
  }

  function SimplifyEach(es: seq<Expr>): (r: seq<Expr>)
    requires forall i :: 0 <= i < |es| ==> ConstFree(es[i])
    ensures |r| == |es|
    ensures forall i :: 0 <= i < |r| ==> r[i].Const? || ConstFree(r[i])
    ensures Weights(r) <= Weights(es)
    decreases Weights(es), 1
  {
    if es == [] then [] else [Simplify(es[0])] + SimplifyEach(es[1..])
  }

  type Requirement = map<string, bool>

  predicate Compatible(base: Requirement, req: Requirement) {
    forall a :: a in base && a in req ==> base[a] == req[a]
  }

  /** The requirements of `bases` joined with those of one base, conflicts left out. */
  function Cross1(base: Requirement, reqs: seq<Requirement>): seq<Requirement> {
    if reqs == [] then []
    else (if Compatible(base, reqs[0]) then [base + reqs[0]] else []) + Cross1(base, reqs[1..])
  }

  function Cross(bases: seq<Requirement>, reqs: seq<Requirement>): seq<Requirement> {
    if bases == [] then [] else Cross1(bases[0], reqs) + Cross(bases[1..], reqs)
  }

  /** `None` is the exception raised on a negation that is not of an atom. */
  function Gather(e: Expr): Option<seq<Requirement>>
    decreases e, 0
  {
    match e
    case Const(value) => Some(if value then [map[]] else [])
    case Atom(name) => Some([map[name := true]])
    case Not(arg) => if arg.Atom? then Some([map[arg.name := false]]) else None
    case Any(args) => GatherAny(args)
    case All(args) => GatherAll([map[]], args)
  }

  function GatherAny(es: seq<Expr>): Option<seq<Requirement>>
    decreases es, 1
  {
    if es == [] then Some([])
    else
      var first := Gather(es[0]);
      if first.None? then None
      else
        var rest := GatherAny(es[1..]);
        if rest.None? then None else Some(first.value + rest.value)
  }

  /** Stops as soon as no consistent combination is left. */
  function GatherAll(combinations: seq<Requirement>, es: seq<Expr>): Option<seq<Requirement>>
    decreases es, 1
  {
    if es == [] then Some(combinations)
    else
      var child := Gather(es[0]);
      if child.None? then None
      else
        var next := Cross(combinations, child.value);
        if next == [] then Some([]) else GatherAll(next, es[1..])
  }

  function CanBeTrueWithoutTest(e: Expr): Option<bool>
    requires ConstFree(e)
  {
    var requirements := Gather(Simplify(e));
    if requirements.None? then None else Some(requirements.value != [])
  }

  /** An item with no `cfg` attribute is never test-only. */
  function ItemIsTestOnly(cfgs: seq<Expr>): Option<bool>
    requires forall i :: 0 <= i < |cfgs| ==> ConstFree(cfgs[i])
  {
    if cfgs == [] then Some(false)
    else
      var can := CanBeTrueWithoutTest(All(cfgs));
      if can.None? then None else Some(!can.value)
  }

  // ── Simplification: meaning and shape ──────────────────────────────────────

  lemma NegatedMeaning(es: seq<Expr>, on: set<string>)
    ensures Eval(Any(Negated(es)), on) == !Eval(All(es), on)
    ensures Eval(All(Negated(es)), on) == !Eval(Any(es), on)
  {
    var ns := Negated(es);
    assert forall i :: 0 <= i < |es| ==> Eval(ns[i], on) == !Eval(es[i], on);
  }

  lemma EvalSplit(es: seq<Expr>, on: set<string>)
    requires es != []
    ensures Eval(Any(es), on) <==> Eval(es[0], on) || Eval(Any(es[1..]), on)
    ensures Eval(All(es), on) <==> Eval(es[0], on) && Eval(All(es[1..]), on)
  {
    assert forall i :: 0 <= i < |es| - 1 ==> es[1..][i] == es[i + 1];
    assert forall i :: 1 <= i < |es| ==> es[i] == es[1..][i - 1];
  }

  lemma {:induction false} WithoutTrue(es: seq<Expr>, on: set<string>)
    ensures Eval(All(Without(es, Const(true))), on) == Eval(All(es), on)
  {
    if es != [] {
      WithoutTrue(es[1..], on);
      EvalSplit(es, on);
      var kept := Without(es[1..], Const(true));
      if es[0] != Const(true) {
        EvalSplit([es[0]] + kept, on);
        assert ([es[0]] + kept)[1..] == kept;
      }
    }
  }

  lemma {:induction false} WithoutFalse(es: seq<Expr>, on: set<string>)
    ensures Eval(Any(Without(es, Const(false))), on) == Eval(Any(es), on)
  {
    if es != [] {
      WithoutFalse(es[1..], on);
      EvalSplit(es, on);
      var kept := Without(es[1..], Const(false));
      if es[0] != Const(false) {
        EvalSplit([es[0]] + kept, on);
        assert ([es[0]] + kept)[1..] == kept;
      }
    }
  }

  /** Folding constants out of simplified children keeps the meaning. */
  lemma FoldAll(es: seq<Expr>, on: set<string>)
    requires forall i :: 0 <= i < |es| ==> ConstFree(es[i])
    requires forall i :: 0 <= i < |es| ==> Eval(SimplifyEach(es)[i], on) == Eval(es[i], on)
    ensures Eval(Simplify(All(es)), on) == Eval(All(es), on)
  {
    var children := SimplifyEach(es);
    assert Eval(All(children), on) == Eval(All(es), on);
    if Const(false) in children {
      var i :| 0 <= i < |children| && children[i] == Const(false);
      assert !Eval(children[i], on);
    } else {
      WithoutTrue(children, on);
    }
  }

  lemma FoldAny(es: seq<Expr>, on: set<string>)
    requires forall i :: 0 <= i < |es| ==> ConstFree(es[i])
    requires forall i :: 0 <= i < |es| ==> Eval(SimplifyEach(es)[i], on) == Eval(es[i], on)
    ensures Eval(Simplify(Any(es)), on) == Eval(Any(es), on)
  {
    var children := SimplifyEach(es);
    assert Eval(Any(children), on) == Eval(Any(es), on);
    if Const(true) in children {
      var i :| 0 <= i < |children| && children[i] == Const(true);
      assert Eval(children[i], on);
    } else {
      WithoutFalse(children, on);
    }
  }

  /** Simplification does not change what the expression says while `test` is off. */
  lemma {:induction false} SimplifyMeaning(e: Expr, on: set<string>)
    requires ConstFree(e) && TEST !in on
    ensures Eval(Simplify(e), on) == Eval(e, on)
    decreases Weight(e), 1
  {
    match e
    case Atom(_) =>
    case Not(arg) => SimplifyNotMeaning(arg, on);
    case All(args) =>
      SimplifyEachMeaning(args, on);
      FoldAll(args, on);
    case Any(args) =>
      SimplifyEachMeaning(args, on);
      FoldAny(args, on);
  }

  lemma {:induction false} SimplifyNotMeaning(arg: Expr, on: set<string>)
    requires ConstFree(arg) && TEST !in on
    ensures Eval(Simplify(Not(arg)), on) == !Eval(arg, on)
    decreases Weight(Not(arg)), 0
  {
    SimplifyMeaning(arg, on);
    match Simplify(arg) {
      case Not(inner) => SimplifyMeaning(inner, on);
      case All(args) =>
        NegatedMeaning(args, on);
        SimplifyMeaning(Any(Negated(args)), on);
      case Any(args) =>
        NegatedMeaning(args, on);
        SimplifyMeaning(All(Negated(args)), on);
      case _ =>
    }
  }

  lemma {:induction false} SimplifyEachMeaning(es: seq<Expr>, on: set<string>)
    requires (forall i :: 0 <= i < |es| ==> ConstFree(es[i])) && TEST !in on
    ensures forall i :: 0 <= i < |es| ==> Eval(SimplifyEach(es)[i], on) == Eval(es[i], on)
    decreases Weights(es), 2
  {
    if es != [] {
      SimplifyMeaning(es[0], on);
      SimplifyEachMeaning(es[1..], on);
    }
  }

  /** Negation normal form over atoms other than `test`, no constant inside. */
  predicate Nnf(e: Expr) {
    match e
    case Atom(name) => name != TEST
    case Not(arg) => arg.Atom? && arg.name != TEST
    case All(args) => forall i :: 0 <= i < |args| ==> Nnf(args[i])
    case Any(args) => forall i :: 0 <= i < |args| ==> Nnf(args[i])
    case Const(_) => false
  }

  lemma {:induction false} SimplifyIsNormal(e: Expr)
    requires ConstFree(e)
    ensures Simplify(e).Const? || Nnf(Simplify(e))
    decreases Weight(e), 1
  {
    match e
    case Atom(_) =>
    case Not(arg) => SimplifyNotIsNormal(arg);
    case All(args) => SimplifyEachIsNormal(args);
    case Any(args) => SimplifyEachIsNormal(args);
  }

  lemma {:induction false} SimplifyNotIsNormal(arg: Expr)
    requires ConstFree(arg)
    ensures Simplify(Not(arg)).Const? || Nnf(Simplify(Not(arg)))
    decreases Weight(Not(arg)), 0
  {
    SimplifyIsNormal(arg);
    match Simplify(arg) {
      case Not(inner) => SimplifyIsNormal(inner);
      case All(args) => SimplifyIsNormal(Any(Negated(args)));
      case Any(args) => SimplifyIsNormal(All(Negated(args)));
      case _ =>
    }
  }

  lemma {:induction false} SimplifyEachIsNormal(es: seq<Expr>)
    requires forall i :: 0 <= i < |es| ==> ConstFree(es[i])
    ensures forall i :: 0 <= i < |es| ==> SimplifyEach(es)[i].Const? || Nnf(SimplifyEach(es)[i])
    decreases Weights(es), 2
  {
    if es != [] {
      SimplifyIsNormal(es[0]);
      SimplifyEachIsNormal(es[1..]);
    }
  }

  // ── Requirements: exactly the satisfying assignments ───────────────────────

  ghost predicate Meets(on: set<string>, req: Requirement) {
    forall a :: a in req ==> req[a] == (a in on)
  }

  ghost predicate MeetsSome(on: set<string>, reqs: seq<Requirement>) {
    exists i :: 0 <= i < |reqs| && Meets(on, reqs[i])
  }

  ghost predicate AvoidTest(reqs: seq<Requirement>) {
    forall i :: 0 <= i < |reqs| ==> TEST !in reqs[i]
  }

  lemma MeetsSomeConcat(on: set<string>, xs: seq<Requirement>, ys: seq<Requirement>)
    ensures MeetsSome(on, xs + ys) <==> MeetsSome(on, xs) || MeetsSome(on, ys)
  {
    assert forall i :: 0 <= i < |xs| ==> (xs + ys)[i] == xs[i];
    assert forall i :: 0 <= i < |ys| ==> (xs + ys)[|xs| + i] == ys[i];
  }

  lemma MeetsJoin(on: set<string>, base: Requirement, req: Requirement)
    ensures Meets(on, base) && Meets(on, req) <==> Compatible(base, req) && Meets(on, base + req)
  {
    if Compatible(base, req) && Meets(on, base + req) {
      forall a | a in base ensures base[a] == (a in on) {
        assert a in base + req;
      }
      forall a | a in req ensures req[a] == (a in on) {
        assert a in base + req;
      }
    }
  }

  lemma {:induction false} Cross1Exact(on: set<string>, base: Requirement, reqs: seq<Requirement>)
    ensures MeetsSome(on, Cross1(base, reqs)) <==> Meets(on, base) && MeetsSome(on, reqs)
    ensures TEST !in base && AvoidTest(reqs) ==> AvoidTest(Cross1(base, reqs))
  {
    if reqs != [] {
      Cross1Exact(on, base, reqs[1..]);
      MeetsJoin(on, base, reqs[0]);
      var first := if Compatible(base, reqs[0]) then [base + reqs[0]] else [];
      MeetsSomeConcat(on, first, Cross1(base, reqs[1..]));
      MeetsSomeConcat(on, [reqs[0]], reqs[1..]);
      assert [reqs[0]] + reqs[1..] == reqs;
      assert Compatible(base, reqs[0]) ==> first[0] == base + reqs[0];
      assert MeetsSome(on, [reqs[0]]) <==> Meets(on, [reqs[0]][0]);
    }
  }

  lemma {:induction false} CrossExact(on: set<string>, bases: seq<Requirement>, reqs: seq<Requirement>)
    ensures MeetsSome(on, Cross(bases, reqs)) <==> MeetsSome(on, bases) && MeetsSome(on, reqs)
    ensures AvoidTest(bases) && AvoidTest(reqs) ==> AvoidTest(Cross(bases, reqs))
  {
    if bases != [] {
      CrossExact(on, bases[1..], reqs);
      Cross1Exact(on, bases[0], reqs);
      MeetsSomeConcat(on, Cross1(bases[0], reqs), Cross(bases[1..], reqs));
      MeetsSomeConcat(on, [bases[0]], bases[1..]);
      assert [bases[0]] + bases[1..] == bases;
      assert MeetsSome(on, [bases[0]]) <==> Meets(on, [bases[0]][0]);
    }
  }

  /** On normal forms the expansion never raises, mentions no `test`, and an
      assignment satisfies the expression exactly when it meets one requirement. */
  lemma {:induction false} GatherExact(e: Expr, on: set<string>)
    requires Nnf(e)
    ensures Gather(e).Some? && AvoidTest(Gather(e).value)
    ensures Eval(e, on) <==> MeetsSome(on, Gather(e).value)
    decreases e, 0
  {
    match e
    case Atom(name) =>
      assert Meets(on, map[name := true]) <==> name in on;
      assert Gather(e).value[0] == map[name := true];
    case Not(arg) =>
      assert Meets(on, map[arg.name := false]) <==> arg.name !in on;
      assert Gather(e).value[0] == map[arg.name := false];
    case Any(args) => GatherAnyExact(args, on);
    case All(args) =>
      GatherAllExact([map[]], args, on);
      assert Meets(on, [map[]][0]);
  }

  lemma {:induction false} GatherAnyExact(es: seq<Expr>, on: set<string>)
    requires forall i :: 0 <= i < |es| ==> Nnf(es[i])
    ensures GatherAny(es).Some? && AvoidTest(GatherAny(es).value)
    ensures Eval(Any(es), on) <==> MeetsSome(on, GatherAny(es).value)
    decreases es, 1
  {
    if es != [] {
      GatherExact(es[0], on);
      GatherAnyExact(es[1..], on);
      MeetsSomeConcat(on, Gather(es[0]).value, GatherAny(es[1..]).value);
      EvalSplit(es, on);
    }
  }

  lemma {:induction false} GatherAllExact(combinations: seq<Requirement>, es: seq<Expr>, on: set<string>)
    requires (forall i :: 0 <= i < |es| ==> Nnf(es[i])) && AvoidTest(combinations)
    ensures GatherAll(combinations, es).Some? && AvoidTest(GatherAll(combinations, es).value)
    ensures MeetsSome(on, combinations) && Eval(All(es), on) <==> MeetsSome(on, GatherAll(combinations, es).value)
    decreases es, 1
  {
    if es != [] {
      GatherExact(es[0], on);
      var next := Cross(combinations, Gather(es[0]).value);
      CrossExact(on, combinations, Gather(es[0]).value);
      EvalSplit(es, on);
      if next != [] {
        GatherAllExact(next, es[1..], on);
      }
    }
  }

  // ── The decision is exact ──────────────────────────────────────────────────

  ghost predicate SatisfiableWithoutTest(e: Expr) {
    exists on: set<string> :: TEST !in on && Eval(e, on)
  }

  /** The procedure never raises, and answers true exactly when some assignment
      with `test` off satisfies the expression. */
  lemma CanBeTrueIsExact(e: Expr)
    requires ConstFree(e)
    ensures CanBeTrueWithoutTest(e) == Some(SatisfiableWithoutTest(e))
  {
    var s := Simplify(e);
    SimplifyIsNormal(e);
    if s.Const? {
      if s.value {
        SimplifyMeaning(e, {});
      } else {
        forall on: set<string> | TEST !in on ensures !Eval(e, on) {
          SimplifyMeaning(e, on);
        }
      }
    } else {
      GatherExact(s, {});
      var reqs := Gather(s).value;
      if reqs != [] {
        // the least assignment that meets the first requirement
        var on := set a | a in reqs[0] && reqs[0][a];
        assert Meets(on, reqs[0]);
        GatherExact(s, on);
        SimplifyMeaning(e, on);
      }
      forall on: set<string> | TEST !in on && Eval(e, on) ensures reqs != [] {
        SimplifyMeaning(e, on);
        GatherExact(s, on);
      }
    }
  }

  /** An item is test-only exactly when it carries a `cfg` and no assignment with
      `test` off satisfies all of its `cfg` attributes together. */
  lemma ItemIsTestOnlyIsExact(cfgs: seq<Expr>)
    requires forall i :: 0 <= i < |cfgs| ==> ConstFree(cfgs[i])
    ensures ItemIsTestOnly(cfgs) ==
            Some(cfgs != [] &&
                 forall on: set<string> :: TEST !in on ==> exists i :: 0 <= i < |cfgs| && !Eval(cfgs[i], on))
  {
    if cfgs != [] {
      CanBeTrueIsExact(All(cfgs));
      assert forall on: set<string> :: Eval(All(cfgs), on) <==> forall i :: 0 <= i < |cfgs| ==> Eval(cfgs[i], on);
    }
  }

  // ── The dictionary loops ───────────────────────────────────────────────────

  /** Merge `req` into a copy of `base`, giving up at the first conflict. */
  method MergeRequirement(base: Requirement, req: Requirement) returns (merged: Option<Requirement>)
    ensures merged == if Compatible(base, req) then Some(base + req) else None
  {
    var result, todo := base, req.Keys;
    while todo != {}
      invariant todo <= req.Keys
      invariant forall a :: a in base && a in req && a !in todo ==> base[a] == req[a]
      invariant result == base + map a | a in req && a !in todo :: req[a]
      decreases todo
    {
      var atom :| atom in todo;
      if atom in result && result[atom] != req[atom] {
        return None;
      }
      result := result[atom := req[atom]];
      todo := todo - {atom};
    }
    assert req == map a | a in req && a !in todo :: req[a];
    merged := Some(result);
  }

  /** Append every consistent join of `base` with a requirement of the child. */
  method ExtendCombinations(start: seq<Requirement>, base: Requirement, child: seq<Requirement>)
    returns (next: seq<Requirement>)
    ensures next == start + Cross1(base, child)
  {
    next := start;
    for j := 0 to |child|
      invariant next + Cross1(base, child[j..]) == start + Cross1(base, child)
    {
      var merged := MergeRequirement(base, child[j]);
      assert child[j..][1..] == child[j + 1..];
      Regroup(next, if merged.Some? then [merged.value] else [], Cross1(base, child[j + 1..]));
      next := next + if merged.Some? then [merged.value] else [];
    }
  }

  /** One round of the conjunction loop: every consistent join of a combination
      with a requirement of the child, in order. */
  method CombineRequirements(combinations: seq<Requirement>, child: seq<Requirement>) returns (next: seq<Requirement>)
    ensures next == Cross(combinations, child)
  {
    next := [];
    for i := 0 to |combinations|
      invariant next + Cross(combinations[i..], child) == Cross(combinations, child)
    {
      assert combinations[i..][1..] == combinations[i + 1..];
      Regroup(next, Cross1(combinations[i], child), Cross(combinations[i + 1..], child));
      next := ExtendCombinations(next, combinations[i], child);
    }
  }
}
