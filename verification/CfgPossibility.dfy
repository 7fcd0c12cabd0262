/**
 The plugin-boundary checker's decision procedure for the same question: for a
 fixed value of `test`, over-approximate which truth values a `cfg` can take.
 */
module CfgPossibility {
  import opened Common
  import opened CfgSyntax
  import CfgPolicy

  datatype Operator = OpAll | OpAny | OpNot

  /** A `cfg` text as this checker reads it: `Blank` is an empty text, `Leaf` any
      text that is not a well-formed operator call. */
  datatype Call = Blank | Leaf(text: string) | Op(operator: Operator, args: seq<Call>)

  datatype Values = Values(canBeTrue: bool, canBeFalse: bool)

  function Possibility(c: Call, testEnabled: bool): Values {
    match c
    case Blank => Values(true, true)
    case Leaf(text) => if text == TEST then Values(testEnabled, !testEnabled) else Values(true, true)
    case Op(OpAll, args) =>
      Values(forall i :: 0 <= i < |args| ==> Possibility(args[i], testEnabled).canBeTrue,
             exists i :: 0 <= i < |args| && Possibility(args[i], testEnabled).canBeFalse)
    case Op(OpAny, args) =>
      Values(exists i :: 0 <= i < |args| && Possibility(args[i], testEnabled).canBeTrue,
             forall i :: 0 <= i < |args| ==> Possibility(args[i], testEnabled).canBeFalse)
    case Op(OpNot, args) =>
      if |args| != 1 then Values(true, true)
      else
        var arg := Possibility(args[0], testEnabled);
        Values(arg.canBeFalse, arg.canBeTrue)
  }

  predicate RequiresTest(c: Call) {
    Possibility(c, true).canBeTrue && !Possibility(c, false).canBeTrue
  }

  /** How this checker reads a well-formed expression. */
  function Read(e: Expr): Call
    requires ConstFree(e)
  {
    match e
    case Atom(name) => Leaf(name)
    case Not(arg) => Op(OpNot, [Read(arg)])
    case All(args) => Op(OpAll, seq(|args|, i requires 0 <= i < |args| => Read(args[i])))
    case Any(args) => Op(OpAny, seq(|args|, i requires 0 <= i < |args| => Read(args[i])))
  }

  /** Whether the procedure admits value `v` for `e`. */
  predicate Admits(e: Expr, testEnabled: bool, v: bool)
    requires ConstFree(e)
  {
    var p := Possibility(Read(e), testEnabled);
    if v then p.canBeTrue else p.canBeFalse
  }

  lemma AdmitsList(e: Expr, testEnabled: bool, v: bool)
    requires ConstFree(e) && (e.All? || e.Any?)
    ensures e.All? == v ==>
              (Admits(e, testEnabled, v) <==> forall i :: 0 <= i < |e.args| ==> Admits(e.args[i], testEnabled, v))
    ensures e.All? != v ==>
              (Admits(e, testEnabled, v) <==> exists i :: 0 <= i < |e.args| && Admits(e.args[i], testEnabled, v))
  {
    var args := Read(e).args;
    assert forall i :: 0 <= i < |args| ==> args[i] == Read(e.args[i]);
  }

  /** Every value the expression takes under an assignment is admitted. */
  lemma {:induction false} PossibilityIsSound(e: Expr, on: set<string>)
    requires ConstFree(e)
    ensures Admits(e, TEST in on, Eval(e, on))
  {
    match e
    case Atom(_) =>
    case Not(arg) => PossibilityIsSound(arg, on);
    case All(args) =>
      AdmitsList(e, TEST in on, Eval(e, on));
      forall i | 0 <= i < |args| ensures Admits(args[i], TEST in on, Eval(args[i], on)) {
        PossibilityIsSound(args[i], on);
      }
    case Any(args) =>
      AdmitsList(e, TEST in on, Eval(e, on));
      forall i | 0 <= i < |args| ensures Admits(args[i], TEST in on, Eval(args[i], on)) {
        PossibilityIsSound(args[i], on);
      }
  }

  // ── Exactness where every option keeps one polarity ────────────────────────

  /** The options that occur in `e` under an even (`positive`) or an odd number of
      negations. */
  function Options(e: Expr, positive: bool): set<string> {
    match e
    case Atom(name) => if positive then {name} else {}
    case Not(arg) => Options(arg, !positive)
    case All(args) => set i, a | 0 <= i < |args| && a in Options(args[i], positive) :: a
    case Any(args) => set i, a | 0 <= i < |args| && a in Options(args[i], positive) :: a
    case Const(_) => {}
  }

  /** No option other than `test` occurs both plainly and negated. */
  predicate OnePolarity(e: Expr) {
    Options(e, true) * Options(e, false) <= {TEST}
  }

  /** Every occurrence of every option but `test` pulls `e` towards `v`. */
  ghost predicate Favours(on: set<string>, e: Expr, v: bool) {
    && (forall a :: a in Options(e, v) && a != TEST ==> a in on)
    && (forall a :: a in Options(e, !v) && a != TEST ==> a !in on)
  }

  lemma FavoursArgs(on: set<string>, e: Expr, v: bool)
    requires (e.All? || e.Any?) && Favours(on, e, v)
    ensures forall i :: 0 <= i < |e.args| ==> Favours(on, e.args[i], v)
  {
    forall i | 0 <= i < |e.args| ensures Options(e.args[i], true) <= Options(e, true) {
    }
    forall i | 0 <= i < |e.args| ensures Options(e.args[i], false) <= Options(e, false) {
    }
  }

  /** An assignment that favours an admitted value takes it. */
  lemma {:induction false} FavouredIsTaken(e: Expr, on: set<string>, v: bool)
    requires ConstFree(e) && Favours(on, e, v) && Admits(e, TEST in on, v)
    ensures Eval(e, on) == v
    decreases e, 1
  {
    match e
    case Atom(_) =>
    case Not(arg) => FavouredIsTaken(arg, on, !v);
    case All(args) => FavouredArgs(e, on, v);
    case Any(args) => FavouredArgs(e, on, v);
  }

  lemma {:induction false} FavouredArgs(e: Expr, on: set<string>, v: bool)
    requires (e.All? || e.Any?) && ConstFree(e) && Favours(on, e, v) && Admits(e, TEST in on, v)
    ensures Eval(e, on) == v
    decreases e, 0
  {
    AdmitsList(e, TEST in on, v);
    FavoursArgs(on, e, v);
    forall i | 0 <= i < |e.args| && Admits(e.args[i], TEST in on, v) ensures Eval(e.args[i], on) == v {
      FavouredIsTaken(e.args[i], on, v);
    }
  }

  /** When no option but `test` occurs under both polarities, the admitted values are
      exactly the values some assignment with that `test` gives. */
  lemma PossibilityIsExact(e: Expr, testEnabled: bool, v: bool)
    requires ConstFree(e) && OnePolarity(e)
    ensures Admits(e, testEnabled, v) <==> exists on: set<string> :: (TEST in on) == testEnabled && Eval(e, on) == v
  {
    if Admits(e, testEnabled, v) {
      var on := Options(e, v) - {TEST} + if testEnabled then {TEST} else {};
      assert Favours(on, e, v);
      FavouredIsTaken(e, on, v);
    }
    forall on: set<string> | (TEST in on) == testEnabled && Eval(e, on) == v ensures Admits(e, testEnabled, v) {
      PossibilityIsSound(e, on);
    }
  }

  /** Neither `all(a, not(a))` nor `any(a, not(a))` is exact, whatever the option: one
      option under both polarities is enough to lose it. */
  lemma BothPolaritiesFail(a: string, testEnabled: bool, on: set<string>)
    requires a != TEST
    ensures var both := [Atom(a), Not(Atom(a))];
      && ConstFree(All(both)) && Admits(All(both), testEnabled, true) && !Eval(All(both), on)
      && ConstFree(Any(both)) && Admits(Any(both), testEnabled, false) && Eval(Any(both), on)
  {
    var both := [Atom(a), Not(Atom(a))];
    assert forall i :: 0 <= i < |both| ==> ConstFree(both[i]);
    forall i, v | 0 <= i < |both| ensures Admits(both[i], testEnabled, v) {
      assert Admits(Atom(a), testEnabled, true) && Admits(Atom(a), testEnabled, false);
    }
    AdmitsList(All(both), testEnabled, true);
    AdmitsList(Any(both), testEnabled, false);
    assert Eval(both[0], on) == !Eval(both[1], on);
  }

  ghost predicate Apart(e: Expr, f: Expr) {
    forall a :: a != TEST && Mentions(e, a) ==> !Mentions(f, a)
  }

  /** No option other than `test` occurs twice. */
  ghost predicate ReadOnce(e: Expr) {
    match e
    case Atom(_) => true
    case Not(arg) => ReadOnce(arg)
    case All(args) =>
      && (forall i :: 0 <= i < |args| ==> ReadOnce(args[i]))
      && (forall i, j :: 0 <= i < j < |args| ==> Apart(args[i], args[j]))
    case Any(args) =>
      && (forall i :: 0 <= i < |args| ==> ReadOnce(args[i]))
      && (forall i, j :: 0 <= i < j < |args| ==> Apart(args[i], args[j]))
    case Const(_) => true
  }

  lemma {:induction false} OptionsAreMentioned(e: Expr, positive: bool, a: string)
    requires a in Options(e, positive)
    ensures Mentions(e, a)
  {
    match e
    case Atom(_) =>
    case Not(arg) => OptionsAreMentioned(arg, !positive, a);
    case All(args) =>
      var i :| 0 <= i < |args| && a in Options(args[i], positive);
      OptionsAreMentioned(args[i], positive, a);
    case Any(args) =>
      var i :| 0 <= i < |args| && a in Options(args[i], positive);
      OptionsAreMentioned(args[i], positive, a);
  }

  /** In particular it is exact where no option but `test` occurs twice. */
  lemma {:induction false} ReadOnceHasOnePolarity(e: Expr)
    requires ReadOnce(e)
    ensures OnePolarity(e)
  {
    match e
    case Atom(_) =>
    case Not(arg) => ReadOnceHasOnePolarity(arg);
    case All(args) => ReadOnceArgs(e);
    case Any(args) => ReadOnceArgs(e);
    case Const(_) =>
  }

  lemma {:induction false} ReadOnceArgs(e: Expr)
    requires (e.All? || e.Any?) && ReadOnce(e)
    ensures OnePolarity(e)
    decreases e, 0
  {
    forall a | a in Options(e, true) && a in Options(e, false) ensures a == TEST {
      var i :| 0 <= i < |e.args| && a in Options(e.args[i], true);
      var j :| 0 <= j < |e.args| && a in Options(e.args[j], false);
      OptionsAreMentioned(e.args[i], true, a);
      OptionsAreMentioned(e.args[j], false, a);
      ReadOnceHasOnePolarity(e.args[i]);
      assert i == j ==> a in Options(e.args[i], true) * Options(e.args[i], false);
      assert i < j ==> Apart(e.args[i], e.args[j]);
      assert j < i ==> Apart(e.args[j], e.args[i]);
    }
  }

  // ── The two checkers ───────────────────────────────────────────────────────

  /** Whatever single `cfg` this checker calls test-requiring is test-only for the
      database-access policy; where every option keeps one polarity the two differ
      only on expressions that no assignment with `test` on satisfies either. */
  lemma CheckersAgree(e: Expr)
    requires ConstFree(e)
    ensures RequiresTest(Read(e)) ==> CfgPolicy.ItemIsTestOnly([e]) == Some(true)
    ensures OnePolarity(e) ==>
              (RequiresTest(Read(e)) <==>
               CfgPolicy.ItemIsTestOnly([e]) == Some(true) && exists on: set<string> :: TEST in on && Eval(e, on))
  {
    CfgPolicy.ItemIsTestOnlyIsExact([e]);
    var testOnly := forall on: set<string> :: TEST !in on ==> !Eval(e, on);
    assert CfgPolicy.ItemIsTestOnly([e]) == Some(testOnly) by {
      assert forall on: set<string> :: (exists i :: 0 <= i < 1 && !Eval([e][i], on)) <==> !Eval([e][0], on);
    }
    if RequiresTest(Read(e)) {
      forall on: set<string> | TEST !in on ensures !Eval(e, on) {
        PossibilityIsSound(e, on);
      }
    }
    if OnePolarity(e) {
      PossibilityIsExact(e, true, true);
      PossibilityIsExact(e, false, true);
    }
  }

  /** With an option under both polarities the checkers do differ:
      `any(test, all(unix, not(unix)))` is test-only, but this checker thinks it can
      hold without `test`. */
  lemma CheckersDiffer()
    ensures var e := Any([Atom(TEST), All([Atom("unix"), Not(Atom("unix"))])]);
      ConstFree(e) && CfgPolicy.ItemIsTestOnly([e]) == Some(true) && !RequiresTest(Read(e))
  {
    var contradiction := All([Atom("unix"), Not(Atom("unix"))]);
    var e := Any([Atom(TEST), contradiction]);
    assert ConstFree(contradiction);
    assert ConstFree(e);
    CfgPolicy.ItemIsTestOnlyIsExact([e]);
    forall on: set<string> | TEST !in on ensures !Eval([e][0], on) {
      assert !Eval(contradiction, on) by {
        assert Eval(contradiction.args[0], on) ==> !Eval(contradiction.args[1], on);
      }
    }
    assert Admits(contradiction, false, true) by {
      AdmitsList(contradiction, false, true);
      assert Admits(Not(Atom("unix")), false, true);
    }
    AdmitsList(e, false, true);
    assert Admits(e.args[1], false, true);
  }
}
