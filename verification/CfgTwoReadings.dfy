/**
 The two checkers on one text.  Each reads it in its own way; they stay in step as long as
 every quote opened in an unquoted literal is closed in it, and this file shows where they
 part.
 */
module CfgTwoReadings {
  import opened Common
  import opened CfgSyntax
  import opened CfgParser
  import opened CfgCallText
  import opened CfgCallLayout
  import CfgPolicy
  import CfgPossibility

  // ── Both readings of one text ──────────────────────────────────────────────

  type Values = CfgPossibility.Values

  function Judged(text: string, testEnabled: bool): Values {
    CfgPossibility.Possibility(ReadText(text), testEnabled)
  }

  function JudgedTree(e: Expr, testEnabled: bool): Values
    requires ConstFree(e)
  {
    CfgPossibility.Possibility(CfgPossibility.Read(e), testEnabled)
  }

  predicate Covers(p: Values, q: Values) {
    (q.canBeTrue ==> p.canBeTrue) && (q.canBeFalse ==> p.canBeFalse)
  }

  /** No comma after the last argument, at any depth. */
  predicate Neat(l: Layout) {
    match l
    case Leaf(_, _, _) => true
    case Negation(_, _, inner, comma, _) => comma.None? && Neat(inner)
    case Group(_, _, _, children) => NeatChildren(children)
  }

  predicate NeatChildren(cs: Children) {
    !cs.LastWithComma? && Neat(cs.child) && (cs.More? ==> NeatChildren(cs.others))
  }

  /** `p` is at least `q`, and the same if `exact`. */
  predicate Close(p: Values, q: Values, exact: bool) {
    Covers(p, q) && (exact ==> p == q)
  }

  predicate CloseLists(ps: seq<Values>, qs: seq<Values>, exact: bool) {
    |qs| <= |ps| && forall i :: 0 <= i < |qs| ==> Close(ps[i], qs[i], exact)
  }

  lemma CloseCons(p: Values, ps: seq<Values>, q: Values, qs: seq<Values>, exact: bool)
    requires Close(p, q, exact) && CloseLists(ps, qs, exact)
    ensures CloseLists([p] + ps, [q] + qs, exact)
  {
  }

  /** Operators respect the order: wider arguments give a wider result. */
  lemma CombineClose(operator: Operator, ps: seq<Values>, qs: seq<Values>, exact: bool)
    requires |ps| == |qs| && CloseLists(ps, qs, exact)
    ensures Close(Combine(operator, ps), Combine(operator, qs), exact)
  {
    if exact {
      assert ps == qs;
    }
  }

  lemma LeafClose(l: Layout, gap: string, testEnabled: bool)
    requires l.Leaf? && Shape(l) && AllSpace(gap)
    ensures ConstFree(Tree(l)) && Judged(Write(l, gap), testEnabled) == JudgedTree(Tree(l), testEnabled)
  {
    LeafText(l, gap);
  }

  function Judge(testEnabled: bool): string -> Values {
    (text: string) => Judged(text, testEnabled)
  }

  /** The values of the stretches between the commas ... */
  function PartValues(cs: Children, testEnabled: bool): seq<Values> {
    Map(Judge(testEnabled), RawParts(cs))
  }

  /** ... and those of the arguments written there. */
  ghost function TreeValues(cs: Children, testEnabled: bool): seq<Values> {
    TreeIsConstFree(cs.child);
    [JudgedTree(Tree(cs.child), testEnabled)] + if cs.More? then TreeValues(cs.others, testEnabled) else []
  }

  lemma {:induction false} TreeValuesAre(cs: Children, testEnabled: bool)
    ensures var es := Trees(cs);
      && |TreeValues(cs, testEnabled)| == |es|
      && forall i :: 0 <= i < |es| ==>
           ConstFree(es[i]) && TreeValues(cs, testEnabled)[i] == JudgedTree(es[i], testEnabled)
  {
    TreeIsConstFree(cs.child);
    if cs.More? {
      TreeValuesAre(cs.others, testEnabled);
    }
  }

  lemma CoreIsNotTest(l: Layout)
    requires !l.Leaf?
    ensures Core(l) != TEST
  {
    assert Core(l)[0] != 't';
  }

  lemma {:induction false} NeatHasNoTrailingComma(cs: Children)
    ensures NeatChildren(cs) ==> !TrailingComma(cs)
  {
    if cs.More? {
      NeatHasNoTrailingComma(cs.others);
    }
  }

  lemma CallValue(l: Layout, gap: string, testEnabled: bool)
    requires !l.Leaf? && Shape(l) && InStep(l) && AllSpace(gap)
    ensures Judged(Write(l, gap), testEnabled) ==
            if Opens(l) > 0 || TrailingComma(Args(l)) then CfgPossibility.Values(true, true)
            else Combine(OperatorOf(l), PartValues(Args(l), testEnabled))
  {
    var parts := RawParts(Args(l));
    CallText(l, gap);
    BlankPart(Args(l));
    CoreIsNotTest(l);
    CombineIsPossibility(OperatorOf(l), ReadAll(parts), PartValues(Args(l), testEnabled), testEnabled);
  }

  lemma CallTreeValue(l: Layout, testEnabled: bool)
    requires !l.Leaf?
    ensures ConstFree(Tree(l)) && (Neat(l) ==> NeatChildren(Args(l)))
    ensures JudgedTree(Tree(l), testEnabled) == Combine(OperatorOf(l), TreeValues(Args(l), testEnabled))
  {
    var es := Trees(Args(l));
    TreeIsConstFree(l);
    TreeValuesAre(Args(l), testEnabled);
    if l.Negation? {
      assert es == [Tree(l.inner)];
    }
    var calls := seq(|es|, i requires 0 <= i < |es| => CfgPossibility.Read(es[i]));
    assert CfgPossibility.Read(Tree(l)) == CfgPossibility.Op(OperatorOf(l), calls);
    CombineIsPossibility(OperatorOf(l), calls, TreeValues(Args(l), testEnabled), testEnabled);
  }

  /** However a text is laid out, this checker admits at least the values of the
      expression it denotes, and exactly those if no argument list ends in a comma and no
      bare literal opens a parenthesis. */
  lemma {:induction false} TextAgrees(l: Layout, gap: string, testEnabled: bool)
    requires Shape(l) && InStep(l) && AllSpace(gap)
    ensures ConstFree(Tree(l))
    ensures Close(Judged(Write(l, gap), testEnabled), JudgedTree(Tree(l), testEnabled), Neat(l) && Opens(l) == 0)
    decreases LayoutSize(l)
  {
    if l.Leaf? {
      LeafClose(l, gap, testEnabled);
    } else {
      ChildrenAgree(Args(l), testEnabled);
      CallValue(l, gap, testEnabled);
      CallTreeValue(l, testEnabled);
      NeatHasNoTrailingComma(Args(l));
      if !TrailingComma(Args(l)) {
        CombineClose(OperatorOf(l), PartValues(Args(l), testEnabled), TreeValues(Args(l), testEnabled),
                     NeatChildren(Args(l)) && Opens(l) == 0);
      }
    }
  }

  lemma {:induction false} ChildrenAgree(cs: Children, testEnabled: bool)
    requires ChildrenShape(cs) && InStepChildren(cs)
    ensures CloseLists(PartValues(cs, testEnabled), TreeValues(cs, testEnabled), NeatChildren(cs) && OpensIn(cs) == 0)
    ensures !TrailingComma(cs) ==> |PartValues(cs, testEnabled)| == |TreeValues(cs, testEnabled)|
    decreases ChildrenSize(cs)
  {
    var gap := if cs.Last? then cs.close else cs.before;
    TextAgrees(cs.child, gap, testEnabled);
    if cs.More? {
      ChildrenAgree(cs.others, testEnabled);
      MapCons(Judge(testEnabled), Write(cs.child, gap), RawParts(cs.others));
      CloseCons(Judged(Write(cs.child, gap), testEnabled), PartValues(cs.others, testEnabled),
                JudgedTree(Tree(cs.child), testEnabled), TreeValues(cs.others, testEnabled),
                NeatChildren(cs) && OpensIn(cs) == 0);
    }
  }

  // ── From text to verdict ───────────────────────────────────────────────────

  predicate TextRequiresTest(text: string) {
    CfgPossibility.RequiresTest(ReadText(text))
  }

  lemma TextIsSound(l: Layout, gap: string)
    requires WrittenAs(Write(l, gap), l, gap) && InStep(l) && ConstFree(Tree(l))
    requires !Judged(Write(l, gap), false).canBeTrue
    ensures CfgPolicy.ItemIsTestOnly([Tree(l)]) == Some(true)
  {
    var e := Tree(l);
    TextAgrees(l, gap, false);
    CfgPolicy.ItemIsTestOnlyIsExact([e]);
    forall on: set<string> | TEST !in on ensures !Eval([e][0], on) {
      CfgPossibility.PossibilityIsSound(e, on);
    }
  }

  /** On one text: what this checker calls test-requiring the policy's parser accepts and
      the policy calls test-only.  Without commas after last arguments and parentheses
      opened by bare literals, and with every option under one polarity, it misses only
      what cannot hold with `test` either. */
  lemma TextCheckersAgree(l: Layout, gap: string)
    requires WrittenAs(Write(l, gap), l, gap) && InStep(l)
    ensures var e := Tree(l);
      && Parse(Write(l, gap)) == Some(e) && ConstFree(e)
      && (TextRequiresTest(Write(l, gap)) ==> CfgPolicy.ItemIsTestOnly([e]) == Some(true))
      && (Neat(l) && Opens(l) == 0 && CfgPossibility.OnePolarity(e) ==>
            (TextRequiresTest(Write(l, gap)) <==>
             CfgPolicy.ItemIsTestOnly([e]) == Some(true) && exists on: set<string> :: TEST in on && Eval(e, on)))
  {
    WrittenParses(l, gap);
    TextAgrees(l, gap, true);
    TextAgrees(l, gap, false);
    CfgPossibility.CheckersAgree(Tree(l));
    if TextRequiresTest(Write(l, gap)) {
      TextIsSound(l, gap);
    }
  }

  /** A comma after the last argument blinds this checker, and so does a parenthesis
      opened by a bare literal at any depth: the whole call may be anything. */
  lemma TrailingCommaHides(l: Layout, gap: string, testEnabled: bool)
    requires !l.Leaf? && Shape(l) && InStep(l) && AllSpace(gap) && (TrailingComma(Args(l)) || Opens(l) > 0)
    ensures Judged(Write(l, gap), testEnabled) == CfgPossibility.Values(true, true)
  {
    CallValue(l, gap, testEnabled);
  }

  /** `all(test,)`. */
  const TRAILING: Layout := Group("", true, "", LastWithComma(Leaf("", "test", None), "", ""))

  lemma AllTestIsTestOnly()
    ensures var e := All([Atom(TEST)]); ConstFree(e) && CfgPolicy.ItemIsTestOnly([e]) == Some(true)
  {
    var e := All([Atom(TEST)]);
    assert ConstFree(e.args[0]);
    CfgPolicy.ItemIsTestOnlyIsExact([e]);
    forall on: set<string> | TEST !in on ensures !Eval([e][0], on) {
      assert !Eval(e.args[0], on);
    }
  }

  /** It is test-only, and this checker does not see it. */
  lemma TrailingCommaExample()
    ensures WrittenAs(Write(TRAILING, ""), TRAILING, "") && InStep(TRAILING)
    ensures Tree(TRAILING) == All([Atom(TEST)]) && ConstFree(Tree(TRAILING))
    ensures CfgPolicy.ItemIsTestOnly([Tree(TRAILING)]) == Some(true) && !TextRequiresTest(Write(TRAILING, ""))
  {
    TrailingCommaHides(TRAILING, "", false);
    AllTestIsTestOnly();
  }

  /** A blank text, and a negation of several arguments, may be anything as well. */
  lemma BlankMayBeAnything(gap: string, testEnabled: bool)
    requires AllSpace(gap)
    ensures Judged(gap, testEnabled) == CfgPossibility.Values(true, true)
  {
    StripSpace(gap);
  }

  lemma NegatedListMayBeAnything(lead: string, gap: string, cs: Children, tail: string, testEnabled: bool)
    requires AllSpace(lead) && AllSpace(gap) && AllSpace(tail)
    requires ChildrenShape(cs) && InStepChildren(cs) && cs.More?
    ensures Judged(lead + ("not" + (gap + ("(" + (Body(cs) + (")" + tail))))), testEnabled) ==
            CfgPossibility.Values(true, true)
  {
    var call := "(" + (Body(cs) + ")");
    StripParts(lead, "not", gap, Body(cs), tail);
    NegationKeyword(gap, call);
    CallArgs(cs);
    NegatedCall(lead + ("not" + (gap + ("(" + (Body(cs) + (")" + tail))))), "not" + (gap + call), call, testEnabled);
  }

  lemma NegationKeyword(gap: string, call: string)
    requires AllSpace(gap) && Starts(call, '(')
    ensures Keyword("not" + (gap + call)) == Some((CfgPossibility.OpNot, call))
  {
    CutWord("not", gap + call);
    SkipGap(gap, call);
  }

  lemma NegatedCall(text: string, core: string, call: string, testEnabled: bool)
    requires Strip(text) == core && core != "" && core[0] == 'n' && Starts(call, '(')
    requires Keyword(core) == Some((CfgPossibility.OpNot, call))
    requires ReadArgs(call).Some? ==> |ReadArgs(call).value| != 1
    ensures Judged(text, testEnabled) == CfgPossibility.Values(true, true)
  {
  }

  // ── Where the two readings part ────────────────────────────────────────────

  /** Three arguments, the middle one `test`, read from between the parentheses. */
  lemma MiddleTest(first: string, last: string)
    requires Walk(first, Outside, 0, false) == Some(Outside) && Walk(last, Outside, 0, false) == Some(Outside)
    ensures Parts(first + ("," + ("test" + ("," + last))), Outside, "") == Some([first, "test", last])
  {
    PartThenComma(first, "test" + ("," + last));
    PlainWalks("test", Outside, 0, false);
    PartThenComma("test", last);
    WholePart(last);
    assert [first] + (["test"] + [last]) == [first, "test", last];
  }

  /** An atom that no operator starts. */
  predicate Opaque(s: string) {
    && s != "" && !IsSpace(s[0]) && !IsSpace(s[|s| - 1]) && s != TEST
    && (|s| >= 3 ==> s[..3] != "all" && s[..3] != "any" && s[..3] != "not")
  }

  lemma OpaqueIsLeaf(s: string)
    requires Opaque(s)
    ensures Strip(s) == s && ReadText(s) == CfgPossibility.Leaf(s)
  {
  }

  lemma MiddleTestWalks(first: string, last: string, t: Track)
    requires Walk(first, t, 1, true) == Some(t) && Walk(last, t, 1, true) == Some(t)
    requires t.quote.None? && t.depth == 1
    ensures Walk(first + ("," + ("test" + ("," + last))), t, 1, true) == Some(t)
  {
    CommaPasses(last, t);
    PlainWalks("test", t, 1, true);
    WalkBoth("test", "," + last, t, 1, true);
    CommaPasses("test" + ("," + last), t);
    WalkBoth(first, "," + ("test" + ("," + last)), t, 1, true);
  }

  lemma CommaPasses(rest: string, t: Track)
    requires t.quote.None? && t.depth == 1
    ensures Walk("," + rest, t, 1, true) == Walk(rest, t, 1, true)
  {
    assert ("," + rest)[1..] == rest;
  }

  /** Between the parentheses this checker sees three arguments, `test` in the middle. */
  lemma MiddleTestParsed(first: string, last: string)
    requires Opaque(first) && Opaque(last)
    requires Walk(first, Outside, 0, false) == Some(Outside) && Walk(last, Outside, 0, false) == Some(Outside)
    requires var t := Track(1, None, false); Walk(first, t, 1, true) == Some(t) && Walk(last, t, 1, true) == Some(t)
    ensures var body := first + ("," + ("test" + ("," + last)));
      ReadArgs("(" + (body + ")")) == Some([first, "test", last])
  {
    var body := first + ("," + ("test" + ("," + last)));
    MiddleTestWalks(first, last, Track(1, None, false));
    ArgsOfBody(body, 0);
    MiddleTest(first, last);
    StripThree(first, last);
  }

  lemma StripThree(first: string, last: string)
    requires Opaque(first) && Opaque(last)
    ensures var parts := [first, "test", last]; StripAll(parts) == parts && "" !in parts
  {
    OpaqueIsLeaf(first);
    OpaqueIsLeaf(last);
    TestIsLeaf();
  }

  lemma TestIsLeaf()
    ensures Strip("test") == "test" && ReadText("test") == CfgPossibility.Leaf(TEST)
  {
    assert "test"[..3][0] == 't';
    assert Keyword("test") == None;
  }

  lemma MiddleTestRequired(first: string, last: string)
    requires first != TEST && last != TEST
    ensures CfgPossibility.RequiresTest(CfgPossibility.Op(
              CfgPossibility.OpAll,
              [CfgPossibility.Leaf(first), CfgPossibility.Leaf(TEST), CfgPossibility.Leaf(last)]))
  {
    var args := [CfgPossibility.Leaf(first), CfgPossibility.Leaf(TEST), CfgPossibility.Leaf(last)];
    assert !CfgPossibility.Possibility(args[1], false).canBeTrue;
    forall i | 0 <= i < |args| ensures CfgPossibility.Possibility(args[i], true).canBeTrue {
    }
  }

  lemma CallReadsArgs(l: Layout, args: seq<string>)
    requires !l.Leaf? && Shape(l) && ReadArgs("(" + (Body(Args(l)) + ")")) == Some(args)
    ensures ReadText(Write(l, "")) == CfgPossibility.Op(OperatorOf(l), ReadAll(args))
  {
    StripCall(l, "");
    CallKeyword(l);
  }

  /** `ident=literal`, without white space. */
  function Setting(ident: string, literal: Literal): Layout {
    Leaf("", ident, Some(Value("", "", literal)))
  }

  function SettingTree(ident: string, literal: Literal): Expr {
    Atom(ident + "=" + LiteralText(literal))
  }

  lemma SettingText(ident: string, literal: Literal, tail: string)
    ensures Write(Setting(ident, literal), tail) == (ident + ("=" + LiteralText(literal))) + tail
  {
    var text := LiteralText(literal);
    Regroup(ident, "=" + text, tail);
    Regroup("=", text, tail);
    assert "" + (text + tail) == text + tail && "" + ("=" + (text + tail)) == "=" + (text + tail);
  }

  function Closers(n: nat): string {
    if n == 0 then "" else ")" + Closers(n - 1)
  }

  /** What ends the quote `t` stands in; a double one is ended by the opening of the literal. */
  function Ending(t: Track): string {
    if t.quote == Some('\'') then "'" else ""
  }

  /** A quoted literal that, read from inside the quote `t` stands in, ends that quote and
      every open parenthesis, and leaves `test` between two commas. */
  function Filler(t: Track): string
    requires t.depth >= 0
  {
    Ending(t) + (Closers(t.depth) + ",test,\\\"")
  }

  /** Where this checker stands after a bare literal. */
  function Behind(core: string): (t: Track)
    ensures t.depth >= 0
  {
    match Walk(core, Outside, 0, false)
    case None => Outside
    case Some(t) => t
  }

  /** `all(a=core,b="...")`: to the policy's parser two settings. */
  function Misread(core: string): Layout {
    Group("", true, "", More(Setting("a", Bare(core)), "", Last(Setting("b", Quoted(Filler(Behind(core)))), "")))
  }

  /** To this checker `test` between two other options, the first of which is this. */
  function MisreadFirst(core: string): string {
    "a=" + (core + (",b=\"" + (Ending(Behind(core)) + Closers(Behind(core).depth))))
  }

  const MISREAD_LAST := "\\" + LiteralText(Quoted(""))

  lemma Interleave(core: string, p: string, c: string)
    ensures ("a" + ("=" + core)) + ("," + ("b" + ("=" + ("\"" + ((p + (c + ",test,\\\"")) + "\""))))) ==
            ("a=" + (core + (",b=\"" + (p + c)))) + ("," + ("test" + ("," + MISREAD_LAST)))
  {
  }

  lemma MisreadBody(core: string)
    ensures Body(Args(Misread(core))) == MisreadFirst(core) + ("," + ("test" + ("," + MISREAD_LAST)))
  {
    var t := Behind(core);
    var b := Quoted(Filler(t));
    SettingText("b", b, "");
    SettingText("a", Bare(core), "" + ("," + Write(Setting("b", b), "")));
    assert ("b" + ("=" + LiteralText(b))) + "" == "b" + ("=" + LiteralText(b));
    assert "" + ("," + Write(Setting("b", b), "")) == "," + ("b" + ("=" + LiteralText(b)));
    Interleave(core, Ending(t), Closers(t.depth));
  }

  lemma {:induction false} ClosersWalk(n: nat, t: Track, floor: int, commas: bool)
    requires t.quote.None? && floor <= t.depth - n
    ensures Walk(Closers(n), t, floor, commas) == Some(t.(depth := t.depth - n))
  {
    if n > 0 {
      assert Closers(n)[1..] == Closers(n - 1);
      ClosersWalk(n - 1, t.(depth := t.depth - 1), floor, commas);
    }
  }

  /** One character inside a quote that does not end it. */
  lemma StaysQuoted(c: char, rest: string, t: Track, floor: int, commas: bool)
    requires t.quote.Some? && c != '\\' && c != t.quote.value && floor <= t.depth
    ensures Walk([c] + rest, t, floor, commas) == Walk(rest, t.(escaped := false), floor, commas)
  {
    assert ([c] + rest)[1..] == rest;
  }

  lemma EndsQuote(c: char, rest: string, t: Track, floor: int, commas: bool)
    requires t.quote == Some(c) && !t.escaped && c != '\\' && floor <= t.depth
    ensures Walk([c] + rest, t, floor, commas) == Walk(rest, t.(quote := None), floor, commas)
  {
    assert ([c] + rest)[1..] == rest;
  }

  /** The text up to the filler's own ending leads out of the quote. */
  lemma LeavesQuote(t: Track, rest: string, floor: int, commas: bool)
    requires t.quote.Some? && IsQuote(t.quote.value) && floor <= t.depth
    ensures Walk(",b=\"" + (Ending(t) + rest), t, floor, commas) ==
            Walk(rest, Track(t.depth, None, false), floor, commas)
  {
    var u := t.(escaped := false);
    var x := Ending(t) + rest;
    assert ",b=\"" + x == [','] + (['b'] + (['='] + (['"'] + x)));
    StaysQuoted(',', ['b'] + (['='] + (['"'] + x)), t, floor, commas);
    StaysQuoted('b', ['='] + (['"'] + x), u, floor, commas);
    StaysQuoted('=', ['"'] + x, u, floor, commas);
    if t.quote.value == '"' {
      EndsQuote('"', x, u, floor, commas);
      assert x == rest;
    } else {
      StaysQuoted('"', x, u, floor, commas);
      assert x == ['\''] + rest;
      EndsQuote('\'', rest, u, floor, commas);
    }
  }

  predicate OutOfStep(core: string) {
    LiteralShape(Bare(core)) && !InStepLiteral(Bare(core))
  }

  /** From inside the quote, what stands between the literal and `test` leads outside. */
  lemma RestWalks(end: Track, t: Track, floor: int, commas: bool)
    requires end.quote.Some? && IsQuote(end.quote.value) && end.depth >= 0
    requires t.quote.None? && !t.escaped && floor <= t.depth
    ensures Walk(",b=\"" + (Ending(end) + Closers(end.depth)), Deeper(end, t.depth), floor, commas) == Some(t)
  {
    var u := Deeper(end, t.depth);
    assert Ending(u) == Ending(end);
    LeavesQuote(u, Closers(end.depth), floor, commas);
    ClosersWalk(end.depth, Track(u.depth, None, false), floor, commas);
  }

  lemma FirstWalks(core: string, t: Track, floor: int, commas: bool)
    requires OutOfStep(core) && t.quote.None? && !t.escaped && floor <= t.depth
    ensures Walk(MisreadFirst(core), t, floor, commas) == Some(t)
  {
    var end := Behind(core);
    var tail := ",b=\"" + (Ending(end) + Closers(end.depth));
    BareWalks(core, Outside, t.depth, floor, commas);
    assert Deeper(Outside, t.depth) == t;
    PlainWalks("a=", t, floor, commas);
    WalkBoth("a=", core + tail, t, floor, commas);
    WalkConcat(core, tail, t, floor, commas);
    RestWalks(end, t, floor, commas);
  }

  lemma LastWalks(t: Track, floor: int, commas: bool)
    requires t.quote.None? && !t.escaped && floor <= t.depth
    ensures Walk(MISREAD_LAST, t, floor, commas) == Some(t)
  {
    PlainWalks("\\", t, floor, commas);
    LiteralWalks(Quoted(""), t, floor, commas);
    WalkBoth("\\", LiteralText(Quoted("")), t, floor, commas);
  }

  lemma {:induction false} ClosersShape(n: nat)
    ensures |Closers(n)| == n && forall i :: 0 <= i < n ==> Closers(n)[i] == ')'
  {
    if n > 0 {
      ClosersShape(n - 1);
    }
  }

  lemma MisreadOpaque(core: string)
    ensures Opaque(MisreadFirst(core)) && Opaque(MISREAD_LAST)
  {
    ClosersShape(Behind(core).depth);
    assert MisreadFirst(core)[..3][1] == '=' && MISREAD_LAST[..3][0] == '\\';
  }

  lemma {:induction false} QuoteFree(s: string, rest: string)
    requires forall i :: 0 <= i < |s| ==> s[i] != '"' && s[i] != '\\'
    ensures EndsEscaped(s + rest, false) == EndsEscaped(rest, false)
  {
    if s == "" {
      assert s + rest == rest;
    } else {
      assert (s + rest)[1..] == s[1..] + rest;
      QuoteFree(s[1..], rest);
    }
  }

  lemma FillerShape(t: Track)
    requires t.depth >= 0
    ensures LiteralShape(Quoted(Filler(t)))
  {
    var plain, escape := Ending(t) + (Closers(t.depth) + ",test,"), "\\\"";
    ClosersShape(t.depth);
    QuoteFree(plain, escape);
    assert Filler(t) == plain + escape;
    assert escape[1..] == "\"" && "\""[1..] == "";
    assert EndsEscaped(escape, false) == EndsEscaped("\"", true) == Some(false);
  }

  lemma SettingShape(ident: string, literal: Literal)
    requires WordShape(ident) && LiteralShape(literal) && !literal.Unclosed?
    ensures Shape(Setting(ident, literal)) && !IsUnclosed(Setting(ident, literal))
  {
  }

  lemma MisreadShape(core: string)
    requires LiteralShape(Bare(core))
    ensures WrittenAs(Write(Misread(core), ""), Misread(core), "")
  {
    var b := Quoted(Filler(Behind(core)));
    FillerShape(Behind(core));
    SettingShape("a", Bare(core));
    SettingShape("b", b);
    assert ChildrenShape(Last(Setting("b", b), ""));
  }

  lemma ThreeLeaves(first: string, last: string)
    requires Opaque(first) && Opaque(last)
    ensures var args := [first, "test", last];
      ReadAll(args) ==
      [CfgPossibility.Leaf(first), CfgPossibility.Leaf(TEST), CfgPossibility.Leaf(last)]
  {
    OpaqueIsLeaf(first);
    OpaqueIsLeaf(last);
    TestIsLeaf();
  }

  lemma MiddleTestRead(l: Layout, first: string, last: string)
    requires l.Group? && l.isAll && Shape(l) && Opaque(first) && Opaque(last)
    requires ReadArgs("(" + (Body(Args(l)) + ")")) == Some([first, "test", last])
    ensures TextRequiresTest(Write(l, ""))
  {
    CallReadsArgs(l, [first, "test", last]);
    ThreeLeaves(first, last);
    MiddleTestRequired(first, last);
  }

  /** A conjunction of options other than `test` is not test-only. */
  lemma AtomsAlone(es: seq<Expr>)
    requires forall i :: 0 <= i < |es| ==> es[i].Atom? && es[i].name != TEST
    ensures ConstFree(All(es)) && CfgPolicy.ItemIsTestOnly([All(es)]) == Some(false)
  {
    var e := All(es);
    var on := set i | 0 <= i < |es| :: es[i].name;
    assert forall i :: 0 <= i < |es| ==> ConstFree(es[i]) && Eval(es[i], on);
    CfgPolicy.ItemIsTestOnlyIsExact([e]);
    assert TEST !in on && Eval([e][0], on);
    assert !exists i :: 0 <= i < |[e]| && !Eval([e][i], on);
  }

  lemma MisreadIsNotTestOnly(core: string)
    ensures ConstFree(Tree(Misread(core))) && CfgPolicy.ItemIsTestOnly([Tree(Misread(core))]) == Some(false)
  {
    var b := Quoted(Filler(Behind(core)));
    var es := [SettingTree("a", Bare(core)), SettingTree("b", b)];
    var last := Last(Setting("b", b), "");
    assert Trees(last) == [SettingTree("b", b)];
    assert Trees(More(Setting("a", Bare(core)), "", last)) == [Tree(Setting("a", Bare(core)))] + Trees(last);
    assert [SettingTree("a", Bare(core))] + [SettingTree("b", b)] == es;
    assert Tree(Misread(core)) == All(es);
    NamesWithValues("a", core);
    NamesWithValues("b", LiteralText(b));
    AtomsAlone(es);
  }

  lemma MisreadRequires(core: string)
    requires OutOfStep(core)
    ensures TextRequiresTest(Write(Misread(core), ""))
  {
    MisreadShape(core);
    MisreadBody(core);
    MisreadOpaque(core);
    FirstWalks(core, Outside, 0, false);
    FirstWalks(core, Track(1, None, false), 1, true);
    LastWalks(Outside, 0, false);
    LastWalks(Track(1, None, false), 1, true);
    MiddleTestParsed(MisreadFirst(core), MISREAD_LAST);
    MiddleTestRead(Misread(core), MisreadFirst(core), MISREAD_LAST);
  }

  /** Every unquoted literal of the layout is this one. */
  predicate OnlyBare(l: Layout, core: string) {
    match l
    case Leaf(_, _, value) => value.Some? && value.value.literal.Bare? ==> value.value.literal.core == core
    case Negation(_, _, inner, _, _) => OnlyBare(inner, core)
    case Group(_, _, _, children) => OnlyBareChildren(children, core)
  }

  predicate OnlyBareChildren(cs: Children, core: string) {
    OnlyBare(cs.child, core) && (cs.More? ==> OnlyBareChildren(cs.others, core))
  }

  lemma {:induction false} OnlyBareInStep(l: Layout, core: string)
    requires OnlyBare(l, core) && InStepLiteral(Bare(core))
    ensures InStep(l)
  {
    match l
    case Leaf(_, _, _) =>
    case Negation(_, _, inner, _, _) => OnlyBareInStep(inner, core);
    case Group(_, _, _, children) => OnlyBareChildrenInStep(children, core);
  }

  lemma {:induction false} OnlyBareChildrenInStep(cs: Children, core: string)
    requires OnlyBareChildren(cs, core) && InStepLiteral(Bare(core))
    ensures InStepChildren(cs)
  {
    OnlyBareInStep(cs.child, core);
    if cs.More? {
      OnlyBareChildrenInStep(cs.others, core);
    }
  }

  /** What this checker calls test-requiring the policy calls test-only. */
  ghost predicate TextIsSafe(l: Layout, gap: string) {
    ConstFree(Tree(l)) &&
    (TextRequiresTest(Write(l, gap)) ==> CfgPolicy.ItemIsTestOnly([Tree(l)]) == Some(true))
  }

  lemma OneLiteralIsSafe(l: Layout, gap: string, core: string)
    requires WrittenAs(Write(l, gap), l, gap) && OnlyBare(l, core) && InStepLiteral(Bare(core))
    ensures TextIsSafe(l, gap)
  {
    OnlyBareInStep(l, core);
    TextCheckersAgree(l, gap);
  }

  lemma MisreadIsUnsafe(core: string)
    requires OutOfStep(core)
    ensures WrittenAs(Write(Misread(core), ""), Misread(core), "") && OnlyBare(Misread(core), core)
    ensures !TextIsSafe(Misread(core), "")
  {
    MisreadShape(core);
    MisreadIsNotTestOnly(core);
    MisreadRequires(core);
    assert OnlyBareChildren(Last(Setting("b", Quoted(Filler(Behind(core)))), ""), core);
  }

  /** This checker can be trusted on every text whose unquoted literals are all this one. */
  ghost predicate AlwaysSafe(core: string) {
    forall l, gap :: WrittenAs(Write(l, gap), l, gap) && OnlyBare(l, core) ==> TextIsSafe(l, gap)
  }

  /** Keeping in step is exactly what an unquoted literal must do. */
  lemma LiteralIsSafeIffInStep(core: string)
    requires LiteralShape(Bare(core))
    ensures AlwaysSafe(core) <==> InStepLiteral(Bare(core))
  {
    if InStepLiteral(Bare(core)) {
      forall l, gap | WrittenAs(Write(l, gap), l, gap) && OnlyBare(l, core) ensures TextIsSafe(l, gap) {
        OneLiteralIsSafe(l, gap, core);
      }
    } else {
      MisreadIsUnsafe(core);
    }
  }

  // ── Raw strings ────────────────────────────────────────────────────────────

  /** `r"x"` and every other raw string without quotes, backslashes, commas and closing
      parentheses keeps in step. */
  lemma RawStringsKeepStep(inner: string)
    requires forall i :: 0 <= i < |inner| ==> inner[i] != '"' && inner[i] != '\\' && !IsStop(inner[i])
    ensures var l := Bare("r" + LiteralText(Quoted(inner)));
      LiteralShape(l) && InStepLiteral(l) && LiteralOpens(l) == 0
  {
    QuoteFree(inner, "");
    assert inner + "" == inner;
    PlainWalks("r", Outside, 0, false);
    LiteralWalks(Quoted(inner), Outside, 0, false);
    WalkBoth("r", LiteralText(Quoted(inner)), Outside, 0, false);
  }

  /** `r"\"`, a raw string with one backslash, whose closing quote this checker takes for
      an escaped one. */
  const RAW_BACKSLASH := "r\"\\\""

  lemma BackslashIsOutOfStep()
    ensures OutOfStep(RAW_BACKSLASH) && Behind(RAW_BACKSLASH) == Track(0, Some('"'), false)
  {
    var s := RAW_BACKSLASH;
    assert s[1..][1..][1..] == "\"" && "\""[1..] == "";
    var open := Outside.(quote := Some('"'));
    assert Walk(s[1..][1..], open, 0, false) == Walk("\"", open.(escaped := true), 0, false);
    assert Walk(s, Outside, 0, false) == Walk(s[1..], Outside, 0, false) == Some(open);
  }

  lemma MisreadPieces(core: string)
    ensures var body := ("a=" + (core + (",b=\"" + ("" + "")))) + ("," + ("test" + ("," + MISREAD_LAST)));
      "" + ("all" + ("" + ("(" + (body + (")" + ""))))) == "all(a=" + (core + ",b=\",test,\\\"\")")
  {
    var x, y := "a=" + (core + ",b=\""), ",test,\\\"\"";
    assert "," + ("test" + ("," + MISREAD_LAST)) == y;
    assert ",b=\"" + ("" + "") == ",b=\"";
    Regroup(x, y, ")");
    assert "all(a=" + (core + ",b=\",test,\\\"\")") == "all(" + (x + (y + ")"));
  }

  lemma MisreadText(core: string)
    requires Behind(core) == Track(0, Some('"'), false)
    ensures Write(Misread(core), "") == "all(a=" + (core + ",b=\",test,\\\"\")")
  {
    CallIsWritten(Misread(core), "");
    BodyCloses(Args(Misread(core)), "");
    MisreadBody(core);
    assert Closers(0) == "";
    MisreadPieces(core);
  }

  /** `all(a=r"\",b=",test,\"")` is valid Rust, test-requiring to this checker and not
      test-only to the policy. */
  lemma RawBackslashMisleads()
    ensures var l := Misread(RAW_BACKSLASH);
      && Write(l, "") == "all(a=" + (RAW_BACKSLASH + ",b=\",test,\\\"\")")
      && Parse(Write(l, "")) == Some(Tree(l)) && ConstFree(Tree(l))
      && CfgPolicy.ItemIsTestOnly([Tree(l)]) == Some(false)
      && TextRequiresTest(Write(l, ""))
  {
    BackslashIsOutOfStep();
    MisreadText(RAW_BACKSLASH);
    MisreadShape(RAW_BACKSLASH);
    WrittenParses(Misread(RAW_BACKSLASH), "");
    MisreadIsNotTestOnly(RAW_BACKSLASH);
    MisreadRequires(RAW_BACKSLASH);
  }
}
