/**
 What the texts of well-formed expressions look like to the plugin-boundary checker:
 walked over at a fixed depth, cut at exactly the written commas, and called leaves or
 operators as they were written.
 */
module CfgCallLayout {
  import opened Common
  import opened CfgSyntax
  import opened CfgParser
  import opened CfgCallText
  import CfgPossibility

  // ── Walking over a stretch ─────────────────────────────────────────────────

  /** Where the scan stands after `s`, if it never goes below depth `floor` and, unless
      `commas` are fine, meets no comma at that depth. */
  function Walk(s: string, t: Track, floor: int, commas: bool): (r: Option<Track>)
    ensures r.Some? && floor <= t.depth ==> floor <= r.value.depth
  {
    if s == "" then Some(t)
    else if t.quote.None? && s[0] == ',' && t.depth == floor && !commas then None
    else
      var u := Advance(t, s[0]);
      if u.depth < floor then None else Walk(s[1..], u, floor, commas)
  }

  lemma {:induction false} WalkConcat(a: string, b: string, t: Track, floor: int, commas: bool)
    requires Walk(a, t, floor, commas).Some?
    ensures Walk(a + b, t, floor, commas) == Walk(b, Walk(a, t, floor, commas).value, floor, commas)
  {
    if a == "" {
      assert a + b == b;
    } else {
      assert (a + b)[0] == a[0] && (a + b)[1..] == a[1..] + b;
      WalkConcat(a[1..], b, Advance(t, a[0]), floor, commas);
    }
  }

  /** A stretch inside the parentheses does not contain the closing one. */
  lemma {:induction false} CloseIsBehind(s: string, rest: string, t: Track, floor: int)
    requires floor >= 1 && Walk(s, t, floor, true).Some?
    ensures FindClose(s + rest, t) == Shift(|s|, FindClose(rest, Walk(s, t, floor, true).value))
  {
    if s == "" {
      assert s + rest == rest;
    } else {
      assert (s + rest)[0] == s[0] && (s + rest)[1..] == s[1..] + rest;
      CloseIsBehind(s[1..], rest, Advance(t, s[0]), floor);
    }
  }

  /** A stretch without outer commas belongs to one part. */
  lemma {:induction false} PartGoesOn(s: string, rest: string, t: Track, current: string)
    requires Walk(s, t, 0, false).Some?
    ensures Parts(s + rest, t, current) == Parts(rest, Walk(s, t, 0, false).value, current + s)
  {
    if s == "" {
      assert s + rest == rest && current + s == current;
    } else {
      assert (s + rest)[0] == s[0] && (s + rest)[1..] == s[1..] + rest;
      PartGoesOn(s[1..], rest, Advance(t, s[0]), current + [s[0]]);
      assert current + [s[0]] + s[1..] == current + s;
    }
  }

  // ── What the layouts' texts look like to the scan ──────────────────────────

  /** The characters this scan gives a meaning to. */
  predicate Special(c: char) {
    IsQuote(c) || c == '(' || c == ')' || c == ','
  }

  predicate NothingSpecial(s: string) {
    forall i :: 0 <= i < |s| ==> !Special(s[i])
  }

  lemma {:induction false} PlainWalks(s: string, t: Track, floor: int, commas: bool)
    requires NothingSpecial(s) && t.quote.None? && floor <= t.depth
    ensures Walk(s, t, floor, commas) == Some(t)
  {
    if s != "" {
      assert !Special(s[0]);
      PlainWalks(s[1..], t, floor, commas);
    }
  }

  /** Bare literals hold anything up to the next comma or closing parenthesis.  The two
      readings stay in step as long as every quote opened in one is closed in it. */
  predicate InStepLiteral(l: Literal) {
    l.Bare? ==> var r := Walk(l.core, Outside, 0, false); r.Some? && r.value.quote.None?
  }

  predicate InStep(l: Layout) {
    match l
    case Leaf(_, _, value) => value.Some? ==> InStepLiteral(value.value.literal)
    case Negation(_, _, inner, _, _) => InStep(inner)
    case Group(_, _, _, children) => InStepChildren(children)
  }

  predicate InStepChildren(cs: Children) {
    InStep(cs.child) && (cs.More? ==> InStepChildren(cs.others))
  }

  /** The parentheses that bare literals open outside quotes; they close none. */
  function LiteralOpens(l: Literal): nat {
    if !l.Bare? then 0
    else
      match Walk(l.core, Outside, 0, false)
      case None => 0
      case Some(t) => t.depth
  }

  function Opens(l: Layout): nat {
    match l
    case Leaf(_, _, value) => if value.Some? then LiteralOpens(value.value.literal) else 0
    case Negation(_, _, inner, _, _) => Opens(inner)
    case Group(_, _, _, children) => OpensIn(children)
  }

  function OpensIn(cs: Children): nat {
    Opens(cs.child) + if cs.More? then OpensIn(cs.others) else 0
  }

  function Deeper(t: Track, n: int): Track {
    t.(depth := t.depth + n)
  }

  /** Without commas and closing parentheses a walk never fails, and is the same walk at
      any depth. */
  lemma {:induction false} BareWalks(s: string, t: Track, n: int, floor: int, commas: bool)
    requires (forall i :: 0 <= i < |s| ==> !IsStop(s[i])) && (t.quote.None? ==> !t.escaped)
    requires 0 <= t.depth && floor <= t.depth + n && (t.quote.Some? ==> IsQuote(t.quote.value))
    ensures var r := Walk(s, t, 0, false);
      && r.Some? && (if r.value.quote.None? then !r.value.escaped else IsQuote(r.value.quote.value))
      && Walk(s, Deeper(t, n), floor, commas) == Some(Deeper(r.value, n))
  {
    if s != "" {
      assert !IsStop(s[0]);
      BareWalks(s[1..], Advance(t, s[0]), n, floor, commas);
    }
  }

  lemma {:induction false} InsideQuotes(inner: string, escaped: bool, depth: int, floor: int, commas: bool)
    requires EndsEscaped(inner, escaped).Some? && floor <= depth
    ensures var end := EndsEscaped(inner, escaped).value;
      Walk(inner, Track(depth, Some('"'), escaped), floor, commas) == Some(Track(depth, Some('"'), end))
  {
    if inner != "" {
      InsideQuotes(inner[1..], !escaped && inner[0] == '\\', depth, floor, commas);
    }
  }

  lemma LiteralWalks(l: Literal, t: Track, floor: int, commas: bool)
    requires LiteralShape(l) && InStepLiteral(l) && !l.Unclosed?
    requires t.quote.None? && !t.escaped && floor <= t.depth
    ensures Walk(LiteralText(l), t, floor, commas) == Some(Deeper(t, LiteralOpens(l)))
  {
    match l {
      case Bare(core) => BareWalks(core, Outside, t.depth, floor, commas);
      case Quoted(inner) =>
        var open := t.(quote := Some('"'));
        InsideQuotes(inner, false, t.depth, floor, commas);
        WalkConcat(inner, "\"", open, floor, commas);
        assert "\""[1..] == "";
        assert ("\"" + (inner + "\""))[1..] == inner + "\"";
    }
  }

  /** Both halves of a text walked over in turn. */
  lemma WalkBoth(a: string, b: string, t: Track, floor: int, commas: bool)
    requires Walk(a, t, floor, commas) == Some(t)
    ensures Walk(a + b, t, floor, commas) == Walk(b, t, floor, commas)
  {
    WalkConcat(a, b, t, floor, commas);
  }

  lemma LeafWalks(l: Layout, t: Track, floor: int, commas: bool)
    requires l.Leaf? && Shape(l) && InStep(l) && !IsUnclosed(l)
    requires t.quote.None? && !t.escaped && floor <= t.depth
    ensures Walk(Write(l, ""), t, floor, commas) == Some(Deeper(t, Opens(l)))
  {
    PlainWalks(l.lead, t, floor, commas);
    PlainWalks(l.ident, t, floor, commas);
    match l.value {
      case None =>
        WalkBoth(l.ident, "", t, floor, commas);
        WalkBoth(l.lead, l.ident + "", t, floor, commas);
      case Some(v) =>
        PlainWalks(v.before, t, floor, commas);
        PlainWalks("=", t, floor, commas);
        PlainWalks(v.after, t, floor, commas);
        LiteralWalks(v.literal, t, floor, commas);
        var x1 := LiteralText(v.literal) + "";
        assert x1 == LiteralText(v.literal);
        var x2 := v.after + x1;
        var x3 := "=" + x2;
        var x4 := v.before + x3;
        WalkBoth(v.after, x1, t, floor, commas);
        WalkBoth("=", x2, t, floor, commas);
        WalkBoth(v.before, x3, t, floor, commas);
        WalkBoth(l.ident, x4, t, floor, commas);
        WalkBoth(l.lead, l.ident + x4, t, floor, commas);
    }
  }

  // ── Calls and their bodies ─────────────────────────────────────────────────

  function LayoutSize(l: Layout): nat {
    match l
    case Leaf(_, _, _) => 0
    case Negation(_, _, inner, _, _) => 2 + LayoutSize(inner)
    case Group(_, _, _, children) => 1 + ChildrenSize(children)
  }

  function ChildrenSize(cs: Children): nat {
    1 + LayoutSize(cs.child) + if cs.More? then ChildrenSize(cs.others) else 0
  }

  function Word(l: Layout): string
    requires !l.Leaf?
  {
    if l.Negation? then "not" else if l.isAll then "all" else "any"
  }

  /** The arguments of an operator; `not` is written like a list of one. */
  function Args(l: Layout): (cs: Children)
    requires !l.Leaf?
    ensures ChildrenSize(cs) < LayoutSize(l)
    ensures Shape(l) ==> ChildrenShape(cs)
    ensures InStep(l) ==> InStepChildren(cs)
    ensures Opens(l) == OpensIn(cs)
  {
    match l
    case Negation(_, _, inner, None, close) => Last(inner, close)
    case Negation(_, _, inner, Some(before), close) => LastWithComma(inner, before, close)
    case Group(_, _, _, children) => children
  }

  /** What stands between the parentheses. */
  function Body(cs: Children): string {
    match cs
    case Last(child, close) => Write(child, close)
    case LastWithComma(child, before, close) => Write(child, before + ("," + close))
    case More(child, before, others) => Write(child, before + ("," + Body(others)))
  }

  lemma CallIsWritten(l: Layout, tail: string)
    requires !l.Leaf?
    ensures Write(l, tail) == l.lead + (Word(l) + (l.gap + ("(" + WriteChildren(Args(l), tail))))
  {
  }

  lemma Push4(a: string, b: string, c: string, d: string, x: string, tail: string)
    ensures a + (b + (c + (d + (x + tail)))) == (a + (b + (c + (d + x)))) + tail
  {
    Regroup(d, x, tail);
    Regroup(c, d + x, tail);
    Regroup(b, c + (d + x), tail);
    Regroup(a, b + (c + (d + x)), tail);
  }

  lemma LeafSplits(l: Layout, tail: string)
    requires l.Leaf?
    ensures Write(l, tail) == Write(l, "") + tail
  {
    match l.value {
      case None =>
        assert l.ident + "" == l.ident;
        Regroup(l.lead, l.ident, tail);
      case Some(v) =>
        var x := LiteralText(v.literal);
        assert x + "" == x;
        Push4(l.ident, v.before, "=", v.after, x, tail);
        Regroup(l.lead, l.ident + (v.before + ("=" + (v.after + x))), tail);
    }
  }

  /** Texts are written one after the other. */
  lemma {:induction false} WriteSplits(l: Layout, tail: string)
    ensures Write(l, tail) == Write(l, "") + tail
    decreases LayoutSize(l)
  {
    if l.Leaf? {
      LeafSplits(l, tail);
    } else {
      CallIsWritten(l, tail);
      CallIsWritten(l, "");
      BodyCloses(Args(l), tail);
      BodyCloses(Args(l), "");
      var body := Body(Args(l)) + (")" + "");
      assert ")" + "" == ")";
      Regroup(Body(Args(l)), ")", tail);
      Push4(l.lead, Word(l), l.gap, "(", body, tail);
    }
  }

  lemma {:induction false} BodyCloses(cs: Children, tail: string)
    ensures WriteChildren(cs, tail) == Body(cs) + (")" + tail)
    decreases ChildrenSize(cs)
  {
    var end := ")" + tail;
    match cs {
      case Last(child, close) =>
        WriteSplits(child, close);
        WriteSplits(child, close + end);
        Regroup(Write(child, ""), close, end);
      case LastWithComma(child, before, close) =>
        WriteSplits(child, before + ("," + close));
        WriteSplits(child, before + ("," + (close + end)));
        Regroup(",", close, end);
        Regroup(before, "," + close, end);
        Regroup(Write(child, ""), before + ("," + close), end);
      case More(child, before, others) =>
        BodyCloses(others, tail);
        WriteSplits(child, before + ("," + Body(others)));
        WriteSplits(child, before + ("," + (Body(others) + end)));
        Regroup(",", Body(others), end);
        Regroup(before, "," + Body(others), end);
        Regroup(Write(child, ""), before + ("," + Body(others)), end);
    }
  }

  // ── Layouts keep depth and quotes ──────────────────────────────────────────

  lemma ParenthesesWalk(body: string, t: Track, n: int, floor: int, commas: bool)
    requires t.quote.None? && !t.escaped && floor <= t.depth
    requires n >= 0 && Walk(body, Deeper(t, 1), floor, commas) == Some(Deeper(t, 1 + n))
    ensures Walk("(" + (body + ")"), t, floor, commas) == Some(Deeper(t, n))
  {
    var inside := Deeper(t, 1);
    WalkConcat(body, ")", inside, floor, commas);
    assert ")"[1..] == "";
    assert ("(" + (body + ")"))[1..] == body + ")";
  }

  lemma {:induction false} LayoutWalks(l: Layout, t: Track, floor: int, commas: bool)
    requires Shape(l) && InStep(l) && !IsUnclosed(l)
    requires t.quote.None? && !t.escaped && floor <= t.depth
    ensures Walk(Write(l, ""), t, floor, commas) == Some(Deeper(t, Opens(l)))
    decreases LayoutSize(l)
  {
    if l.Leaf? {
      LeafWalks(l, t, floor, commas);
    } else {
      BodyWalks(Args(l), Deeper(t, 1), floor, commas);
      CallWalks(l, t, floor, commas);
    }
  }

  lemma CallWalks(l: Layout, t: Track, floor: int, commas: bool)
    requires Shape(l) && !l.Leaf? && t.quote.None? && !t.escaped && floor <= t.depth
    requires Walk(Body(Args(l)), Deeper(t, 1), floor, commas) == Some(Deeper(t, 1 + Opens(l)))
    ensures Walk(Write(l, ""), t, floor, commas) == Some(Deeper(t, Opens(l)))
  {
    var call := "(" + (Body(Args(l)) + ")");
    CallIsWritten(l, "");
    BodyCloses(Args(l), "");
    assert ")" + "" == ")";
    ParenthesesWalk(Body(Args(l)), t, Opens(l), floor, commas);
    HeadWalks(l.lead, Word(l), l.gap, call, t, floor, commas);
  }

  lemma HeadWalks(lead: string, word: string, gap: string, call: string, t: Track, floor: int, commas: bool)
    requires AllSpace(lead) && NothingSpecial(word) && AllSpace(gap) && t.quote.None? && floor <= t.depth
    ensures Walk(lead + (word + (gap + call)), t, floor, commas) == Walk(call, t, floor, commas)
  {
    PlainWalks(gap, t, floor, commas);
    PlainWalks(word, t, floor, commas);
    PlainWalks(lead, t, floor, commas);
    WalkBoth(gap, call, t, floor, commas);
    WalkBoth(word, gap + call, t, floor, commas);
    WalkBoth(lead, word + (gap + call), t, floor, commas);
  }

  /** A layout and the white space behind it. */
  lemma {:induction false} WrittenWalks(l: Layout, gap: string, t: Track, floor: int, commas: bool)
    requires Shape(l) && InStep(l) && !IsUnclosed(l) && AllSpace(gap)
    requires t.quote.None? && !t.escaped && floor <= t.depth
    ensures Walk(Write(l, gap), t, floor, commas) == Some(Deeper(t, Opens(l)))
    decreases LayoutSize(l), 1
  {
    LayoutWalks(l, t, floor, commas);
    WriteSplits(l, gap);
    PlainWalks(gap, Deeper(t, Opens(l)), floor, commas);
    WalkConcat(Write(l, ""), gap, t, floor, commas);
  }

  lemma {:induction false} BodyWalks(cs: Children, t: Track, floor: int, commas: bool)
    requires ChildrenShape(cs) && InStepChildren(cs)
    requires t.quote.None? && !t.escaped && floor <= t.depth && (commas || floor < t.depth)
    ensures Walk(Body(cs), t, floor, commas) == Some(Deeper(t, OpensIn(cs)))
    decreases ChildrenSize(cs)
  {
    var u := Deeper(t, Opens(cs.child));
    LayoutWalks(cs.child, t, floor, commas);
    match cs {
      case Last(child, close) =>
        WriteSplits(child, close);
        PlainWalks(close, u, floor, commas);
        WalkConcat(Write(child, ""), close, t, floor, commas);
      case LastWithComma(child, before, close) =>
        PlainWalks(close, u, floor, commas);
        CommaWalks(child, before, close, t, u, floor, commas);
      case More(child, before, others) =>
        BodyWalks(others, u, floor, commas);
        CommaWalks(child, before, Body(others), t, u, floor, commas);
    }
  }

  lemma CommaWalks(child: Layout, before: string, rest: string, t: Track, u: Track, floor: int, commas: bool)
    requires Walk(Write(child, ""), t, floor, commas) == Some(u)
    requires AllSpace(before) && u.quote.None? && floor <= u.depth && (commas || floor < u.depth)
    ensures Walk(Write(child, before + ("," + rest)), t, floor, commas) == Walk(rest, u, floor, commas)
  {
    WriteSplits(child, before + ("," + rest));
    PlainWalks(before, u, floor, commas);
    assert ("," + rest)[1..] == rest;
    WalkBoth(before, "," + rest, u, floor, commas);
    WalkConcat(Write(child, ""), before + ("," + rest), t, floor, commas);
  }

  // ── The arguments found are the arguments written ──────────────────────────

  /** The stretches between the commas of an argument list. */
  function RawParts(cs: Children): seq<string> {
    match cs
    case Last(child, close) => [Write(child, close)]
    case LastWithComma(child, before, close) => [Write(child, before), close]
    case More(child, before, others) => [Write(child, before)] + RawParts(others)
  }

  lemma PartThenComma(part: string, rest: string)
    requires Walk(part, Outside, 0, false) == Some(Outside)
    ensures Parts(part + ("," + rest), Outside, "") == Prepend(part, Parts(rest, Outside, ""))
  {
    PartGoesOn(part, "," + rest, Outside, "");
    assert "" + part == part;
    assert ("," + rest)[1..] == rest;
  }

  lemma WholePart(part: string)
    requires Walk(part, Outside, 0, false) == Some(Outside)
    ensures Parts(part, Outside, "") == Some([part])
  {
    PartGoesOn(part, "", Outside, "");
    assert part + "" == part && "" + part == part;
  }

  lemma WriteInsert(l: Layout, gap: string, rest: string)
    ensures Write(l, gap + rest) == Write(l, gap) + rest
  {
    WriteSplits(l, gap);
    WriteSplits(l, gap + rest);
    Regroup(Write(l, ""), gap, rest);
  }

  lemma {:induction false} BodyParts(cs: Children)
    requires ChildrenShape(cs) && InStepChildren(cs) && OpensIn(cs) == 0
    ensures Parts(Body(cs), Outside, "") == Some(RawParts(cs))
  {
    match cs {
      case Last(child, close) =>
        WrittenWalks(child, close, Outside, 0, false);
        WholePart(Body(cs));
      case LastWithComma(child, before, close) =>
        WrittenWalks(child, before, Outside, 0, false);
        WriteInsert(child, before, "," + close);
        PartThenComma(Write(child, before), close);
        PlainWalks(close, Outside, 0, false);
        WholePart(close);
        assert [Write(child, before)] + [close] == RawParts(cs);
      case More(child, before, others) =>
        WrittenWalks(child, before, Outside, 0, false);
        WriteInsert(child, before, "," + Body(others));
        PartThenComma(Write(child, before), Body(others));
        BodyParts(others);
    }
  }

  lemma OpenParenthesis(rest: string)
    ensures FindClose("(" + rest, Outside) == Shift(1, FindClose(rest, Track(1, None, false)))
  {
    var s := "(" + rest;
    assert s[0] == '(' && s[1..] == rest;
  }

  lemma CloseParenthesis(n: nat)
    ensures FindClose(")", Track(1 + n, None, false)) == if n == 0 then Some(0) else None
  {
    assert ")"[1..] == "";
  }

  lemma CloseFound(body: string, n: nat)
    requires Walk(body, Track(1, None, false), 1, true) == Some(Track(1 + n, None, false))
    ensures FindClose("(" + (body + ")"), Outside) == if n == 0 then Some(|body| + 1) else None
  {
    OpenParenthesis(body + ")");
    CloseIsBehind(body, ")", Track(1, None, false), 1);
    CloseParenthesis(n);
  }

  lemma ArgsOfBody(body: string, n: nat)
    requires Walk(body, Track(1, None, false), 1, true) == Some(Track(1 + n, None, false))
    ensures ReadArgs("(" + (body + ")")) == if n == 0 then SplitArgs(body) else None
  {
    var s := "(" + (body + ")");
    CloseFound(body, n);
    assert s[|body| + 2..] == "" && s[1..|body| + 1] == body;
  }

  /** The arguments of a call are what stands between its commas; if a bare literal opens
      a parenthesis the call never closes, and there are none. */
  lemma CallArgs(cs: Children)
    requires ChildrenShape(cs) && InStepChildren(cs)
    ensures var parts := StripAll(RawParts(cs));
      ReadArgs("(" + (Body(cs) + ")")) == if OpensIn(cs) > 0 || "" in parts then None else Some(parts)
  {
    BodyWalks(cs, Track(1, None, false), 1, true);
    ArgsOfBody(Body(cs), OpensIn(cs));
    if OpensIn(cs) == 0 {
      BodyParts(cs);
    }
  }

  // ── Stripping ──────────────────────────────────────────────────────────────

  lemma {:induction false} StripEndLast(s: string)
    ensures StripEnd(s) == "" || !IsSpace(StripEnd(s)[|StripEnd(s)| - 1])
  {
    if s != "" && IsSpace(s[|s| - 1]) {
      StripEndLast(s[..|s| - 1]);
    }
  }

  lemma {:induction false} StripEndKeeps(p: string, q: string)
    requires q != "" && !IsSpace(q[0])
    ensures StripEnd(q) != "" && StripEnd(q)[0] == q[0] && StripEnd(p + q) == p + StripEnd(q)
  {
    var s := p + q;
    if IsSpace(q[|q| - 1]) {
      assert s[..|s| - 1] == p + q[..|q| - 1];
      StripEndKeeps(p, q[..|q| - 1]);
    }
  }

  lemma StripTwice(s: string)
    ensures Strip(Strip(s)) == Strip(s)
  {
    var t := Skip(s);
    StripEndLast(t);
    if t != "" {
      StripEndKeeps("", t);
      assert "" + t == t;
    }
  }

  lemma ReadsStripped(s: string)
    ensures ReadText(Strip(s)) == ReadText(s)
  {
    StripTwice(s);
  }

  lemma StripSpace(gap: string)
    requires AllSpace(gap)
    ensures Strip(gap) == ""
  {
    SkipGap(gap, "");
    assert gap + "" == gap;
  }

  /** A written text starts, after white space, with its first word. */
  lemma StripFromWord(lead: string, word: string, rest: string)
    requires AllSpace(lead) && WordShape(word)
    ensures Strip(lead + (word + rest)) == StripEnd(word + rest) && Strip(lead + (word + rest)) != ""
  {
    SkipGap(lead, word + rest);
    assert (word + rest)[0] == word[0];
    StripEndKeeps("", word + rest);
    assert "" + (word + rest) == word + rest;
  }

  lemma WrittenIsNotBlank(l: Layout, gap: string)
    requires Shape(l)
    ensures Strip(Write(l, gap)) != ""
  {
    if l.Leaf? {
      match l.value {
        case None => StripFromWord(l.lead, l.ident, gap);
        case Some(v) =>
          var rest := v.before + ("=" + (v.after + (LiteralText(v.literal) + gap)));
          StripFromWord(l.lead, l.ident, rest);
      }
    } else {
      CallIsWritten(l, gap);
      StripFromWord(l.lead, Word(l), l.gap + ("(" + WriteChildren(Args(l), gap)));
    }
  }

  // ── Calls ──────────────────────────────────────────────────────────────────

  function OperatorOf(l: Layout): Operator
    requires !l.Leaf?
  {
    if l.Negation? then CfgPossibility.OpNot else if l.isAll then CfgPossibility.OpAll else CfgPossibility.OpAny
  }

  /** A call without the white space around it. */
  function Core(l: Layout): string
    requires !l.Leaf?
  {
    Word(l) + (l.gap + ("(" + (Body(Args(l)) + ")")))
  }

  lemma StripCall(l: Layout, gap: string)
    requires !l.Leaf? && Shape(l) && AllSpace(gap)
    ensures Strip(Write(l, gap)) == Core(l)
  {
    CallIsWritten(l, gap);
    BodyCloses(Args(l), gap);
    StripParts(l.lead, Word(l), l.gap, Body(Args(l)), gap);
  }

  lemma StripParts(lead: string, word: string, gap: string, body: string, tail: string)
    requires AllSpace(lead) && WordShape(word) && AllSpace(tail)
    ensures Strip(lead + (word + (gap + ("(" + (body + (")" + tail)))))) == word + (gap + ("(" + (body + ")")))
  {
    var core := word + (gap + ("(" + (body + ")")));
    StripFromWord(lead, word, gap + ("(" + (body + (")" + tail))));
    Push4(word, gap, "(", body, ")", tail);
    EndsWith(word, gap, body);
    StripGap(core, tail);
  }

  lemma EndsWith(word: string, gap: string, body: string)
    ensures var core := word + (gap + ("(" + (body + ")"))); core != "" && core[|core| - 1] == ')'
  {
  }

  lemma CallKeyword(l: Layout)
    requires !l.Leaf? && Shape(l)
    ensures Keyword(Core(l)) == Some((OperatorOf(l), "(" + (Body(Args(l)) + ")")))
  {
    var call := "(" + (Body(Args(l)) + ")");
    CutWord(Word(l), l.gap + call);
    SkipGap(l.gap, call);
  }

  lemma CutWord(word: string, rest: string)
    requires |word| == 3
    ensures |word + rest| >= 3 && (word + rest)[..3] == word && (word + rest)[3..] == rest
  {
  }

  function ReadAll(parts: seq<string>): seq<Call> {
    seq(|parts|, i requires 0 <= i < |parts| => ReadText(parts[i]))
  }

  lemma ReadsStrippedAll(parts: seq<string>)
    ensures ReadAll(StripAll(parts)) == ReadAll(parts)
  {
    var args := StripAll(parts);
    forall i | 0 <= i < |parts| ensures ReadText(args[i]) == ReadText(parts[i]) {
      ReadsStripped(parts[i]);
    }
  }

  /** How a written call is read: its arguments one by one, unless some stretch between
      the commas is blank or some bare literal opens a parenthesis, in which case it is
      not taken for a call at all. */
  lemma CallText(l: Layout, gap: string)
    requires !l.Leaf? && Shape(l) && InStep(l) && AllSpace(gap)
    ensures var parts := RawParts(Args(l));
      ReadText(Write(l, gap)) ==
      if Opens(l) > 0 || "" in StripAll(parts) then CfgPossibility.Leaf(Core(l))
      else CfgPossibility.Op(OperatorOf(l), ReadAll(parts))
  {
    StripCall(l, gap);
    CallKeyword(l);
    CallArgs(Args(l));
    ReadsStrippedAll(RawParts(Args(l)));
  }

  predicate TrailingComma(cs: Children) {
    cs.LastWithComma? || (cs.More? && TrailingComma(cs.others))
  }

  /** A blank stretch is what a comma after the last argument leaves. */
  lemma {:induction false} BlankPart(cs: Children)
    requires ChildrenShape(cs)
    ensures "" in StripAll(RawParts(cs)) <==> TrailingComma(cs)
  {
    var parts := RawParts(cs);
    match cs {
      case Last(child, close) => WrittenIsNotBlank(child, close);
      case LastWithComma(child, before, close) =>
        StripSpace(close);
        assert StripAll(parts)[1] == "";
      case More(child, before, others) =>
        WrittenIsNotBlank(child, before);
        BlankPart(others);
        assert StripAll(parts) == [Strip(parts[0])] + StripAll(RawParts(others));
    }
  }

  // ── Leaves ─────────────────────────────────────────────────────────────────

  lemma WordIsNoCall(ident: string)
    requires WordShape(ident)
    ensures Keyword(ident) == None
  {
    if |ident| > 3 {
      assert ident[3..][0] == ident[3];
    }
  }

  lemma ValueIsNoCall(ident: string, before: string, rest: string)
    requires WordShape(ident) && AllSpace(before) && Starts(rest, '=')
    ensures Keyword(ident + (before + rest)) == None
  {
    var n := ident + (before + rest);
    if |ident| == 3 {
      assert n[3..] == before + rest;
      SkipGap(before, rest);
    } else if |ident| > 3 {
      assert n[3..][0] == ident[3];
    } else if |n| >= 3 {
      assert n[|ident|] == (before + rest)[0];
      assert !IsAsciiAlnum(n[|ident|]);
      assert n[..3][|ident|] == n[|ident|];
    }
  }

  lemma NamesWithValues(ident: string, rest: string)
    requires WordShape(ident)
    ensures ident + "=" + rest != TEST
  {
    var name := ident + "=" + rest;
    assert name[|ident|] == '=';
    assert forall i :: 0 <= i < |TEST| ==> TEST[i] != '=';
  }

  /** A leaf is read as a leaf, and as `test` exactly if it is that option. */
  lemma LeafText(l: Layout, gap: string)
    requires l.Leaf? && Shape(l) && AllSpace(gap)
    ensures var c := ReadText(Write(l, gap));
      c.Leaf? && (c.text == TEST <==> Tree(l) == Atom(TEST))
  {
    match l.value {
      case None =>
        StripFromWord(l.lead, l.ident, gap);
        StripGap(l.ident, gap);
        WordIsNoCall(l.ident);
      case Some(v) =>
        var q := "=" + (v.after + (LiteralText(v.literal) + gap));
        StripFromWord(l.lead, l.ident, v.before + q);
        Regroup(l.ident, v.before, q);
        StripEndKeeps(l.ident + v.before, q);
        Regroup(l.ident, v.before, StripEnd(q));
        ValueIsNoCall(l.ident, v.before, StripEnd(q));
        NamesWithValues(l.ident, LiteralText(v.literal));
        EqualsIsNotTest(l.ident + v.before, StripEnd(q));
    }
  }

  lemma EqualsIsNotTest(p: string, q: string)
    requires Starts(q, '=')
    ensures p + q != TEST
  {
    assert (p + q)[|p|] == '=';
    assert forall i :: 0 <= i < |TEST| ==> TEST[i] != '=';
  }
}
