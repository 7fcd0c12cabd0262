/**
 The recursive-descent parser for `cfg` expressions, and the language it accepts.
 A `Layout` is an expression together with the white space, trailing commas and
 literals it was written with; the parser accepts exactly the written layouts.
 */
module CfgParser {
  import opened Common
  import opened CfgSyntax
  import CfgPolicy

  // ── Scanning ───────────────────────────────────────────────────────────────

  predicate IsSpace(c: char) {
    var n := c as int;
    || 9 <= n <= 13 || 28 <= n <= 32 || n == 0x85 || n == 0xA0 || n == 0x1680
    || 0x2000 <= n <= 0x200A || n == 0x2028 || n == 0x2029 || n == 0x202F || n == 0x205F || n == 0x3000
  }

  /** The characters the grammar gives a meaning of their own. */
  predicate IsMark(c: char) {
    c == '(' || c == ')' || c == ',' || c == '=' || c == '"' || c == '\'' || c == '\\'
  }

  predicate IsAsciiAlnum(c: char) {
    '0' <= c <= '9' || 'a' <= c <= 'z' || 'A' <= c <= 'Z'
  }

  /** What is known of `str.isalnum`, whatever the Unicode version. */
  ghost predicate IsAlphabet(alnum: char -> bool) {
    && (forall c :: IsAsciiAlnum(c) ==> alnum(c))
    && (forall c :: alnum(c) ==> !IsSpace(c) && !IsMark(c))
  }

  type Alphabet = alnum: char -> bool | IsAlphabet(alnum) witness IsAsciiAlnum

  /** Some such classification; nothing below depends on which. */
  const isAlnum: Alphabet

  predicate IsWord(c: char): (b: bool)
    ensures IsAsciiAlnum(c) ==> b
    ensures b ==> !IsSpace(c) && !IsMark(c)
  {
    isAlnum(c) || c == '_' || c == '-' || c == ':' || c == '.'
  }

  predicate Starts(s: string, c: char) {
    s != "" && s[0] == c
  }

  function Skip(s: string): (r: string)
    ensures |r| <= |s|
    ensures r == "" || !IsSpace(r[0])
  {
    if s != "" && IsSpace(s[0]) then Skip(s[1..]) else s
  }

  function WordLength(s: string): (n: nat)
    ensures n <= |s|
  {
    if s != "" && IsWord(s[0]) then 1 + WordLength(s[1..]) else 0
  }

  /** How much a quoted literal takes after its opening quote. */
  function QuotedLength(s: string, escaped: bool): (n: nat)
    ensures n <= |s|
  {
    if s == "" then 0
    else if escaped then 1 + QuotedLength(s[1..], false)
    else if s[0] == '"' then 1
    else 1 + QuotedLength(s[1..], s[0] == '\\')
  }

  predicate IsStop(c: char) {
    c == ',' || c == ')'
  }

  function BareLength(s: string): (n: nat)
    ensures n <= |s|
  {
    if s != "" && !IsStop(s[0]) then 1 + BareLength(s[1..]) else 0
  }

  function StripEnd(s: string): (r: string)
    ensures |r| <= |s|
  {
    if s != "" && IsSpace(s[|s| - 1]) then StripEnd(s[..|s| - 1]) else s
  }

  // ── What the parser computes, on the text still ahead ──────────────────────

  /** A token and the text after it; `None` is a `ValueError`. */
  type Read<T> = Option<(T, string)>

  function ReadIdent(s: string): (r: Read<string>)
    ensures r.Some? ==> |r.value.1| < |s|
  {
    var t := Skip(s);
    var n := WordLength(t);
    if n == 0 then None else Some((t[..n], t[n..]))
  }

  function ReadLiteral(s: string): (r: Read<string>)
    ensures r.Some? ==> |r.value.1| <= |s|
  {
    var t := Skip(s);
    if Starts(t, '"') then
      var n := 1 + QuotedLength(t[1..], false);
      Some((t[..n], t[n..]))
    else
      var n := BareLength(t);
      var literal := StripEnd(Skip(t[..n]));
      if literal == "" then None else Some((literal, t[n..]))
  }

  function ReadExpr(s: string): (r: Read<Expr>)
    ensures r.Some? ==> |r.value.1| < |s|
    decreases |s|, 0
  {
    match ReadIdent(s)
    case None => None
    case Some((ident, after)) =>
      var p := Skip(after);
      if Starts(p, '(') && ident == "not" then
        ReadNegated(p[1..])
      else if Starts(p, '(') && ident == "all" then
        (match ReadChildren(p[1..])
         case None => None
         case Some((es, rest)) => Some((All(es), rest)))
      else if Starts(p, '(') && ident == "any" then
        (match ReadChildren(p[1..])
         case None => None
         case Some((es, rest)) => Some((Any(es), rest)))
      else if Starts(p, '=') then
        (match ReadLiteral(p[1..])
         case None => None
         case Some((literal, rest)) => Some((Atom(ident + "=" + literal), rest)))
      else Some((Atom(ident), p))
  }

  /** The argument of `not`, one optional comma and the closing parenthesis. */
  function ReadNegated(s: string): (r: Read<Expr>)
    ensures r.Some? ==> |r.value.1| < |s|
    decreases |s|, 1
  {
    match ReadExpr(s)
    case None => None
    case Some((e, after)) =>
      var q := Skip(after);
      var close := if Starts(q, ',') then Skip(q[1..]) else q;
      if Starts(close, ')') then Some((Not(e), close[1..])) else None
  }

  /** One or more expressions, separated by commas, and the closing parenthesis. */
  function ReadChildren(s: string): (r: Read<seq<Expr>>)
    ensures r.Some? ==> |r.value.1| < |s|
    decreases |s|, 1
  {
    match ReadExpr(s)
    case None => None
    case Some((e, after)) =>
      var q := Skip(after);
      if Starts(q, ',') then
        var next := Skip(q[1..]);
        if Starts(next, ')') then Some(([e], next[1..]))
        else
          match ReadChildren(next)
          case None => None
          case Some((es, rest)) => Some(([e] + es, rest))
      else if Starts(q, ')') then Some(([e], q[1..]))
      else None
  }

  function Parse(text: string): Option<Expr> {
    match ReadExpr(text)
    case None => None
    case Some((e, rest)) => if Skip(rest) == "" then Some(e) else None
  }

  // ── Layouts ────────────────────────────────────────────────────────────────

  datatype Literal = Quoted(inner: string) | Unclosed(inner: string) | Bare(core: string)

  datatype Value = Value(before: string, after: string, literal: Literal)

  datatype Layout =
    | Leaf(lead: string, ident: string, value: Option<Value>)
    | Negation(lead: string, gap: string, inner: Layout, comma: Option<string>, close: string)
    | Group(lead: string, isAll: bool, gap: string, children: Children)

  datatype Children =
    | Last(child: Layout, close: string)
    | LastWithComma(child: Layout, before: string, close: string)
    | More(child: Layout, before: string, others: Children)

  function LiteralText(l: Literal): string {
    match l
    case Quoted(inner) => "\"" + (inner + "\"")
    case Unclosed(inner) => "\"" + inner
    case Bare(core) => core
  }

  function AfterNegated(comma: Option<string>, close: string, tail: string): string {
    match comma
    case None => close + (")" + tail)
    case Some(before) => before + ("," + (close + (")" + tail)))
  }

  /** The text of a layout, followed by `tail`. */
  function Write(l: Layout, tail: string): string {
    match l
    case Leaf(lead, ident, None) => lead + (ident + tail)
    case Leaf(lead, ident, Some(v)) =>
      lead + (ident + (v.before + ("=" + (v.after + (LiteralText(v.literal) + tail)))))
    case Negation(lead, gap, inner, comma, close) =>
      lead + ("not" + (gap + ("(" + Write(inner, AfterNegated(comma, close, tail)))))
    case Group(lead, isAll, gap, children) =>
      lead + ((if isAll then "all" else "any") + (gap + ("(" + WriteChildren(children, tail))))
  }

  function WriteChildren(cs: Children, tail: string): string {
    match cs
    case Last(child, close) => Write(child, close + (")" + tail))
    case LastWithComma(child, before, close) => Write(child, before + ("," + (close + (")" + tail))))
    case More(child, before, others) => Write(child, before + ("," + WriteChildren(others, tail)))
  }

  function Tree(l: Layout): Expr {
    match l
    case Leaf(_, ident, None) => Atom(ident)
    case Leaf(_, ident, Some(v)) => Atom(ident + "=" + LiteralText(v.literal))
    case Negation(_, _, inner, _, _) => Not(Tree(inner))
    case Group(_, isAll, _, children) => if isAll then All(Trees(children)) else Any(Trees(children))
  }

  function Trees(cs: Children): seq<Expr> {
    match cs
    case Last(child, _) => [Tree(child)]
    case LastWithComma(child, _, _) => [Tree(child)]
    case More(child, _, others) => [Tree(child)] + Trees(others)
  }

  predicate AllSpace(s: string) {
    forall i :: 0 <= i < |s| ==> IsSpace(s[i])
  }

  predicate WordShape(s: string) {
    s != "" && forall i :: 0 <= i < |s| ==> IsWord(s[i])
  }

  /** Whether a quoted text without an unescaped quote ends inside an escape. */
  function EndsEscaped(s: string, escaped: bool): Option<bool> {
    if s == "" then Some(escaped)
    else if escaped then EndsEscaped(s[1..], false)
    else if s[0] == '"' then None
    else EndsEscaped(s[1..], s[0] == '\\')
  }

  predicate LiteralShape(l: Literal) {
    match l
    case Quoted(inner) => EndsEscaped(inner, false) == Some(false)
    case Unclosed(inner) => EndsEscaped(inner, false).Some?
    case Bare(core) =>
      && core != "" && !IsSpace(core[0]) && core[0] != '"' && !IsSpace(core[|core| - 1])
      && forall i :: 0 <= i < |core| ==> !IsStop(core[i])
  }

  /** A literal that never closes swallows whatever follows. */
  predicate IsUnclosed(l: Layout) {
    l.Leaf? && l.value.Some? && l.value.value.literal.Unclosed?
  }

  predicate Shape(l: Layout) {
    match l
    case Leaf(lead, ident, value) =>
      && AllSpace(lead) && WordShape(ident)
      && (value.Some? ==>
            && AllSpace(value.value.before) && AllSpace(value.value.after)
            && LiteralShape(value.value.literal))
    case Negation(lead, gap, inner, comma, close) =>
      && AllSpace(lead) && AllSpace(gap) && AllSpace(close)
      && (comma.Some? ==> AllSpace(comma.value))
      && Shape(inner) && !IsUnclosed(inner)
    case Group(lead, _, gap, children) => AllSpace(lead) && AllSpace(gap) && ChildrenShape(children)
  }

  predicate ChildrenShape(cs: Children) {
    match cs
    case Last(child, close) => Shape(child) && !IsUnclosed(child) && AllSpace(close)
    case LastWithComma(child, before, close) =>
      Shape(child) && !IsUnclosed(child) && AllSpace(before) && AllSpace(close)
    case More(child, before, others) =>
      Shape(child) && !IsUnclosed(child) && AllSpace(before) && ChildrenShape(others)
  }

  /** What may come after an expression: white space, then a comma, a closing
      parenthesis or nothing. */
  predicate Follows(tail: string) {
    Skip(tail) == "" || IsStop(Skip(tail)[0])
  }

  // ── Scanning what was written ──────────────────────────────────────────────

  lemma {:induction false} SkipGap(gap: string, s: string)
    requires AllSpace(gap)
    ensures Skip(gap + s) == Skip(s)
  {
    if gap == "" {
      assert gap + s == s;
    } else {
      assert (gap + s)[1..] == gap[1..] + s;
      SkipGap(gap[1..], s);
    }
  }

  lemma {:induction false} WordTaken(w: string, s: string)
    requires forall i :: 0 <= i < |w| ==> IsWord(w[i])
    requires s == "" || !IsWord(s[0])
    ensures WordLength(w + s) == |w|
  {
    if w == "" {
      assert w + s == s;
    } else {
      assert (w + s)[1..] == w[1..] + s;
      WordTaken(w[1..], s);
    }
  }

  lemma IdentTaken(lead: string, w: string, s: string)
    requires AllSpace(lead) && WordShape(w)
    requires s == "" || !IsWord(s[0])
    ensures ReadIdent(lead + (w + s)) == Some((w, s))
  {
    SkipGap(lead, w + s);
    assert !IsSpace(w[0]) && (w + s)[0] == w[0];
    WordTaken(w, s);
    assert (w + s)[..|w|] == w && (w + s)[|w|..] == s;
  }

  lemma {:induction false} QuotedTaken(inner: string, escaped: bool, s: string)
    requires EndsEscaped(inner, escaped) == Some(false)
    ensures QuotedLength(inner + ("\"" + s), escaped) == |inner| + 1
  {
    var t := inner + ("\"" + s);
    if inner == "" {
      assert t[0] == '"';
    } else {
      assert t[1..] == inner[1..] + ("\"" + s);
      QuotedTaken(inner[1..], !escaped && inner[0] == '\\', s);
    }
  }

  lemma {:induction false} UnclosedTaken(inner: string, escaped: bool)
    requires EndsEscaped(inner, escaped).Some?
    ensures QuotedLength(inner, escaped) == |inner|
  {
    if inner != "" {
      UnclosedTaken(inner[1..], !escaped && inner[0] == '\\');
    }
  }

  lemma {:induction false} BareTaken(core: string, s: string)
    requires forall i :: 0 <= i < |core| ==> !IsStop(core[i])
    ensures BareLength(core + s) == |core| + BareLength(s)
  {
    if core == "" {
      assert core + s == s;
    } else {
      assert (core + s)[1..] == core[1..] + s;
      BareTaken(core[1..], s);
    }
  }

  /** The characters before a comma or closing parenthesis that may follow are blank. */
  lemma {:induction false} BlankBeforeStop(tail: string)
    requires Follows(tail)
    ensures AllSpace(tail[..BareLength(tail)]) && Skip(tail[BareLength(tail)..]) == Skip(tail)
  {
    if tail != "" && IsSpace(tail[0]) {
      BlankBeforeStop(tail[1..]);
      var n := BareLength(tail[1..]);
      assert tail[1 + n..] == tail[1..][n..];
      assert tail[..1 + n] == [tail[0]] + tail[1..][..n];
    }
  }

  lemma {:induction false} StripGap(core: string, gap: string)
    requires AllSpace(gap) && core != "" && !IsSpace(core[|core| - 1])
    ensures StripEnd(core + gap) == core
  {
    if gap == "" {
      assert core + gap == core;
    } else {
      var s := core + gap;
      assert s[..|s| - 1] == core + gap[..|gap| - 1];
      StripGap(core, gap[..|gap| - 1]);
    }
  }

  lemma BareLiteralTaken(core: string, tail: string)
    requires LiteralShape(Bare(core)) && Follows(tail)
    ensures var r := ReadLiteral(core + tail);
      r.Some? && r.value.0 == core && Skip(r.value.1) == Skip(tail)
  {
    var s, n := core + tail, BareLength(tail);
    BareTaken(core, tail);
    BlankBeforeStop(tail);
    assert s[..|core| + n] == core + tail[..n];
    assert s[|core| + n..] == tail[n..];
    StripGap(core, tail[..n]);
  }

  lemma QuotedLiteralTaken(inner: string, tail: string)
    requires LiteralShape(Quoted(inner))
    ensures ReadLiteral(LiteralText(Quoted(inner)) + tail) == Some((LiteralText(Quoted(inner)), tail))
  {
    var t := LiteralText(Quoted(inner)) + tail;
    assert t[1..] == inner + ("\"" + tail);
    QuotedTaken(inner, false, tail);
    assert t[..|inner| + 2] == LiteralText(Quoted(inner)) && t[|inner| + 2..] == tail;
  }

  lemma UnclosedLiteralTaken(inner: string)
    requires LiteralShape(Unclosed(inner))
    ensures ReadLiteral(LiteralText(Unclosed(inner)) + "") == Some((LiteralText(Unclosed(inner)), ""))
  {
    var t := LiteralText(Unclosed(inner));
    assert t + "" == t && t[1..] == inner;
    UnclosedTaken(inner, false);
    assert t[..|inner| + 1] == t && t[|inner| + 1..] == "";
  }

  lemma LiteralTaken(gap: string, l: Literal, tail: string)
    requires AllSpace(gap) && LiteralShape(l) && Follows(tail) && (l.Unclosed? ==> tail == "")
    ensures var r := ReadLiteral(gap + (LiteralText(l) + tail));
      r.Some? && r.value.0 == LiteralText(l) && Skip(r.value.1) == Skip(tail)
  {
    var t := LiteralText(l) + tail;
    SkipGap(gap, t);
    assert Skip(t) == t;
    assert ReadLiteral(gap + t) == ReadLiteral(t);
    match l {
      case Quoted(inner) => QuotedLiteralTaken(inner, tail);
      case Unclosed(inner) => UnclosedLiteralTaken(inner);
      case Bare(core) => BareLiteralTaken(core, tail);
    }
  }

  // ── Every written layout is read back ──────────────────────────────────────

  lemma FollowsStop(gap: string, c: char, s: string)
    requires AllSpace(gap) && IsStop(c)
    ensures Skip(gap + ([c] + s)) == [c] + s && Follows(gap + ([c] + s))
  {
    SkipGap(gap, [c] + s);
  }

  /** The first character after a keyword, an identifier or a gap. */
  lemma NotWord(gap: string, s: string)
    requires AllSpace(gap) && (s == "" || !IsWord(s[0]))
    ensures gap + s == "" || !IsWord((gap + s)[0])
  {
  }

  lemma FollowsIsNotWord(tail: string)
    requires Follows(tail)
    ensures tail == "" || !IsWord(tail[0])
  {
  }

  lemma LeafReads(l: Layout, tail: string)
    requires l.Leaf? && Shape(l) && Follows(tail) && (IsUnclosed(l) ==> tail == "")
    ensures var r := ReadExpr(Write(l, tail));
      r.Some? && r.value.0 == Tree(l) && Skip(r.value.1) == Skip(tail)
  {
    match l.value {
      case None =>
        FollowsIsNotWord(tail);
        IdentTaken(l.lead, l.ident, tail);
        assert Skip(Skip(tail)) == Skip(tail);
      case Some(v) =>
        LiteralTaken(v.after, v.literal, tail);
        ValueReads(l.lead, l.ident, v.before, v.after + (LiteralText(v.literal) + tail));
    }
  }

  lemma ValueReads(lead: string, ident: string, gap: string, s: string)
    requires AllSpace(lead) && WordShape(ident) && AllSpace(gap) && ReadLiteral(s).Some?
    ensures var (literal, rest) := ReadLiteral(s).value;
      ReadExpr(lead + (ident + (gap + ("=" + s)))) == Some((Atom(ident + "=" + literal), rest))
  {
    var eq := "=" + s;
    NotWord(gap, eq);
    IdentTaken(lead, ident, gap + eq);
    SkipGap(gap, eq);
    assert Skip(eq) == eq && eq[1..] == s;
  }

  /** A keyword and its opening parenthesis, at the head of a written layout. */
  lemma KeywordTaken(lead: string, word: string, gap: string, s: string)
    requires AllSpace(lead) && AllSpace(gap) && WordShape(word)
    ensures ReadIdent(lead + (word + (gap + ("(" + s)))) == Some((word, gap + ("(" + s)))
    ensures Skip(gap + ("(" + s)) == "(" + s && ("(" + s)[1..] == s
  {
    NotWord(gap, "(" + s);
    IdentTaken(lead, word, gap + ("(" + s));
    SkipGap(gap, "(" + s);
  }

  lemma NegationReads(lead: string, gap: string, s: string, e: Expr, tail: string)
    requires AllSpace(lead) && AllSpace(gap) && ReadNegated(s) == Some((Not(e), tail))
    ensures ReadExpr(lead + ("not" + (gap + ("(" + s)))) == Some((Not(e), tail))
  {
    KeywordTaken(lead, "not", gap, s);
  }

  lemma GroupReads(lead: string, isAll: bool, gap: string, s: string)
    requires AllSpace(lead) && AllSpace(gap) && ReadChildren(s).Some?
    ensures var (es, rest) := ReadChildren(s).value;
      ReadExpr(lead + ((if isAll then "all" else "any") + (gap + ("(" + s)))) ==
      Some((if isAll then All(es) else Any(es), rest))
  {
    if isAll {
      KeywordTaken(lead, "all", gap, s);
    } else {
      KeywordTaken(lead, "any", gap, s);
    }
  }

  lemma {:induction false} LayoutReads(l: Layout, tail: string)
    requires Shape(l) && Follows(tail) && (IsUnclosed(l) ==> tail == "")
    ensures var r := ReadExpr(Write(l, tail));
      r.Some? && r.value.0 == Tree(l) && Skip(r.value.1) == Skip(tail)
    decreases l
  {
    match l {
      case Leaf(_, _, _) => LeafReads(l, tail);
      case Negation(lead, gap, inner, comma, close) =>
        var after := AfterNegated(comma, close, tail);
        ClosesNegated(comma, close, tail);
        LayoutReads(inner, after);
        NegationReads(lead, gap, Write(inner, after), Tree(inner), tail);
      case Group(lead, isAll, gap, children) =>
        ChildrenRead(children, tail);
        GroupReads(lead, isAll, gap, WriteChildren(children, tail));
    }
  }

  lemma ClosesNegated(comma: Option<string>, close: string, tail: string)
    requires AllSpace(close) && (comma.Some? ==> AllSpace(comma.value))
    ensures var after := AfterNegated(comma, close, tail);
      && Follows(after)
      && (if Starts(Skip(after), ',') then Skip(Skip(after)[1..]) else Skip(after)) == ")" + tail
  {
    FollowsStop(close, ')', tail);
    match comma
    case None =>
    case Some(before) =>
      var s := close + (")" + tail);
      FollowsStop(before, ',', s);
      assert ("," + s)[1..] == s;
  }

  lemma {:induction false} ChildrenRead(cs: Children, tail: string)
    requires ChildrenShape(cs)
    ensures ReadChildren(WriteChildren(cs, tail)) == Some((Trees(cs), tail))
    decreases cs
  {
    match cs {
      case Last(child, close) =>
        FollowsStop(close, ')', tail);
        LayoutReads(child, close + (")" + tail));
        assert (")" + tail)[1..] == tail;
      case LastWithComma(child, before, close) =>
        var s := close + (")" + tail);
        FollowsStop(close, ')', tail);
        FollowsStop(before, ',', s);
        LayoutReads(child, before + ("," + s));
        assert ("," + s)[1..] == s && (")" + tail)[1..] == tail;
      case More(child, before, others) =>
        var s := WriteChildren(others, tail);
        FollowsStop(before, ',', s);
        LayoutReads(child, before + ("," + s));
        assert ("," + s)[1..] == s;
        ChildrenRead(others, tail);
        ReadsFromNextToken(s);
    }
  }

  /** Reading starts at the next token, so white space in front changes nothing. */
  lemma ReadsFromNextToken(s: string)
    ensures ReadChildren(Skip(s)) == ReadChildren(s)
    ensures ReadChildren(s).Some? ==> !Starts(Skip(s), ')')
  {
    assert Skip(Skip(s)) == Skip(s);
    assert ReadIdent(Skip(s)) == ReadIdent(s);
    assert ReadExpr(Skip(s)) == ReadExpr(s);
  }

  // ── Everything that is read was written by some layout ─────────────────────

  function Lead(s: string): string {
    s[..|s| - |Skip(s)|]
  }

  lemma {:induction false} SplitLead(s: string)
    ensures AllSpace(Lead(s)) && s == Lead(s) + Skip(s)
  {
    if s != "" && IsSpace(s[0]) {
      SplitLead(s[1..]);
      assert Lead(s) == [s[0]] + Lead(s[1..]);
      assert s == [s[0]] + s[1..];
    }
  }

  lemma {:induction false} WordSplit(t: string)
    ensures forall i :: 0 <= i < WordLength(t) ==> IsWord(t[i])
  {
    if t != "" && IsWord(t[0]) {
      WordSplit(t[1..]);
      forall i | 0 < i < WordLength(t) ensures IsWord(t[i]) {
        assert t[i] == t[1..][i - 1];
      }
    }
  }

  lemma {:induction false} BareSplit(t: string)
    ensures forall i :: 0 <= i < BareLength(t) ==> !IsStop(t[i])
  {
    if t != "" && !IsStop(t[0]) {
      BareSplit(t[1..]);
      forall i | 0 < i < BareLength(t) ensures !IsStop(t[i]) {
        assert t[i] == t[1..][i - 1];
      }
    }
  }

  lemma {:induction false} QuotedSplit(s: string, escaped: bool)
    ensures var n := QuotedLength(s, escaped);
      || (n > 0 && s[n - 1] == '"' && EndsEscaped(s[..n - 1], escaped) == Some(false))
      || (n == |s| && EndsEscaped(s, escaped).Some?)
  {
    if s != "" && (escaped || s[0] != '"') {
      QuotedSplit(s[1..], !escaped && s[0] == '\\');
      var n := QuotedLength(s, escaped);
      if n > 1 {
        assert s[..n - 1][1..] == s[1..][..n - 2];
      }
    }
  }

  lemma {:induction false} StripSplit(s: string) returns (gap: string)
    ensures AllSpace(gap) && s == StripEnd(s) + gap
    ensures StripEnd(s) == "" || !IsSpace(StripEnd(s)[|StripEnd(s)| - 1])
  {
    gap := "";
    if s != "" && IsSpace(s[|s| - 1]) {
      var front := s[..|s| - 1];
      var g := StripSplit(front);
      gap := g + [s[|s| - 1]];
      assert s == front + [s[|s| - 1]];
    }
  }

  lemma QuotedRebuilt(t: string) returns (l: Literal, tail: string)
    requires Starts(t, '"')
    ensures LiteralShape(l) && t == LiteralText(l) + tail && (l.Unclosed? ==> tail == "")
    ensures var n := 1 + QuotedLength(t[1..], false); LiteralText(l) == t[..n] && tail == t[n..]
  {
    var s := t[1..];
    var n := QuotedLength(s, false);
    QuotedSplit(s, false);
    assert t == "\"" + s;
    tail := t[1 + n..];
    if n > 0 && s[n - 1] == '"' && EndsEscaped(s[..n - 1], false) == Some(false) {
      l := Quoted(s[..n - 1]);
      assert s[..n] == s[..n - 1] + "\"";
    } else {
      l := Unclosed(s);
    }
  }

  lemma BareRebuilt(t: string) returns (core: string, tail: string)
    requires !Starts(t, '"') && Skip(t) == t && StripEnd(Skip(t[..BareLength(t)])) != ""
    ensures LiteralShape(Bare(core)) && t == core + tail
    ensures core == StripEnd(Skip(t[..BareLength(t)])) && Skip(tail) == Skip(t[BareLength(t)..])
  {
    var n := BareLength(t);
    var run := t[..n];
    UnledPrefix(t, n);
    var gap := StripSplit(run);
    core := StripEnd(run);
    tail := gap + t[n..];
    SkipGap(gap, t[n..]);
    assert t == run + t[n..];
    Regroup(core, gap, t[n..]);
    BareSplit(t);
    CoreIsBare(core, t, tail, n);
  }

  lemma UnledPrefix(t: string, n: nat)
    requires n <= |t| && Skip(t) == t
    ensures Skip(t[..n]) == t[..n]
  {
    assert n > 0 ==> t[..n][0] == t[0];
  }

  lemma CoreIsBare(core: string, t: string, tail: string, n: nat)
    requires t == core + tail && |core| <= n <= |t| && core != ""
    requires !Starts(t, '"') && Skip(t) == t && !IsSpace(core[|core| - 1])
    requires forall i :: 0 <= i < n ==> !IsStop(t[i])
    ensures LiteralShape(Bare(core))
  {
    assert forall i :: 0 <= i < |core| ==> core[i] == t[i];
    assert core[0] == t[0];
  }

  lemma LiteralRebuilt(s: string) returns (gap: string, l: Literal, tail: string)
    requires ReadLiteral(s).Some?
    ensures AllSpace(gap) && LiteralShape(l) && s == gap + (LiteralText(l) + tail)
    ensures var (literal, rest) := ReadLiteral(s).value; LiteralText(l) == literal && Skip(tail) == Skip(rest)
    ensures l.Unclosed? ==> tail == ""
  {
    var t := Skip(s);
    SplitLead(s);
    gap := Lead(s);
    if Starts(t, '"') {
      l, tail := QuotedRebuilt(t);
    } else {
      SkipAgain(s);
      var core;
      core, tail := BareRebuilt(t);
      l := Bare(core);
    }
  }

  lemma SkipAgain(s: string)
    ensures Skip(Skip(s)) == Skip(s)
  {
  }

  lemma CutAt(t: string, n: nat)
    requires n <= |t|
    ensures t == t[..n] + t[n..]
  {
  }

  lemma IdentRebuilt(s: string) returns (lead: string)
    requires ReadIdent(s).Some?
    ensures var (ident, after) := ReadIdent(s).value;
      AllSpace(lead) && WordShape(ident) && s == lead + (ident + after)
  {
    SplitLead(s);
    lead := Lead(s);
    var t := Skip(s);
    WordSplit(t);
    CutAt(t, WordLength(t));
  }

  /** `l` followed by `tail` is a way to write `s`, and reading `s` gives `r`. */
  ghost predicate Rebuilds(s: string, l: Layout, tail: string, r: (Expr, string)) {
    && Shape(l) && (IsUnclosed(l) ==> tail == "")
    && s == Write(l, tail) && Tree(l) == r.0 && Skip(tail) == Skip(r.1)
  }

  lemma LeafRebuilt(s: string, lead: string, ident: string, after: string) returns (l: Layout, tail: string)
    requires AllSpace(lead) && WordShape(ident) && s == lead + (ident + after)
    requires !Starts(Skip(after), '=')
    ensures Rebuilds(s, l, tail, (Atom(ident), Skip(after)))
  {
    l, tail := Leaf(lead, ident, None), after;
    SkipAgain(after);
  }

  lemma SplitBefore(s: string, stop: string)
    requires |stop| == 1 && Starts(Skip(s), stop[0])
    ensures AllSpace(Lead(s)) && s == Lead(s) + (stop + Skip(s)[1..])
  {
    SplitLead(s);
    assert Skip(s) == stop + Skip(s)[1..];
  }

  lemma ValueRebuilt(s: string, lead: string, ident: string, after: string) returns (l: Layout, tail: string)
    requires AllSpace(lead) && WordShape(ident) && s == lead + (ident + after)
    requires Starts(Skip(after), '=') && ReadLiteral(Skip(after)[1..]).Some?
    ensures var (literal, rest) := ReadLiteral(Skip(after)[1..]).value;
      Rebuilds(s, l, tail, (Atom(ident + "=" + literal), rest))
  {
    var p := Skip(after);
    SplitBefore(after, "=");
    var gap, literal;
    gap, literal, tail := LiteralRebuilt(p[1..]);
    l := Leaf(lead, ident, Some(Value(Lead(after), gap, literal)));
  }

  lemma {:induction false} ExprRebuilt(s: string) returns (l: Layout, tail: string)
    requires ReadExpr(s).Some?
    ensures Rebuilds(s, l, tail, ReadExpr(s).value)
    decreases |s|, 0
  {
    var (ident, after) := ReadIdent(s).value;
    var lead := IdentRebuilt(s);
    var p := Skip(after);
    if Starts(p, '(') && (ident == "not" || ident == "all" || ident == "any") {
      SplitBefore(after, "(");
      if ident == "not" {
        var inner, comma, close;
        inner, comma, close, tail := NegatedRebuilt(p[1..]);
        l := Negation(lead, Lead(after), inner, comma, close);
      } else {
        var children;
        children, tail := ChildrenRebuilt(p[1..]);
        l := Group(lead, ident == "all", Lead(after), children);
      }
    } else if Starts(p, '=') {
      l, tail := ValueRebuilt(s, lead, ident, after);
    } else {
      l, tail := LeafRebuilt(s, lead, ident, after);
    }
  }

  lemma {:induction false} NegatedRebuilt(s: string)
    returns (inner: Layout, comma: Option<string>, close: string, tail: string)
    requires ReadNegated(s).Some?
    ensures AllSpace(close) && (comma.Some? ==> AllSpace(comma.value))
    ensures Shape(inner) && !IsUnclosed(inner)
    ensures s == Write(inner, AfterNegated(comma, close, tail))
    ensures ReadNegated(s).value == (Not(Tree(inner)), tail)
    decreases |s|, 1
  {
    var t;
    inner, t := ExprRebuilt(s);
    var q := Skip(t);
    if Starts(q, ',') {
      SplitBefore(t, ",");
      SplitBefore(q[1..], ")");
      comma, close, tail := Some(Lead(t)), Lead(q[1..]), Skip(q[1..])[1..];
    } else {
      SplitBefore(t, ")");
      comma, close, tail := None, Lead(t), q[1..];
    }
  }

  lemma {:induction false} ChildrenRebuilt(s: string) returns (cs: Children, tail: string)
    requires ReadChildren(s).Some?
    ensures ChildrenShape(cs) && s == WriteChildren(cs, tail) && ReadChildren(s).value == (Trees(cs), tail)
    decreases |s|, 1
  {
    var child, t := ExprRebuilt(s);
    var q := Skip(t);
    if Starts(q, ',') {
      SplitBefore(t, ",");
      var next := Skip(q[1..]);
      if Starts(next, ')') {
        SplitBefore(q[1..], ")");
        cs, tail := LastWithComma(child, Lead(t), Lead(q[1..])), next[1..];
      } else {
        ReadsFromNextToken(q[1..]);
        var others;
        others, tail := ChildrenRebuilt(q[1..]);
        cs := More(child, Lead(t), others);
      }
    } else {
      SplitBefore(t, ")");
      cs, tail := Last(child, Lead(t)), q[1..];
    }
  }

  // ── The accepted language ──────────────────────────────────────────────────

  /** `text` is layout `l` with trailing white space. */
  ghost predicate WrittenAs(text: string, l: Layout, gap: string) {
    AllSpace(gap) && Shape(l) && (IsUnclosed(l) ==> gap == "") && text == Write(l, gap)
  }

  /** The parser accepts a text exactly when some layout of an expression writes it,
      and then returns that expression. */
  lemma ParseIsExact(text: string, e: Expr)
    ensures Parse(text) == Some(e) <==> exists l, gap :: WrittenAs(text, l, gap) && Tree(l) == e
  {
    if Parse(text) == Some(e) {
      var l, tail := ExprRebuilt(text);
      SplitLead(tail);
      assert WrittenAs(text, l, tail) && Tree(l) == e;
    }
    forall l, gap | WrittenAs(text, l, gap) && Tree(l) == e ensures Parse(text) == Some(e) {
      WrittenParses(l, gap);
    }
  }

  lemma WrittenParses(l: Layout, gap: string)
    requires WrittenAs(Write(l, gap), l, gap)
    ensures Parse(Write(l, gap)) == Some(Tree(l))
  {
    SkipGap(gap, "");
    assert gap + "" == gap;
    LayoutReads(l, gap);
  }

  /** White space, commas after the last argument and the like never change which
      expression a text denotes. */
  lemma LayoutIsUnambiguous(l: Layout, gap: string, other: Layout, otherGap: string)
    requires WrittenAs(Write(l, gap), l, gap) && WrittenAs(Write(l, gap), other, otherGap)
    ensures Tree(l) == Tree(other)
  {
    WrittenParses(l, gap);
    WrittenParses(other, otherGap);
  }

  lemma {:induction false} TreeIsConstFree(l: Layout)
    ensures ConstFree(Tree(l))
    decreases l
  {
    match l {
      case Leaf(_, _, _) =>
      case Negation(_, _, inner, _, _) => TreeIsConstFree(inner);
      case Group(_, _, _, children) => TreesAreConstFree(children);
    }
  }

  lemma {:induction false} TreesAreConstFree(cs: Children)
    ensures forall i :: 0 <= i < |Trees(cs)| ==> ConstFree(Trees(cs)[i])
    decreases cs
  {
    TreeIsConstFree(cs.child);
    if cs.More? {
      TreesAreConstFree(cs.others);
    }
  }

  /** From text to verdict: for whatever is parsed, the policy's answer is whether
      the expression can hold without `test`. */
  lemma ParsedVerdictIsExact(text: string)
    requires Parse(text).Some?
    ensures var e := Parse(text).value;
      ConstFree(e) && CfgPolicy.CanBeTrueWithoutTest(e) == Some(CfgPolicy.SatisfiableWithoutTest(e))
  {
    var l, _ := ExprRebuilt(text);
    TreeIsConstFree(l);
    CfgPolicy.CanBeTrueIsExact(Parse(text).value);
  }

  /** No argument at all is refused, although `cfg` itself allows it. */
  lemma EmptyGroupIsRefused(lead: string, isAll: bool, gap: string, inside: string, rest: string)
    requires AllSpace(lead) && AllSpace(gap) && AllSpace(inside)
    ensures Parse(lead + ((if isAll then "all" else "any") + (gap + ("(" + (inside + (")" + rest)))))) == None
  {
    var s := inside + (")" + rest);
    KeywordTaken(lead, if isAll then "all" else "any", gap, s);
    SkipGap(inside, ")" + rest);
    assert ReadIdent(s) == None;
    assert ReadChildren(s) == None;
  }

  /** An option's name may hold underscores, hyphens, colons and dots anywhere. */
  lemma NamesParseWhole(name: string)
    requires name != "" && forall c :: c in name ==> IsAsciiAlnum(c) || c in {'_', '-', ':', '.'}
    ensures Parse(name) == Some(Atom(name))
  {
    var l := Leaf("", name, None);
    assert forall i :: 0 <= i < |name| ==> name[i] in name;
    assert Write(l, "") == name;
    WrittenParses(l, "");
  }

  // ── The parser ─────────────────────────────────────────────────────────────

  /** Children read earlier in front of those still to be read. */
  function Joined(before: seq<Expr>, r: Read<seq<Expr>>): Read<seq<Expr>> {
    match r
    case None => None
    case Some((es, rest)) => Some((before + es, rest))
  }

  lemma JoinedNone(r: Read<seq<Expr>>)
    ensures Joined([], r) == r
  {
    assert r.Some? ==> [] + r.value.0 == r.value.0;
  }

  lemma ChildrenStep(before: seq<Expr>, s: string)
    ensures match ReadExpr(s)
      case None => Joined(before, ReadChildren(s)) == None
      case Some((e, after)) =>
        var q, children := Skip(after), before + [e];
        Joined(before, ReadChildren(s)) ==
        if Starts(q, ',') && !Starts(Skip(q[1..]), ')') then Joined(children, ReadChildren(Skip(q[1..])))
        else if Starts(q, ',') then Some((children, Skip(q[1..])[1..]))
        else if Starts(q, ')') then Some((children, q[1..]))
        else None
  {
    if ReadExpr(s).Some? {
      var (e, after) := ReadExpr(s).value;
      var q := Skip(after);
      if Starts(q, ',') {
        var others := ReadChildren(Skip(q[1..]));
        assert others.Some? ==> before + ([e] + others.value.0) == before + [e] + others.value.0;
      }
    }
  }

  lemma SliceAhead(text: string, from: nat, to: nat)
    requires from <= to <= |text|
    ensures text[from..][..to - from] == text[from..to] && text[from..][to - from..] == text[to..]
  {
  }

  class Parser {
    const text: string
    var pos: nat

    constructor (text: string)
      ensures this.text == text && pos == 0
    {
      this.text, pos := text, 0;
    }

    ghost predicate Valid()
      reads this
    {
      pos <= |text|
    }

    ghost function Ahead(): string
      requires Valid()
      reads this
    {
      text[pos..]
    }

    method SkipWs()
      requires Valid()
      modifies this
      ensures Valid() && Ahead() == Skip(old(Ahead())) && old(pos) <= pos
    {
      while pos < |text| && IsSpace(text[pos])
        invariant Valid() && old(pos) <= pos
        invariant Skip(Ahead()) == Skip(old(Ahead()))
      {
        assert Ahead()[1..] == text[pos + 1..];
        pos := pos + 1;
      }
    }

    method Peek() returns (c: Option<char>)
      requires Valid()
      modifies this
      ensures Valid() && Ahead() == Skip(old(Ahead())) && old(pos) <= pos
      ensures c == if Ahead() == "" then None else Some(Ahead()[0])
    {
      SkipWs();
      c := if pos >= |text| then None else Some(text[pos]);
    }

    method Consume(expected: char) returns (ok: bool)
      requires Valid()
      modifies this
      ensures Valid() && old(pos) <= pos
      ensures ok == Starts(Skip(old(Ahead())), expected)
      ensures ok ==> Ahead() == Skip(old(Ahead()))[1..] && old(pos) < pos
    {
      SkipWs();
      ok := pos < |text| && text[pos] == expected;
      if ok {
        assert Ahead()[1..] == text[pos + 1..];
        pos := pos + 1;
      }
    }

    method ConsumeIdent() returns (ident: Option<string>)
      requires Valid()
      modifies this
      ensures Valid() && old(pos) <= pos
      ensures match ReadIdent(old(Ahead()))
        case None => ident == None
        case Some((w, rest)) => ident == Some(w) && Ahead() == rest && old(pos) < pos
    {
      SkipWs();
      var start := pos;
      while pos < |text| && IsWord(text[pos])
        invariant Valid() && start <= pos
        invariant WordLength(text[start..]) == pos - start + WordLength(Ahead())
      {
        assert Ahead()[1..] == text[pos + 1..];
        pos := pos + 1;
      }
      SliceAhead(text, start, pos);
      ident := if start == pos then None else Some(text[start..pos]);
    }

    /** The inside of a quoted literal, from after its opening quote. */
    method SkipQuoted()
      requires Valid()
      modifies this
      ensures Valid() && pos == old(pos) + QuotedLength(old(Ahead()), false)
    {
      var escaped, closed := false, false;
      while !closed && pos < |text|
        invariant Valid() && old(pos) <= pos
        invariant QuotedLength(old(Ahead()), false) ==
          pos - old(pos) + if closed then 0 else QuotedLength(Ahead(), escaped)
        decreases |text| - pos, !closed
      {
        var c := text[pos];
        assert Ahead()[1..] == text[pos + 1..];
        pos := pos + 1;
        if escaped {
          escaped := false;
        } else if c == '\\' {
          escaped := true;
        } else if c == '"' {
          closed := true;
        }
      }
    }

    method SkipBare()
      requires Valid()
      modifies this
      ensures Valid() && pos == old(pos) + BareLength(old(Ahead()))
    {
      while pos < |text| && !IsStop(text[pos])
        invariant Valid() && old(pos) <= pos
        invariant BareLength(old(Ahead())) == pos - old(pos) + BareLength(Ahead())
      {
        assert Ahead()[1..] == text[pos + 1..];
        pos := pos + 1;
      }
    }

    method ConsumeLiteral() returns (literal: Option<string>)
      requires Valid()
      modifies this
      ensures Valid() && old(pos) <= pos
      ensures match ReadLiteral(old(Ahead()))
        case None => literal == None
        case Some((l, rest)) => literal == Some(l) && Ahead() == rest
    {
      SkipWs();
      var start := pos;
      ghost var t := Ahead();
      if pos < |text| && text[pos] == '"' {
        pos := pos + 1;
        assert Ahead() == t[1..];
        SkipQuoted();
        SliceAhead(text, start, pos);
        return Some(text[start..pos]);
      }
      SkipBare();
      SliceAhead(text, start, pos);
      var stripped := StripEnd(Skip(text[start..pos]));
      literal := if stripped == "" then None else Some(stripped);
    }

    method ParseExpr() returns (r: Option<Expr>)
      requires Valid()
      modifies this
      ensures Valid() && old(pos) <= pos
      ensures match ReadExpr(old(Ahead()))
        case None => r == None
        case Some((e, rest)) => r == Some(e) && Ahead() == rest && old(pos) < pos
      decreases |text| - pos, 0
    {
      var ident := ConsumeIdent();
      if ident == None {
        return None;
      }
      var name := ident.value;
      var next := Peek();
      if next == Some('(') && (name == "all" || name == "any" || name == "not") {
        SkipAgain(Ahead());
        var _ := Consume('(');
        if name == "not" {
          r := ParseNegated();
          return;
        }
        var children := ParseChildren();
        if children == None {
          return None;
        }
        return Some(if name == "all" then All(children.value) else Any(children.value));
      }
      if next == Some('=') {
        var _ := Consume('=');
        var literal := ConsumeLiteral();
        if literal == None {
          return None;
        }
        name := name + "=" + literal.value;
      }
      r := Some(Atom(name));
    }

    method ParseNegated() returns (r: Option<Expr>)
      requires Valid()
      modifies this
      ensures Valid() && old(pos) <= pos
      ensures match ReadNegated(old(Ahead()))
        case None => r == None
        case Some((e, rest)) => r == Some(e) && Ahead() == rest && old(pos) < pos
      decreases |text| - pos, 1
    {
      var inner := ParseExpr();
      if inner == None {
        return None;
      }
      var next := Peek();
      if next == Some(',') {
        var _ := Consume(',');
      }
      var closed := Consume(')');
      r := if closed then Some(Not(inner.value)) else None;
    }

    method ParseChildren() returns (r: Option<seq<Expr>>)
      requires Valid()
      modifies this
      ensures Valid() && old(pos) <= pos
      ensures match ReadChildren(old(Ahead()))
        case None => r == None
        case Some((es, rest)) => r == Some(es) && Ahead() == rest && old(pos) < pos
      decreases |text| - pos, 1
    {
      var children: seq<Expr> := [];
      ghost var goal := ReadChildren(Ahead());
      JoinedNone(goal);
      while true
        invariant Valid() && old(pos) <= pos
        invariant Joined(children, ReadChildren(Ahead())) == goal
        decreases |text| - pos
      {
        ChildrenStep(children, Ahead());
        var child := ParseExpr();
        if child == None {
          return None;
        }
        children := children + [child.value];
        var next := Peek();
        if next == Some(',') {
          var _ := Consume(',');
          next := Peek();
          if next == Some(')') {
            break;
          }
          continue;
        }
        break;
      }
      var closed := Consume(')');
      r := if closed then Some(children) else None;
    }
  }

  method ParseCfgExpr(text: string) returns (r: Option<Expr>)
    ensures r == Parse(text)
  {
    var parser := new Parser(text);
    assert parser.Ahead() == text;
    r := parser.ParseExpr();
    if r.Some? {
      parser.SkipWs();
      if parser.pos != |text| {
        r := None;
      }
    }
  }
}
