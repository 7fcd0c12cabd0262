/**
 The plugin-boundary checker's own reading of `cfg` texts: no grammar, only matching
 parentheses and commas outside quotes.  It knows both kinds of quotes, where the
 database-access policy's parser knows one.
 */
module CfgCallText {
  import opened Common
  import opened CfgSyntax
  import opened CfgParser
  import CfgPolicy
  import CfgPossibility

  type Call = CfgPossibility.Call
  type Operator = CfgPossibility.Operator

  // ── Scanning with quotes and depth ─────────────────────────────────────────

  predicate IsQuote(c: char) {
    c == '"' || c == '\''
  }

  /** Where a scan stands: nesting depth, the quote it is inside of, and whether the
      next character is escaped. */
  datatype Track = Track(depth: int, quote: Option<char>, escaped: bool)

  const Outside := Track(0, None, false)

  function Advance(t: Track, c: char): Track {
    if t.quote.Some? then
      if t.escaped then t.(escaped := false)
      else if c == '\\' then t.(escaped := true)
      else if c == t.quote.value then t.(quote := None)
      else t
    else if IsQuote(c) then t.(quote := Some(c))
    else if c == '(' then t.(depth := t.depth + 1)
    else if c == ')' then t.(depth := t.depth - 1)
    else t
  }

  function Shift(n: nat, i: Option<nat>): Option<nat> {
    match i
    case None => None
    case Some(k) => Some(n + k)
  }

  /** The position of the parenthesis that brings the depth back to zero. */
  function FindClose(s: string, t: Track): (r: Option<nat>)
    ensures r.Some? ==> r.value < |s| && s[r.value] == ')'
  {
    if s == "" then None
    else
      var u := Advance(t, s[0]);
      if t.quote.None? && s[0] == ')' && u.depth == 0 then Some(0)
      else Shift(1, FindClose(s[1..], u))
  }

  function Prepend(part: string, parts: Option<seq<string>>): Option<seq<string>> {
    match parts
    case None => None
    case Some(ps) => Some([part] + ps)
  }

  /** The stretches between commas outside all quotes and parentheses; `current` is
      the one being read. */
  function Parts(s: string, t: Track, current: string): (r: Option<seq<string>>)
    ensures r.Some? ==> forall i :: 0 <= i < |r.value| ==> |r.value[i]| <= |current| + |s|
  {
    if s == "" then
      if t.depth != 0 || t.quote.Some? then None else Some([current])
    else if t.quote.None? && s[0] == ',' && t.depth == 0 then
      Prepend(current, Parts(s[1..], t, ""))
    else
      var u := Advance(t, s[0]);
      if u.depth < 0 then None else Parts(s[1..], u, current + [s[0]])
  }

  function Strip(s: string): (r: string)
    ensures |r| <= |s|
  {
    StripEnd(Skip(s))
  }

  function StripAll(parts: seq<string>): seq<string> {
    seq(|parts|, i requires 0 <= i < |parts| => Strip(parts[i]))
  }

  function SplitArgs(raw: string): (r: Option<seq<string>>)
    ensures r.Some? ==> forall i :: 0 <= i < |r.value| ==> |r.value[i]| <= |raw|
  {
    match Parts(raw, Outside, "")
    case None => None
    case Some(parts) => if "" in StripAll(parts) then None else Some(StripAll(parts))
  }

  /** The operator a text starts with, and what follows up from its parenthesis. */
  function Keyword(expr: string): (r: Option<(Operator, string)>)
    ensures r.Some? ==> Starts(r.value.1, '(') && |r.value.1| < |expr|
  {
    if |expr| < 3 || !Starts(Skip(expr[3..]), '(') then None
    else if expr[..3] == "all" then Some((CfgPossibility.OpAll, Skip(expr[3..])))
    else if expr[..3] == "any" then Some((CfgPossibility.OpAny, Skip(expr[3..])))
    else if expr[..3] == "not" then Some((CfgPossibility.OpNot, Skip(expr[3..])))
    else None
  }

  /** From the opening parenthesis on: the arguments, if nothing but white space follows
      the matching one. */
  function ReadArgs(s: string): (r: Option<seq<string>>)
    requires Starts(s, '(')
    ensures r.Some? ==> forall i :: 0 <= i < |r.value| ==> |r.value[i]| <= |s|
  {
    match FindClose(s, Outside)
    case None => None
    case Some(close) => if Strip(s[close + 1..]) != "" then None else SplitArgs(s[1..close])
  }

  function ParseCall(expr: string): (r: Option<(Operator, seq<string>)>)
    ensures r.Some? ==> forall i :: 0 <= i < |r.value.1| ==> |r.value.1[i]| < |expr|
  {
    match Keyword(expr)
    case None => None
    case Some((operator, s)) =>
      match ReadArgs(s)
      case None => None
      case Some(args) => Some((operator, args))
  }

  function ReadText(text: string): Call
    decreases |text|
  {
    var normalized := Strip(text);
    if normalized == "" then CfgPossibility.Blank
    else
      match ParseCall(normalized)
      case None => CfgPossibility.Leaf(normalized)
      case Some((operator, args)) =>
        CfgPossibility.Op(operator, seq(|args|, i requires 0 <= i < |args| => ReadText(args[i])))
  }

  lemma {:induction false} QuotedGoesOn(q: char, inner: string, current: string, depth: nat)
    requires IsQuote(q) && q !in inner && '\\' !in inner
    ensures Parts(inner + [q], Track(depth, Some(q), false), current) ==
            Parts([q], Track(depth, Some(q), false), current + inner)
  {
    if inner == "" {
      assert inner + [q] == [q] && current + inner == current;
    } else {
      assert inner[0] in inner && forall c :: c in inner[1..] ==> c in inner;
      assert (inner + [q])[1..] == inner[1..] + [q];
      QuotedGoesOn(q, inner[1..], current + [inner[0]], depth);
      assert current + [inner[0]] + inner[1..] == current + inner;
    }
  }

  /** In either kind of quotes commas and parentheses mean nothing: the whole is one part. */
  lemma QuotesHide(q: char, inner: string)
    requires q in {'"', '\''} && q !in inner && '\\' !in inner
    ensures Parts([q] + (inner + [q]), Outside, "") == Some([[q] + (inner + [q])])
  {
    var s := [q] + (inner + [q]);
    assert s[1..] == inner + [q] && "" + [q] == [q];
    QuotedGoesOn(q, inner, [q], 0);
    assert [q][1..] == "";
    assert [q] + inner + [q] == s;
  }

  // ── The scans as written ───────────────────────────────────────────────────

  function Joined(before: seq<string>, parts: Option<seq<string>>): Option<seq<string>> {
    match parts
    case None => None
    case Some(ps) => Some(before + ps)
  }

  /** What one more character does to the parts, from an unescaped position. */
  lemma PartsStep(s: string, t: Track, current: string, before: seq<string>)
    requires s != ""
    ensures t.quote.None? && s[0] == ',' && t.depth == 0 ==>
              Joined(before, Parts(s, t, current)) == Joined(before + [current], Parts(s[1..], t, ""))
    ensures !(t.quote.None? && s[0] == ',' && t.depth == 0) && Advance(t, s[0]).depth >= 0 ==>
              Parts(s, t, current) == Parts(s[1..], Advance(t, s[0]), current + [s[0]])
  {
    var rest := Parts(s[1..], t, "");
    if rest.Some? {
      assert before + ([current] + rest.value) == before + [current] + rest.value;
    }
  }

  /** Inside quotes a backslash takes the next character with it. */
  lemma PartsEscape(s: string, t: Track, current: string)
    requires s != "" && t.quote.Some? && !t.escaped && t.depth >= 0 && s[0] == '\\'
    ensures |s| == 1 ==> Parts(s, t, current) == None
    ensures |s| >= 2 ==> Parts(s, t, current) == Parts(s[2..], t, current + s[..2])
  {
    var u := t.(escaped := true);
    assert Parts(s, t, current) == Parts(s[1..], u, current + [s[0]]);
    if |s| >= 2 {
      assert s[1..][1..] == s[2..] && current + [s[0]] + [s[1]] == current + s[..2];
    }
  }

  /** The text ahead, one and two characters on. */
  lemma Ahead(s: string, i: nat, start: nat)
    requires start <= i < |s|
    ensures s[i..][0] == s[i] && s[i..][1..] == s[i + 1..] && s[start..i + 1] == s[start..i] + [s[i]]
    ensures i + 2 <= |s| ==> s[i..][2..] == s[i + 2..] && s[start..i] + s[i..][..2] == s[start..i + 2]
  {
  }

  /** One character that is neither escaped nor an escape. */
  method StepOver(depth0: int, quote0: Option<char>, ch: char) returns (depth: int, quote: Option<char>)
    requires quote0.Some? ==> ch != '\\'
    ensures Track(depth, quote, false) == Advance(Track(depth0, quote0, false), ch)
  {
    depth, quote := depth0, quote0;
    if quote.Some? {
      if ch == quote.value {
        quote := None;
      }
    } else if IsQuote(ch) {
      quote := Some(ch);
    } else if ch == '(' {
      depth := depth + 1;
    } else if ch == ')' {
      depth := depth - 1;
    }
  }

  method SplitCfgArgs(raw: string) returns (r: Option<seq<string>>)
    ensures r == SplitArgs(raw)
  {
    var parts: seq<string> := [];
    var depth, start, i := 0, 0, 0;
    var quote: Option<char> := None;
    ghost var goal := Parts(raw, Outside, "");
    assert raw[0..] == raw && raw[0..0] == "";
    assert goal.Some? ==> [] + goal.value == goal.value;
    while i < |raw|
      invariant 0 <= start <= i <= |raw| + 1 && depth >= 0
      invariant i <= |raw| ==> goal == Joined(parts, Parts(raw[i..], Track(depth, quote, false), raw[start..i]))
      invariant i == |raw| + 1 ==> goal == None && quote.Some?
    {
      var ch := raw[i];
      ghost var t, s, current := Track(depth, quote, false), raw[i..], raw[start..i];
      Ahead(raw, i, start);
      PartsStep(s, t, current, parts);
      if quote.Some? && ch == '\\' {
        PartsEscape(s, t, current);
        i := i + 2;
        continue;
      }
      if quote.None? && ch == ',' && depth == 0 {
        parts := parts + [raw[start..i]];
        start := i + 1;
        i := i + 1;
        assert raw[start..i] == "";
        continue;
      }
      depth, quote := StepOver(depth, quote, ch);
      if depth < 0 {
        return None;
      }
      i := i + 1;
    }
    if depth != 0 || quote.Some? {
      return None;
    }
    assert raw[i..] == "" && raw[start..i] == raw[start..];
    parts := parts + [raw[start..]];
    r := if "" in StripAll(parts) then None else Some(StripAll(parts));
  }

  lemma CloseStep(s: string, t: Track, n: nat)
    requires s != "" && !(t.quote.None? && s[0] == ')' && Advance(t, s[0]).depth == 0)
    ensures Shift(n, FindClose(s, t)) == Shift(n + 1, FindClose(s[1..], Advance(t, s[0])))
  {
  }

  lemma CloseHere(s: string, t: Track)
    requires s != "" && t.quote.None? && s[0] == ')' && t.depth == 1
    ensures FindClose(s, t) == Some(0)
  {
  }

  lemma CloseEscape(s: string, t: Track, n: nat)
    requires s != "" && t.quote.Some? && !t.escaped && s[0] == '\\'
    ensures |s| == 1 ==> FindClose(s, t) == None
    ensures |s| >= 2 ==> Shift(n, FindClose(s, t)) == Shift(n + 2, FindClose(s[2..], t))
  {
    CloseStep(s, t, n);
    if |s| >= 2 {
      CloseStep(s[1..], t.(escaped := true), n + 1);
      assert s[1..][1..] == s[2..];
    }
  }

  /** The loop over a text that starts with the opening parenthesis. */
  method FindClosing(s: string) returns (close: Option<nat>)
    requires Starts(s, '(')
    ensures close == FindClose(s, Outside)
  {
    var depth, i := 0, 0;
    var quote: Option<char> := None;
    ghost var goal := FindClose(s, Outside);
    assert s[0..] == s && goal == Shift(0, goal);
    while i < |s|
      invariant 0 <= i <= |s| + 1
      invariant i <= |s| ==> goal == Shift(i, FindClose(s[i..], Track(depth, quote, false)))
      invariant i == |s| + 1 ==> goal == None
    {
      var ch := s[i];
      ghost var t, ahead := Track(depth, quote, false), s[i..];
      Ahead(s, i, i);
      if quote.Some? && ch == '\\' {
        CloseEscape(ahead, t, i);
        i := i + 2;
        continue;
      }
      if quote.None? && ch == ')' && depth - 1 == 0 {
        CloseHere(ahead, t);
        return Some(i);
      }
      CloseStep(ahead, t, i);
      depth, quote := StepOver(depth, quote, ch);
      i := i + 1;
    }
    close := None;
    if i == |s| {
      assert s[i..] == "";
    }
  }

  method ReadCfgArgs(s: string) returns (args: Option<seq<string>>)
    requires Starts(s, '(')
    ensures args == ReadArgs(s)
  {
    var close := FindClosing(s);
    if close.None? || Strip(s[close.value + 1..]) != "" {
      return None;
    }
    args := SplitCfgArgs(s[1..close.value]);
  }

  method ParseCfgCall(expr: string) returns (r: Option<(Operator, seq<string>)>)
    ensures r == ParseCall(expr)
  {
    var keyword := Keyword(expr);
    if keyword.None? {
      return None;
    }
    var args := ReadCfgArgs(keyword.value.1);
    r := if args.None? then None else Some((keyword.value.0, args.value));
  }

  function Combine(operator: Operator, children: seq<CfgPossibility.Values>): CfgPossibility.Values {
    match operator
    case OpAll =>
      CfgPossibility.Values(forall j :: 0 <= j < |children| ==> children[j].canBeTrue,
                            exists j :: 0 <= j < |children| && children[j].canBeFalse)
    case OpAny =>
      CfgPossibility.Values(exists j :: 0 <= j < |children| && children[j].canBeTrue,
                            forall j :: 0 <= j < |children| ==> children[j].canBeFalse)
    case OpNot =>
      if |children| != 1 then CfgPossibility.Values(true, true)
      else CfgPossibility.Values(children[0].canBeFalse, children[0].canBeTrue)
  }

  lemma CombineIsPossibility(operator: Operator, args: seq<Call>, children: seq<CfgPossibility.Values>, test: bool)
    requires |children| == |args|
    requires forall j :: 0 <= j < |args| ==> children[j] == CfgPossibility.Possibility(args[j], test)
    ensures Combine(operator, children) == CfgPossibility.Possibility(CfgPossibility.Op(operator, args), test)
  {
  }

  method CfgPossible(expr: string, testEnabled: bool) returns (v: CfgPossibility.Values)
    ensures v == CfgPossibility.Possibility(ReadText(expr), testEnabled)
    decreases |expr|, 1
  {
    var normalized := Strip(expr);
    if normalized == "" {
      return CfgPossibility.Values(true, true);
    }
    var call := ParseCfgCall(normalized);
    if call.None? {
      return if normalized == TEST then CfgPossibility.Values(testEnabled, !testEnabled)
             else CfgPossibility.Values(true, true);
    }
    var operator, args := call.value.0, call.value.1;
    var children := PossibleEach(args, testEnabled, |normalized|);
    CombineIsPossibility(operator, ReadText(expr).args, children, testEnabled);
    v := Combine(operator, children);
  }

  method PossibleEach(args: seq<string>, testEnabled: bool, ghost bound: nat)
    returns (children: seq<CfgPossibility.Values>)
    requires forall i :: 0 <= i < |args| ==> |args[i]| < bound
    ensures |children| == |args|
    ensures forall i :: 0 <= i < |args| ==>
              children[i] == CfgPossibility.Possibility(ReadText(args[i]), testEnabled)
    decreases bound, 0
  {
    children := [];
    for i := 0 to |args|
      invariant |children| == i
      invariant forall j :: 0 <= j < i ==>
                  children[j] == CfgPossibility.Possibility(ReadText(args[j]), testEnabled)
    {
      var child := CfgPossible(args[i], testEnabled);
      children := children + [child];
    }
  }
}
