/**
 Masking credential-bearing header values before a remote command is logged.  The
 code slides a lower-cased window over the command; the specification finds the
 leftmost header and drops its value.
 */
module RedactLog {
  import opened Common

  const HEADER: string := "authorization:"
  const REDACTION: string := " <redacted>"

  function Lower(c: char): char {
    if 'A' <= c <= 'Z' then c - 'A' + 'a' else c
  }

  /** A quote or newline ends the header argument. */
  predicate EndsValue(c: char) {
    c == '\'' || c == '"' || c == '\n'
  }

  predicate HeaderAt(s: string, i: nat) {
    i + |HEADER| <= |s| && forall k :: 0 <= k < |HEADER| ==> Lower(s[i + k]) == HEADER[k]
  }

  /** Equal stretches of two texts hold a header alike. */
  lemma HeaderMoves(s: string, j: nat, t: string, i: nat)
    requires j + |HEADER| <= |s| && i + |HEADER| <= |t| && s[j..j + |HEADER|] == t[i..i + |HEADER|]
    ensures HeaderAt(s, j) <==> HeaderAt(t, i)
  {
    forall k | 0 <= k < |HEADER| ensures Lower(s[j + k]) == HEADER[k] <==> Lower(t[i + k]) == HEADER[k] {
      assert s[j + k] == s[j..j + |HEADER|][k] && t[i + k] == t[i..i + |HEADER|][k];
    }
  }

  // ── The specification ──────────────────────────────────────────────────────

  function FindFrom(s: string, i: nat): (r: Option<nat>)
    ensures r.Some? ==> i <= r.value && HeaderAt(s, r.value) && forall j: nat :: i <= j < r.value ==> !HeaderAt(s, j)
    ensures r.None? ==> forall j: nat :: i <= j ==> !HeaderAt(s, j)
    decreases |s| - i
  {
    if i + |HEADER| > |s| then None
    else if HeaderAt(s, i) then Some(i)
    else FindFrom(s, i + 1)
  }

  /** Keep everything up to and including the leftmost header, mark it, and go on
      behind its value. */
  function Redact(s: string): string
    decreases |s|, 1
  {
    var i := FindFrom(s, 0);
    if i.None? then s
    else s[..i.value + |HEADER|] + REDACTION + AfterValue(s[i.value + |HEADER|..])
  }

  function AfterValue(s: string): string
    decreases |s|, 0
  {
    if s == [] then []
    else if EndsValue(s[0]) then [s[0]] + Redact(s[1..])
    else AfterValue(s[1..])
  }

  // ── The window ─────────────────────────────────────────────────────────────

  datatype Window = Window(out: string, tail: string, skipping: bool)

  function Slide(tail: string, c: char): string {
    var longer := tail + [Lower(c)];
    if |longer| > |HEADER| then longer[|longer| - |HEADER|..] else longer
  }

  function Step(w: Window, c: char): Window {
    if w.skipping then
      if EndsValue(c) then Window(w.out + [c], w.tail, false) else w
    else
      var tail := Slide(w.tail, c);
      if tail == HEADER then Window(w.out + [c] + REDACTION, "", true)
      else Window(w.out + [c], tail, false)
  }

  function Run(w: Window, s: string): Window {
    if s == [] then w else Step(Run(w, s[..|s| - 1]), s[|s| - 1])
  }

  const Fresh := Window("", "", false)

  lemma {:induction false} RunConcat(w: Window, xs: string, ys: string)
    ensures Run(w, xs + ys) == Run(Run(w, xs), ys)
    decreases |ys|
  {
    if ys == [] {
      assert xs + ys == xs;
    } else {
      assert (xs + ys)[..|xs + ys| - 1] == xs + ys[..|ys| - 1];
      RunConcat(w, xs, ys[..|ys| - 1]);
    }
  }

  // ── The window computes the specification ──────────────────────────────────

  /** The last characters of `s`, lower-cased: what the window holds. */
  ghost predicate Holds(tail: string, s: string) {
    && |tail| == (if |s| < |HEADER| then |s| else |HEADER|)
    && forall k :: 0 <= k < |tail| ==> tail[k] == Lower(s[|s| - |tail| + k])
  }

  lemma SlideHolds(tail: string, s: string, c: char)
    requires Holds(tail, s)
    ensures Holds(Slide(tail, c), s + [c])
    ensures Slide(tail, c) == HEADER <==> |s| + 1 >= |HEADER| && HeaderAt(s + [c], |s| + 1 - |HEADER|)
  {
    var next, t := Slide(tail, c), s + [c];
    assert Holds(next, t);
    if |s| + 1 >= |HEADER| {
      var i := |s| + 1 - |HEADER|;
      assert forall k :: 0 <= k < |HEADER| ==> next[k] == Lower(t[i + k]);
      if HeaderAt(t, i) {
        assert forall k :: 0 <= k < |HEADER| ==> next[k] == HEADER[k];
      }
    }
  }

  /** What the window has done with a text that began with an empty tail: the text
      has no complete header so far, or it is being skipped. */
  ghost predicate Tracks(w: Window, s: string) {
    && !w.skipping && Holds(w.tail, s) && w.out == s
    && forall j: nat :: !HeaderAt(s, j)
  }

  /** Reading a header-free text leaves it as it is. */
  lemma {:induction false} RunTracks(s: string)
    requires forall j: nat :: !HeaderAt(s, j)
    ensures Tracks(Run(Fresh, s), s)
  {
    if s != [] {
      var front, c := s[..|s| - 1], s[|s| - 1];
      assert s == front + [c];
      forall j: nat ensures !HeaderAt(front, j) {
        assert HeaderAt(front, j) ==> HeaderAt(s, j);
      }
      RunTracks(front);
      SlideHolds(Run(Fresh, front).tail, front, c);
    }
  }

  /** Reading up to the end of the leftmost header leaves the window skipping. */
  lemma RunToHeader(s: string, i: nat)
    requires HeaderAt(s, i) && i + |HEADER| == |s| && forall j: nat :: j < i ==> !HeaderAt(s, j)
    ensures Run(Fresh, s) == Window(s + REDACTION, "", true)
  {
    var front, c := s[..|s| - 1], s[|s| - 1];
    assert s == front + [c];
    forall j: nat ensures !HeaderAt(front, j) {
      assert HeaderAt(front, j) ==> HeaderAt(s, j);
    }
    RunTracks(front);
    SlideHolds(Run(Fresh, front).tail, front, c);
  }

  /** Output is only ever appended to, and does not influence later steps. */
  lemma {:induction false} OutIsAppended(w: Window, prefix: string, s: string)
    ensures Run(w.(out := prefix + w.out), s) == Run(w, s).(out := prefix + Run(w, s).out)
  {
    if s != [] {
      OutIsAppended(w, prefix, s[..|s| - 1]);
      var x := Run(w, s[..|s| - 1]);
      assert prefix + (x.out + [s[|s| - 1]]) == (prefix + x.out) + [s[|s| - 1]];
      assert prefix + (x.out + [s[|s| - 1]] + REDACTION) == (prefix + x.out) + [s[|s| - 1]] + REDACTION;
    }
  }

  lemma {:induction false} RunIsRedact(s: string)
    ensures Run(Fresh, s).out == Redact(s)
    decreases |s|, 1
  {
    var i := FindFrom(s, 0);
    if i.None? {
      RunTracks(s);
    } else {
      var n := i.value + |HEADER|;
      var head, rest := s[..n], s[n..];
      assert s == head + rest;
      forall j: nat ensures HeaderAt(head, j) ==> j == i.value {
        assert HeaderAt(head, j) ==> HeaderAt(s, j);
      }
      assert HeaderAt(head, i.value);
      RunToHeader(head, i.value);
      RunConcat(Fresh, head, rest);
      SkipIsAfterValue(rest);
      OutIsAppended(Window("", "", true), head + REDACTION, rest);
      assert (head + REDACTION) + "" == head + REDACTION;
    }
  }

  lemma {:induction false} SkipIsAfterValue(s: string)
    ensures Run(Window("", "", true), s).out == AfterValue(s)
    decreases |s|, 0
  {
    if s != [] {
      var w := Window("", "", true);
      assert s == [s[0]] + s[1..];
      RunConcat(w, [s[0]], s[1..]);
      assert Run(w, [s[0]]) == Step(w, s[0]) by {
        assert [s[0]][..0] == [];
      }
      if EndsValue(s[0]) {
        RunIsRedact(s[1..]);
        OutIsAppended(Fresh, [s[0]], s[1..]);
        assert "" + [s[0]] == [s[0]] + "";
      } else {
        SkipIsAfterValue(s[1..]);
      }
    }
  }

  /** The function as written: an early return when the lower-cased command holds
      no header, otherwise the window loop. */
  method RedactForLog(command: string) returns (r: string)
    ensures r == Redact(command)
  {
    if FindFrom(command, 0).None? {
      return command;
    }
    var out, tail, skipping := "", "", false;
    for i := 0 to |command|
      invariant Window(out, tail, skipping) == Run(Fresh, command[..i])
    {
      assert command[..i + 1][..i] == command[..i];
      var ch := command[i];
      if skipping {
        if EndsValue(ch) {
          skipping := false;
          out := out + [ch];
        }
      } else {
        out := out + [ch];
        tail := tail + [Lower(ch)];
        ghost var longer := tail;
        while |tail| > |HEADER|
          invariant |tail| <= |longer| && tail == longer[|longer| - |tail|..]
          invariant |longer| >= |HEADER| ==> |tail| >= |HEADER|
          invariant |longer| < |HEADER| ==> tail == longer
        {
          tail := tail[1..];
        }
        if tail == HEADER {
          out := out + REDACTION;
          tail := "";
          skipping := true;
        }
      }
    }
    assert command[..|command|] == command;
    RunIsRedact(command);
    r := out;
  }

  // ── What redaction guarantees ──────────────────────────────────────────────

  lemma HeaderCharacters(c: char)
    requires c == ' ' || c == '>' || EndsValue(c)
    ensures forall k :: 0 <= k < |HEADER| ==> Lower(c) != HEADER[k]
  {
  }

  /** No header straddles a position that holds a space, a `>` or a terminator. */
  lemma HeaderAvoids(s: string, j: nat, at: nat)
    requires at < |s| && (s[at] == ' ' || s[at] == '>' || EndsValue(s[at]))
    requires HeaderAt(s, j)
    ensures at < j || j + |HEADER| <= at
  {
    assert 0 <= at - j < |HEADER| ==> Lower(s[j + (at - j)]) == HEADER[at - j];
    HeaderCharacters(s[at]);
  }

  ghost predicate EveryHeaderMarked(s: string) {
    forall j: nat :: HeaderAt(s, j) ==> REDACTION <= s[j + |HEADER|..]
  }

  lemma MarkedPrefix(x: string, i: nat, a: string)
    requires HeaderAt(x, i) && i + |HEADER| == |x| && forall j: nat :: j < i ==> !HeaderAt(x, j)
    requires EveryHeaderMarked(a)
    ensures EveryHeaderMarked(x + REDACTION + a)
  {
    var s := x + REDACTION + a;
    var n := |x| + |REDACTION|;
    assert s[|x|] == ' ' && s[n - 1] == '>';
    forall j: nat | HeaderAt(s, j) ensures REDACTION <= s[j + |HEADER|..] {
      HeaderAvoids(s, j, |x|);
      HeaderAvoids(s, j, n - 1);
      if j + |HEADER| <= |x| {
        HeaderMoves(s, j, x, j);
        assert j == i;
        assert s[|x|..] == REDACTION + a;
      } else {
        assert j >= n;
        HeaderMoves(s, j, a, j - n);
        assert s[j + |HEADER|..] == a[j - n + |HEADER|..];
      }
    }
  }

  /** In the output every header occurrence is immediately followed by the marker. */
  lemma {:induction false} EveryHeaderIsMarked(s: string)
    ensures EveryHeaderMarked(Redact(s))
    decreases |s|, 1
  {
    var i := FindFrom(s, 0);
    if i.Some? {
      var n := i.value + |HEADER|;
      AfterValueMarked(s[n..]);
      forall j: nat ensures HeaderAt(s[..n], j) ==> HeaderAt(s, j) {
      }
      assert HeaderAt(s[..n], i.value);
      MarkedPrefix(s[..n], i.value, AfterValue(s[n..]));
    }
  }

  lemma {:induction false} AfterValueMarked(s: string)
    ensures EveryHeaderMarked(AfterValue(s))
    decreases |s|, 0
  {
    if s != [] {
      if EndsValue(s[0]) {
        EveryHeaderIsMarked(s[1..]);
        var r, t := Redact(s[1..]), AfterValue(s);
        forall j: nat | HeaderAt(t, j) ensures REDACTION <= t[j + |HEADER|..] {
          HeaderAvoids(t, j, 0);
          HeaderMoves(t, j, r, j - 1);
          assert t[j + |HEADER|..] == r[j - 1 + |HEADER|..];
        }
      } else {
        AfterValueMarked(s[1..]);
      }
    }
  }

  lemma {:induction false} AfterValueSkips(v: string, t: string)
    requires forall k :: 0 <= k < |v| ==> !EndsValue(v[k])
    ensures AfterValue(v + t) == AfterValue(t)
  {
    if v == [] {
      assert v + t == t;
    } else {
      assert (v + t)[1..] == v[1..] + t;
      AfterValueSkips(v[1..], t);
    }
  }

  /** Replacing what follows the first header leaves it the first. */
  lemma HeaderKept(s: string, i: nat, rest: string)
    requires FindFrom(s, 0) == Some(i)
    ensures i + |HEADER| <= |s| && FindFrom(s[..i + |HEADER|] + rest, 0) == Some(i)
  {
    var r := s[..i + |HEADER|] + rest;
    assert HeaderAt(r, i);
    forall j: nat | j < i ensures !HeaderAt(r, j) {
      assert HeaderAt(r, j) ==> HeaderAt(s, j);
    }
  }

  /** Redacting twice is redacting once. */
  lemma {:induction false} RedactIsIdempotent(s: string)
    ensures Redact(Redact(s)) == Redact(s)
    decreases |s|, 1
  {
    var i := FindFrom(s, 0);
    if i.Some? {
      var n := i.value + |HEADER|;
      var x, a := s[..n], AfterValue(s[n..]);
      var r := Redact(s);
      assert r == x + (REDACTION + a);
      HeaderKept(s, i.value, REDACTION + a);
      assert r[..n] == x && r[n..] == REDACTION + a;
      AfterValueSkips(REDACTION, a);
      AfterValueIdempotent(s[n..]);
    }
  }

  lemma {:induction false} AfterValueIdempotent(s: string)
    ensures AfterValue(AfterValue(s)) == AfterValue(s)
    decreases |s|, 0
  {
    if s != [] {
      if EndsValue(s[0]) {
        RedactIsIdempotent(s[1..]);
        assert AfterValue(s)[1..] == Redact(s[1..]);
      } else {
        AfterValueIdempotent(s[1..]);
      }
    }
  }

  // ── Independence of the header values ──────────────────────────────────────

  lemma {:induction false} RunSkips(w: Window, v: string)
    requires w.skipping && forall k :: 0 <= k < |v| ==> !EndsValue(v[k])
    ensures Run(w, v) == w
  {
    if v != [] {
      RunSkips(w, v[..|v| - 1]);
    }
  }

  /** The window ends with the lower-cased text `s` (and is never too long). */
  ghost predicate HoldsEnd(tail: string, s: string) {
    && |s| <= |tail| <= |HEADER|
    && forall k :: 0 <= k < |s| ==> tail[|tail| - |s| + k] == Lower(s[k])
  }

  lemma SlideEnd(tail: string, s: string, c: char)
    requires HoldsEnd(tail, s) && |s| < |HEADER|
    ensures HoldsEnd(Slide(tail, c), s + [c])
  {
  }

  /** Once skipping, the window stays so through a header; otherwise reading a
      whole header makes it skip.  Either way it skips behind a header. */
  lemma {:induction false} SkipsBehindHeader(w: Window, h: string, n: nat)
    requires |w.tail| <= |HEADER|
    requires |h| == |HEADER| && HeaderAt(h, 0) && n <= |h|
    ensures Run(w, h[..n]).skipping || (n < |h| && HoldsEnd(Run(w, h[..n]).tail, h[..n]))
  {
    if n > 0 {
      SkipsBehindHeader(w, h, n - 1);
      var x, c := Run(w, h[..n - 1]), h[n - 1];
      assert h[..n] == h[..n - 1] + [c];
      assert Lower(h[0 + (n - 1)]) == HEADER[n - 1];
      if x.skipping {
        NotEnding(c, n - 1);
      } else {
        SlideEnd(x.tail, h[..n - 1], c);
        if n == |h| {
          WholeHeader(Slide(x.tail, c), h);
        }
      }
    }
  }

  lemma WholeHeader(tail: string, h: string)
    requires |h| == |HEADER| && HeaderAt(h, 0) && HoldsEnd(tail, h[..|h|])
    ensures tail == HEADER
  {
    forall k | 0 <= k < |HEADER| ensures tail[k] == HEADER[k] {
      assert Lower(h[0 + k]) == HEADER[k];
    }
  }

  lemma {:induction false} TailBounded(s: string)
    ensures |Run(Fresh, s).tail| <= |HEADER|
  {
    if s != [] {
      TailBounded(s[..|s| - 1]);
    }
  }

  lemma NotEnding(c: char, k: nat)
    requires k < |HEADER| && Lower(c) == HEADER[k]
    ensures !EndsValue(c)
  {
  }

  /** The output does not depend on a header's value: whatever comes before and
      after, two values without a terminator give the same log line. */
  lemma ValueIsIrrelevant(before: string, header: string, v: string, v': string, after: string)
    requires |header| == |HEADER| && HeaderAt(header, 0)
    requires forall k :: 0 <= k < |v| ==> !EndsValue(v[k])
    requires forall k :: 0 <= k < |v'| ==> !EndsValue(v'[k])
    ensures Redact(before + header + v + after) == Redact(before + header + v' + after)
  {
    var x := Run(Fresh, before);
    var w := Run(Fresh, before + header);
    RunConcat(Fresh, before, header);
    TailBounded(before);
    SkipsBehindHeader(x, header, |header|);
    assert header[..|header|] == header;
    assert w.skipping;
    ReadsThrough(before + header, v, after);
    ReadsThrough(before + header, v', after);
  }

  lemma ReadsThrough(front: string, v: string, after: string)
    requires Run(Fresh, front).skipping && forall k :: 0 <= k < |v| ==> !EndsValue(v[k])
    ensures Redact(front + v + after) == Run(Run(Fresh, front), after).out
  {
    RunConcat(Fresh, front + v, after);
    RunConcat(Fresh, front, v);
    RunSkips(Run(Fresh, front), v);
    RunIsRedact(front + v + after);
  }

  // ── By the letter ──────────────────────────────────────────────────────────

  const CAPITALS: string := "AUTHORIZATION:"

  lemma EitherCase(c: char, k: nat)
    requires k < |HEADER|
    ensures Lower(c) == HEADER[k] <==> c == "authorization:"[k] || c == CAPITALS[k]
  {
  }

  /** The header is `authorization:` with each letter in either case. */
  lemma HeaderByTheLetter(s: string, i: nat)
    ensures HeaderAt(s, i) <==>
              i + 14 <= |s| && forall k :: 0 <= k < 14 ==> s[i + k] == "authorization:"[k] || s[i + k] == CAPITALS[k]
  {
    if i + 14 <= |s| {
      forall k | 0 <= k < 14
        ensures Lower(s[i + k]) == HEADER[k] <==> s[i + k] == "authorization:"[k] || s[i + k] == CAPITALS[k] {
        EitherCase(s[i + k], k);
      }
    }
  }

  /** A value as it is written: no quote and no newline in it. */
  predicate IsValue(v: string) {
    '\'' !in v && '"' !in v && '\n' !in v
  }

  lemma {:induction false} AfterWholeValue(v: string, rest: string)
    requires IsValue(v)
    ensures AfterValue(v + rest) == AfterValue(rest)
  {
    if v == "" {
      assert v + rest == rest;
    } else {
      assert v[0] in v && (v + rest)[1..] == v[1..] + rest;
      assert forall c :: c in v[1..] ==> c in v;
      AfterWholeValue(v[1..], rest);
    }
  }

  lemma FirstHeader(before: string, header: string, rest: string)
    requires |header| == 14 && HeaderAt(header, 0)
    requires forall j: nat :: j < |before| ==> !HeaderAt(before + header, j)
    ensures Redact(before + header + rest) == before + header + " <redacted>" + AfterValue(rest)
  {
    var s := before + header + rest;
    assert s[|before|..|before| + 14] == header == header[0..14];
    HeaderMoves(s, |before|, header, 0);
    forall j: nat | j < |before| ensures !HeaderAt(s, j) {
      assert s[j..j + 14] == (before + header)[j..j + 14];
      HeaderMoves(s, j, before + header, j);
    }
    assert FindFrom(s, 0) == Some(|before|);
    assert s[..|before| + 14] == before + header && s[|before| + 14..] == rest;
  }

  /** The first header of a text, written out: its value, up to a quote, a newline or the
      end, is replaced by ` <redacted>`, and what follows is redacted in turn. */
  lemma RedactsByTheLetter(before: string, header: string, v: string, end: char, after: string)
    requires |header| == 14 && HeaderAt(header, 0) && IsValue(v)
    requires forall j: nat :: j < |before| ==> !HeaderAt(before + header, j)
    requires end == '\'' || end == '"' || end == '\n'
    ensures Redact(before + header + v) == before + header + " <redacted>"
    ensures Redact(before + header + (v + ([end] + after))) ==
            before + header + " <redacted>" + ([end] + Redact(after))
  {
    FirstHeader(before, header, v);
    AfterWholeValue(v, "");
    assert v + "" == v && before + header + " <redacted>" + "" == before + header + " <redacted>";
    FirstHeader(before, header, v + ([end] + after));
    AfterWholeValue(v, [end] + after);
    assert ([end] + after)[1..] == after;
  }
}
