/**
 The line buffer behind a remote command's output: complete lines are offered to
 the live channel and accumulated until the byte total reaches the limit, after
 which a truncation marker is written once.
 */
module LineBuffer {
  import opened Common

  /** The byte limit and the text written once it is reached. */
  datatype Policy = Policy(limit: nat, marker: string)

  const OUTPUT_POLICY := Policy(10 * 1024 * 1024, "\n[output truncated at 10 MB]\n")

  /** `live` are the lines offered to the streaming channel, in order. */
  datatype Buffer = Buffer(partial: string, accumulated: string, total: nat, truncated: bool, live: seq<string>)

  const Empty := Buffer("", "", 0, false, [])

  // ── Sizes ──────────────────────────────────────────────────────────────────

  function Utf8Size(c: char): nat {
    if c as int < 0x80 then 1 else if c as int < 0x800 then 2 else if c as int < 0x1_0000 then 3 else 4
  }

  function Bytes(s: string): nat {
    if s == [] then 0 else Bytes(s[..|s| - 1]) + Utf8Size(s[|s| - 1])
  }

  lemma {:induction false} BytesConcat(s: string, t: string)
    ensures Bytes(s + t) == Bytes(s) + Bytes(t)
  {
    if t == [] {
      assert s + t == s;
    } else {
      assert (s + t)[..|s + t| - 1] == s + t[..|t| - 1];
      BytesConcat(s, t[..|t| - 1]);
    }
  }

  // ── The machine ────────────────────────────────────────────────────────────

  function EndLine(b: Buffer, p: Policy): Buffer {
    var live := b.live + [b.partial];
    if b.total < p.limit then
      Buffer("", b.accumulated + b.partial + "\n", b.total + Bytes(b.partial) + 1, b.truncated, live)
    else if !b.truncated then
      Buffer("", b.accumulated + p.marker, b.total, true, live)
    else
      Buffer("", b.accumulated, b.total, true, live)
  }

  function PushChar(b: Buffer, c: char, p: Policy): Buffer {
    if c == '\n' then EndLine(b, p) else b.(partial := b.partial + [c])
  }

  function Push(b: Buffer, text: string, p: Policy): Buffer {
    if text == [] then b else PushChar(Push(b, text[..|text| - 1], p), text[|text| - 1], p)
  }

  function Flush(b: Buffer, p: Policy): Buffer {
    if b.partial == "" then b else EndLine(b, p)
  }

  function PushAll(b: Buffer, chunks: seq<string>, p: Policy): Buffer {
    if chunks == [] then b else Push(PushAll(b, chunks[..|chunks| - 1], p), chunks[|chunks| - 1], p)
  }

  lemma {:induction false} PushConcat(b: Buffer, xs: string, ys: string, p: Policy)
    ensures Push(b, xs + ys, p) == Push(Push(b, xs, p), ys, p)
    decreases |ys|
  {
    if ys == [] {
      assert xs + ys == xs;
    } else {
      assert (xs + ys)[..|xs + ys| - 1] == xs + ys[..|ys| - 1];
      PushConcat(b, xs, ys[..|ys| - 1], p);
    }
  }

  /** Pushing the same characters in any chunking leaves the same buffer. */
  lemma {:induction false} ChunkingIsIrrelevant(b: Buffer, chunks: seq<string>, p: Policy)
    ensures PushAll(b, chunks, p) == Push(b, Flatten(chunks), p)
    decreases |chunks|
  {
    if chunks != [] {
      ChunkingIsIrrelevant(b, chunks[..|chunks| - 1], p);
      PushConcat(b, Flatten(chunks[..|chunks| - 1]), chunks[|chunks| - 1], p);
    }
  }

  // ── The batch form ─────────────────────────────────────────────────────────

  function Rest(text: string): string {
    if text == [] || text[|text| - 1] == '\n' then ""
    else Rest(text[..|text| - 1]) + [text[|text| - 1]]
  }

  /** The complete lines of a text, and what follows the last newline. */
  function Lines(text: string): seq<string> {
    if text == [] then []
    else
      var front := text[..|text| - 1];
      if text[|text| - 1] == '\n' then Lines(front) + [Rest(front)] else Lines(front)
  }

  /** Lines written back, each with its newline. */
  function Whole(lines: seq<string>): string {
    if lines == [] then "" else Whole(lines[..|lines| - 1]) + lines[|lines| - 1] + "\n"
  }

  /** The lines and the rest are the text, cut at every newline and nowhere else. */
  lemma {:induction false} SplitLosesNothing(text: string)
    ensures Whole(Lines(text)) + Rest(text) == text
    ensures '\n' !in Rest(text) && forall i :: 0 <= i < |Lines(text)| ==> '\n' !in Lines(text)[i]
  {
    if text != [] {
      var front, c := text[..|text| - 1], text[|text| - 1];
      SplitLosesNothing(front);
      assert text == front + [c];
      if c == '\n' {
        assert Lines(text)[..|Lines(front)|] == Lines(front);
        assert Whole(Lines(text)) == Whole(Lines(front)) + Rest(front) + "\n";
      } else {
        assert Whole(Lines(front)) + (Rest(front) + [c]) == Whole(Lines(front)) + Rest(front) + [c];
      }
    }
  }

  /** After the first `k` lines the running total is still below the limit. */
  predicate Room(lines: seq<string>, k: nat, p: Policy) {
    k <= |lines| && Bytes(Whole(lines[..k])) < p.limit
  }

  lemma RoomKept(lines: seq<string>, line: string, k: nat, p: Policy)
    requires k <= |lines|
    ensures Room(lines + [line], k, p) <==> Room(lines, k, p)
  {
    assert (lines + [line])[..k] == lines[..k];
  }

  function TakenFrom(lines: seq<string>, p: Policy, k: nat): (n: nat)
    requires k <= |lines|
    requires forall j: nat :: j < k ==> Room(lines, j, p)
    ensures k <= n <= |lines|
    ensures forall j: nat :: j < n ==> Room(lines, j, p)
    ensures n < |lines| ==> !Room(lines, n, p)
    decreases |lines| - k
  {
    if k < |lines| && Room(lines, k, p) then TakenFrom(lines, p, k + 1) else k
  }

  /** How many lines are accumulated: as many as start below the limit. */
  function Taken(lines: seq<string>, p: Policy): (n: nat)
    ensures n <= |lines|
    ensures forall k: nat :: k < n ==> Room(lines, k, p)
    ensures n < |lines| ==> !Room(lines, n, p)
  {
    TakenFrom(lines, p, 0)
  }

  /** The buffer that has seen exactly these complete lines and this partial one. */
  function Batch(lines: seq<string>, partial: string, p: Policy): Buffer {
    var n := Taken(lines, p);
    Buffer(partial,
           Whole(lines[..n]) + (if n < |lines| then p.marker else ""),
           Bytes(Whole(lines[..n])),
           n < |lines|,
           lines)
  }

  lemma TakenUnique(lines: seq<string>, p: Policy, n: nat)
    requires n <= |lines|
    requires forall k: nat :: k < n ==> Room(lines, k, p)
    requires n < |lines| ==> !Room(lines, n, p)
    ensures Taken(lines, p) == n
  {
  }

  lemma WholePush(lines: seq<string>, line: string)
    ensures Whole(lines + [line]) == Whole(lines) + line + "\n"
    ensures Bytes(Whole(lines + [line])) == Bytes(Whole(lines)) + Bytes(line) + 1
  {
    assert (lines + [line])[..|lines|] == lines;
    BytesConcat(Whole(lines) + line, "\n");
    BytesConcat(Whole(lines), line);
    assert "\n"[..0] == "";
    assert Bytes("\n") == 1;
  }

  lemma EndLineTaken(lines: seq<string>, line: string, p: Policy)
    ensures var n := Taken(lines, p);
      Taken(lines + [line], p) == if Room(lines, n, p) then n + 1 else n
  {
    var n := Taken(lines, p);
    forall k: nat | k <= |lines| ensures Room(lines + [line], k, p) <==> Room(lines, k, p) {
      RoomKept(lines, line, k, p);
    }
    TakenUnique(lines + [line], p, if Room(lines, n, p) then n + 1 else n);
  }

  lemma BatchEndLine(lines: seq<string>, partial: string, p: Policy)
    ensures EndLine(Batch(lines, partial, p), p) == Batch(lines + [partial], "", p)
  {
    var n, more := Taken(lines, p), lines + [partial];
    EndLineTaken(lines, partial, p);
    if Room(lines, n, p) {
      assert lines[..n] == lines && more[..n + 1] == more;
      WholePush(lines, partial);
      assert Whole(lines) + "" + partial + "\n" == Whole(more) + "";
    } else {
      assert more[..n] == lines[..n];
      assert Whole(lines[..n]) + "" + p.marker == Whole(lines[..n]) + p.marker;
    }
  }

  /** For every text the incremental buffer is the batch buffer: all lines offered
      live, the whole-line prefix accumulated while the running total is below the
      limit, then the marker once and nothing more. */
  lemma {:induction false} PushIsBatch(text: string, p: Policy)
    ensures Push(Empty, text, p) == Batch(Lines(text), Rest(text), p)
  {
    if text == [] {
      assert Batch([], "", p).accumulated == "";
      assert Bytes("") == 0;
    } else {
      var front, c := text[..|text| - 1], text[|text| - 1];
      PushIsBatch(front, p);
      if c == '\n' {
        BatchEndLine(Lines(front), Rest(front), p);
      }
    }
  }

  /** The lines once the stream has closed: a trailing partial line counts. */
  function AllLines(text: string): seq<string> {
    if Rest(text) == "" then Lines(text) else Lines(text) + [Rest(text)]
  }

  /** The text with its last line ended. */
  function Ended(text: string): string {
    if text == "" || text[|text| - 1] == '\n' then text else text + "\n"
  }

  lemma {:induction false} RestIsEmpty(text: string)
    ensures Rest(text) == "" <==> text == "" || text[|text| - 1] == '\n'
  {
  }

  lemma AllLinesAreTheText(text: string)
    ensures Whole(AllLines(text)) == Ended(text)
  {
    SplitLosesNothing(text);
    RestIsEmpty(text);
    if Rest(text) == "" {
      assert Whole(Lines(text)) + "" == Whole(Lines(text));
    } else {
      WholePush(Lines(text), Rest(text));
    }
  }

  lemma FlushIsBatch(text: string, p: Policy)
    ensures Flush(Push(Empty, text, p), p) == Batch(AllLines(text), "", p)
  {
    PushIsBatch(text, p);
    if Rest(text) != "" {
      BatchEndLine(Lines(text), Rest(text), p);
    }
  }

  function Longest(lines: seq<string>): nat {
    if lines == [] then 0
    else
      var front, last := Longest(lines[..|lines| - 1]), Bytes(lines[|lines| - 1]);
      if last > front then last else front
  }

  lemma {:induction false} LongestBounds(lines: seq<string>, k: nat)
    requires k < |lines|
    ensures Bytes(lines[k]) <= Longest(lines)
  {
    if k < |lines| - 1 {
      LongestBounds(lines[..|lines| - 1], k);
    }
  }

  lemma TakenIsBounded(lines: seq<string>, p: Policy)
    ensures Bytes(Whole(lines[..Taken(lines, p)])) <= p.limit + Longest(lines)
  {
    var n := Taken(lines, p);
    if n > 0 {
      assert Room(lines, n - 1, p);
      assert lines[..n] == lines[..n - 1] + [lines[n - 1]];
      WholePush(lines[..n - 1], lines[n - 1]);
      LongestBounds(lines, n - 1);
    } else {
      assert Bytes("") == 0;
    }
  }

  lemma {:induction false} WholeGrows(lines: seq<string>, n: nat)
    requires n <= |lines|
    ensures Bytes(Whole(lines[..n])) + (if n < |lines| then 1 else 0) <= Bytes(Whole(lines))
  {
    if n < |lines| {
      var front := lines[..|lines| - 1];
      assert lines == front + [lines[|lines| - 1]];
      WholePush(front, lines[|lines| - 1]);
      assert front[..n] == lines[..n];
      WholeGrows(front, n);
    } else {
      assert lines[..n] == lines;
    }
  }

  lemma EndedBytes(text: string)
    ensures Bytes(Ended(text)) <= Bytes(text) + 1
  {
    BytesConcat(text, "\n");
    assert "\n"[..0] == "" && Bytes("\n") == 1;
  }

  /** What was cut off began at or past the limit. */
  lemma CutOffLate(text: string, p: Policy)
    requires Taken(AllLines(text), p) < |AllLines(text)|
    ensures Bytes(text) >= p.limit
  {
    WholeGrows(AllLines(text), Taken(AllLines(text), p));
    AllLinesAreTheText(text);
    EndedBytes(text);
  }

  lemma AccumulatedIsBounded(lines: seq<string>, p: Policy)
    ensures Bytes(Batch(lines, "", p).accumulated) < p.limit + Longest(lines) + 1 + Bytes(p.marker)
  {
    var n := Taken(lines, p);
    TakenIsBounded(lines, p);
    BytesConcat(Whole(lines[..n]), p.marker);
    assert Whole(lines[..n]) + "" == Whole(lines[..n]);
  }

  /** The accumulated output stays below limit + longest line + newline + marker,
      and nothing is lost unless the limit is reached. */
  lemma OutputIsBounded(text: string, p: Policy)
    ensures var b := Flush(Push(Empty, text, p), p);
      && Bytes(b.accumulated) < p.limit + Longest(AllLines(text)) + 1 + Bytes(p.marker)
      && (!b.truncated ==> b.accumulated == Ended(text))
      && (b.truncated ==> Bytes(text) >= p.limit)
  {
    FlushIsBatch(text, p);
    AllLinesAreTheText(text);
    var lines := AllLines(text);
    AccumulatedIsBounded(lines, p);
    if Taken(lines, p) < |lines| {
      CutOffLate(text, p);
    } else {
      assert lines[..|lines|] == lines && Whole(lines) + "" == Whole(lines);
    }
  }

  // ── The object ─────────────────────────────────────────────────────────────

  class OutputBuffer {
    var partial: string
    var accumulated: string
    var totalBytes: nat
    var truncated: bool
    var live: seq<string>

    constructor ()
      ensures Value() == Empty
    {
      partial, accumulated, totalBytes, truncated, live := "", "", 0, false, [];
    }

    function Value(): Buffer
      reads this
    {
      Buffer(partial, accumulated, totalBytes, truncated, live)
    }

    method PushText(text: string)
      modifies this
      ensures Value() == Push(old(Value()), text, OUTPUT_POLICY)
    {
      for i := 0 to |text|
        invariant Value() == Push(old(Value()), text[..i], OUTPUT_POLICY)
      {
        assert text[..i + 1][..i] == text[..i];
        if text[i] == '\n' {
          FinishLine();
        } else {
          partial := partial + [text[i]];
        }
      }
      assert text[..|text|] == text;
    }

    method FlushPartial()
      modifies this
      ensures Value() == Flush(old(Value()), OUTPUT_POLICY)
    {
      if partial != "" {
        FinishLine();
      }
    }

    method FinishLine()
      modifies this
      ensures Value() == EndLine(old(Value()), OUTPUT_POLICY)
    {
      live := live + [partial];
      if totalBytes < OUTPUT_POLICY.limit {
        accumulated := accumulated + partial;
        accumulated := accumulated + "\n";
        totalBytes := totalBytes + Bytes(partial) + 1;
      } else if !truncated {
        truncated := true;
        accumulated := accumulated + OUTPUT_POLICY.marker;
      }
      partial := "";
    }
  }

  /** The whole life of a buffer: whatever the chunks, the final output is that of
      the complete text. */
  method CollectOutput(chunks: seq<string>) returns (output: string, live: seq<string>)
    ensures output == Batch(AllLines(Flatten(chunks)), "", OUTPUT_POLICY).accumulated
    ensures live == AllLines(Flatten(chunks))
    ensures Bytes(Flatten(chunks)) < 10_485_760 ==> output == Ended(Flatten(chunks))
  {
    var buffer := new OutputBuffer();
    for i := 0 to |chunks|
      invariant fresh(buffer)
      invariant buffer.Value() == PushAll(Empty, chunks[..i], OUTPUT_POLICY)
    {
      assert chunks[..i + 1][..i] == chunks[..i];
      buffer.PushText(chunks[i]);
    }
    assert chunks[..|chunks|] == chunks;
    buffer.FlushPartial();
    ChunkingIsIrrelevant(Empty, chunks, OUTPUT_POLICY);
    FlushIsBatch(Flatten(chunks), OUTPUT_POLICY);
    OutputIsBounded(Flatten(chunks), OUTPUT_POLICY);
    output, live := buffer.accumulated, buffer.live;
  }
}
