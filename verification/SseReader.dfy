/**
 The browser-side readers of server-sent events: decoded text arrives in chunks,
 is buffered, and is cut at blank lines into event blocks.
 */
module SseReader {
  import opened Common

  datatype Event = Event(kind: string, data: string)

  // ── Cutting text at blank lines ────────────────────────────────────────────

  predicate BlankLineAt(s: string, i: nat) {
    i + 1 < |s| && s[i] == '\n' && s[i + 1] == '\n'
  }

  function FindBlankLine(s: string, i: nat): (r: Option<nat>)
    ensures r.Some? ==>
              && i <= r.value && BlankLineAt(s, r.value)
              && forall j: nat :: i <= j < r.value ==> !BlankLineAt(s, j)
    ensures r.None? ==> forall j: nat :: i <= j ==> !BlankLineAt(s, j)
    decreases |s| - i
  {
    if i + 1 >= |s| then None
    else if BlankLineAt(s, i) then Some(i)
    else FindBlankLine(s, i + 1)
  }

  /** The event blocks of a text, cut at leftmost blank lines ... */
  function Blocks(s: string): seq<string> {
    var i := FindBlankLine(s, 0);
    if i.None? then [] else [s[..i.value]] + Blocks(s[i.value + 2..])
  }

  /** ... and what follows the last of them. */
  function Remainder(s: string): string {
    var i := FindBlankLine(s, 0);
    if i.None? then s else Remainder(s[i.value + 2..])
  }

  lemma BlankLineKept(a: string, b: string, i: nat)
    requires FindBlankLine(a, 0) == Some(i)
    ensures FindBlankLine(a + b, 0) == Some(i)
  {
    assert BlankLineAt(a + b, i);
    forall j: nat | j < i ensures !BlankLineAt(a + b, j) {
      assert BlankLineAt(a + b, j) ==> BlankLineAt(a, j);
    }
  }

  /** Cutting incrementally is cutting the whole text. */
  lemma {:induction false} BlocksConcat(a: string, b: string)
    ensures Blocks(a + b) == Blocks(a) + Blocks(Remainder(a) + b)
    ensures Remainder(a + b) == Remainder(Remainder(a) + b)
    decreases |a|
  {
    var i := FindBlankLine(a, 0);
    if i.Some? {
      BlankLineKept(a, b, i.value);
      assert (a + b)[..i.value] == a[..i.value];
      assert (a + b)[i.value + 2..] == a[i.value + 2..] + b;
      BlocksConcat(a[i.value + 2..], b);
    }
  }

  // ── One block ──────────────────────────────────────────────────────────────

  /** JavaScript `split('\n')`: never empty. */
  function Split(s: string): (r: seq<string>)
    ensures r != []
  {
    if s == [] then [""]
    else if s[0] == '\n' then [""] + Split(s[1..])
    else
      var rest := Split(s[1..]);
      [[s[0]] + rest[0]] + rest[1..]
  }

  function Join(lines: seq<string>): string {
    if lines == [] then "" else if |lines| == 1 then lines[0] else lines[0] + "\n" + Join(lines[1..])
  }

  /** JavaScript `trim()` white space. */
  predicate IsSpace(c: char) {
    var n := c as int;
    9 <= n <= 13 || n == 32 || n == 0xA0 || n == 0x1680 || 0x2000 <= n <= 0x200A
    || n == 0x2028 || n == 0x2029 || n == 0x202F || n == 0x205F || n == 0x3000 || n == 0xFEFF
  }

  function TrimStart(s: string): string {
    if s != [] && IsSpace(s[0]) then TrimStart(s[1..]) else s
  }

  function TrimEnd(s: string): string {
    if s != [] && IsSpace(s[|s| - 1]) then TrimEnd(s[..|s| - 1]) else s
  }

  function Trim(s: string): string {
    TrimEnd(TrimStart(s))
  }

  const EVENT: string := "event:"
  const DATA: string := "data:"

  datatype Fields = Fields(kind: string, data: seq<string>)

  function ReadLine(f: Fields, line: string): Fields {
    if line != [] && line[0] == ':' then f
    else if EVENT <= line then f.(kind := Trim(line[|EVENT|..]))
    else if DATA <= line then
      var value := line[|DATA|..];
      f.(data := f.data + [if value != [] && value[0] == ' ' then value[1..] else value])
    else f
  }

  function ReadLines(f: Fields, lines: seq<string>): Fields
    decreases |lines|
  {
    if lines == [] then f else ReadLines(ReadLine(f, lines[0]), lines[1..])
  }

  /** A block without data is no event. */
  function ParseBlock(block: string): Option<Event> {
    var f := ReadLines(Fields("message", []), Split(block));
    if f.data == [] then None else Some(Event(f.kind, Join(f.data)))
  }

  method ParseSseEvent(text: string) returns (event: Option<Event>)
    ensures event == ParseBlock(text)
  {
    var kind := "message";
    var data: seq<string> := [];
    var lines := Split(text);
    for i := 0 to |lines|
      invariant ReadLines(Fields(kind, data), lines[i..]) == ReadLines(Fields("message", []), lines)
    {
      var line := lines[i];
      assert lines[i..][0] == line && lines[i..][1..] == lines[i + 1..];
      if line != [] && line[0] == ':' {
        continue;
      }
      if EVENT <= line {
        kind := Trim(line[|EVENT|..]);
      } else if DATA <= line {
        var value := line[|DATA|..];
        data := data + [if value != [] && value[0] == ' ' then value[1..] else value];
      }
    }
    assert lines[|lines|..] == [];
    event := if data == [] then None else Some(Event(kind, Join(data)));
  }

  // ── The readers ────────────────────────────────────────────────────────────

  function EventOf(block: string): seq<Event> {
    var e := ParseBlock(block);
    if e.None? then [] else [e.value]
  }

  function Events(blocks: seq<string>): seq<Event> {
    if blocks == [] then [] else EventOf(blocks[0]) + Events(blocks[1..])
  }

  lemma {:induction false} EventsConcat(xs: seq<string>, ys: seq<string>)
    ensures Events(xs + ys) == Events(xs) + Events(ys)
  {
    if xs == [] {
      assert xs + ys == ys;
    } else {
      assert (xs + ys)[1..] == xs[1..] + ys && (xs + ys)[0] == xs[0];
      EventsConcat(xs[1..], ys);
      Regroup(EventOf(xs[0]), Events(xs[1..]), Events(ys));
    }
  }

  /** Cutting off the first block takes its event off the front. */
  lemma EventsCut(buffer: string, i: nat)
    requires FindBlankLine(buffer, 0) == Some(i)
    ensures Events(Blocks(buffer)) == EventOf(buffer[..i]) + Events(Blocks(buffer[i + 2..]))
    ensures Remainder(buffer) == Remainder(buffer[i + 2..])
  {
    assert Blocks(buffer)[1..] == Blocks(buffer[i + 2..]);
  }

  // ── The admin reader ───────────────────────────────────────────────────────

  function ParsedOne(e: Event, json: string -> bool): seq<Event> {
    if json(e.data) then [e] else []
  }

  /** The events whose payload parses as JSON. */
  function Parsed(events: seq<Event>, json: string -> bool): seq<Event> {
    if events == [] then [] else ParsedOne(events[0], json) + Parsed(events[1..], json)
  }

  lemma {:induction false} ParsedConcat(xs: seq<Event>, ys: seq<Event>, json: string -> bool)
    ensures Parsed(xs + ys, json) == Parsed(xs, json) + Parsed(ys, json)
  {
    if xs == [] {
      assert xs + ys == ys;
    } else {
      assert (xs + ys)[1..] == xs[1..] + ys && (xs + ys)[0] == xs[0];
      ParsedConcat(xs[1..], ys, json);
      Regroup(ParsedOne(xs[0], json), Parsed(xs[1..], json), Parsed(ys, json));
    }
  }

  lemma ParsedCut(buffer: string, i: nat, json: string -> bool)
    requires FindBlankLine(buffer, 0) == Some(i)
    ensures Parsed(Events(Blocks(buffer)), json) ==
            Parsed(EventOf(buffer[..i]), json) + Parsed(Events(Blocks(buffer[i + 2..])), json)
  {
    EventsCut(buffer, i);
    ParsedConcat(EventOf(buffer[..i]), Events(Blocks(buffer[i + 2..])), json);
  }

  /** Dispatch one block if it is an event with a well-formed payload. */
  method DispatchAdmin(block: string, json: string -> bool) returns (dispatched: seq<Event>)
    ensures dispatched == Parsed(EventOf(block), json)
  {
    dispatched := [];
    var event := ParseSseEvent(block);
    if event.Some? {
      assert EventOf(block) == [event.value];
      if json(event.value.data) {
        dispatched := [event.value];
      }
    }
  }

  /** The inner loop: cut and dispatch until no blank line is left. */
  method DrainAdminEvents(buffer0: string, json: string -> bool) returns (buffer: string, dispatched: seq<Event>)
    ensures buffer == Remainder(buffer0)
    ensures dispatched == Parsed(Events(Blocks(buffer0)), json)
  {
    buffer, dispatched := buffer0, [];
    while true
      invariant Remainder(buffer) == Remainder(buffer0)
      invariant dispatched + Parsed(Events(Blocks(buffer)), json) == Parsed(Events(Blocks(buffer0)), json)
      decreases |buffer|
    {
      var boundary := FindBlankLine(buffer, 0);
      if boundary.None? {
        return;
      }
      ParsedCut(buffer, boundary.value, json);
      var now := DispatchAdmin(buffer[..boundary.value], json);
      Regroup(dispatched, now, Parsed(Events(Blocks(buffer[boundary.value + 2..])), json));
      dispatched := dispatched + now;
      buffer := buffer[boundary.value + 2..];
    }
  }

  /** Whatever the chunking, the admin reader dispatches the well-formed events of
      the whole text, in order. */
  method ReadAdminEventStream(chunks: seq<string>, json: string -> bool) returns (dispatched: seq<Event>)
    ensures dispatched == Parsed(Events(Blocks(Flatten(chunks))), json)
  {
    dispatched := [];
    var buffer := "";
    for i := 0 to |chunks|
      invariant buffer == Remainder(Flatten(chunks[..i]))
      invariant dispatched == Parsed(Events(Blocks(Flatten(chunks[..i]))), json)
    {
      ghost var seen := Flatten(chunks[..i]);
      assert chunks[..i + 1][..i] == chunks[..i];
      BlocksConcat(seen, chunks[i]);
      EventsConcat(Blocks(seen), Blocks(buffer + chunks[i]));
      ParsedConcat(Events(Blocks(seen)), Events(Blocks(buffer + chunks[i])), json);
      var more;
      buffer, more := DrainAdminEvents(buffer + chunks[i], json);
      dispatched := dispatched + more;
    }
    assert chunks[..|chunks|] == chunks;
  }

  // ── The update-output reader ───────────────────────────────────────────────

  datatype Call = OnOutput(data: string) | OnCompleted(data: string)

  /** The callbacks made, and whether the stream has been declared complete. */
  datatype Log = Log(calls: seq<Call>, done: bool)

  function FollowOne(e: Event, json: string -> bool): Log {
    if e.kind == "output" && e.data != "" then Log(if json(e.data) then [OnOutput(e.data)] else [], false)
    else if e.kind == "completed" && e.data != "" then Log(if json(e.data) then [OnCompleted(e.data)] else [], true)
    else Log([], false)
  }

  /** Nothing happens after the stream is complete. */
  function Then(a: Log, b: Log): Log {
    if a.done then a else Log(a.calls + b.calls, b.done)
  }

  /** Non-empty `output` events go to the output callback; the first non-empty
      `completed` event ends the stream, well-formed or not. */
  function Follow(events: seq<Event>, json: string -> bool): Log {
    if events == [] then Log([], false) else Then(FollowOne(events[0], json), Follow(events[1..], json))
  }

  lemma ThenNothing(a: Log)
    ensures Then(a, Log([], false)) == a && Then(Log([], false), a) == a
  {
    assert a.calls + [] == a.calls && [] + a.calls == a.calls;
  }

  lemma {:induction false} FollowConcat(xs: seq<Event>, ys: seq<Event>, json: string -> bool)
    ensures Follow(xs + ys, json) == Then(Follow(xs, json), Follow(ys, json))
  {
    if xs == [] {
      assert xs + ys == ys;
      ThenNothing(Follow(ys, json));
    } else {
      assert (xs + ys)[1..] == xs[1..] + ys && (xs + ys)[0] == xs[0];
      FollowConcat(xs[1..], ys, json);
      ThenAssociates(FollowOne(xs[0], json), Follow(xs[1..], json), Follow(ys, json));
    }
  }

  lemma FollowCut(buffer: string, i: nat, json: string -> bool)
    requires FindBlankLine(buffer, 0) == Some(i)
    ensures Follow(Events(Blocks(buffer)), json) ==
            Then(Follow(EventOf(buffer[..i]), json), Follow(Events(Blocks(buffer[i + 2..])), json))
  {
    EventsCut(buffer, i);
    FollowConcat(EventOf(buffer[..i]), Events(Blocks(buffer[i + 2..])), json);
  }

  method DispatchOutput(block: string, json: string -> bool) returns (log: Log)
    ensures log == Follow(EventOf(block), json)
  {
    log := Log([], false);
    var event := ParseSseEvent(block);
    if event.None? {
      return;
    }
    var e := event.value;
    assert EventOf(block) == [e];
    ThenNothing(FollowOne(e, json));
    if e.kind == "output" && e.data != "" {
      if json(e.data) {
        log := Log([OnOutput(e.data)], false);
      }
    } else if e.kind == "completed" && e.data != "" {
      log := Log(if json(e.data) then [OnCompleted(e.data)] else [], true);
    }
  }

  method DrainOutputEvents(buffer0: string, json: string -> bool) returns (buffer: string, log: Log)
    ensures log == Follow(Events(Blocks(buffer0)), json)
    ensures !log.done ==> buffer == Remainder(buffer0)
  {
    buffer, log := buffer0, Log([], false);
    while true
      invariant !log.done && Remainder(buffer) == Remainder(buffer0)
      invariant Then(log, Follow(Events(Blocks(buffer)), json)) == Follow(Events(Blocks(buffer0)), json)
      decreases |buffer|
    {
      var boundary := FindBlankLine(buffer, 0);
      if boundary.None? {
        return;
      }
      FollowCut(buffer, boundary.value, json);
      var now := DispatchOutput(buffer[..boundary.value], json);
      buffer := buffer[boundary.value + 2..];
      ThenAssociates(log, now, Follow(Events(Blocks(buffer)), json));
      log := Then(log, now);
      if log.done {
        return;
      }
    }
  }

  lemma ThenAssociates(a: Log, b: Log, c: Log)
    ensures Then(a, Then(b, c)) == Then(Then(a, b), c)
  {
  }

  /** Whatever the chunking, the output reader makes the callbacks of the whole
      text up to its first completion, even though it stops reading there. */
  method ReadSseStream(chunks: seq<string>, json: string -> bool) returns (log: Log)
    ensures log == Follow(Events(Blocks(Flatten(chunks))), json)
  {
    log := Log([], false);
    var buffer := "";
    for i := 0 to |chunks|
      invariant buffer == Remainder(Flatten(chunks[..i])) && !log.done
      invariant log == Follow(Events(Blocks(Flatten(chunks[..i]))), json)
    {
      OneMoreChunk(chunks, i, json);
      var more;
      buffer, more := DrainOutputEvents(buffer + chunks[i], json);
      log := Log(log.calls + more.calls, more.done);
      if log.done {
        CompleteIsFinal(chunks, i + 1, json);
        return;
      }
    }
    assert chunks[..|chunks|] == chunks;
  }

  lemma OneMoreChunk(chunks: seq<string>, i: nat, json: string -> bool)
    requires i < |chunks|
    ensures var seen, more := Flatten(chunks[..i]), Flatten(chunks[..i + 1]);
      && Follow(Events(Blocks(more)), json) ==
         Then(Follow(Events(Blocks(seen)), json), Follow(Events(Blocks(Remainder(seen) + chunks[i])), json))
      && Remainder(more) == Remainder(Remainder(seen) + chunks[i])
  {
    var seen := Flatten(chunks[..i]);
    assert chunks[..i + 1][..i] == chunks[..i];
    BlocksConcat(seen, chunks[i]);
    EventsConcat(Blocks(seen), Blocks(Remainder(seen) + chunks[i]));
    FollowConcat(Events(Blocks(seen)), Events(Blocks(Remainder(seen) + chunks[i])), json);
  }

  /** What arrives after the completion changes nothing. */
  lemma {:induction false} CompleteIsFinal(chunks: seq<string>, n: nat, json: string -> bool)
    requires n <= |chunks| && Follow(Events(Blocks(Flatten(chunks[..n]))), json).done
    ensures Follow(Events(Blocks(Flatten(chunks))), json) == Follow(Events(Blocks(Flatten(chunks[..n]))), json)
    decreases |chunks| - n
  {
    if n < |chunks| {
      OneMoreChunk(chunks, n, json);
      CompleteIsFinal(chunks, n + 1, json);
    } else {
      assert chunks[..n] == chunks;
    }
  }

  // ── Round trip with the sender's field format ──────────────────────────────

  predicate Plain(line: string) {
    '\n' !in line
  }

  function DataLine(text: string): string {
    "data: " + text
  }

  function DataLines(lines: seq<string>): seq<string> {
    if lines == [] then [] else [DataLine(lines[0])] + DataLines(lines[1..])
  }

  /** An event in the line-feed field format: the type, then one field per data line. */
  function FieldLines(e: Event): seq<string> {
    ["event: " + e.kind] + DataLines(Split(e.data))
  }

  function Encode(e: Event): string {
    Join(FieldLines(e)) + "\n\n"
  }

  function EncodeAll(events: seq<Event>): string {
    if events == [] then "" else Encode(events[0]) + EncodeAll(events[1..])
  }

  predicate Sendable(e: Event) {
    Plain(e.kind) && Trim(e.kind) == e.kind
  }

  lemma {:induction false} SplitPlain(s: string, rest: string)
    requires Plain(s)
    ensures Split(s) == [s]
    ensures Split(s + "\n" + rest) == [s] + Split(rest)
  {
    if s == [] {
      assert s + "\n" + rest == "\n" + rest;
      assert ("\n" + rest)[1..] == rest;
    } else {
      assert (s + "\n" + rest)[1..] == s[1..] + "\n" + rest;
      SplitPlain(s[1..], rest);
      assert [s[0]] + s[1..] == s;
    }
  }

  /** Splitting undoes joining newline-free lines. */
  lemma {:induction false} SplitJoin(lines: seq<string>)
    requires lines != [] && forall i :: 0 <= i < |lines| ==> Plain(lines[i])
    ensures Split(Join(lines)) == lines
  {
    if |lines| == 1 {
      SplitPlain(lines[0], "");
    } else {
      SplitPlain(lines[0], Join(lines[1..]));
      SplitJoin(lines[1..]);
    }
  }

  /** Joining undoes splitting. */
  lemma {:induction false} JoinSplit(s: string)
    ensures Join(Split(s)) == s
    ensures forall i :: 0 <= i < |Split(s)| ==> Plain(Split(s)[i])
  {
    if s != [] {
      JoinSplit(s[1..]);
      var rest := Split(s[1..]);
      if s[0] == '\n' {
        assert Split(s)[1..] == rest;
      } else {
        assert Split(s)[1..] == rest[1..];
      }
    }
  }

  lemma {:induction false} DataLinesShape(lines: seq<string>)
    requires forall i :: 0 <= i < |lines| ==> Plain(lines[i])
    ensures |DataLines(lines)| == |lines|
    ensures forall i :: 0 <= i < |lines| ==> DataLines(lines)[i] == "data: " + lines[i]
    ensures forall i :: 0 <= i < |lines| ==> Plain(DataLines(lines)[i])
  {
    if lines != [] {
      DataLinesShape(lines[1..]);
    }
  }

  lemma ReadDataLine(f: Fields, text: string)
    ensures ReadLine(f, DataLine(text)) == f.(data := f.data + [text])
  {
    var line := DataLine(text);
    assert line[|DATA|..] == " " + text;
    assert (" " + text)[1..] == text;
  }

  lemma {:induction false} ReadDataLines(f: Fields, lines: seq<string>)
    ensures ReadLines(f, DataLines(lines)) == f.(data := f.data + lines)
    decreases |lines|
  {
    if lines == [] {
      assert f.data + [] == f.data;
    } else {
      var g := f.(data := f.data + [lines[0]]);
      ReadDataLine(f, lines[0]);
      assert DataLines(lines)[1..] == DataLines(lines[1..]);
      ReadDataLines(g, lines[1..]);
      Regroup(f.data, [lines[0]], lines[1..]);
      assert [lines[0]] + lines[1..] == lines;
    }
  }

  lemma TrimLeadingSpace(s: string)
    ensures Trim(" " + s) == Trim(s)
  {
    assert (" " + s)[1..] == s;
  }

  lemma ParseEncoded(e: Event)
    requires Sendable(e)
    ensures ParseBlock(Join(FieldLines(e))) == Some(e)
  {
    var data := Split(e.data);
    JoinSplit(e.data);
    DataLinesShape(data);
    var first, lines := "event: " + e.kind, FieldLines(e);
    SplitJoin(lines);
    assert first[|EVENT|..] == " " + e.kind;
    TrimLeadingSpace(e.kind);
    var start := Fields("message", []);
    assert lines[0] == first && lines[1..] == DataLines(data);
    assert ReadLine(start, first) == Fields(e.kind, []);
    ReadDataLines(Fields(e.kind, []), data);
    assert [] + data == data;
  }

  predicate BlankLineBehind(line: string, rest: string, j: nat) {
    (rest != "" && rest[0] == '\n') || (j > |line| && BlankLineAt(rest, j - |line| - 1))
  }

  lemma BlankLineShift(line: string, rest: string, j: nat)
    requires Plain(line) && BlankLineAt(line + "\n" + rest, j)
    ensures BlankLineBehind(line, rest, j)
  {
    var s := line + "\n" + rest;
    assert forall k :: 0 <= k < |line| ==> s[k] == line[k];
    assert j > |line| ==> s[j] == rest[j - |line| - 1] && s[j + 1] == rest[j - |line|];
  }

  /** Non-empty newline-free lines joined hold no blank line and end in text. */
  lemma {:induction false} JoinHasNoBlankLine(lines: seq<string>)
    requires lines != [] && forall i :: 0 <= i < |lines| ==> lines[i] != "" && Plain(lines[i])
    ensures Join(lines) != "" && Join(lines)[0] != '\n' && Join(lines)[|Join(lines)| - 1] != '\n'
    ensures forall j: nat :: !BlankLineAt(Join(lines), j)
  {
    if |lines| > 1 {
      var rest := Join(lines[1..]);
      forall j: nat | BlankLineAt(Join(lines), j) ensures BlankLineBehind(lines[0], rest, j) {
        BlankLineShift(lines[0], rest, j);
      }
      JoinHasNoBlankLine(lines[1..]);
    }
  }

  lemma CutAfter(b: string, rest: string)
    requires b != "" && b[|b| - 1] != '\n' && forall j: nat :: !BlankLineAt(b, j)
    ensures Blocks(b + "\n\n" + rest) == [b] + Blocks(rest)
    ensures Remainder(b + "\n\n" + rest) == Remainder(rest)
  {
    var s := b + "\n\n" + rest;
    assert BlankLineAt(s, |b|);
    forall j: nat | j < |b| ensures !BlankLineAt(s, j) {
      assert BlankLineAt(s, j) && j + 1 < |b| ==> BlankLineAt(b, j);
    }
    assert FindBlankLine(s, 0) == Some(|b|);
    assert s[..|b|] == b && s[|b| + 2..] == rest;
  }

  lemma EncodedIsOneBlock(e: Event, rest: string)
    requires Sendable(e)
    ensures Blocks(Encode(e) + rest) == [Join(FieldLines(e))] + Blocks(rest)
    ensures Remainder(Encode(e) + rest) == Remainder(rest)
  {
    JoinSplit(e.data);
    DataLinesShape(Split(e.data));
    var lines := FieldLines(e);
    forall i | 0 <= i < |lines| ensures lines[i] != "" && Plain(lines[i]) {
      assert i > 0 ==> lines[i] == "data: " + Split(e.data)[i - 1];
    }
    JoinHasNoBlankLine(lines);
    CutAfter(Join(lines), rest);
  }

  lemma {:induction false} EncodedBlocksParse(events: seq<Event>)
    requires forall i :: 0 <= i < |events| ==> Sendable(events[i])
    ensures Events(Blocks(EncodeAll(events))) == events
    ensures Remainder(EncodeAll(events)) == ""
  {
    if events != [] {
      EncodedBlocksParse(events[1..]);
      EncodedIsOneBlock(events[0], EncodeAll(events[1..]));
      ParseEncoded(events[0]);
      var first := [Join(FieldLines(events[0]))];
      assert (first + Blocks(EncodeAll(events[1..])))[1..] == Blocks(EncodeAll(events[1..]));
    }
  }

  lemma {:induction false} TrimStartResult(s: string)
    ensures TrimStart(s) == "" || !IsSpace(TrimStart(s)[0])
    ensures forall c :: c in TrimStart(s) ==> c in s
  {
    if s != [] && IsSpace(s[0]) {
      TrimStartResult(s[1..]);
    }
  }

  lemma {:induction false} TrimEndResult(s: string)
    requires s == "" || !IsSpace(s[0])
    ensures TrimEnd(TrimEnd(s)) == TrimEnd(s) && TrimStart(TrimEnd(s)) == TrimEnd(s)
    ensures forall c :: c in TrimEnd(s) ==> c in s
  {
    if s != [] && IsSpace(s[|s| - 1]) {
      TrimEndResult(s[..|s| - 1]);
    }
  }

  /** A type read from a newline-free line can be sent again. */
  lemma TrimmedIsSendable(s: string, data: string)
    requires Plain(s)
    ensures Sendable(Event(Trim(s), data))
  {
    TrimStartResult(s);
    TrimEndResult(TrimStart(s));
    assert forall i :: 0 <= i < |Trim(s)| ==> Trim(s)[i] in s;
  }

  lemma {:induction false} ReadKindIsSendable(f: Fields, lines: seq<string>, data: string)
    requires Sendable(Event(f.kind, data)) && forall i :: 0 <= i < |lines| ==> Plain(lines[i])
    ensures Sendable(Event(ReadLines(f, lines).kind, data))
    decreases |lines|
  {
    if lines != [] {
      if EVENT <= lines[0] {
        TrimmedIsSendable(lines[0][|EVENT|..], data);
      }
      ReadKindIsSendable(ReadLine(f, lines[0]), lines[1..], data);
    }
  }

  lemma ReadIsSendable(block: string)
    ensures forall e :: e in EventOf(block) ==> Sendable(e)
  {
    var lines := Split(block);
    JoinSplit(block);
    TrimmedIsSendable("message", "");
    var f := ReadLines(Fields("message", []), lines);
    ReadKindIsSendable(Fields("message", []), lines, "");
    assert forall e :: e in EventOf(block) ==> e.kind == f.kind;
  }

  lemma {:induction false} AllReadAreSendable(blocks: seq<string>)
    ensures forall e :: e in Events(blocks) ==> Sendable(e)
  {
    if blocks != [] {
      ReadIsSendable(blocks[0]);
      AllReadAreSendable(blocks[1..]);
    }
  }

  predicate AllSendable(events: seq<Event>) {
    forall i :: 0 <= i < |events| ==> Sendable(events[i])
  }

  lemma RecoveredIsSendable(blocks: seq<string>)
    ensures AllSendable(Events(blocks))
  {
    AllReadAreSendable(blocks);
    var events := Events(blocks);
    forall i | 0 <= i < |events| ensures Sendable(events[i]) {
      assert events[i] in events;
    }
  }

  /** Events written in the field format are recovered exactly, multi-line data
      included, however the text is cut into chunks, if and only if every type is
      newline-free and without white space around it. */
  lemma RoundTrip(events: seq<Event>, chunks: seq<string>)
    requires Flatten(chunks) == EncodeAll(events)
    ensures Events(Blocks(Flatten(chunks))) == events <==> AllSendable(events)
  {
    RecoveredIsSendable(Blocks(EncodeAll(events)));
    if AllSendable(events) {
      EncodedBlocksParse(events);
    }
  }

  // ── Any block, field by field ──────────────────────────────────────────────

  /** A line as a sender may write it; `spaced` data has one space behind the colon. */
  datatype Field = Kind(text: string) | Data(spaced: bool, text: string) | Comment(text: string) | Other(text: string)

  function FieldText(f: Field): string {
    match f
    case Kind(text) => "event:" + text
    case Data(spaced, text) => "data:" + ((if spaced then " " else "") + text)
    case Comment(text) => ":" + text
    case Other(text) => text
  }

  predicate FieldShape(f: Field) {
    match f
    case Data(spaced, text) => !spaced ==> text == "" || text[0] != ' '
    case Other(text) => !(":" <= text) && !("event:" <= text) && !("data:" <= text)
    case _ => true
  }

  /** Every line is one of these. */
  lemma EveryLineIsAField(line: string) returns (f: Field)
    ensures FieldShape(f) && FieldText(f) == line
  {
    if ":" <= line {
      f := Comment(line[1..]);
    } else if "event:" <= line {
      f := Kind(line[6..]);
    } else if "data: " <= line {
      f := Data(true, line[6..]);
      assert line == "data: " + line[6..];
      assert "data:" + (" " + line[6..]) == "data: " + line[6..];
    } else if "data:" <= line {
      f := Data(false, line[5..]);
      assert |line| >= 6 ==> line[..6] == "data:" + [line[5]] && line[5..][0] == line[5];
    } else {
      f := Other(line);
    }
  }

  function Texts(fields: seq<Field>): seq<string> {
    seq(|fields|, i requires 0 <= i < |fields| => FieldText(fields[i]))
  }

  /** The type last named, trimmed. */
  function LastKind(fields: seq<Field>): string {
    if fields == [] then "message"
    else
      var last := fields[|fields| - 1];
      if last.Kind? then Trim(last.text) else LastKind(fields[..|fields| - 1])
  }

  function DataOf(fields: seq<Field>): seq<string> {
    if fields == [] then []
    else
      var last := fields[|fields| - 1];
      DataOf(fields[..|fields| - 1]) + if last.Data? then [last.text] else []
  }

  lemma ReadField(g: Fields, f: Field)
    requires FieldShape(f)
    ensures ReadLine(g, FieldText(f)) ==
            match f
            case Kind(text) => g.(kind := Trim(text))
            case Data(_, text) => g.(data := g.data + [text])
            case _ => g
  {
    var line := FieldText(f);
    match f
    case Kind(text) => assert line[6..] == text;
    case Data(spaced, text) =>
      var value := (if spaced then " " else "") + text;
      assert line[5..] == value && "data:"[0] != "event:"[0];
      if spaced {
        assert value[1..] == text;
      } else {
        assert value == text;
      }
    case _ =>
  }

  lemma {:induction false} ReadSnoc(g: Fields, lines: seq<string>, line: string)
    ensures ReadLines(g, lines + [line]) == ReadLine(ReadLines(g, lines), line)
    decreases |lines|
  {
    if lines == [] {
      assert [line][1..] == [] && lines + [line] == [line];
    } else {
      assert (lines + [line])[1..] == lines[1..] + [line];
      ReadSnoc(ReadLine(g, lines[0]), lines[1..], line);
    }
  }

  lemma {:induction false} ReadFields(fields: seq<Field>)
    requires forall i :: 0 <= i < |fields| ==> FieldShape(fields[i])
    ensures ReadLines(Fields("message", []), Texts(fields)) == Fields(LastKind(fields), DataOf(fields))
  {
    if fields != [] {
      var front, last := fields[..|fields| - 1], fields[|fields| - 1];
      ReadFields(front);
      assert Texts(fields) == Texts(front) + [FieldText(last)];
      ReadSnoc(Fields("message", []), Texts(front), FieldText(last));
      ReadField(Fields(LastKind(front), DataOf(front)), last);
      assert DataOf(front) + [] == DataOf(front);
    }
  }

  /** Any block, read by its fields: the last type, trimmed, or `message`; the data lines in
      order, with at most one leading space dropped; comments and other fields ignored; and
      no event at all without data. */
  lemma BlockIsExact(fields: seq<Field>)
    requires fields != []
    requires forall i :: 0 <= i < |fields| ==> FieldShape(fields[i]) && Plain(FieldText(fields[i]))
    ensures ParseBlock(Join(Texts(fields))) ==
            if DataOf(fields) == [] then None else Some(Event(LastKind(fields), Join(DataOf(fields))))
  {
    SplitJoin(Texts(fields));
    ReadFields(fields);
  }

  // ── Which callbacks are made ───────────────────────────────────────────────

  predicate Completes(e: Event) {
    e.kind == "completed" && e.data != ""
  }

  /** The output callbacks of a stretch of events: one per well-formed non-empty `output`. */
  function OutputCalls(events: seq<Event>, json: string -> bool): seq<Call> {
    if events == [] then []
    else
      var e := events[0];
      (if e.kind == "output" && e.data != "" && json(e.data) then [OnOutput(e.data)] else [])
      + OutputCalls(events[1..], json)
  }

  /** The stream is complete exactly from the first non-empty `completed` event on; up to it
      every well-formed non-empty `output` is passed on, then the completion if it is well
      formed, and nothing else. */
  lemma {:induction false} FollowIsExact(events: seq<Event>, json: string -> bool, k: nat)
    requires k <= |events| && forall i :: 0 <= i < k ==> !Completes(events[i])
    requires k < |events| ==> Completes(events[k])
    ensures Follow(events, json).done <==> k < |events|
    ensures Follow(events, json).calls ==
            OutputCalls(events[..k], json) +
            if k < |events| && json(events[k].data) then [OnCompleted(events[k].data)] else []
  {
    if k > 0 {
      FollowIsExact(events[1..], json, k - 1);
      assert events[1..][..k - 1] == events[..k][1..];
    }
  }

  /** The admin reader drops exactly the events whose payload is malformed: of any stretch
      (`ParsedConcat`) none of them is left, and a well-formed stretch is kept whole. */
  lemma {:induction false} ParsedIsExact(events: seq<Event>, json: string -> bool)
    ensures (forall i :: 0 <= i < |events| ==> !json(events[i].data)) ==> Parsed(events, json) == []
    ensures (forall i :: 0 <= i < |events| ==> json(events[i].data)) ==> Parsed(events, json) == events
  {
    if events != [] {
      ParsedIsExact(events[1..], json);
      assert events == [events[0]] + events[1..];
    }
  }

  // ── Line ends the readers do not recognise ─────────────────────────────────

  /** A text is cut exactly when it holds two adjacent line feeds. */
  lemma CutAtAdjacentLineFeeds(text: string)
    ensures Blocks(text) != [] <==> exists i: nat :: BlankLineAt(text, i)
    ensures Blocks(text) == [] <==> Remainder(text) == text
  {
    var i := FindBlankLine(text, 0);
    if i.Some? {
      RemainderIsShorter(text[i.value + 2..]);
    }
  }

  lemma {:induction false} RemainderIsShorter(text: string)
    ensures |Remainder(text)| <= |text|
    decreases |text|
  {
    var i := FindBlankLine(text, 0);
    if i.Some? {
      RemainderIsShorter(text[i.value + 2..]);
    }
  }

  /** Every line feed follows a carriage return. */
  predicate CrlfOnly(s: string) {
    forall i :: 0 <= i < |s| && s[i] == '\n' ==> i > 0 && s[i - 1] == '\r'
  }

  lemma CrlfOnlyConcat(a: string, b: string)
    requires CrlfOnly(a) && CrlfOnly(b)
    ensures CrlfOnly(a + b)
  {
    var s := a + b;
    forall i | 0 <= i < |s| && s[i] == '\n' ensures i > 0 && s[i - 1] == '\r' {
      if i >= |a| {
        assert b[i - |a|] == '\n';
        assert s[i - 1] == b[i - |a| - 1];
      }
    }
  }

  /** The field format with the other line end that the standard allows. */
  function CrlfLines(lines: seq<string>): string {
    if lines == [] then "" else (lines[0] + "\r\n") + CrlfLines(lines[1..])
  }

  function EncodeCrlf(e: Event): string {
    CrlfLines(FieldLines(e)) + "\r\n"
  }

  function EncodeAllCrlf(events: seq<Event>): string {
    if events == [] then "" else EncodeCrlf(events[0]) + EncodeAllCrlf(events[1..])
  }

  lemma {:induction false} CrlfLinesAreCrlfOnly(lines: seq<string>)
    requires forall i :: 0 <= i < |lines| ==> Plain(lines[i])
    ensures CrlfOnly(CrlfLines(lines))
  {
    if lines != [] {
      CrlfLinesAreCrlfOnly(lines[1..]);
      var line := lines[0] + "\r\n";
      assert CrlfOnly(line) by {
        assert forall i :: 0 <= i < |lines[0]| ==> line[i] in lines[0];
      }
      CrlfOnlyConcat(line, CrlfLines(lines[1..]));
    }
  }

  lemma {:induction false} EncodedCrlfOnly(events: seq<Event>)
    requires forall i :: 0 <= i < |events| ==> Sendable(events[i])
    ensures CrlfOnly(EncodeAllCrlf(events))
  {
    if events != [] {
      EncodedCrlfOnly(events[1..]);
      FieldLinesArePlain(events[0]);
      CrlfLinesAreCrlfOnly(FieldLines(events[0]));
      CrlfOnlyConcat(CrlfLines(FieldLines(events[0])), "\r\n");
      CrlfOnlyConcat(EncodeCrlf(events[0]), EncodeAllCrlf(events[1..]));
    }
  }

  lemma FieldLinesArePlain(e: Event)
    requires Sendable(e)
    ensures forall i :: 0 <= i < |FieldLines(e)| ==> Plain(FieldLines(e)[i])
  {
    JoinSplit(e.data);
    DataLinesShape(Split(e.data));
    assert Plain("event: " + e.kind);
  }

  /** The counterpart of the round trip: the same events with CRLF line ends are all
      lost, whatever the chunks; they stay in the buffer. */
  lemma CrlfEventsAreLost(events: seq<Event>, chunks: seq<string>)
    requires forall i :: 0 <= i < |events| ==> Sendable(events[i])
    requires Flatten(chunks) == EncodeAllCrlf(events)
    ensures Events(Blocks(Flatten(chunks))) == [] && Remainder(Flatten(chunks)) == EncodeAllCrlf(events)
  {
    var text := EncodeAllCrlf(events);
    EncodedCrlfOnly(events);
    forall j: nat ensures !BlankLineAt(text, j) {
      assert j + 1 < |text| && text[j + 1] == '\n' ==> text[j + 1 - 1] == '\r';
    }
    CutAtAdjacentLineFeeds(text);
  }
}
