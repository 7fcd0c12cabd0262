/**
 The brace-driven scan that finds `mod name;` declarations and the inline modules
 they sit in: a running depth and a stack of (depth at open, module name).
 */
module ModuleScan {
  import opened Common

  /** A resolved absolute path, as its components. */
  type Path = seq<string>

  /** Module-shape events of a sanitized source: bare braces, `mod name {`, and
      `mod name;` with the resolved `#[path]` in front of it, if there is one. */
  datatype Event = Open | Close | InlineOpen(name: string) | FileModule(name: string, attr: Option<Path>)

  datatype Frame = Frame(depth: int, name: string)

  datatype Scan = Scan(depth: int, stack: seq<Frame>)

  /** A file module, the names of the inline modules around it, outermost first, and
      its own `#[path]`. */
  datatype Decl = Decl(path: seq<string>, name: string, attr: Option<Path>)

  const Start := Scan(0, [])

  function Names(stack: seq<Frame>): seq<string> {
    seq(|stack|, i requires 0 <= i < |stack| => stack[i].name)
  }

  function Pop(stack: seq<Frame>, depth: int): seq<Frame> {
    if stack != [] && stack[|stack| - 1].depth == depth then stack[..|stack| - 1] else stack
  }

  function Advance(s: Scan, e: Event): Scan {
    match e
    case Open => Scan(s.depth + 1, s.stack)
    case Close => Scan(s.depth - 1, Pop(s.stack, s.depth - 1))
    case InlineOpen(name) => Scan(s.depth + 1, s.stack + [Frame(s.depth, name)])
    case FileModule(_, _) => s
  }

  function Run(s: Scan, events: seq<Event>): Scan
    decreases events
  {
    if events == [] then s else Run(Advance(s, events[0]), events[1..])
  }

  function Found(s: Scan, e: Event): seq<Decl> {
    if e.FileModule? then [Decl(Names(s.stack), e.name, e.attr)] else []
  }

  /** The declarations the scan meets, in order. */
  function Decls(s: Scan, events: seq<Event>): seq<Decl>
    decreases events
  {
    if events == [] then [] else Found(s, events[0]) + Decls(Advance(s, events[0]), events[1..])
  }

  lemma {:induction false} RunConcat(s: Scan, xs: seq<Event>, ys: seq<Event>)
    ensures Run(s, xs + ys) == Run(Run(s, xs), ys)
    ensures Decls(s, xs + ys) == Decls(s, xs) + Decls(Run(s, xs), ys)
    decreases xs
  {
    if xs == [] {
      assert xs + ys == ys;
    } else {
      assert (xs + ys)[1..] == xs[1..] + ys;
      RunConcat(Advance(s, xs[0]), xs[1..], ys);
    }
  }

  lemma RunSnoc(s: Scan, events: seq<Event>, i: nat)
    requires i < |events|
    ensures Run(s, events[..i + 1]) == Advance(Run(s, events[..i]), events[i])
    ensures Decls(s, events[..i + 1]) == Decls(s, events[..i]) + Found(Run(s, events[..i]), events[i])
  {
    assert events[..i + 1] == events[..i] + [events[i]];
    RunConcat(s, events[..i], [events[i]]);
  }

  // ── Nested sources ─────────────────────────────────────────────────────────

  /** What the events of a well-bracketed source come from. */
  datatype Item =
    | Block(items: seq<Item>)
    | Inline(name: string, items: seq<Item>)
    | File(name: string, attr: Option<Path>)

  function Flatten(items: seq<Item>): seq<Event>
    decreases items
  {
    if items == [] then [] else FlattenItem(items[0]) + Flatten(items[1..])
  }

  function FlattenItem(item: Item): seq<Event>
    decreases item
  {
    match item
    case Block(items) => [Open] + Flatten(items) + [Close]
    case Inline(name, items) => [InlineOpen(name)] + Flatten(items) + [Close]
    case File(name, attr) => [FileModule(name, attr)]
  }

  /** Each file module under the names of its enclosing inline modules. */
  function Enclosed(items: seq<Item>, path: seq<string>): seq<Decl>
    decreases items
  {
    if items == [] then [] else EnclosedItem(items[0], path) + Enclosed(items[1..], path)
  }

  function EnclosedItem(item: Item, path: seq<string>): seq<Decl>
    decreases item
  {
    match item
    case Block(items) => Enclosed(items, path)
    case Inline(name, items) => Enclosed(items, path + [name])
    case File(name, attr) => [Decl(path, name, attr)]
  }

  /** The innermost open inline module was opened at a smaller depth than the current one. */
  predicate Outside(s: Scan) {
    s.stack != [] ==> s.stack[|s.stack| - 1].depth < s.depth
  }

  lemma BracketRun(s: Scan, open: Event, inner: seq<Event>)
    requires open == Open || open.InlineOpen?
    requires Outside(s)
    requires Run(Advance(s, open), inner) == Advance(s, open)
    ensures Run(s, [open] + inner + [Close]) == s
    ensures Decls(s, [open] + inner + [Close]) == Decls(Advance(s, open), inner)
  {
    RunConcat(s, [open] + inner, [Close]);
    RunConcat(s, [open], inner);
    var within := Advance(s, open);
    assert Run(s, [open]) == within && Decls(s, [open]) == [];
    assert Advance(within, Close) == s;
    assert Run(within, [Close]) == s && Decls(within, [Close]) == [];
  }

  /** For every nested tree flattened to events, the scan reports each file module
      under exactly the names of its enclosing inline modules and restores depth
      and stack after the balanced group, from any surrounding state. */
  lemma {:induction false} ScanFollowsTree(s: Scan, items: seq<Item>)
    requires Outside(s)
    ensures Run(s, Flatten(items)) == s
    ensures Decls(s, Flatten(items)) == Enclosed(items, Names(s.stack))
    decreases items
  {
    if items != [] {
      ScanFollowsItem(s, items[0]);
      ScanFollowsTree(s, items[1..]);
      RunConcat(s, FlattenItem(items[0]), Flatten(items[1..]));
    }
  }

  lemma {:induction false} ScanFollowsItem(s: Scan, item: Item)
    requires Outside(s)
    ensures Run(s, FlattenItem(item)) == s
    ensures Decls(s, FlattenItem(item)) == EnclosedItem(item, Names(s.stack))
    decreases item
  {
    match item
    case Block(items) =>
      ScanFollowsTree(Advance(s, Open), items);
      BracketRun(s, Open, Flatten(items));
    case Inline(name, items) =>
      ScanFollowsTree(Advance(s, InlineOpen(name)), items);
      BracketRun(s, InlineOpen(name), Flatten(items));
      assert Names(Advance(s, InlineOpen(name)).stack) == Names(s.stack) + [name];
    case File(name, attr) =>
      assert Decls(s, [FileModule(name, attr)]) == [Decl(Names(s.stack), name, attr)];
  }
}
