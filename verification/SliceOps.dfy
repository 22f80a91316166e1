/**
 * Slices of a document tree as flat segments with nesting markers, and the stack that rebuilds the tree
 * (`sliceToGroupOps`, `adjustOffset`, `generateFragment`, `getOpenStart` and `getOpenEnd` of
 * examples/data-objects/prosemirror/src/fluidBridge.ts).
 */
module SliceOps {
  import opened Common
  import opened Options

  /** Attributes of inline nodes are passed through as they are. */
  type Attrs = nat

  datatype Node = Text(text: string) | Inline(name: string, attrs: Attrs) | Block(name: string, content: seq<Node>)

  datatype Segment = TextSegment(text: string) | Begin(name: string) | End(name: string)
    | Simple(name: string, attrs: Attrs)

  function Width(s: Segment): nat {
    if s.TextSegment? then |s.text| else 1
  }

  // ---------- Flattening ----------

  /** A negative open depth says that the side was cut off at an outer level, so the marker is written. */
  function Flat(n: Node, openStart: int, openEnd: int): seq<Segment>
    decreases n
  {
    match n
    case Text(text) => [TextSegment(text)]
    case Inline(name, attrs) => [Simple(name, attrs)]
    case Block(name, content) =>
      (if openStart < 0 then [Begin(name)] else [])
      + Flats(content, openStart, openEnd)
      + (if openEnd < 0 then [End(name)] else [])
  }

  /** Only the first node can be open at its start and only the last at its end, one level less deep. */
  function Flats(ns: seq<Node>, openStart: int, openEnd: int): seq<Segment>
    decreases ns
  {
    if ns == [] then []
    else Flat(ns[0], openStart - 1, if |ns| == 1 then openEnd - 1 else -1) + Flats(ns[1..], 0, openEnd)
  }

  // ---------- Rebuilding ----------

  /** A node of the rebuilt fragment; `isOpen` is the _open mark. */
  datatype Built = BuiltText(text: string) | BuiltInline(name: string, attrs: Attrs)
    | BuiltBlock(name: string, content: seq<Built>, isOpen: bool)

  /** An open node with what it contains so far. */
  datatype Frame = Frame(name: string, content: seq<Built>)

  /**
   * The stack of open nodes, the document at its bottom. `openTop` collects ends without a begin. A failure is
   * the end of the document itself.
   */
  datatype Builder = Builder(stack: seq<Frame>, openTop: Option<Built>) | Failed

  const START := Builder([Frame("doc", [])], None)

  function Pushed(stack: seq<Frame>, b: Built): seq<Frame>
    requires stack != []
  {
    var last := |stack| - 1;
    stack[last := Frame(stack[last].name, stack[last].content + [b])]
  }

  function Step(b: Builder, s: Segment): Builder {
    if b.Failed? || b.stack == [] then Failed
    else
      var top := b.stack[|b.stack| - 1];
      match s
      case TextSegment(text) => b.(stack := Pushed(b.stack, BuiltText(text)))
      case Simple(name, attrs) => b.(stack := Pushed(b.stack, BuiltInline(name, attrs)))
      case Begin(name) =>
        var stack := if b.openTop.Some? then Pushed(b.stack, b.openTop.value) else b.stack;
        Builder(stack + [Frame(name, [])], None)
      case End(name) =>
        if top.name == name then
          if |b.stack| == 1 then Failed
          else b.(stack := Pushed(b.stack[..|b.stack| - 1], BuiltBlock(name, top.content, false)))
        else b.(openTop := Some(BuiltBlock(name, if b.openTop.Some? then [b.openTop.value] else [], true)))
  }

  function Feed(b: Builder, segments: seq<Segment>): Builder
    decreases segments
  {
    if segments == [] then b else Feed(Step(b, segments[0]), segments[1..])
  }

  /** The nodes still open are marked as such. */
  function Collapse(stack: seq<Frame>): seq<Built>
    requires stack != []
  {
    if |stack| == 1 then stack[0].content
    else stack[0].content + [BuiltBlock(stack[1].name, Collapse(stack[1..]), true)]
  }

  function GenerateFragment(segments: seq<Segment>): Option<seq<Built>> {
    var b := Feed(START, segments);
    if b.Failed? || b.stack == [] then None else Some(Collapse(b.stack))
  }

  /** The loop over the segments, with the stack of open nodes. */
  method Generate(segments: seq<Segment>) returns (r: Option<seq<Built>>)
    ensures r == GenerateFragment(segments)
  {
    var nodeStack := [Frame("doc", [])];
    var openTop: Option<Built> := None;
    for i := 0 to |segments|
      invariant nodeStack != []
      invariant Feed(START, segments) == Feed(Builder(nodeStack, openTop), segments[i..])
    {
      assert segments[i..][1..] == segments[i + 1..];
      var top := nodeStack[|nodeStack| - 1];
      match segments[i] {
        case TextSegment(text) =>
          nodeStack := Pushed(nodeStack, BuiltText(text));
        case Begin(name) =>
          if openTop.Some? {
            nodeStack := Pushed(nodeStack, openTop.value);
            openTop := None;
          }
          nodeStack := nodeStack + [Frame(name, [])];
        case End(name) =>
          if top.name == name {
            if |nodeStack| == 1 {
              StaysFailed(segments[i + 1..]);
              return None;
            }
            nodeStack := Pushed(nodeStack[..|nodeStack| - 1], BuiltBlock(name, top.content, false));
          } else {
            openTop := Some(BuiltBlock(name, if openTop.Some? then [openTop.value] else [], true));
          }
        case Simple(name, attrs) =>
          nodeStack := Pushed(nodeStack, BuiltInline(name, attrs));
      }
    }
    r := Some(Collapse(nodeStack));
  }

  lemma {:induction false} StaysFailed(segments: seq<Segment>)
    ensures Feed(Failed, segments) == Failed
    decreases segments
  {
    if segments != [] {
      StaysFailed(segments[1..]);
    }
  }

  lemma {:induction false} FeedConcat(b: Builder, s: seq<Segment>, t: seq<Segment>)
    ensures Feed(b, s + t) == Feed(Feed(b, s), t)
    decreases s
  {
    hide Step;
    if s == [] {
      assert s + t == t;
    } else {
      FeedConcat(Step(b, s[0]), s[1..], t);
      assert (s + t)[1..] == s[1..] + t;
    }
  }

  lemma FeedOne(b: Builder, s: Segment)
    ensures Feed(b, [s]) == Step(b, s)
  {
    assert Feed(Step(b, s), [s][1..]) == Step(b, s);
  }

  // ---------- What the rebuilt tree is ----------

  /** The node with the marks of its right edge: `openEnd + 1` levels are open, none when it is negative. */
  function Opened(n: Node, openEnd: int): Built
    decreases n
  {
    match n
    case Text(text) => BuiltText(text)
    case Inline(name, attrs) => BuiltInline(name, attrs)
    case Block(name, content) => BuiltBlock(name, OpenedAll(content, openEnd), openEnd >= 0)
  }

  function OpenedAll(ns: seq<Node>, openEnd: int): (r: seq<Built>)
    ensures |r| == |ns|
    decreases ns
  {
    if ns == [] then [] else [Opened(ns[0], if |ns| == 1 then openEnd - 1 else -1)] + OpenedAll(ns[1..], openEnd)
  }

  /** The tree without the marks. */
  function Plain(b: Built): Node
    decreases b
  {
    match b
    case BuiltText(text) => Text(text)
    case BuiltInline(name, attrs) => Inline(name, attrs)
    case BuiltBlock(name, content, _) => Block(name, PlainAll(content))
  }

  function PlainAll(bs: seq<Built>): seq<Node>
    decreases bs
  {
    if bs == [] then [] else [Plain(bs[0])] + PlainAll(bs[1..])
  }

  lemma {:induction false} OpenedIsNode(n: Node, openEnd: int)
    ensures Plain(Opened(n, openEnd)) == n
    decreases n
  {
    if n.Block? {
      OpenedAreNodes(n.content, openEnd);
    }
  }

  lemma {:induction false} OpenedAreNodes(ns: seq<Node>, openEnd: int)
    ensures PlainAll(OpenedAll(ns, openEnd)) == ns
    decreases ns
  {
    if ns != [] {
      OpenedIsNode(ns[0], if |ns| == 1 then openEnd - 1 else -1);
      OpenedAreNodes(ns[1..], openEnd);
      assert OpenedAll(ns, openEnd)[1..] == OpenedAll(ns[1..], openEnd);
    }
  }

  // ---------- Open depths ----------

  function GetOpenStart(bs: seq<Built>): nat
    decreases bs
  {
    if bs == [] then 0
    else
      var start := bs[0];
      if !start.BuiltBlock? || !start.isOpen then 0 else 1 + GetOpenStart(start.content)
  }

  function GetOpenEnd(bs: seq<Built>): nat
    decreases bs
  {
    if bs == [] then 0
    else
      var end := bs[|bs| - 1];
      if !end.BuiltBlock? || !end.isOpen then 0 else 1 + GetOpenEnd(end.content)
  }

  /** How many blocks lie on the right edge. */
  function RightDepth(ns: seq<Node>): nat
    decreases ns
  {
    if ns == [] || !ns[|ns| - 1].Block? then 0 else 1 + RightDepth(ns[|ns| - 1].content)
  }

  /** How many blocks lie on both edges, each an only child. */
  function SoleDepth(ns: seq<Node>): nat
    decreases ns
  {
    if |ns| != 1 || !ns[0].Block? then 0 else 1 + SoleDepth(ns[0].content)
  }

  lemma {:induction false} LastOpened(ns: seq<Node>, openEnd: int)
    requires ns != []
    ensures OpenedAll(ns, openEnd)[|ns| - 1] == Opened(ns[|ns| - 1], openEnd - 1)
    ensures OpenedAll(ns, openEnd)[0] == Opened(ns[0], if |ns| == 1 then openEnd - 1 else -1)
    decreases ns
  {
    if |ns| > 1 {
      LastOpened(ns[1..], openEnd);
    }
  }

  /** The rebuilt fragment is open at its end as deep as was asked for, as far as its right edge goes. */
  lemma {:induction false} OpenEndIs(ns: seq<Node>, openEnd: nat)
    ensures GetOpenEnd(OpenedAll(ns, openEnd)) == Min(openEnd, RightDepth(ns))
    decreases ns
  {
    if ns != [] {
      LastOpened(ns, openEnd);
      var last := ns[|ns| - 1];
      if last.Block? && openEnd > 0 {
        OpenEndIs(last.content, openEnd - 1);
      }
    }
  }

  /** At its start it is open where the right edge is also the left one. */
  lemma {:induction false} OpenStartIs(ns: seq<Node>, openEnd: nat)
    ensures GetOpenStart(OpenedAll(ns, openEnd)) == Min(openEnd, SoleDepth(ns))
    decreases ns
  {
    if ns != [] {
      LastOpened(ns, openEnd);
      if |ns| == 1 && ns[0].Block? && openEnd > 0 {
        OpenStartIs(ns[0].content, openEnd - 1);
      }
    }
  }

  // ---------- The round trip ----------

  function PushedAll(stack: seq<Frame>, bs: seq<Built>): seq<Frame>
    requires stack != []
  {
    var last := |stack| - 1;
    stack[last := Frame(stack[last].name, stack[last].content + bs)]
  }

  lemma PushNone(stack: seq<Frame>)
    requires stack != []
    ensures PushedAll(stack, []) == stack
  {
    var top := stack[|stack| - 1];
    assert top.content + [] == top.content;
  }

  lemma PushMore(stack: seq<Frame>, b: Built, bs: seq<Built>)
    requires stack != []
    ensures Pushed(stack, b) != [] && PushedAll(Pushed(stack, b), bs) == PushedAll(stack, [b] + bs)
    ensures PushedAll(stack, [b]) == Pushed(stack, b)
  {
    var last := |stack| - 1;
    assert stack[last].content + [b] + bs == stack[last].content + ([b] + bs);
  }

  lemma PushAbove(stack: seq<Frame>, name: string, bs: seq<Built>)
    ensures PushedAll(stack + [Frame(name, [])], bs) == stack + [Frame(name, bs)]
  {
    assert [] + bs == bs;
  }

  /** A node cut off at an outer level leaves the stack as high as it was. */
  lemma {:induction false} FeedClosed(stack: seq<Frame>, n: Node, openStart: int, openEnd: int)
    requires stack != [] && openStart < 0 && (n.Block? ==> openEnd < 0)
    ensures Feed(Builder(stack, None), Flat(n, openStart, openEnd)) == Builder(Pushed(stack, Opened(n, openEnd)), None)
    decreases n
  {
    hide Feed, Pushed, Flats, OpenedAll, PushedAll;
    var b := Builder(stack, None);
    match n {
      case Text(text) => FeedOne(b, TextSegment(text));
      case Inline(name, attrs) => FeedOne(b, Simple(name, attrs));
      case Block(name, content) =>
        var inner := stack + [Frame(name, [])];
        var within := Builder(stack + [Frame(name, OpenedAll(content, openEnd))], None);
        FeedClosedAll(inner, content, openStart, openEnd);
        PushAbove(stack, name, OpenedAll(content, openEnd));
        FeedConcat(b, [Begin(name)] + Flats(content, openStart, openEnd), [End(name)]);
        FeedConcat(b, [Begin(name)], Flats(content, openStart, openEnd));
        FeedOne(b, Begin(name));
        FeedOne(within, End(name));
        assert within.stack[..|stack|] == stack;
    }
  }

  lemma {:induction false} FeedClosedAll(stack: seq<Frame>, ns: seq<Node>, openStart: int, openEnd: int)
    requires stack != [] && openStart <= 0 && openEnd <= 0
    ensures Feed(Builder(stack, None), Flats(ns, openStart, openEnd))
        == Builder(PushedAll(stack, OpenedAll(ns, openEnd)), None)
    decreases ns
  {
    hide Flat, Opened, Pushed, PushedAll, Step;
    var b := Builder(stack, None);
    if ns == [] {
      PushNone(stack);
    } else {
      var end := if |ns| == 1 then openEnd - 1 else -1;
      FeedClosed(stack, ns[0], openStart - 1, end);
      PushMore(stack, Opened(ns[0], end), OpenedAll(ns[1..], openEnd));
      FeedConcat(b, Flat(ns[0], openStart - 1, end), Flats(ns[1..], 0, openEnd));
      FeedClosedAll(Pushed(stack, Opened(ns[0], end)), ns[1..], 0, openEnd);
    }
  }

  lemma {:induction false} CollapseTop(stack: seq<Frame>, f: Frame)
    requires stack != []
    ensures Pushed(stack, BuiltBlock(f.name, f.content, true)) != []
    ensures Collapse(stack + [f]) == Collapse(Pushed(stack, BuiltBlock(f.name, f.content, true)))
    decreases stack
  {
    var b := BuiltBlock(f.name, f.content, true);
    if |stack| == 1 {
      assert (stack + [f])[1..] == [f];
    } else {
      CollapseTop(stack[1..], f);
      assert (stack + [f])[1..] == stack[1..] + [f];
      assert Pushed(stack, b)[1..] == Pushed(stack[1..], b);
    }
  }

  /** Feeding the segments of a slice rebuilds its nodes in the top frame, with the right edge left open. */
  lemma {:induction false} FeedSlice(stack: seq<Frame>, ns: seq<Node>, openStart: int, openEnd: int)
    requires stack != [] && openStart <= 0
    ensures var b := Feed(Builder(stack, None), Flats(ns, openStart, openEnd));
      b.Builder? && b.stack != [] && Collapse(b.stack) == Collapse(PushedAll(stack, OpenedAll(ns, openEnd)))
    decreases ns
  {
    hide Flat, Opened, Pushed, PushedAll, Step, Collapse, Feed;
    if ns == [] {
      PushNone(stack);
      FeedNothing(Builder(stack, None));
    } else {
      var end := if |ns| == 1 then openEnd - 1 else -1;
      var flat, rest := Flat(ns[0], openStart - 1, end), Flats(ns[1..], 0, openEnd);
      if ns[0].Block? && end >= 0 {
        FeedOpen(stack, ns[0], openStart, end);
        assert Flats(ns, openStart, openEnd) == flat + [] == flat;
        PushMore(stack, Opened(ns[0], end), []);
        assert OpenedAll(ns, openEnd) == [Opened(ns[0], end)];
      } else {
        FeedClosed(stack, ns[0], openStart - 1, end);
        FeedConcat(Builder(stack, None), flat, rest);
        PushMore(stack, Opened(ns[0], end), OpenedAll(ns[1..], openEnd));
        FeedSlice(Pushed(stack, Opened(ns[0], end)), ns[1..], 0, openEnd);
      }
    }
  }

  lemma FeedNothing(b: Builder)
    ensures Feed(b, []) == b
  {
  }

  lemma FeedOpen(stack: seq<Frame>, n: Node, openStart: int, openEnd: int)
    requires stack != [] && openStart <= 0 && n.Block? && openEnd >= 0
    ensures var b := Feed(Builder(stack, None), Flat(n, openStart - 1, openEnd));
      b.Builder? && b.stack != [] && Pushed(stack, Opened(n, openEnd)) != []
      && Collapse(b.stack) == Collapse(Pushed(stack, Opened(n, openEnd)))
    decreases n, 1
  {
    hide Flats, OpenedAll, Pushed, PushedAll, Collapse, Feed;
    var b := Builder(stack, None);
    var inner := stack + [Frame(n.name, [])];
    var flats := Flats(n.content, openStart - 1, openEnd);
    assert Flat(n, openStart - 1, openEnd) == [Begin(n.name)] + flats;
    FeedConcat(b, [Begin(n.name)], flats);
    FeedOne(b, Begin(n.name));
    FeedSlice(inner, n.content, openStart - 1, openEnd);
    PushAbove(stack, n.name, OpenedAll(n.content, openEnd));
    CollapseTop(stack, Frame(n.name, OpenedAll(n.content, openEnd)));
  }

  /**
   * Flattening a slice that is not open at its start and rebuilding it gives the same tree, with exactly the
   * right edge open, as deep as the slice was.
   */
  lemma RoundTrip(ns: seq<Node>, openEnd: nat)
    ensures GenerateFragment(Flats(ns, 0, openEnd)) == Some(OpenedAll(ns, openEnd))
    ensures PlainAll(OpenedAll(ns, openEnd)) == ns && GetOpenEnd(OpenedAll(ns, openEnd)) == Min(openEnd, RightDepth(ns))
  {
    hide Feed, Flats, OpenedAll, PlainAll, GetOpenEnd;
    FeedSlice(START.stack, ns, 0, openEnd);
    OpenedAreNodes(ns, openEnd);
    OpenEndIs(ns, openEnd);
    PushAbove([], "doc", OpenedAll(ns, openEnd));
    assert START.stack == [] + [Frame("doc", [])];
  }

  /** The rebuilt fragment is closed at its start, as the slice was, unless the open right edge is also the left one. */
  lemma OpenStartComesBack(ns: seq<Node>, openEnd: nat)
    ensures var fragment := GenerateFragment(Flats(ns, 0, openEnd));
      fragment.Some? && (GetOpenStart(fragment.value) == 0 <==> openEnd == 0 || SoleDepth(ns) == 0)
  {
    hide GenerateFragment, Flats, OpenedAll, GetOpenStart, SoleDepth;
    RoundTrip(ns, openEnd);
    OpenStartIs(ns, openEnd);
  }

  /** A paragraph alone, closed at its start and open at its end, comes back as open at its start too. */
  lemma OpenStartReported()
    ensures var slice := [Block("paragraph", [Text("a")])];
      && Flats(slice, 0, 1) == [Begin("paragraph"), TextSegment("a")]
      && GenerateFragment(Flats(slice, 0, 1)).Some? && GetOpenStart(GenerateFragment(Flats(slice, 0, 1)).value) != 0
  {
    var slice := [Block("paragraph", [Text("a")])];
    assert Flats([Text("a")], -1, 0) == [TextSegment("a")];
    assert SoleDepth(slice) != 0;
    OpenStartComesBack(slice, 1);
  }

  // ---------- Operations and their positions ----------

  /** Inserts a segment at a position. */
  datatype Op = Op(pos: int, segment: Segment)

  /** The gap into which other content is moved: where it is inserted and how long it is. */
  datatype Gap = Gap(insert: Option<int>, distance: int)

  /** `adjustOffset`: the offset after a segment, shifted when it lands on the insertion point. */
  function AdjustOffset(from: int, offset: int, value: int, gap: Gap): int {
    if gap.insert == Some(from + offset + value) then offset + value + gap.distance else offset + value
  }

  function Emitted(segments: seq<Segment>, at: int, gap: Gap): (ops: seq<Op>)
    ensures |ops| == |segments|
    decreases segments
  {
    if segments == [] then []
    else [Op(at, segments[0])] + Emitted(segments[1..], at + AdjustOffset(at, 0, Width(segments[0]), gap), gap)
  }

  function EndOf(segments: seq<Segment>, at: int, gap: Gap): int
    decreases segments
  {
    if segments == [] then at else EndOf(segments[1..], at + AdjustOffset(at, 0, Width(segments[0]), gap), gap)
  }

  lemma {:induction false} EmittedConcat(s: seq<Segment>, t: seq<Segment>, at: int, gap: Gap)
    ensures Emitted(s + t, at, gap) == Emitted(s, at, gap) + Emitted(t, EndOf(s, at, gap), gap)
    ensures EndOf(s + t, at, gap) == EndOf(t, EndOf(s, at, gap), gap)
    decreases s
  {
    hide AdjustOffset, Width;
    if s == [] {
      assert s + t == t;
    } else {
      EmittedConcat(s[1..], t, at + AdjustOffset(at, 0, Width(s[0]), gap), gap);
      assert (s + t)[1..] == s[1..] + t;
    }
  }

  lemma EmittedOne(s: Segment, at: int, gap: Gap)
    ensures Emitted([s], at, gap) == [Op(at, s)] && EndOf([s], at, gap) == at + AdjustOffset(at, 0, Width(s), gap)
  {
    var next := at + AdjustOffset(at, 0, Width(s), gap);
    assert Emitted([s][1..], next, gap) == [] && EndOf([s][1..], next, gap) == next;
  }

  class OpList {
    var ops: seq<Op>

    constructor ()
      ensures ops == []
    {
      ops := [];
    }

    /** Appends the operation of one segment and returns the offset after it. */
    method Emit(s: Segment, from: int, offset: int, gap: Gap) returns (next: int)
      modifies this
      ensures ops == old(ops) + Emitted([s], from + offset, gap) && from + next == EndOf([s], from + offset, gap)
    {
      EmittedOne(s, from + offset, gap);
      ops := ops + [Op(from + offset, s)];
      next := AdjustOffset(from, offset, Width(s), gap);
    }

    /** The nodes one after the other; what is left of them always continues what was emitted. */
    method EmitAll(content: seq<Node>, openStart: int, openEnd: int, from: int, offset: int, gap: Gap)
      returns (next: int)
      modifies this
      ensures ops == old(ops) + Emitted(Flats(content, openStart, openEnd), from + offset, gap)
      ensures from + next == EndOf(Flats(content, openStart, openEnd), from + offset, gap)
      decreases content, 0
    {
      hide Flat, Flats, Emitted, EndOf, AdjustOffset, Width;
      next := offset;
      ghost var all := Flats(content, openStart, openEnd);
      var i := 0;
      assert content[0..] == content;
      while i < |content|
        invariant 0 <= i <= |content|
        invariant old(ops) + Emitted(all, from + offset, gap)
               == ops + Emitted(Flats(content[i..], if i == 0 then openStart else 0, openEnd), from + next, gap)
        invariant EndOf(all, from + offset, gap)
               == EndOf(Flats(content[i..], if i == 0 then openStart else 0, openEnd), from + next, gap)
      {
        var start := if i == 0 then openStart - 1 else -1;
        var end := if i == |content| - 1 then openEnd - 1 else -1;
        var node := content[i];
        FlatsStep(content, i, if i == 0 then openStart else 0, openEnd);
        EmittedConcat(Flat(node, start, end), Flats(content[i + 1..], 0, openEnd), from + next, gap);
        Associates(ops, Emitted(Flat(node, start, end), from + next, gap),
          Emitted(Flats(content[i + 1..], 0, openEnd), EndOf(Flat(node, start, end), from + next, gap), gap));
        var width := EmitNode(node, start, end, from + next, gap);
        next := next + width;
        i := i + 1;
      }
      assert content[i..] == [];
      FlatsNone(if i == 0 then openStart else 0, openEnd);
      NothingEmitted(from + next, gap);
    }

    /** `sliceToGroupOpsInternal`: the operations of one node, and how far they reach. */
    method EmitNode(value: Node, openStart: int, openEnd: int, from: int, gap: Gap) returns (offset: int)
      modifies this
      ensures ops == old(ops) + Emitted(Flat(value, openStart, openEnd), from, gap)
      ensures from + offset == EndOf(Flat(value, openStart, openEnd), from, gap)
      ensures gap == NO_GAP ==>
        offset == Positions(value) - OpenLevels(openStart + 1, LeftDepth([value]))
                                   - OpenLevels(openEnd + 1, RightDepth([value]))
      decreases value, 1
    {
      NodeReaches(value, openStart, openEnd, from);
      hide Emitted, EndOf, AdjustOffset, Width, Flats;
      match value {
        case Text(text) =>
          offset := Emit(TextSegment(text), from, 0, gap);
        case Inline(name, attrs) =>
          offset := Emit(Simple(name, attrs), from, 0, gap);
        case Block(name, content) =>
          ghost var before := if openStart < 0 then [Begin(name)] else [];
          ghost var within := Flats(content, openStart, openEnd);
          ghost var after := if openEnd < 0 then [End(name)] else [];
          EmittedConcat(before + within, after, from, gap);
          EmittedConcat(before, within, from, gap);
          NothingEmitted(from, gap);
          offset := 0;
          if openStart < 0 {
            offset := Emit(Begin(name), from, offset, gap);
          }
          offset := EmitAll(content, openStart, openEnd, from, offset, gap);
          NothingEmitted(from + offset, gap);
          if openEnd < 0 {
            offset := Emit(End(name), from, offset, gap);
          }
      }
    }
  }

  lemma FlatsStep(ns: seq<Node>, i: nat, openStart: int, openEnd: int)
    requires i < |ns|
    ensures Flats(ns[i..], openStart, openEnd)
         == Flat(ns[i], openStart - 1, if i == |ns| - 1 then openEnd - 1 else -1) + Flats(ns[i + 1..], 0, openEnd)
  {
    hide Flat;
    assert ns[i..][1..] == ns[i + 1..];
  }

  lemma FlatsNone(openStart: int, openEnd: int)
    ensures Flats([], openStart, openEnd) == []
  {
  }

  lemma NothingEmitted(at: int, gap: Gap)
    ensures Emitted([], at, gap) == [] && EndOf([], at, gap) == at
  {
  }

  /** Where the operations of a slice start. */
  function StartOf(from: int, gap: Gap): int {
    from + AdjustOffset(from, 0, 0, gap)
  }

  method SliceToGroupOps(from: int, content: seq<Node>, openStart: int, openEnd: int, gap: Gap) returns (ops: seq<Op>)
    ensures ops == Emitted(Flats(content, openStart, openEnd), StartOf(from, gap), gap)
    ensures ops != [] ==> ops[0].pos == if gap.insert == Some(from) then from + gap.distance else from
    ensures forall k :: 0 < k < |ops| ==> Follows(ops[k - 1], ops[k], gap)
  {
    EmittedFollow(Flats(content, openStart, openEnd), StartOf(from, gap), gap);
    var list := new OpList();
    var end := list.EmitAll(content, openStart, openEnd, 0, StartOf(from, gap), gap);
    ops := list.ops;
  }

  /** The segments in the order of their operations. */
  function SegmentsOf(ops: seq<Op>): seq<Segment> {
    seq(|ops|, i requires 0 <= i < |ops| => ops[i].segment)
  }

  lemma {:induction false} EmittedSegments(segments: seq<Segment>, at: int, gap: Gap)
    ensures SegmentsOf(Emitted(segments, at, gap)) == segments
    decreases segments
  {
    if segments != [] {
      var next := at + AdjustOffset(at, 0, Width(segments[0]), gap);
      EmittedSegments(segments[1..], next, gap);
      forall i | 0 <= i < |segments| ensures Emitted(segments, at, gap)[i].segment == segments[i] {
        if i > 0 {
          assert SegmentsOf(Emitted(segments[1..], next, gap))[i - 1] == segments[1..][i - 1];
        }
      }
    }
  }

  /** The slice that another client rebuilds from the operations is the slice that was sent. */
  lemma OpsRoundTrip(ns: seq<Node>, openEnd: nat, from: int, gap: Gap)
    ensures GenerateFragment(SegmentsOf(Emitted(Flats(ns, 0, openEnd), StartOf(from, gap), gap)))
        == Some(OpenedAll(ns, openEnd))
  {
    hide Emitted, Flats, OpenedAll, GenerateFragment;
    EmittedSegments(Flats(ns, 0, openEnd), StartOf(from, gap), gap);
    RoundTrip(ns, openEnd);
  }

  // ---------- Where operations start ----------

  const NO_GAP := Gap(None, 0)

  /** Text takes as many positions as it has characters, everything else takes one. */
  predicate Follows(op: Op, next: Op, gap: Gap) {
    var end := op.pos + match op.segment { case TextSegment(text) => |text| case _ => 1 };
    next.pos == if gap.insert == Some(end) then end + gap.distance else end
  }

  /** Each operation starts where the one before it ends, behind the gap when that is the insertion point. */
  lemma {:induction false} EmittedFollow(segments: seq<Segment>, at: int, gap: Gap)
    ensures var ops := Emitted(segments, at, gap);
      && (ops != [] ==> ops[0].pos == at)
      && forall k :: 0 < k < |ops| ==> Follows(ops[k - 1], ops[k], gap)
    decreases segments
  {
    if segments != [] {
      var ops, next := Emitted(segments, at, gap), at + AdjustOffset(at, 0, Width(segments[0]), gap);
      var rest := Emitted(segments[1..], next, gap);
      EmittedFollow(segments[1..], next, gap);
      forall k | 0 < k < |ops| ensures Follows(ops[k - 1], ops[k], gap) {
        assert ops[k] == rest[k - 1] && (k > 1 ==> ops[k - 1] == rest[k - 2]);
      }
    }
  }

  // ---------- How far operations reach ----------

  /** Characters and inline nodes count once, blocks twice, for their begin and their end. */
  function Positions(n: Node): nat
    decreases n
  {
    match n
    case Text(text) => |text|
    case Inline(_, _) => 1
    case Block(_, content) => 2 + AllPositions(content)
  }

  function AllPositions(ns: seq<Node>): nat
    decreases ns
  {
    if ns == [] then 0 else Positions(ns[0]) + AllPositions(ns[1..])
  }

  /** How many blocks lie on the left edge. */
  function LeftDepth(ns: seq<Node>): nat
    decreases ns
  {
    if ns == [] || !ns[0].Block? then 0 else 1 + LeftDepth(ns[0].content)
  }

  /** How many of the levels on an edge are open, when it may be open to a depth. */
  function OpenLevels(depth: int, levels: nat): nat {
    if depth < 0 then 0 else Min(depth, levels)
  }

  /** A node without its open edges. */
  lemma {:induction false} NodeReaches(n: Node, openStart: int, openEnd: int, at: int)
    ensures EndOf(Flat(n, openStart, openEnd), at, NO_GAP)
         == at + Positions(n) - OpenLevels(openStart + 1, LeftDepth([n])) - OpenLevels(openEnd + 1, RightDepth([n]))
    decreases n
  {
    match n {
      case Text(text) => EmittedOne(TextSegment(text), at, NO_GAP);
      case Inline(name, attrs) => EmittedOne(Simple(name, attrs), at, NO_GAP);
      case Block(name, content) =>
        var before := if openStart < 0 then [Begin(name)] else [];
        var within := Flats(content, openStart, openEnd);
        var after := if openEnd < 0 then [End(name)] else [];
        hide Flats, LeftDepth, RightDepth, AllPositions;
        BlockEdges(n);
        BlockPositions(n);
        var start := if openStart < 0 then at + 1 else at;
        EmittedConcat(before + within, after, at, NO_GAP);
        EmittedConcat(before, within, at, NO_GAP);
        MarkerReaches(Begin(name), at);
        NodesReach(content, openStart, openEnd, start);
        MarkerReaches(End(name), EndOf(within, start, NO_GAP));
        NothingEmitted(at, NO_GAP);
        NothingEmitted(EndOf(within, start, NO_GAP), NO_GAP);
    }
  }

  lemma BlockEdges(n: Node)
    requires n.Block?
    ensures LeftDepth([n]) == 1 + LeftDepth(n.content) && RightDepth([n]) == 1 + RightDepth(n.content)
  {
  }

  lemma BlockPositions(n: Node)
    requires n.Block?
    ensures Positions(n) == 2 + AllPositions(n.content)
  {
  }

  lemma MarkerReaches(s: Segment, at: int)
    requires !s.TextSegment?
    ensures EndOf([s], at, NO_GAP) == at + 1
  {
    EmittedOne(s, at, NO_GAP);
  }

  /**
   * Without a gap a slice reaches as far as its nodes count, less one for each level that is open at its start and
   * each level that is open at its end.
   */
  lemma {:induction false} NodesReach(ns: seq<Node>, openStart: int, openEnd: int, at: int)
    ensures EndOf(Flats(ns, openStart, openEnd), at, NO_GAP)
         == at + AllPositions(ns) - OpenLevels(openStart, LeftDepth(ns)) - OpenLevels(openEnd, RightDepth(ns))
    decreases ns
  {
    hide Flat, Positions;
    if ns == [] {
      NothingEmitted(at, NO_GAP);
    } else {
      var end := if |ns| == 1 then openEnd - 1 else -1;
      var flat, rest := Flat(ns[0], openStart - 1, end), Flats(ns[1..], 0, openEnd);
      NodeReaches(ns[0], openStart - 1, end, at);
      EmittedConcat(flat, rest, at, NO_GAP);
      NodesReach(ns[1..], 0, openEnd, EndOf(flat, at, NO_GAP));
      assert LeftDepth([ns[0]]) == LeftDepth(ns);
      if |ns| == 1 {
        assert ns == [ns[0]];
      } else {
        assert ns[1..][|ns| - 2] == ns[|ns| - 1];
      }
    }
  }

  // ---------- The gap shifts once ----------

  /** The insertion point is where one of the operations up to k would start without the gap. */
  predicate Meets(segments: seq<Segment>, from: int, insert: int, k: nat)
    requires k < |segments|
  {
    exists j :: 0 <= j <= k && Emitted(segments, from, NO_GAP)[j].pos == insert
  }

  function Shift(gap: Gap, met: bool): int {
    if met then gap.distance else 0
  }

  lemma UnshiftedNext(segments: seq<Segment>, from: int)
    requires segments != []
    ensures Emitted(segments, from, NO_GAP)
      == [Op(from, segments[0])] + Emitted(segments[1..], from + Width(segments[0]), NO_GAP)
  {
  }

  lemma MeetsNext(segments: seq<Segment>, from: int, insert: int, k: nat)
    requires 0 < k < |segments|
    ensures Meets(segments, from, insert, k)
      <==> from == insert || Meets(segments[1..], from + Width(segments[0]), insert, k - 1)
  {
    hide Width;
    var rest, next := segments[1..], from + Width(segments[0]);
    UnshiftedNext(segments, from);
    hide Emitted;
    var ops := Emitted(segments, from, NO_GAP);
    if Meets(segments, from, insert, k) {
      var j :| 0 <= j <= k && ops[j].pos == insert;
      if j > 0 {
        assert Emitted(rest, next, NO_GAP)[j - 1].pos == insert;
      }
    }
    if Meets(rest, next, insert, k - 1) {
      var j :| 0 <= j <= k - 1 && Emitted(rest, next, NO_GAP)[j].pos == insert;
      assert ops[j + 1].pos == insert;
    }
    if from == insert {
      assert ops[0].pos == insert;
    }
  }

  /** Past the insertion point, or not yet at it. */
  lemma {:induction false} ShiftedFrom(segments: seq<Segment>, from: int, gap: Gap, met: bool, k: nat)
    requires k < |segments| && gap.distance >= 0 && gap.insert.Some?
    requires if met then from >= gap.insert.value else from != gap.insert.value
    ensures Emitted(segments, from + Shift(gap, met), gap)[k] ==
      Op(Emitted(segments, from, NO_GAP)[k].pos + Shift(gap, met || Meets(segments, from, gap.insert.value, k)),
         segments[k])
    decreases segments
  {
    var insert := gap.insert.value;
    if k == 0 {
      assert !met ==> !Meets(segments, from, insert, 0);
    } else {
      var next := from + Width(segments[0]);
      var met' := met || next == insert;
      hide Meets;
      ShiftedFrom(segments[1..], next, gap, met', k - 1);
      MeetsNext(segments, from, insert, k);
      MetAtOnce(segments[1..], next, insert, k - 1);
    }
  }

  lemma MetAtOnce(segments: seq<Segment>, from: int, insert: int, k: nat)
    requires k < |segments|
    ensures from == insert ==> Meets(segments, from, insert, k)
  {
    assert Emitted(segments, from, NO_GAP)[0].pos == from;
  }

  lemma {:induction false} Unshifted(segments: seq<Segment>, from: int, gap: Gap)
    requires gap.insert.None?
    ensures Emitted(segments, from, gap) == Emitted(segments, from, NO_GAP)
    decreases segments
  {
    if segments != [] {
      Unshifted(segments[1..], from + Width(segments[0]), gap);
    }
  }

  /**
   * The first operation that would start at the insertion point without the gap, and all after it, are shifted by
   * the gap, once; the others stay where they are without it.
   */
  lemma GapShiftsOnce(segments: seq<Segment>, from: int, gap: Gap, k: nat)
    requires k < |segments| && gap.distance >= 0
    ensures Emitted(segments, StartOf(from, gap), gap)[k] ==
      Op(Emitted(segments, from, NO_GAP)[k].pos
           + Shift(gap, gap.insert.Some? && Meets(segments, from, gap.insert.value, k)), segments[k])
  {
    hide Meets, Emitted, StartOf;
    EmittedSegment(segments, from, gap, k);
    if gap.insert.Some? {
      StartShifted(from, gap);
      ShiftedFrom(segments, from, gap, from == gap.insert.value, k);
      MetAtOnce(segments, from, gap.insert.value, k);
    } else {
      StartShifted(from, gap);
      Unshifted(segments, from, gap);
    }
  }

  lemma StartShifted(from: int, gap: Gap)
    ensures StartOf(from, gap) == from + Shift(gap, gap.insert == Some(from))
  {
  }

  lemma EmittedSegment(segments: seq<Segment>, from: int, gap: Gap, k: nat)
    requires k < |segments|
    ensures Emitted(segments, from, gap)[k].segment == segments[k]
  {
    hide Emitted;
    EmittedSegments(segments, from, gap);
    assert SegmentsOf(Emitted(segments, from, gap))[k] == segments[k];
  }
}
