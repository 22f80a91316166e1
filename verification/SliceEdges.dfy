/**
 * Slices that are open at their start: what the stack rebuilds from them, and when that is the slice
 * (`generateFragment` of examples/data-objects/prosemirror/src/fluidBridge.ts).
 */
module SliceEdges {
  import opened Common
  import opened Options
  import opened SliceOps

  // ---------- The left edge ----------

  /**
   * Blocks on the left edge with nothing in them but the next: their ends are all that is left of them. The name of
   * the document itself would end the document.
   */
  predicate IsChain(n: Node, depth: nat)
    decreases n
  {
    && n.Block? && depth > 0 && n.name != "doc"
    && (n.content == [] || (|n.content| == 1 && IsChain(n.content[0], depth - 1)))
  }

  /** The node with every block marked as open. */
  function AllOpen(n: Node): Built
    decreases n
  {
    match n
    case Text(text) => BuiltText(text)
    case Inline(name, attrs) => BuiltInline(name, attrs)
    case Block(name, content) =>
      BuiltBlock(name, seq(|content|, i requires 0 <= i < |content| => AllOpen(content[i])), true)
  }

  function Weight(n: Node): nat
    decreases n
  {
    if n.Block? then 1 + Weights(n.content) else 1
  }

  function Weights(ns: seq<Node>): nat
    decreases ns
  {
    if ns == [] then 0 else Weight(ns[0]) + Weights(ns[1..])
  }

  lemma WeightOf(ns: seq<Node>)
    requires ns != []
    ensures 0 < Weight(ns[0]) <= Weights(ns)
    ensures |ns| > 1 ==> Weight(ns[1]) <= Weights(ns)
  {
    if |ns| > 1 {
      assert ns[1..][0] == ns[1];
    }
  }

  /** A closed start: the first node is a leaf or its begin is written. */
  predicate StartsClosed(ns: seq<Node>, openStart: nat) {
    openStart == 0 || ns == [] || !ns[0].Block?
  }

  lemma ClosedFlats(ns: seq<Node>, openStart: nat, openEnd: int)
    requires StartsClosed(ns, openStart)
    ensures Flats(ns, openStart, openEnd) == Flats(ns, 0, openEnd)
  {
  }

  /** A block whose begin is not written: its content, and its end if it is written. */
  lemma OpenFlats(ns: seq<Node>, openStart: nat, openEnd: int)
    requires !StartsClosed(ns, openStart)
    ensures
      var end := if |ns| == 1 then openEnd - 1 else -1;
      var inner := Flats(ns[0].content, openStart - 1, end);
      Flats(ns, openStart, openEnd)
        == if end < 0 then inner + [End(ns[0].name)] + Flats(ns[1..], 0, openEnd) else inner
  {
    var end := if |ns| == 1 then openEnd - 1 else -1;
    OpenFlat(ns[0], openStart - 1, end);
    hide Flat;
    if end >= 0 {
      NoFlats(openEnd);
      assert ns[1..] == [];
    }
  }

  lemma OpenFlat(n: Node, openStart: nat, openEnd: int)
    requires n.Block?
    ensures var inner := Flats(n.content, openStart, openEnd);
      Flat(n, openStart, openEnd) == if openEnd < 0 then inner + [End(n.name)] else inner
  {
    hide Flats;
    assert Flat(n, openStart, openEnd)
      == [] + Flats(n.content, openStart, openEnd) + (if openEnd < 0 then [End(n.name)] else []);
  }

  // ---------- After an unmatched end ----------

  function Doc(content: seq<Built>): seq<Frame> {
    [Frame("doc", content)]
  }

  /** An end without a begin is kept aside, with what was kept before inside it. */
  lemma UnmatchedEnd(content: seq<Built>, openTop: Option<Built>, name: string)
    ensures Step(Builder(Doc(content), openTop), End(name)) ==
      if name == "doc" then Failed
      else Builder(Doc(content), Some(BuiltBlock(name, if openTop.Some? then [openTop.value] else [], true)))
  {
  }

  lemma NoFlats(openEnd: int)
    ensures Flats([], 0, openEnd) == []
  {
  }

  /** Before a block it makes no difference whether a node was kept aside or has been put in. */
  lemma BeginPutsIn(content: seq<Built>, kept: Built, ns: seq<Node>, openEnd: int)
    requires ns != [] && ns[0].Block?
    ensures Feed(Builder(Doc(content), Some(kept)), Flats(ns, 0, openEnd))
         == Feed(Builder(Doc(content + [kept]), None), Flats(ns, 0, openEnd))
  {
    var end := if |ns| == 1 then openEnd - 1 else -1;
    var flat := Flat(ns[0], -1, end);
    assert flat[0] == Begin(ns[0].name);
    assert Pushed(Doc(content), kept) == Doc(content + [kept]);
    hide Flat;
    assert Flats(ns, 0, openEnd)[0] == flat[0];
  }

  lemma BehindBlock(content: seq<Built>, kept: Built, ns: seq<Node>, openEnd: int)
    requires ns != [] && ns[0].Block?
    ensures var b := Feed(Builder(Doc(content), Some(kept)), Flats(ns, 0, openEnd));
      && b.Builder? && b.stack != [] && Collapse(b.stack) == content + [kept] + OpenedAll(ns, openEnd)
      && (openEnd <= 0 ==> |b.stack| == 1 && b.stack[0].name == "doc" && b.openTop.None?)
  {
    hide Step, Flat, Flats, OpenedAll, Feed;
    var stack := Doc(content + [kept]);
    BeginPutsIn(content, kept, ns, openEnd);
    FeedSlice(stack, ns, 0, openEnd);
    assert PushedAll(stack, OpenedAll(ns, openEnd)) == Doc(content + [kept] + OpenedAll(ns, openEnd));
    if openEnd <= 0 {
      FeedClosedAll(stack, ns, 0, openEnd);
    }
  }

  lemma BehindLeaf(content: seq<Built>, kept: Built, ns: seq<Node>, openEnd: int)
    requires ns != [] && !ns[0].Block?
    ensures Plain(Opened(ns[0], -1)) == ns[0]
    ensures Feed(Builder(Doc(content), Some(kept)), Flats(ns, 0, openEnd))
         == Feed(Builder(Doc(content + [Opened(ns[0], -1)]), Some(kept)), Flats(ns[1..], 0, openEnd))
  {
    var end := if |ns| == 1 then openEnd - 1 else -1;
    var flat := Flat(ns[0], -1, end);
    assert |flat| == 1 && Flats(ns, 0, openEnd) == flat + Flats(ns[1..], 0, openEnd);
    assert Pushed(Doc(content), Opened(ns[0], -1)) == Doc(content + [Opened(ns[0], -1)]);
    hide Flat, Flats;
    assert (flat + Flats(ns[1..], 0, openEnd))[1..] == Flats(ns[1..], 0, openEnd);
  }

  /** What is rebuilt when a node was kept aside: it comes before the next block, and leaves come before it. */
  ghost predicate Behind(b: Builder, content: seq<Built>, kept: Built, ns: seq<Node>, openEnd: int) {
    && b.Builder? && b.stack != []
    && (openEnd <= 0 ==> |b.stack| == 1 && b.stack[0].name == "doc" && (b.openTop.Some? ==> b.openTop.value == kept))
    && var c := Collapse(b.stack);
       if ns == [] then b == Builder(Doc(content), Some(kept)) && c == content
       else if ns[0].Block? then c == content + [kept] + OpenedAll(ns, openEnd)
       else |c| > |content| && c[..|content|] == content && Plain(c[|content|]) == ns[0]
  }

  lemma {:induction false} FeedBehind(content: seq<Built>, kept: Built, ns: seq<Node>, openEnd: int)
    ensures Behind(Feed(Builder(Doc(content), Some(kept)), Flats(ns, 0, openEnd)), content, kept, ns, openEnd)
    decreases ns
  {
    hide Step, Flat, Flats, OpenedAll, Behind;
    var b := Builder(Doc(content), Some(kept));
    if ns == [] {
      NoFlats(openEnd);
      FeedNothing(b);
      NothingBehind(content, kept, openEnd);
    } else if ns[0].Block? {
      BehindBlock(content, kept, ns, openEnd);
      BlockBehind(Feed(b, Flats(ns, 0, openEnd)), content, kept, ns, openEnd);
    } else {
      BehindLeaf(content, kept, ns, openEnd);
      var leaf := Opened(ns[0], -1);
      FeedBehind(content + [leaf], kept, ns[1..], openEnd);
      LeafBehind(Feed(b, Flats(ns, 0, openEnd)), content, leaf, kept, ns, openEnd);
    }
  }

  lemma NothingBehind(content: seq<Built>, kept: Built, openEnd: int)
    ensures Behind(Builder(Doc(content), Some(kept)), content, kept, [], openEnd)
  {
  }

  lemma BlockBehind(b: Builder, content: seq<Built>, kept: Built, ns: seq<Node>, openEnd: int)
    requires ns != [] && ns[0].Block? && b.Builder? && b.stack != []
    requires Collapse(b.stack) == content + [kept] + OpenedAll(ns, openEnd)
    requires openEnd <= 0 ==> |b.stack| == 1 && b.stack[0].name == "doc" && b.openTop.None?
    ensures Behind(b, content, kept, ns, openEnd)
  {
    hide OpenedAll, Collapse;
  }

  lemma LeafBehind(b: Builder, content: seq<Built>, leaf: Built, kept: Built, ns: seq<Node>, openEnd: int)
    requires ns != [] && !ns[0].Block? && Plain(leaf) == ns[0] && Behind(b, content + [leaf], kept, ns[1..], openEnd)
    ensures Behind(b, content, kept, ns, openEnd)
  {
    hide OpenedAll;
    var c := Collapse(b.stack);
    assert c[..|content| + 1] == content + [leaf];
    assert c[..|content|] == content && c[|content|] == leaf;
    hide Collapse;
  }

  // ---------- The left edge of a slice that is closed at its end ----------

  /** What the segments of the nodes leave on the stack. */
  ghost predicate Edge(b: Builder, ns: seq<Node>, openStart: nat) {
    b.Builder? ==>
      && |b.stack| == 1 && b.stack[0].name == "doc"
      && var c := b.stack[0].content;
         && (c != [] ==> Weight(Plain(c[0])) <= Weights(ns))
         && (b.openTop.Some? ==> Weight(Plain(b.openTop.value)) <= Weights(ns))
         && (c == [] <==> IsBare(ns, openStart))
         && (c == [] ==> b.openTop == if ns == [] then None else Some(AllOpen(ns[0])))
  }

  predicate IsBare(ns: seq<Node>, openStart: nat) {
    ns == [] || (|ns| == 1 && IsChain(ns[0], openStart))
  }

  /** Nothing fails on a chain. */
  predicate Survives(b: Builder, ns: seq<Node>, openStart: nat) {
    IsBare(ns, openStart) ==> b.Builder?
  }

  lemma {:induction false} EdgeIs(ns: seq<Node>, openStart: nat, openEnd: int)
    requires openEnd <= 0
    ensures var b := Feed(START, Flats(ns, openStart, openEnd));
      (b.Builder? || b.Failed?) && Edge(b, ns, openStart) && Survives(b, ns, openStart)
    decreases ns
  {
    hide Flats, Feed, Edge, Survives, Step, IsChain, Weights, Weight, AllOpen;
    if StartsClosed(ns, openStart) {
      ClosedFlats(ns, openStart, openEnd);
      FeedClosedAll(START.stack, ns, 0, openEnd);
      ClosedEdge(ns, openStart, openEnd);
    } else {
      var n, rest := ns[0], ns[1..];
      var end := if |ns| == 1 then openEnd - 1 else -1;
      var inner := Flats(n.content, openStart - 1, end);
      var b1 := Feed(START, inner);
      OpenFlats(ns, openStart, openEnd);
      FeedConcat(START, inner + [End(n.name)], Flats(rest, 0, openEnd));
      FeedConcat(START, inner, [End(n.name)]);
      FeedOne(b1, End(n.name));
      EdgeIs(n.content, openStart - 1, end);
      OpenEdge(b1, ns, openStart, openEnd);
    }
  }

  lemma ClosedEdge(ns: seq<Node>, openStart: nat, openEnd: int)
    requires StartsClosed(ns, openStart) && openEnd <= 0
    ensures PushedAll(START.stack, OpenedAll(ns, openEnd)) == Doc(OpenedAll(ns, openEnd))
    ensures var b := Builder(Doc(OpenedAll(ns, openEnd)), None); Edge(b, ns, openStart) && Survives(b, ns, openStart)
  {
    hide OpenedAll;
    assert [] + OpenedAll(ns, openEnd) == OpenedAll(ns, openEnd);
    if ns != [] {
      FirstOpened(ns, openEnd);
      WeightOf(ns);
    }
  }

  lemma FirstOpened(ns: seq<Node>, openEnd: int)
    requires ns != []
    ensures OpenedAll(ns, openEnd) != [] && Plain(OpenedAll(ns, openEnd)[0]) == ns[0]
  {
    OpenedAreNodes(ns, openEnd);
    assert PlainAll(OpenedAll(ns, openEnd))[0] == Plain(OpenedAll(ns, openEnd)[0]);
  }

  /** From the content of the first block to the whole. */
  lemma OpenEdge(b1: Builder, ns: seq<Node>, openStart: nat, openEnd: int)
    requires !StartsClosed(ns, openStart) && openEnd <= 0 && (b1.Builder? || b1.Failed?)
    requires Edge(b1, ns[0].content, openStart - 1) && Survives(b1, ns[0].content, openStart - 1)
    ensures var b := Feed(Step(b1, End(ns[0].name)), Flats(ns[1..], 0, openEnd));
      (b.Builder? || b.Failed?) && Edge(b, ns, openStart) && Survives(b, ns, openStart)
  {
    hide Flats, Feed, Step, IsChain, Weights, Weight, AllOpen;
    var n, rest := ns[0], ns[1..];
    var next := Step(b1, End(n.name));
    if b1.Failed? || n.name == "doc" {
      EdgeFails(b1, ns, openStart, Flats(rest, 0, openEnd));
    } else {
      var c := b1.stack[0].content;
      var kept := BuiltBlock(n.name, if b1.openTop.Some? then [b1.openTop.value] else [], true);
      assert b1.stack == Doc(c);
      UnmatchedEnd(c, b1.openTop, n.name);
      FeedBehind(c, kept, rest, openEnd);
      KeptEdge(Feed(next, Flats(rest, 0, openEnd)), c, b1.openTop, ns, openStart, openEnd);
    }
  }

  lemma EdgeFails(b1: Builder, ns: seq<Node>, openStart: nat, segments: seq<Segment>)
    requires !StartsClosed(ns, openStart)
    requires b1.Failed? || (b1.Builder? && |b1.stack| == 1 && b1.stack[0].name == "doc" && ns[0].name == "doc")
    requires Survives(b1, ns[0].content, openStart - 1)
    ensures var b := Feed(Step(b1, End(ns[0].name)), segments);
      b.Failed? && Edge(b, ns, openStart) && Survives(b, ns, openStart)
  {
    hide Feed;
    StaysFailed(segments);
    assert Step(b1, End(ns[0].name)) == Failed;
  }

  lemma KeptEdge(
    b: Builder, c: seq<Built>, openTop: Option<Built>, ns: seq<Node>, openStart: nat, openEnd: int)
    requires !StartsClosed(ns, openStart) && openEnd <= 0 && ns[0].name != "doc"
    requires Edge(Builder(Doc(c), openTop), ns[0].content, openStart - 1)
    requires Behind(b, c, Kept(ns[0].name, openTop), ns[1..], openEnd)
    ensures Edge(b, ns, openStart) && Survives(b, ns, openStart)
  {
    hide Weight, Weights, Plain, AllOpen, OpenedAll, IsChain;
    var n, kept := ns[0], Kept(ns[0].name, openTop);
    WeightOf(ns);
    KeptWeight(n, openTop);
    if c == [] {
      KeptIsOpen(n, openTop, openStart);
    }
    ChainIs(n, openStart);
    if |ns| > 1 {
      assert ns[1..][0] == ns[1];
    }
  }

  function Kept(name: string, openTop: Option<Built>): Built {
    BuiltBlock(name, if openTop.Some? then [openTop.value] else [], true)
  }

  lemma KeptWeight(n: Node, openTop: Option<Built>)
    requires n.Block? && (openTop.Some? ==> Weight(Plain(openTop.value)) <= Weights(n.content))
    ensures Weight(Plain(Kept(n.name, openTop))) <= Weight(n) && Weights(n.content) < Weight(n)
  {
    if openTop.Some? {
      var t := Plain(openTop.value);
      assert PlainAll([openTop.value]) == [t] + PlainAll([openTop.value][1..]) == [t];
      assert Weights([t]) == Weight(t) + Weights([t][1..]) == Weight(t);
    }
  }

  lemma KeptIsOpen(n: Node, openTop: Option<Built>, openStart: nat)
    requires n.Block? && openStart > 0
    requires IsBare(n.content, openStart - 1)
    requires openTop == if n.content == [] then None else Some(AllOpen(n.content[0]))
    ensures Kept(n.name, openTop) == AllOpen(n)
  {
  }

  lemma ChainIs(n: Node, openStart: nat)
    requires n.Block? && openStart > 0
    ensures IsChain(n, openStart) <==> n.name != "doc" && IsBare(n.content, openStart - 1)
  {
  }

  // ---------- When a slice comes back ----------

  /** The first node that is rebuilt is no heavier than the slice. */
  lemma {:induction false} FirstWeight(ns: seq<Node>, openStart: nat, openEnd: int)
    ensures var r := GenerateFragment(Flats(ns, openStart, openEnd));
      r.Some? && r.value != [] ==> Weight(Plain(r.value[0])) <= Weights(ns)
    decreases ns
  {
    hide Flats, Feed, Weights, Weight, Collapse, Step;
    if StartsClosed(ns, openStart) {
      ClosedSlice(ns, openStart, openEnd);
      if ns != [] {
        WeightOf(ns);
      }
    } else if |ns| == 1 && openEnd > 0 {
      OpenFlats(ns, openStart, openEnd);
      FirstWeight(ns[0].content, openStart - 1, openEnd - 1);
      BlockWeight(ns);
    } else {
      OpenSlice(ns, openStart, openEnd);
      BlockWeight(ns);
      AllOpenIsNode(ns[0]);
    }
  }

  lemma BlockWeight(ns: seq<Node>)
    requires ns != [] && ns[0].Block?
    ensures Weights(ns[0].content) < Weight(ns[0]) <= Weights(ns)
    ensures |ns| > 1 ==> Weight(ns[1]) <= Weights(ns)
  {
    WeightOf(ns);
  }

  /** A slice whose begins are all written is rebuilt whatever its end. */
  lemma ClosedSlice(ns: seq<Node>, openStart: nat, openEnd: int)
    requires StartsClosed(ns, openStart)
    ensures GenerateFragment(Flats(ns, openStart, openEnd)) == Some(OpenedAll(ns, openEnd))
    ensures PlainAll(OpenedAll(ns, openEnd)) == ns
    ensures ns != [] ==> OpenedAll(ns, openEnd) != [] && Plain(OpenedAll(ns, openEnd)[0]) == ns[0]
  {
    hide Feed, Flats, OpenedAll, PlainAll;
    ClosedFlats(ns, openStart, openEnd);
    FeedSlice(START.stack, ns, 0, openEnd);
    OpenedAreNodes(ns, openEnd);
    PushAbove([], "doc", OpenedAll(ns, openEnd));
    assert START.stack == [] + [Frame("doc", [])];
    if ns != [] {
      FirstOpened(ns, openEnd);
    }
  }

  /** What becomes of a slice of which the end of the first block is written but not its begin. */
  ghost predicate Spilled(r: Option<seq<Built>>, ns: seq<Node>, openStart: nat, openEnd: int)
    requires ns != [] && ns[0].Block?
  {
    if !IsChain(ns[0], openStart) then
      r.Some? ==> r.value != [] && Weight(Plain(r.value[0])) < Weight(ns[0])
    else if |ns| == 1 then r == Some([])
    else if ns[1].Block? then r == Some([AllOpen(ns[0])] + OpenedAll(ns[1..], openEnd))
    else r.Some? && r.value != [] && Plain(r.value[0]) == ns[1]
  }

  lemma OpenSlice(ns: seq<Node>, openStart: nat, openEnd: int)
    requires !StartsClosed(ns, openStart) && (|ns| > 1 || openEnd <= 0)
    ensures Spilled(GenerateFragment(Flats(ns, openStart, openEnd)), ns, openStart, openEnd)
  {
    hide Flats, Feed, Step, IsChain, Weights, Weight, AllOpen, OpenedAll, Collapse, Edge, Behind, Spilled, Survives;
    var n, rest := ns[0], ns[1..];
    var end := if |ns| == 1 then openEnd - 1 else -1;
    var inner := Flats(n.content, openStart - 1, end);
    var b1 := Feed(START, inner);
    var b := Feed(Step(b1, End(n.name)), Flats(rest, 0, openEnd));
    OpenFlats(ns, openStart, openEnd);
    FeedConcat(START, inner + [End(n.name)], Flats(rest, 0, openEnd));
    FeedConcat(START, inner, [End(n.name)]);
    FeedOne(b1, End(n.name));
    EdgeIs(n.content, openStart - 1, end);
    if b1.Failed? || n.name == "doc" {
      SliceFails(b1, ns, openStart, openEnd);
    } else {
      var c := EdgeContent(b1, n.content, openStart - 1);
      UnmatchedEnd(c, b1.openTop, n.name);
      FeedBehind(c, Kept(n.name, b1.openTop), rest, openEnd);
      KeptSpills(b, c, b1.openTop, ns, openStart, openEnd);
    }
  }

  lemma EdgeContent(b: Builder, ns: seq<Node>, openStart: nat) returns (c: seq<Built>)
    requires b.Builder? && Edge(b, ns, openStart)
    ensures b == Builder(Doc(c), b.openTop)
  {
    c := b.stack[0].content;
  }

  lemma SliceFails(b1: Builder, ns: seq<Node>, openStart: nat, openEnd: int)
    requires !StartsClosed(ns, openStart) && Edge(b1, ns[0].content, openStart - 1)
    requires b1.Failed? || (b1.Builder? && ns[0].name == "doc")
    requires Survives(b1, ns[0].content, openStart - 1)
    ensures Feed(Step(b1, End(ns[0].name)), Flats(ns[1..], 0, openEnd)) == Failed
    ensures Spilled(None, ns, openStart, openEnd)
  {
    hide Feed;
    StaysFailed(Flats(ns[1..], 0, openEnd));
    assert Step(b1, End(ns[0].name)) == Failed;
    ChainIs(ns[0], openStart);
  }

  lemma KeptSpills(b: Builder, c: seq<Built>, openTop: Option<Built>, ns: seq<Node>, openStart: nat, openEnd: int)
    requires !StartsClosed(ns, openStart) && ns[0].name != "doc"
    requires Edge(Builder(Doc(c), openTop), ns[0].content, openStart - 1)
    requires Behind(b, c, Kept(ns[0].name, openTop), ns[1..], openEnd)
    ensures b.Builder? && b.stack != [] && Spilled(Some(Collapse(b.stack)), ns, openStart, openEnd)
  {
    hide Plain, AllOpen, OpenedAll, IsChain, Collapse;
    BlockWeight(ns);
    ChainIs(ns[0], openStart);
    hide Weight, Weights;
    var c' := Collapse(b.stack);
    if c == [] {
      KeptIsOpen(ns[0], openTop, openStart);
      assert [] + [Kept(ns[0].name, openTop)] == [Kept(ns[0].name, openTop)];
    } else if |ns| > 1 {
      assert c' != [] && c'[..|c|] == c && c'[0] == c[0];
    }
    if |ns| > 1 {
      assert ns[1..][0] == ns[1];
    }
  }

  lemma {:induction false} AllOpenIsNode(n: Node)
    ensures Plain(AllOpen(n)) == n
    decreases n
  {
    if n.Block? {
      var bs := seq(|n.content|, i requires 0 <= i < |n.content| => AllOpen(n.content[i]));
      forall i | 0 <= i < |n.content| ensures Plain(bs[i]) == n.content[i] {
        AllOpenIsNode(n.content[i]);
      }
      PlainOfEach(bs, n.content);
    }
  }

  lemma {:induction false} PlainOfEach(bs: seq<Built>, ns: seq<Node>)
    requires |bs| == |ns| && forall i :: 0 <= i < |bs| ==> Plain(bs[i]) == ns[i]
    ensures PlainAll(bs) == ns
    decreases bs
  {
    hide Plain;
    if bs != [] {
      PlainOfEach(bs[1..], ns[1..]);
    }
  }

  lemma PlainFirst(b: Built, bs: seq<Built>)
    ensures PlainAll([b] + bs) == [Plain(b)] + PlainAll(bs)
  {
    assert ([b] + bs)[1..] == bs;
  }

  lemma PlainHead(bs: seq<Built>, ns: seq<Node>)
    requires PlainAll(bs) == ns
    ensures if bs == [] then ns == [] else ns != [] && ns[0] == Plain(bs[0])
  {
  }

  /** The slices whose lost begins can be made up for: chains of bare blocks before another block. */
  predicate Recoverable(ns: seq<Node>, openStart: nat) {
    StartsClosed(ns, openStart) || (IsChain(ns[0], openStart) && |ns| > 1 && ns[1].Block?)
  }

  /**
   * Flattening a slice that may be open on both sides and rebuilding it gives the same tree if and only if no block
   * is open at its start, or the open blocks hold nothing but each other and another block follows them.
   */
  lemma ComesBackIff(ns: seq<Node>, openStart: nat, openEnd: nat)
    ensures var r := GenerateFragment(Flats(ns, openStart, openEnd));
      r.Some? && PlainAll(r.value) == ns <==> Recoverable(ns, openStart)
  {
    hide Flats, GenerateFragment, IsChain, Weights, Weight, AllOpen, OpenedAll, PlainAll, Plain;
    var r := GenerateFragment(Flats(ns, openStart, openEnd));
    if StartsClosed(ns, openStart) {
      ClosedSlice(ns, openStart, openEnd);
    } else {
      BlockWeight(ns);
      if r.Some? && PlainAll(r.value) == ns {
        PlainHead(r.value, ns);
      }
      if |ns| == 1 && openEnd > 0 {
        OpenFlats(ns, openStart, openEnd);
        FirstWeight(ns[0].content, openStart - 1, openEnd - 1);
      } else {
        OpenSlice(ns, openStart, openEnd);
        if IsChain(ns[0], openStart) && ns[1..] != [] && ns[1].Block? {
          ChainBack(ns, openStart, openEnd);
        }
      }
    }
  }

  lemma ChainBack(ns: seq<Node>, openStart: nat, openEnd: int)
    requires ns != []
    ensures PlainAll([AllOpen(ns[0])] + OpenedAll(ns[1..], openEnd)) == ns
  {
    hide PlainAll, AllOpen, OpenedAll;
    AllOpenIsNode(ns[0]);
    PlainFirst(AllOpen(ns[0]), OpenedAll(ns[1..], openEnd));
    OpenedAreNodes(ns[1..], openEnd);
  }

  /** Such a slice is open at its start as deep as its chain goes, and at its end as deep as was asked for. */
  lemma ChainIsOpen(ns: seq<Node>, openStart: nat, openEnd: nat)
    requires !StartsClosed(ns, openStart) && Recoverable(ns, openStart)
    ensures var r := GenerateFragment(Flats(ns, openStart, openEnd));
      && r.Some? && GetOpenStart(r.value) == LeftDepth(ns) && GetOpenEnd(r.value) == Min(openEnd, RightDepth(ns))
  {
    hide Flats, GenerateFragment, AllOpen, OpenedAll, GetOpenStart, GetOpenEnd, IsChain;
    OpenSlice(ns, openStart, openEnd);
    ChainDepth(ns[0], openStart, OpenedAll(ns[1..], openEnd));
    LastEdge(AllOpen(ns[0]), ns, openEnd);
    OpenEndIs(ns[1..], openEnd);
    assert LeftDepth(ns) == LeftDepth([ns[0]]);
  }

  lemma {:induction false} ChainDepth(n: Node, openStart: nat, bs: seq<Built>)
    requires IsChain(n, openStart)
    ensures GetOpenStart([AllOpen(n)] + bs) == LeftDepth([n])
    decreases n
  {
    if n.content != [] {
      ChainDepth(n.content[0], openStart - 1, []);
      assert n.content == [n.content[0]];
      assert AllOpen(n).content == [AllOpen(n.content[0])] + [];
    }
  }

  lemma LastEdge(first: Built, ns: seq<Node>, openEnd: nat)
    requires |ns| > 1
    ensures GetOpenEnd([first] + OpenedAll(ns[1..], openEnd)) == GetOpenEnd(OpenedAll(ns[1..], openEnd))
    ensures RightDepth(ns[1..]) == RightDepth(ns)
  {
    hide OpenedAll;
    var bs := OpenedAll(ns[1..], openEnd);
    assert ([first] + bs)[|bs|] == bs[|bs| - 1];
    assert ns[1..][|ns| - 2] == ns[|ns| - 1];
  }

  /** A paragraph split at its start comes back; with a letter before the split the letter is spilled. */
  lemma SplitParagraph()
    ensures var bare, filled := Block("paragraph", []), Block("paragraph", [Text("a")]);
      && Recoverable([bare, bare], 1) && !Recoverable([filled, bare], 1)
      && Flats([filled, bare], 1, 1) == [TextSegment("a"), End("paragraph"), Begin("paragraph")]
  {
    var bare, filled := Block("paragraph", []), Block("paragraph", [Text("a")]);
    assert Flats([Text("a")], 0, -1) == [TextSegment("a")];
    assert [filled, bare][1..] == [bare];
    assert Flats([bare], 0, 1) == [Begin("paragraph")];
    assert Flat(filled, 0, -1) == [TextSegment("a"), End("paragraph")];
  }
}
