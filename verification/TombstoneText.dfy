/**
 * A text with tombstones, one spot for each character that was ever there: which deltas it accepts, how they edit it,
 * and how it shows the flat text (`addRange` of examples/data-objects/prosemirror/src/fluidBridge.ts).
 */
module TombstoneText {
  import opened Common
  import opened Options

  /** Properties of an annotation, known by number. */
  type Props = nat

  datatype Delta =
    | RemoveRange(position: nat, length: nat)
    | InsertRange(position: nat, text: string)
    | AnnotateRange(position: nat, length: nat, props: Props)

  /** A visible character and its annotation. */
  datatype Cell = Cell(c: char, mark: Option<Props>)

  // ---------- The flat text ----------

  function Marked(text: string, mark: Option<Props>): (r: seq<Cell>)
    ensures |r| == |text|
  {
    seq(|text|, i requires 0 <= i < |text| => Cell(text[i], mark))
  }

  /** What a removal or an annotation makes of the cells it covers. */
  function Effect(d: Delta, cells: seq<Cell>): seq<Cell> {
    match d
    case AnnotateRange(_, _, props) => seq(|cells|, i requires 0 <= i < |cells| => cells[i].(mark := Some(props)))
    case _ => []
  }

  function Length(d: Delta): nat {
    if d.InsertRange? then 0 else d.length
  }

  /** The delta applied directly to the text. */
  function Spliced(cells: seq<Cell>, d: Delta): seq<Cell>
    requires d.position + Length(d) <= |cells|
  {
    var i, j := d.position, d.position + Length(d);
    match d
    case InsertRange(_, text) => cells[..i] + Marked(text, None) + cells[i..]
    case _ => cells[..i] + Effect(d, cells[i..j]) + cells[j..]
  }

  /** The deltas applied to the text, one after the other; None when one lies outside it. */
  function SplicedAll(cells: seq<Cell>, ds: seq<Delta>): Option<seq<Cell>>
    decreases ds
  {
    if ds == [] then Some(cells)
    else if ds[0].position + Length(ds[0]) > |cells| then None
    else SplicedAll(Spliced(cells, ds[0]), ds[1..])
  }

  // ---------- The text with tombstones ----------

  /**
   * An original character, still there or deleted; an inserted one, with its place in the text that was inserted;
   * the place of an inserted empty text. Each knows the delta that made it what it is.
   */
  datatype Spot =
    | Kept(c: char, event: Option<Delta>)
    | Gone(c: char, event: Option<Delta>)
    | New(c: char, event: Option<Delta>, at: nat)
    | Seam(event: Option<Delta>)

  function KeptSpots(text: string, event: Option<Delta>): (r: seq<Spot>)
    ensures |r| == |text|
  {
    seq(|text|, i requires 0 <= i < |text| => Kept(text[i], event))
  }

  function GoneSpots(text: string, event: Option<Delta>): (r: seq<Spot>)
    ensures |r| == |text|
  {
    seq(|text|, i requires 0 <= i < |text| => Gone(text[i], event))
  }

  function NewSpots(text: string, event: Option<Delta>, at: nat): seq<Spot> {
    if text == "" then [Seam(event)] else seq(|text|, i requires 0 <= i < |text| => New(text[i], event, at + i))
  }

  /** The annotation that a delta gives. */
  function MarkOf(event: Option<Delta>): Option<Props> {
    if event.Some? && event.value.AnnotateRange? then Some(event.value.props) else None
  }

  function CellOf(spot: Spot): seq<Cell> {
    match spot
    case Kept(c, event) => [Cell(c, MarkOf(event))]
    case New(c, _, _) => [Cell(c, None)]
    case _ => []
  }

  function CharOf(spot: Spot): string {
    if spot.Kept? || spot.Gone? then [spot.c] else ""
  }

  /** The text as it is now. */
  function TextOf(s: seq<Spot>): seq<Cell> {
    if s == [] then [] else CellOf(s[0]) + TextOf(s[1..])
  }

  /** The text as it was. */
  function OriginalOf(s: seq<Spot>): string {
    if s == [] then "" else CharOf(s[0]) + OriginalOf(s[1..])
  }

  function InsertedChar(spot: Spot): string {
    if spot.New? then [spot.c] else ""
  }

  /** The characters that were inserted, in the order of the text. */
  function InsertedOf(s: seq<Spot>): string {
    if s == [] then "" else InsertedChar(s[0]) + InsertedOf(s[1..])
  }

  /** How many characters were deleted. */
  function GoneCount(s: seq<Spot>): nat {
    if s == [] then 0 else (if s[0].Gone? then 1 else 0) + GoneCount(s[1..])
  }

  /** The spot of the visible character at a position, past everything invisible before it. */
  function Index(s: seq<Spot>, position: nat): (i: nat)
    ensures i <= |s|
  {
    if s == [] then 0
    else if CellOf(s[0]) == [] then 1 + Index(s[1..], position)
    else if position == 0 then 0
    else 1 + Index(s[1..], position - 1)
  }

  /** How many original characters lie ahead with nothing deleted or inserted in between. */
  function KeptRun(s: seq<Spot>): (n: nat)
    ensures n <= |s|
  {
    if s == [] || !s[0].Kept? then 0 else 1 + KeptRun(s[1..])
  }

  function ChangedSpot(d: Delta, spot: Spot): Spot {
    if !spot.Kept? then spot
    else
      match d
      case RemoveRange(_, _) => Gone(spot.c, Some(d))
      case AnnotateRange(_, _, _) => Kept(spot.c, Some(d))
      case _ => spot
  }

  function Changed(d: Delta, s: seq<Spot>): (r: seq<Spot>)
    ensures |r| == |s|
  {
    seq(|s|, i requires 0 <= i < |s| => ChangedSpot(d, s[i]))
  }

  /**
   * Inserts are accepted inside the text and at its end; removals and annotations that start inside the text and
   * cover only original characters with nothing deleted or inserted in between.
   */
  predicate Accepts(s: seq<Spot>, d: Delta) {
    if d.InsertRange? then d.position <= |TextOf(s)|
    else d.position < |TextOf(s)| && d.length <= KeptRun(s[Index(s, d.position)..])
  }

  /** What `addRange` makes of the text; what it refuses it has covered as far as the first spot in the way. */
  function Edited(s: seq<Spot>, d: Delta): seq<Spot> {
    var i := Index(s, d.position);
    match d
    case InsertRange(position, text) =>
      if position <= |TextOf(s)| then s[..i] + NewSpots(text, Some(d), 0) + s[i..] else s
    case _ =>
      var n := Min(d.length, KeptRun(s[i..]));
      s[..i] + Changed(d, s[i..i + n]) + s[i + n..]
  }

  predicate AcceptsAll(s: seq<Spot>, ds: seq<Delta>)
    decreases ds
  {
    ds == [] || (Accepts(s, ds[0]) && AcceptsAll(Edited(s, ds[0]), ds[1..]))
  }

  /** The deltas up to and including the first that is refused. */
  function EditedAll(s: seq<Spot>, ds: seq<Delta>): seq<Spot>
    decreases ds
  {
    if ds == [] then s
    else if !Accepts(s, ds[0]) then Edited(s, ds[0])
    else EditedAll(Edited(s, ds[0]), ds[1..])
  }

  // ---------- Accepted deltas edit the flat text ----------

  lemma {:induction false} TextConcat(a: seq<Spot>, b: seq<Spot>)
    ensures TextOf(a + b) == TextOf(a) + TextOf(b) && OriginalOf(a + b) == OriginalOf(a) + OriginalOf(b)
    ensures InsertedOf(a + b) == InsertedOf(a) + InsertedOf(b)
  {
    hide CellOf, CharOf, InsertedChar;
    if a == [] {
      assert a + b == b;
    } else {
      TextConcat(a[1..], b);
      assert (a + b)[1..] == a[1..] + b && (a + b)[0] == a[0];
      Associates(CellOf(a[0]), TextOf(a[1..]), TextOf(b));
      Associates(CharOf(a[0]), OriginalOf(a[1..]), OriginalOf(b));
      Associates(InsertedChar(a[0]), InsertedOf(a[1..]), InsertedOf(b));
    }
  }

  lemma {:induction false} GoneConcat(a: seq<Spot>, b: seq<Spot>)
    ensures GoneCount(a + b) == GoneCount(a) + GoneCount(b)
  {
    if a == [] {
      assert a + b == b;
    } else {
      GoneConcat(a[1..], b);
      assert (a + b)[1..] == a[1..] + b && (a + b)[0] == a[0];
    }
  }

  /** No character is lost: those that are visible or deleted are those that were there or were inserted. */
  lemma {:induction false} Conserved(s: seq<Spot>)
    ensures |TextOf(s)| + GoneCount(s) == |OriginalOf(s)| + |InsertedOf(s)|
  {
    if s != [] {
      Conserved(s[1..]);
    }
  }

  lemma TextConcat3(a: seq<Spot>, b: seq<Spot>, c: seq<Spot>)
    ensures TextOf(a + b + c) == TextOf(a) + TextOf(b) + TextOf(c)
    ensures OriginalOf(a + b + c) == OriginalOf(a) + OriginalOf(b) + OriginalOf(c)
  {
    hide TextOf, OriginalOf, InsertedOf;
    TextConcat(a + b, c);
    TextConcat(a, b);
  }

  lemma {:induction false} IndexSplitsText(s: seq<Spot>, position: nat)
    requires position <= |TextOf(s)|
    ensures |TextOf(s[..Index(s, position)])| == position
  {
    var i := Index(s, position);
    if i == 0 {
      assert s[..i] == [];
    } else {
      var before := if CellOf(s[0]) == [] then position else position - 1;
      IndexSplitsText(s[1..], before);
      assert s[..i][1..] == s[1..][..i - 1] && s[..i][0] == s[0];
    }
  }

  lemma {:induction false} IndexBehind(s: seq<Spot>, position: nat)
    requires position >= |TextOf(s)|
    ensures Index(s, position) == |s|
  {
    if s != [] {
      IndexBehind(s[1..], if CellOf(s[0]) == [] then position else position - 1);
    }
  }

  lemma {:induction false} KeptText(s: seq<Spot>, n: nat, d: Delta)
    requires n <= KeptRun(s) && !d.InsertRange?
    ensures |TextOf(s[..n])| == n && TextOf(Changed(d, s[..n])) == Effect(d, TextOf(s[..n]))
    ensures OriginalOf(Changed(d, s[..n])) == OriginalOf(s[..n])
  {
    hide Effect, Changed, ChangedSpot, CellOf, CharOf;
    if n == 0 {
      assert s[..n] == [];
      NothingChanged(d);
    } else {
      var rest := s[1..][..n - 1];
      KeptText(s[1..], n - 1, d);
      assert s[..n] == [s[0]] + rest;
      ChangedOne(d, s[0], rest);
      EffectOne(d, Cell(s[0].c, MarkOf(s[0].event)), TextOf(rest));
    }
  }

  lemma NothingChanged(d: Delta)
    requires !d.InsertRange?
    ensures Changed(d, []) == [] && Effect(d, []) == [] && TextOf([]) == [] && OriginalOf([]) == ""
  {
  }

  lemma ChangedOne(d: Delta, spot: Spot, rest: seq<Spot>)
    requires spot.Kept? && !d.InsertRange?
    ensures TextOf([spot] + rest) == [Cell(spot.c, MarkOf(spot.event))] + TextOf(rest)
    ensures OriginalOf([spot] + rest) == [spot.c] + OriginalOf(rest)
    ensures TextOf(Changed(d, [spot] + rest))
      == Effect(d, [Cell(spot.c, MarkOf(spot.event))]) + TextOf(Changed(d, rest))
    ensures OriginalOf(Changed(d, [spot] + rest)) == [spot.c] + OriginalOf(Changed(d, rest))
  {
    assert ([spot] + rest)[1..] == rest;
    assert Changed(d, [spot] + rest) == [ChangedSpot(d, spot)] + Changed(d, rest);
    assert ([ChangedSpot(d, spot)] + Changed(d, rest))[1..] == Changed(d, rest);
  }

  lemma EffectOne(d: Delta, cell: Cell, cells: seq<Cell>)
    requires !d.InsertRange?
    ensures Effect(d, [cell]) + Effect(d, cells) == Effect(d, [cell] + cells)
  {
  }

  lemma {:induction false} NewText(text: string, event: Option<Delta>, at: nat)
    ensures TextOf(NewSpots(text, event, at)) == Marked(text, None) && OriginalOf(NewSpots(text, event, at)) == ""
    ensures InsertedOf(NewSpots(text, event, at)) == text
  {
    hide TextOf, OriginalOf, InsertedOf;
    if |text| < 2 {
      ShortNewText(text, event, at);
    } else {
      var rest := NewSpots(text[1..], event, at + 1);
      NewText(text[1..], event, at + 1);
      assert NewSpots(text, event, at) == [New(text[0], event, at)] + rest;
      OneNew(New(text[0], event, at), rest);
      assert Marked(text, None) == [Cell(text[0], None)] + Marked(text[1..], None);
    }
  }

  lemma ShortNewText(text: string, event: Option<Delta>, at: nat)
    requires |text| < 2
    ensures TextOf(NewSpots(text, event, at)) == Marked(text, None) && OriginalOf(NewSpots(text, event, at)) == ""
    ensures InsertedOf(NewSpots(text, event, at)) == text
  {
    if |text| == 1 {
      assert NewSpots(text, event, at) == [New(text[0], event, at)];
      assert [New(text[0], event, at)][1..] == [];
    }
  }

  lemma OneNew(spot: Spot, rest: seq<Spot>)
    requires spot.New?
    ensures TextOf([spot] + rest) == [Cell(spot.c, None)] + TextOf(rest)
    ensures OriginalOf([spot] + rest) == OriginalOf(rest)
    ensures InsertedOf([spot] + rest) == [spot.c] + InsertedOf(rest)
  {
    assert ([spot] + rest)[1..] == rest;
  }

  /** What is accepted edits the text directly, and nothing changes the original text. */
  lemma EditShows(s: seq<Spot>, d: Delta)
    ensures OriginalOf(Edited(s, d)) == OriginalOf(s)
    ensures Accepts(s, d) ==>
      d.position + Length(d) <= |TextOf(s)| && TextOf(Edited(s, d)) == Spliced(TextOf(s), d)
  {
    if d.InsertRange? {
      InsertShows(s, d);
    } else {
      CoverShows(s, d);
    }
  }

  lemma InsertShows(s: seq<Spot>, d: Delta)
    requires d.InsertRange?
    ensures OriginalOf(Edited(s, d)) == OriginalOf(s)
    ensures d.position <= |TextOf(s)| ==> TextOf(Edited(s, d)) == Spliced(TextOf(s), d)
  {
    hide TextOf, OriginalOf, InsertedOf, Index, NewSpots, Marked;
    var i := Index(s, d.position);
    if d.position <= |TextOf(s)| {
      IndexSplitsText(s, d.position);
      assert s == s[..i] + s[i..];
      TextConcat(s[..i], s[i..]);
      TextConcat3(s[..i], NewSpots(d.text, Some(d), 0), s[i..]);
      NewText(d.text, Some(d), 0);
    }
  }

  lemma CoverShows(s: seq<Spot>, d: Delta)
    requires !d.InsertRange?
    ensures OriginalOf(Edited(s, d)) == OriginalOf(s)
    ensures Accepts(s, d) ==>
      d.position + d.length <= |TextOf(s)| && TextOf(Edited(s, d)) == Spliced(TextOf(s), d)
  {
    hide *;
    EditedIs(s, d);
    var i := Index(s, d.position);
    var n := Min(d.length, KeptRun(s[i..]));
    var before, covered, after := s[..i], s[i..i + n], s[i + n..];
    Pieced(s, i, n);
    TextConcat3(before, covered, after);
    TextConcat3(before, Changed(d, covered), after);
    KeptText(s[i..], n, d);
    if Accepts(s, d) {
      IndexSplitsText(s, d.position);
      SplicedIs(TextOf(before), TextOf(covered), TextOf(after), d);
    }
  }

  lemma EditedIs(s: seq<Spot>, d: Delta)
    requires !d.InsertRange?
    ensures
      var i := Index(s, d.position);
      var n := Min(d.length, KeptRun(s[i..]));
      && i + n <= |s| && n <= KeptRun(s[i..]) && Edited(s, d) == s[..i] + Changed(d, s[i..i + n]) + s[i + n..]
      && (Accepts(s, d) ==> n == d.length && d.position <= |TextOf(s)|)
  {
    hide TextOf, Changed;
  }

  lemma Pieced<T>(s: seq<T>, i: nat, n: nat)
    requires i + n <= |s|
    ensures s == s[..i] + s[i..i + n] + s[i + n..] && s[i..][..n] == s[i..i + n]
  {
  }

  lemma SplicedIs(before: seq<Cell>, covered: seq<Cell>, after: seq<Cell>, d: Delta)
    requires !d.InsertRange? && d.position == |before| && d.length == |covered|
    ensures |before + covered + after| >= d.position + Length(d) == d.position + d.length
    ensures Spliced(before + covered + after, d) == before + Effect(d, covered) + after
  {
    hide Effect;
    var cells := before + covered + after;
    assert cells[..|before|] == before && cells[|before|..|before| + |covered|] == covered;
    assert cells[|before| + |covered|..] == after;
  }

  /**
   * A run of accepted deltas shows the text with the same edits made directly; the original text is what is left
   * of it and what was deleted, whatever the run.
   */
  lemma {:induction false} RunShowsEdits(s: seq<Spot>, ds: seq<Delta>)
    ensures OriginalOf(EditedAll(s, ds)) == OriginalOf(s)
    ensures AcceptsAll(s, ds) ==> SplicedAll(TextOf(s), ds) == Some(TextOf(EditedAll(s, ds)))
    decreases ds
  {
    hide TextOf, OriginalOf, Edited, Spliced, Accepts;
    if ds != [] {
      EditShows(s, ds[0]);
      if Accepts(s, ds[0]) {
        RunShowsEdits(Edited(s, ds[0]), ds[1..]);
      }
    }
  }

  // ---------- When a removal is accepted ----------

  function OriginOf(spot: Spot, from: nat): (r: seq<Option<nat>>)
    ensures |r| == |CellOf(spot)|
  {
    match spot
    case Kept(_, _) => [Some(from)]
    case New(_, _, _) => [None]
    case _ => []
  }

  /** For each visible character its place in the original text, or none if it was inserted. */
  function Origins(s: seq<Spot>, from: nat): seq<Option<nat>> {
    if s == [] then [] else OriginOf(s[0], from) + Origins(s[1..], from + |CharOf(s[0])|)
  }

  predicate NoSeam(s: seq<Spot>) {
    forall k :: 0 <= k < |s| ==> !s[k].Seam?
  }

  /** Only the insertion of an empty text leaves a seam. */
  lemma SeamlessEdit(s: seq<Spot>, d: Delta)
    requires NoSeam(s) && (d.InsertRange? ==> d.text != "")
    ensures NoSeam(Edited(s, d))
  {
    hide Index, KeptRun, TextOf;
  }

  /** So a run that inserts no empty text has none. */
  lemma {:induction false} SeamlessRun(s: seq<Spot>, ds: seq<Delta>)
    requires NoSeam(s) && forall k :: 0 <= k < |ds| && ds[k].InsertRange? ==> ds[k].text != ""
    ensures NoSeam(EditedAll(s, ds))
    decreases ds
  {
    hide Edited, Accepts, NoSeam;
    if ds != [] {
      SeamlessEdit(s, ds[0]);
      if Accepts(s, ds[0]) {
        SeamlessRun(Edited(s, ds[0]), ds[1..]);
      }
    }
  }

  /** Cells of the original text that were neighbours in it. */
  predicate Neighbours(origins: seq<Option<nat>>, at: nat, n: nat) {
    && at + n <= |origins|
    && forall j :: at <= j < at + n ==>
         origins[at].Some? && origins[j].Some? && origins[j].value == origins[at].value + (j - at)
  }

  predicate NeighboursFrom(origins: seq<Option<nat>>, n: nat, from: nat) {
    n <= |origins| && forall k :: 0 <= k < n ==> origins[k] == Some(from + k)
  }

  lemma {:induction false} OriginsBeyond(s: seq<Spot>, from: nat)
    ensures |Origins(s, from)| == |TextOf(s)|
    ensures forall k :: 0 <= k < |Origins(s, from)| && Origins(s, from)[k].Some? ==> Origins(s, from)[k].value >= from
  {
    hide CellOf, CharOf, OriginOf;
    if s != [] {
      var one, rest := OriginOf(s[0], from), Origins(s[1..], from + |CharOf(s[0])|);
      OriginsBeyond(s[1..], from + |CharOf(s[0])|);
      OriginIs(s[0], from);
      assert Origins(s, from) == one + rest;
      assert forall k :: |one| <= k < |one + rest| ==> (one + rest)[k] == rest[k - |one|];
    }
  }

  lemma OriginIs(spot: Spot, from: nat)
    ensures |OriginOf(spot, from)| <= 1
    ensures OriginOf(spot, from) != [] && OriginOf(spot, from)[0].Some? ==> OriginOf(spot, from)[0].value == from
  {
  }

  lemma {:induction false} KeptRunIff(s: seq<Spot>, from: nat, n: nat)
    requires NoSeam(s)
    ensures n <= KeptRun(s) <==> NeighboursFrom(Origins(s, from), n, from)
  {
    if n > 0 && s != [] {
      hide TextOf;
      var origins := Origins(s, from);
      if s[0].Kept? {
        var rest := Origins(s[1..], from + 1);
        KeptRunIff(s[1..], from + 1, n - 1);
        assert origins == [Some(from)] + rest;
        NeighboursNext(rest, n - 1, from);
      } else {
        OriginsBeyond(s[1..], from + |CharOf(s[0])|);
        NotFrom(origins, n, from);
      }
    }
  }

  lemma NotFrom(origins: seq<Option<nat>>, n: nat, from: nat)
    requires n > 0 && (origins != [] ==> origins[0] != Some(from))
    ensures !NeighboursFrom(origins, n, from)
  {
  }

  lemma NeighboursNext(rest: seq<Option<nat>>, n: nat, from: nat)
    ensures NeighboursFrom([Some(from)] + rest, n + 1, from) <==> NeighboursFrom(rest, n, from + 1)
  {
    var origins := [Some(from)] + rest;
    if NeighboursFrom(origins, n + 1, from) {
      assert forall k :: 0 <= k < n ==> rest[k] == origins[k + 1];
    }
  }

  /** The origins of a text are those up to a position and those from it on. */
  lemma {:induction false} OriginsConcat(a: seq<Spot>, b: seq<Spot>, from: nat)
    ensures |Origins(a, from)| == |TextOf(a)|
    ensures Origins(a + b, from) == Origins(a, from) + Origins(b, from + |OriginalOf(a)|)
  {
    hide OriginOf, CharOf, CellOf;
    if a == [] {
      assert a + b == b;
    } else {
      var next := from + |CharOf(a[0])|;
      OriginsConcat(a[1..], b, next);
      assert (a + b)[1..] == a[1..] + b && (a + b)[0] == a[0];
      Associates(OriginOf(a[0], from), Origins(a[1..], next), Origins(b, next + |OriginalOf(a[1..])|));
    }
  }

  lemma {:induction false} IndexSees(s: seq<Spot>, position: nat)
    requires position < |TextOf(s)|
    ensures Index(s, position) < |s| && CellOf(s[Index(s, position)]) != []
  {
    if CellOf(s[0]) == [] {
      IndexSees(s[1..], position);
    } else if position > 0 {
      IndexSees(s[1..], position - 1);
    }
  }

  /**
   * Unless an empty text was inserted, a removal or annotation is accepted if and only if it starts inside the text
   * and covers characters that were neighbours in the original text.
   */
  lemma AcceptedIffNeighbours(s: seq<Spot>, d: Delta)
    requires NoSeam(s) && !d.InsertRange?
    ensures Accepts(s, d) <==> d.position < |TextOf(s)| && Neighbours(Origins(s, 0), d.position, d.length)
  {
    hide Origins, TextOf, OriginalOf, Index, KeptRun;
    if d.position < |TextOf(s)| {
      var i := Index(s, d.position);
      var from := |OriginalOf(s[..i])|;
      IndexSplitsText(s, d.position);
      OriginsConcat(s[..i], s[i..], 0);
      assert s == s[..i] + s[i..];
      assert Origins(s, 0)[d.position..] == Origins(s[i..], from);
      KeptRunIff(s[i..], from, d.length);
      IndexSees(s, d.position);
      FirstOrigin(s[i..], from);
      assert Origins(s, 0)[d.position] == Origins(s[i..], from)[0];
      NeighboursShift(Origins(s, 0), d.position, d.length, from);
    }
  }

  lemma FirstOrigin(s: seq<Spot>, from: nat)
    requires s != [] && CellOf(s[0]) != []
    ensures Origins(s, from) != [] && (Origins(s, from)[0].Some? ==> Origins(s, from)[0].value == from)
  {
  }

  lemma NeighboursShift(origins: seq<Option<nat>>, at: nat, n: nat, from: nat)
    requires at < |origins| && (origins[at].Some? ==> origins[at].value == from)
    ensures Neighbours(origins, at, n) <==> NeighboursFrom(origins[at..], n, from)
  {
    var rest := origins[at..];
    assert forall k :: 0 <= k < |rest| ==> rest[k] == origins[at + k];
    if n > 0 && Neighbours(origins, at, n) {
      assert origins[at + 0].Some?;
    }
    if n > 0 && NeighboursFrom(rest, n, from) {
      assert rest[0].value == from + 0;
    }
  }

  // ---------- Ranges that start inside an inserted text ----------

  /** The range starts in an inserted text, behind its first character. */
  predicate StartsInside(s: seq<Spot>, d: Delta) {
    var i := Index(s, d.position);
    i < |s| && s[i].New? && s[i].at > 0
  }

  /** No range of the run starts inside an inserted text, the first that is refused included. */
  predicate NoneInside(s: seq<Spot>, ds: seq<Delta>)
    decreases ds
  {
    ds == [] || (!StartsInside(s, ds[0]) && (Accepts(s, ds[0]) ==> NoneInside(Edited(s, ds[0]), ds[1..])))
  }
}
