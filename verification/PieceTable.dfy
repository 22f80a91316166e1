/**
 * The piece table that turns sequenced deltas into a description of a transaction
 * (`ProseMirrorTransactionBuilder.splitAt` and `addRange` of
 * examples/data-objects/prosemirror/src/fluidBridge.ts). It refines the text with tombstones.
 */
module PieceTable {
  import opened Common
  import opened Options
  import opened TombstoneText

  // ---------- Things and pieces ----------

  datatype Kind = Ether | Deleted | Inserted

  datatype Thing = Thing(kind: Kind, event: Option<Delta>, length: nat, annotations: Option<Props>)

  /**
   * A thing together with the text it stands for; the text of a deleted thing is kept, and that of an inserted thing
   * starts at `from` in the text of its event.
   */
  datatype Piece = Piece(thing: Thing, text: string, from: nat)

  function SpotsOf(p: Piece): seq<Spot> {
    match p.thing.kind
    case Ether => KeptSpots(p.text, p.thing.event)
    case Deleted => GoneSpots(p.text, p.thing.event)
    case Inserted => NewSpots(p.text, p.thing.event, p.from)
  }

  function Spots(ps: seq<Piece>): seq<Spot> {
    if ps == [] then [] else SpotsOf(ps[0]) + Spots(ps[1..])
  }

  /**
   * Lengths are those of the visible texts; the event of an inserted thing carries its text, and that of a deleted
   * thing removed at least its text.
   */
  predicate Fits(p: Piece) {
    match p.thing.kind
    case Deleted =>
      && p.thing.length == 0 && p.text != "" && p.thing.event.Some? && p.thing.event.value.RemoveRange?
      && |p.text| <= p.thing.event.value.length
    case Inserted =>
      && p.thing.length == |p.text| && p.thing.annotations.None?
      && p.thing.event.Some? && p.thing.event.value.InsertRange?
      && p.from + |p.text| <= |p.thing.event.value.text|
      && p.text == p.thing.event.value.text[p.from..p.from + |p.text|]
    case Ether =>
      && p.thing.length == |p.text| && p.thing.annotations == MarkOf(p.thing.event)
      && (p.thing.event.Some? ==> p.thing.event.value.AnnotateRange?)
  }

  /** Only the first piece can be empty ether, when the builder started from an empty text. */
  predicate Sound(ps: seq<Piece>) {
    forall k :: 0 <= k < |ps| ==> Fits(ps[k]) && (k > 0 && ps[k].thing.kind == Ether ==> ps[k].thing.length > 0)
  }

  lemma {:induction false} SpotsConcat(a: seq<Piece>, b: seq<Piece>)
    ensures Spots(a + b) == Spots(a) + Spots(b)
  {
    hide SpotsOf;
    if a == [] {
      assert a + b == b;
    } else {
      SpotsConcat(a[1..], b);
      assert (a + b)[1..] == a[1..] + b && (a + b)[0] == a[0];
      Associates(SpotsOf(a[0]), Spots(a[1..]), Spots(b));
    }
  }

  lemma OnePiece(p: Piece)
    ensures Spots([p]) == SpotsOf(p)
  {
    hide SpotsOf;
    assert [p][1..] == [];
  }

  lemma Around(a: seq<Piece>, p: Piece, b: seq<Piece>)
    ensures Spots(a + [p] + b) == Spots(a) + SpotsOf(p) + Spots(b)
    ensures Spots([]) == []
  {
    hide SpotsOf;
    SpotsConcat(a + [p], b);
    SpotsConcat(a, [p]);
    OnePiece(p);
  }

  lemma SpotsSplit(ps: seq<Piece>, i: nat)
    requires i <= |ps|
    ensures Spots(ps) == Spots(ps[..i]) + Spots(ps[i..])
  {
    hide Spots, SpotsOf;
    SpotsConcat(ps[..i], ps[i..]);
    assert ps == ps[..i] + ps[i..];
  }

  lemma PieceAt(ps: seq<Piece>, i: nat)
    requires i < |ps|
    ensures Spots(ps[..i + 1]) == Spots(ps[..i]) + SpotsOf(ps[i])
    ensures Spots(ps[i..]) == SpotsOf(ps[i]) + Spots(ps[i + 1..])
  {
    hide SpotsOf;
    assert ps[..i + 1] == ps[..i] + [ps[i]];
    SpotsConcat(ps[..i], [ps[i]]);
    OnePiece(ps[i]);
    assert ps[i..][1..] == ps[i + 1..];
  }

  // ---------- Finding a position ----------

  /** The first thing that reaches beyond the position, and the offset in it. */
  function Find(ts: seq<Thing>, position: nat, i: nat): (r: (nat, nat))
    requires i <= |ts|
    ensures i <= r.0 <= |ts| && (r.0 < |ts| ==> r.1 < ts[r.0].length)
    decreases |ts| - i
  {
    if i == |ts| || position < ts[i].length then (i, position) else Find(ts, position - ts[i].length, i + 1)
  }

  lemma {:induction false} IndexConcat(a: seq<Spot>, b: seq<Spot>, position: nat)
    ensures Index(a + b, position)
      == if position < |TextOf(a)| then Index(a, position) else |a| + Index(b, position - |TextOf(a)|)
  {
    if a == [] {
      assert a + b == b;
    } else {
      assert (a + b)[1..] == a[1..] + b && (a + b)[0] == a[0];
      if CellOf(a[0]) == [] {
        IndexConcat(a[1..], b, position);
      } else if position > 0 {
        IndexConcat(a[1..], b, position - 1);
      }
    }
  }

  /** A stretch of characters that are all visible. */
  lemma {:induction false} AllVisible(s: seq<Spot>)
    requires forall k :: 0 <= k < |s| ==> s[k].Kept? || s[k].New?
    ensures |TextOf(s)| == |s| && forall k :: 0 <= k < |s| ==> Index(s, k) == k
  {
    if s != [] {
      AllVisible(s[1..]);
      forall k | 0 < k < |s| ensures Index(s, k) == k {
        assert Index(s[1..], k - 1) == k - 1;
      }
    }
  }

  lemma {:induction false} NoneVisible(s: seq<Spot>)
    requires forall k :: 0 <= k < |s| ==> s[k].Gone? || s[k].Seam?
    ensures TextOf(s) == []
  {
    if s != [] {
      NoneVisible(s[1..]);
    }
  }

  lemma PieceIndex(p: Piece)
    requires Fits(p)
    ensures |TextOf(SpotsOf(p))| == p.thing.length
    ensures forall k :: 0 <= k < p.thing.length ==> Index(SpotsOf(p), k) == k
  {
    hide TextOf, Index;
    if p.thing.length == 0 {
      NoneVisible(SpotsOf(p));
    } else {
      AllVisible(SpotsOf(p));
    }
  }

  predicate Matches(ps: seq<Piece>, ts: seq<Thing>) {
    |ps| == |ts| && forall k :: 0 <= k < |ps| ==> ps[k].thing == ts[k]
  }

  /** The walk over the things finds the spot of the position, and ends behind them exactly when the text does. */
  lemma {:induction false} FindIndex(ps: seq<Piece>, ts: seq<Thing>, position: nat, i: nat)
    requires Matches(ps, ts) && Sound(ps) && i <= |ts|
    ensures var (k, offset) := Find(ts, position, i);
      var rest := Spots(ps[i..]);
      && |Spots(ps[..i])| + Index(rest, position) == |Spots(ps[..k])| + (if k < |ts| then offset else 0)
      && (k < |ts| <==> position < |TextOf(rest)|)
      && (k == |ts| ==> position == |TextOf(rest)| + offset)
    decreases |ts| - i
  {
    hide SpotsOf, TextOf, Index, Fits;
    if i == |ts| {
      assert ps[i..] == [];
      NothingThere(position);
    } else {
      PieceAt(ps, i);
      assert Fits(ps[i]);
      PieceIndex(ps[i]);
      TextConcat(SpotsOf(ps[i]), Spots(ps[i + 1..]));
      IndexConcat(SpotsOf(ps[i]), Spots(ps[i + 1..]), position);
      if position >= ts[i].length {
        FindIndex(ps, ts, position - ts[i].length, i + 1);
      }
    }
  }

  lemma NothingThere(position: nat)
    ensures Spots([]) == [] && TextOf([]) == [] && Index([], position) == 0
  {
  }

  // ---------- Splitting ----------

  function SplitThing(t: Thing, at: nat): (Thing, Thing)
    requires at <= t.length
  {
    (t.(length := at), t.(length := t.length - at))
  }

  /** `splitAt`: both halves keep the event of the whole. */
  function SplitThings(ts: seq<Thing>, at: nat, i: nat): seq<Thing>
    requires at > 0 ==> i < |ts| && at <= ts[i].length
  {
    if at == 0 then ts
    else
      var (l, r) := SplitThing(ts[i], at);
      ts[..i] + [l, r] + ts[i + 1..]
  }

  function SplitPiece(p: Piece, at: nat): (Piece, Piece)
    requires at <= p.thing.length && at <= |p.text|
  {
    var (l, r) := SplitThing(p.thing, at);
    (Piece(l, p.text[..at], p.from), Piece(r, p.text[at..], p.from + at))
  }

  lemma SplitKeeps(p: Piece, at: nat)
    requires Fits(p) && 0 < at < p.thing.length
    ensures at <= |p.text|
    ensures var (l, r) := SplitPiece(p, at);
      Fits(l) && Fits(r) && SpotsOf(l) + SpotsOf(r) == SpotsOf(p) && |SpotsOf(l)| == at
  {
    hide *;
    if p.thing.kind == Inserted {
      SlicesMeet(p, at);
      NewSplit(p, at);
    } else {
      EtherSplit(p, at);
    }
  }

  lemma EtherSplit(p: Piece, at: nat)
    requires Fits(p) && 0 < at < p.thing.length && p.thing.kind != Inserted
    ensures at <= |p.text|
    ensures var (l, r) := SplitPiece(p, at);
      Fits(l) && Fits(r) && SpotsOf(l) + SpotsOf(r) == SpotsOf(p) && |SpotsOf(l)| == at
  {
    hide NewSpots;
  }

  lemma NewSplit(p: Piece, at: nat)
    requires p.thing.kind == Inserted && p.thing.length == |p.text| && 0 < at < |p.text|
    ensures var (l, r) := SplitPiece(p, at);
      SpotsOf(l) + SpotsOf(r) == SpotsOf(p) && |SpotsOf(l)| == at
  {
    hide Fits;
  }

  /** The parts of an inserted text are slices of the text of the event as well. */
  lemma SlicesMeet(p: Piece, at: nat)
    requires Fits(p) && p.thing.kind == Inserted && 0 < at < p.thing.length
    ensures at <= |p.text| == p.thing.length
    ensures Fits(SplitPiece(p, at).0) && Fits(SplitPiece(p, at).1)
  {
  }

  function InPlace(ps: seq<Piece>, i: nat, l: Piece, r: Piece): seq<Piece>
    requires i < |ps|
  {
    ps[..i] + [l, r] + ps[i + 1..]
  }

  /** Two pieces in place of one. */
  lemma SplitInPlace(ps: seq<Piece>, i: nat, l: Piece, r: Piece)
    requires i < |ps| && SpotsOf(l) + SpotsOf(r) == SpotsOf(ps[i])
    ensures var qs := InPlace(ps, i, l, r);
      Spots(qs) == Spots(ps) && qs[..i + 1] == ps[..i] + [l] && Spots(qs[..i + 1]) == Spots(ps[..i]) + SpotsOf(l)
  {
    hide *;
    var a, b := ps[..i], ps[i + 1..];
    InPlaceShape(ps, i, l, r);
    Around(a, ps[i], b);
    Around(a, l, [] + [r] + b);
    Around([], r, b);
    Around(a, l, []);
    SameParts(Spots(a), SpotsOf(l), SpotsOf(r), Spots(b), SpotsOf(ps[i]));
  }

  lemma InPlaceShape(ps: seq<Piece>, i: nat, l: Piece, r: Piece)
    requires i < |ps|
    ensures var qs := InPlace(ps, i, l, r);
      var a, b := ps[..i], ps[i + 1..];
      && ps == a + [ps[i]] + b && qs == a + [l] + ([] + [r] + b)
      && qs[..i + 1] == a + [l] && qs[..i + 1] == a + [l] + []
  {
  }

  lemma SameParts<T>(a: seq<T>, l: seq<T>, r: seq<T>, b: seq<T>, p: seq<T>)
    requires l + r == p
    ensures a + l + ([] + r + b) == a + p + b
    ensures a + l + [] == a + l
  {
  }

  lemma InPlaceSound(ps: seq<Piece>, i: nat, l: Piece, r: Piece)
    requires i < |ps| && Sound(ps) && Fits(l) && Fits(r) && l.thing.length > 0 && r.thing.length > 0
    ensures Sound(InPlace(ps, i, l, r))
  {
    hide Fits;
  }

  // ---------- Changing a piece, inserting a piece ----------

  function ChangedThing(t: Thing, d: Delta): Thing {
    match d
    case RemoveRange(_, _) => t.(kind := Deleted, event := Some(d), length := 0)
    case AnnotateRange(_, _, props) => t.(annotations := Some(props), event := Some(d))
    case _ => t
  }

  lemma ChangedPiece(p: Piece, d: Delta)
    requires Fits(p) && p.thing.kind == Ether && p.thing.length > 0 && !d.InsertRange?
    requires p.thing.length <= d.length
    ensures var q := p.(thing := ChangedThing(p.thing, d));
      Fits(q) && SpotsOf(q) == Changed(d, SpotsOf(p)) && (q.thing.kind == Ether ==> q.thing.length > 0)
  {
  }

  lemma ChangeInPlace(ps: seq<Piece>, i: nat, q: Piece)
    requires i < |ps|
    ensures var qs := ps[i := q];
      Spots(qs[..i + 1]) == Spots(ps[..i]) + SpotsOf(q) && Spots(qs[i + 1..]) == Spots(ps[i + 1..])
  {
    hide SpotsOf, Spots;
    Around(ps[..i], q, []);
    assert ps[i := q][..i + 1] == ps[..i] + [q] + [] && ps[i := q][i + 1..] == ps[i + 1..];
  }

  lemma ChangeSound(ps: seq<Piece>, i: nat, q: Piece)
    requires i < |ps| && Sound(ps) && Fits(q) && (q.thing.kind == Ether ==> q.thing.length > 0)
    ensures Sound(ps[i := q])
  {
    hide Fits;
  }

  function NewThing(d: Delta): Thing
    requires d.InsertRange?
  {
    Thing(Inserted, Some(d), |d.text|, None)
  }

  lemma NewPiece(d: Delta)
    requires d.InsertRange?
    ensures var p := Piece(NewThing(d), d.text, 0);
      p.thing.kind == Inserted && Fits(p) && SpotsOf(p) == NewSpots(d.text, Some(d), 0)
  {
  }

  lemma InsertPiece(ps: seq<Piece>, i: nat, p: Piece, d: Delta)
    requires i <= |ps| && d.InsertRange? && SpotsOf(p) == NewSpots(d.text, Some(d), 0)
    requires d.position <= |TextOf(Spots(ps))| && |Spots(ps[..i])| == Index(Spots(ps), d.position)
    ensures Spots(ps[..i] + [p] + ps[i..]) == Edited(Spots(ps), d)
  {
    hide Spots, SpotsOf, NewSpots, Index, TextOf;
    Around(ps[..i], p, ps[i..]);
    SpotsSplit(ps, i);
    var s, n := Spots(ps), |Spots(ps[..i])|;
    assert s[..n] == Spots(ps[..i]) && s[n..] == Spots(ps[i..]);
  }

  lemma InsertSound(ps: seq<Piece>, i: nat, p: Piece)
    requires i <= |ps| && Sound(ps) && Fits(p) && p.thing.kind == Inserted
    requires i == 0 && ps != [] ==> ps[0].thing.length > 0
    ensures Sound(ps[..i] + [p] + ps[i..])
  {
    hide Fits;
  }

  // ---------- The texts that the things carry ----------

  predicate WholeThing(t: Thing) {
    t.kind == Inserted ==> t.event.Some? && t.event.value.InsertRange? && t.length == |t.event.value.text|
  }

  /** No inserted thing has been split. */
  predicate Whole(ts: seq<Thing>) {
    forall k :: 0 <= k < |ts| ==> WholeThing(ts[k])
  }

  function CarriedBy(t: Thing): string {
    if t.kind == Inserted && t.event.Some? && t.event.value.InsertRange? then t.event.value.text else ""
  }

  /** The texts of the events of the inserted things, one after the other, as they are read from the things. */
  function Carried(ts: seq<Thing>): string {
    if ts == [] then "" else CarriedBy(ts[0]) + Carried(ts[1..])
  }

  lemma PieceCarried(p: Piece)
    requires Fits(p)
    ensures |InsertedOf(SpotsOf(p))| <= |CarriedBy(p.thing)|
    ensures |InsertedOf(SpotsOf(p))| == |CarriedBy(p.thing)| <==> WholeThing(p.thing)
    ensures WholeThing(p.thing) ==> InsertedOf(SpotsOf(p)) == CarriedBy(p.thing)
  {
    hide InsertedOf;
    if p.thing.kind == Inserted {
      NewText(p.text, p.thing.event, p.from);
    } else {
      NothingInserted(SpotsOf(p));
    }
  }

  lemma {:induction false} NothingInserted(s: seq<Spot>)
    requires forall k :: 0 <= k < |s| ==> !s[k].New?
    ensures InsertedOf(s) == ""
  {
    if s != [] {
      NothingInserted(s[1..]);
    }
  }

  lemma {:induction false} CarriedAtLeast(ps: seq<Piece>, ts: seq<Thing>)
    requires Matches(ps, ts) && Sound(ps)
    ensures |InsertedOf(Spots(ps))| <= |Carried(ts)|
    ensures |InsertedOf(Spots(ps))| == |Carried(ts)| <==> Whole(ts)
    ensures Whole(ts) ==> InsertedOf(Spots(ps)) == Carried(ts)
  {
    hide InsertedOf, SpotsOf, Fits, CarriedBy, WholeThing;
    if ps == [] {
      NothingInserted([]);
    } else {
      PieceFits(ps, 0);
      PieceCarried(ps[0]);
      TextConcat(SpotsOf(ps[0]), Spots(ps[1..]));
      assert Sound(ps[1..]) by {
        SoundRest(ps);
      }
      CarriedAtLeast(ps[1..], ts[1..]);
      WholeRest(ts);
    }
  }

  lemma SoundRest(ps: seq<Piece>)
    requires ps != [] && Sound(ps)
    ensures Sound(ps[1..])
  {
    hide Fits;
  }

  lemma WholeRest(ts: seq<Thing>)
    requires ts != []
    ensures Whole(ts) <==> WholeThing(ts[0]) && Whole(ts[1..])
  {
    hide WholeThing;
    if WholeThing(ts[0]) && Whole(ts[1..]) {
      forall k | 0 <= k < |ts| ensures WholeThing(ts[k]) {
        assert k > 0 ==> ts[k] == ts[1..][k - 1];
      }
    }
    if Whole(ts) {
      forall k | 0 <= k < |ts| - 1 ensures WholeThing(ts[1..][k]) {
        assert ts[1..][k] == ts[k + 1];
      }
    }
  }

  /** What the things carry is the inserted text if and only if no inserted thing has been split. */
  lemma CarriedIff(ps: seq<Piece>, ts: seq<Thing>)
    requires Matches(ps, ts) && Sound(ps)
    ensures Carried(ts) == InsertedOf(Spots(ps)) <==> Whole(ts)
  {
    hide *;
    CarriedAtLeast(ps, ts);
  }

  /** Splitting an inserted thing leaves parts that are not whole; splitting others changes nothing of that. */
  lemma WholeSplit(ps: seq<Piece>, ts: seq<Thing>, at: nat, i: nat)
    requires Matches(ps, ts) && Sound(ps) && i < |ts| && 0 < at < ts[i].length
    ensures Whole(SplitThings(ts, at, i)) <==> Whole(ts) && ts[i].kind != Inserted
  {
    var us := SplitThings(ts, at, i);
    assert Fits(ps[i]);
    assert us[i] == SplitThing(ts[i], at).0 && us[i + 1] == SplitThing(ts[i], at).1;
    hide Fits, WholeThing;
    PartsWhole(ps[i], at);
    if Whole(us) {
      assert WholeThing(us[i]);
      forall k | 0 <= k < |ts| ensures WholeThing(ts[k]) {
        assert k < i ==> us[k] == ts[k];
        assert k > i ==> us[k + 1] == ts[k];
      }
    }
    if Whole(ts) && ts[i].kind != Inserted {
      forall k | 0 <= k < |us| ensures WholeThing(us[k]) {
        assert k < i ==> us[k] == ts[k];
        assert k > i + 1 ==> us[k] == ts[k - 1];
      }
    }
  }

  lemma PartsWhole(p: Piece, at: nat)
    requires Fits(p) && 0 < at < p.thing.length
    ensures var (l, r) := SplitThing(p.thing, at);
      && (p.thing.kind == Inserted ==> !WholeThing(l)) && (p.thing.kind != Inserted ==> WholeThing(l) && WholeThing(r))
    ensures p.thing.kind != Inserted ==> WholeThing(p.thing)
  {
  }

  lemma WholeInsert(ts: seq<Thing>, i: nat, d: Delta)
    requires i <= |ts| && d.InsertRange?
    ensures Whole(ts[..i] + [NewThing(d)] + ts[i..]) <==> Whole(ts)
  {
    var us := ts[..i] + [NewThing(d)] + ts[i..];
    assert WholeThing(us[i]);
    hide WholeThing;
    forall k | 0 <= k < |ts| ensures ts[k] == us[if k < i then k else k + 1] {
    }
    if Whole(ts) {
      forall k | 0 <= k < |us| ensures WholeThing(us[k]) {
        assert k < i ==> us[k] == ts[k];
        assert k > i ==> us[k] == ts[k - 1];
      }
    }
  }

  lemma WholeChange(ts: seq<Thing>, i: nat, d: Delta)
    requires i < |ts| && ts[i].kind == Ether && !d.InsertRange?
    ensures Whole(ts[i := ChangedThing(ts[i], d)]) <==> Whole(ts)
  {
    var us := ts[i := ChangedThing(ts[i], d)];
    assert WholeThing(us[i]) && WholeThing(ts[i]);
    hide WholeThing;
    forall k | 0 <= k < |ts| && k != i ensures us[k] == ts[k] {
    }
  }

  /** While all are whole, a range splits an inserted thing exactly when it starts inside its text. */
  lemma InsideIff(ps: seq<Piece>, ts: seq<Thing>, d: Delta)
    requires Matches(ps, ts) && Sound(ps)
    ensures var (i, offset) := Find(ts, d.position, 0);
      Whole(ts) ==> (StartsInside(Spots(ps), d) <==> i < |ts| && ts[i].kind == Inserted && offset > 0)
  {
    hide *;
    var (i, offset) := Find(ts, d.position, 0);
    FoundSpot(ps, ts, d.position);
    StartsInsideIs(Spots(ps), d);
    if i < |ts| {
      SpotInPiece(ps[i], offset);
      if Whole(ts) {
        WholeAt(ts, i);
      }
    }
  }

  lemma WholeAt(ts: seq<Thing>, i: nat)
    requires Whole(ts) && i < |ts|
    ensures WholeThing(ts[i])
  {
  }

  lemma StartsInsideIs(s: seq<Spot>, d: Delta)
    ensures var i := Index(s, d.position);
      StartsInside(s, d) <==> i < |s| && s[i].New? && s[i].at > 0
  {
  }

  /** The spot of a position is in the thing that the walk finds, at the offset. */
  lemma FoundSpot(ps: seq<Piece>, ts: seq<Thing>, position: nat)
    requires Matches(ps, ts) && Sound(ps)
    ensures |ps| == |ts|
    ensures var (i, offset) := Find(ts, position, 0);
      var s := Spots(ps);
      var k := Index(s, position);
      && (i == |ts| ==> k == |s|)
      && (i < |ts| ==>
            && ps[i].thing == ts[i] && Fits(ps[i]) && offset < ts[i].length
            && k < |s| && offset < |SpotsOf(ps[i])| && s[k] == SpotsOf(ps[i])[offset])
  {
    hide TextOf, Index, SpotsOf, Fits, Spots;
    var (i, offset) := Find(ts, position, 0);
    FindIndex(ps, ts, position, 0);
    assert ps[0..] == ps;
    NoPieces(ps);
    if i < |ts| {
      PieceFits(ps, i);
      SpotsSplit(ps, i);
      PieceAt(ps, i);
      SpotInPiece(ps[i], offset);
    } else {
      assert ps[..i] == ps;
    }
  }

  lemma NoPieces(ps: seq<Piece>)
    ensures |Spots(ps[..0])| == 0
  {
  }

  lemma SpotInPiece(p: Piece, offset: nat)
    requires Fits(p) && offset < p.thing.length
    ensures offset < |SpotsOf(p)|
    ensures p.thing.kind != Inserted ==> !SpotsOf(p)[offset].New?
    ensures p.thing.kind == Inserted ==> SpotsOf(p)[offset].New? && SpotsOf(p)[offset].at == p.from + offset
    ensures p.thing.kind == Inserted && WholeThing(p.thing) ==> p.from == 0
  {
  }

  // ---------- The lengths that the things carry ----------

  function RemovedBy(t: Thing): nat {
    if t.kind == Deleted && t.event.Some? && t.event.value.RemoveRange? then t.event.value.length else 0
  }

  /** The lengths of the events of the deleted things, added up as they are read from the things. */
  function Removed(ts: seq<Thing>): nat {
    if ts == [] then 0 else RemovedBy(ts[0]) + Removed(ts[1..])
  }

  predicate ExactPiece(p: Piece) {
    p.thing.kind == Deleted ==> |p.text| == RemovedBy(p.thing)
  }

  /** Each deleted piece is all that its range removed. */
  predicate Exact(ps: seq<Piece>) {
    forall k :: 0 <= k < |ps| ==> ExactPiece(ps[k])
  }

  lemma {:induction false} GoneOrNot(s: seq<Spot>)
    ensures (forall k :: 0 <= k < |s| ==> s[k].Gone?) ==> GoneCount(s) == |s|
    ensures (forall k :: 0 <= k < |s| ==> !s[k].Gone?) ==> GoneCount(s) == 0
  {
    if s != [] {
      GoneOrNot(s[1..]);
    }
  }

  lemma PieceRemoved(p: Piece)
    requires Fits(p)
    ensures GoneCount(SpotsOf(p)) <= RemovedBy(p.thing)
    ensures GoneCount(SpotsOf(p)) == RemovedBy(p.thing) <==> ExactPiece(p)
  {
    hide GoneCount;
    GoneOrNot(SpotsOf(p));
  }

  /** The lengths that the things carry count what was deleted if and only if no removal is spread over things. */
  lemma {:induction false} RemovedIff(ps: seq<Piece>, ts: seq<Thing>)
    requires Matches(ps, ts) && Sound(ps)
    ensures GoneCount(Spots(ps)) <= Removed(ts)
    ensures GoneCount(Spots(ps)) == Removed(ts) <==> Exact(ps)
  {
    hide GoneCount, SpotsOf, Fits, RemovedBy, ExactPiece, Exact;
    if ps == [] {
      GoneOrNot([]);
      ExactConcat([], []);
      NoneExact();
    } else {
      PieceFits(ps, 0);
      PieceRemoved(ps[0]);
      GoneConcat(SpotsOf(ps[0]), Spots(ps[1..]));
      SoundRest(ps);
      RemovedIff(ps[1..], ts[1..]);
      ExactConcat([ps[0]], ps[1..]);
      ExactOne(ps[0]);
      assert ps == [ps[0]] + ps[1..];
    }
  }

  lemma NoneExact()
    ensures Exact([])
  {
  }

  lemma ExactOne(p: Piece)
    ensures Exact([p]) <==> ExactPiece(p)
  {
    assert [p][0] == p;
  }

  lemma ExactConcat(a: seq<Piece>, b: seq<Piece>)
    ensures Exact(a + b) <==> Exact(a) && Exact(b)
  {
    hide ExactPiece;
    forall k | 0 <= k < |a| ensures (a + b)[k] == a[k] {
    }
    forall k | 0 <= k < |b| ensures (a + b)[|a| + k] == b[k] {
    }
  }

  lemma ExactAround(a: seq<Piece>, p: seq<Piece>, b: seq<Piece>)
    ensures Exact(a + p + b) <==> Exact(a) && Exact(p) && Exact(b)
  {
    hide Exact;
    ExactConcat(a + p, b);
    ExactConcat(a, p);
  }

  lemma ExactSplit(ps: seq<Piece>, i: nat, at: nat)
    requires Sound(ps) && i < |ps| && at < ps[i].thing.length && at <= |ps[i].text|
    ensures var (l, r) := SplitPiece(ps[i], at);
      Exact(InPlace(ps, i, l, r)) <==> Exact(ps)
  {
    hide Exact;
    assert Fits(ps[i]);
    var (l, r) := SplitPiece(ps[i], at);
    assert [l, r] == [l] + [r] && ps == ps[..i] + [ps[i]] + ps[i + 1..];
    ExactAround(ps[..i], [l, r], ps[i + 1..]);
    ExactAround(ps[..i], [ps[i]], ps[i + 1..]);
    ExactConcat([l], [r]);
    ExactOne(l);
    ExactOne(r);
    ExactOne(ps[i]);
  }

  lemma ExactInsert(ps: seq<Piece>, i: nat, p: Piece)
    requires i <= |ps| && p.thing.kind == Inserted
    ensures Exact(ps[..i] + [p] + ps[i..]) <==> Exact(ps)
  {
    hide Exact;
    assert ps == ps[..i] + ps[i..];
    ExactAround(ps[..i], [p], ps[i..]);
    ExactConcat(ps[..i], ps[i..]);
    ExactOne(p);
  }

  lemma ExactChange(ps: seq<Piece>, i: nat, d: Delta)
    requires Sound(ps) && i < |ps| && ps[i].thing.kind == Ether && !d.InsertRange?
    ensures var q := ps[i].(thing := ChangedThing(ps[i].thing, d));
      Exact(ps[i := q]) <==> Exact(ps) && (d.RemoveRange? ==> ps[i].thing.length == d.length)
  {
    hide Exact;
    assert Fits(ps[i]);
    var q := ps[i].(thing := ChangedThing(ps[i].thing, d));
    assert ps == ps[..i] + [ps[i]] + ps[i + 1..] && ps[i := q] == ps[..i] + [q] + ps[i + 1..];
    ExactAround(ps[..i], [q], ps[i + 1..]);
    ExactAround(ps[..i], [ps[i]], ps[i + 1..]);
    ExactOne(q);
    ExactOne(ps[i]);
  }

  /** A removal that starts in an ether thing ends in it as well. */
  predicate OneThing(ts: seq<Thing>, d: Delta) {
    var (i, offset) := Find(ts, d.position, 0);
    d.RemoveRange? && d.length > 0 && i < |ts| && ts[i].kind == Ether ==> offset + d.length <= ts[i].length
  }

  /** How far a range has come: piece i is the next to be changed, and `one` tells whether it was to be the only one. */
  predicate Progress(ps: seq<Piece>, i: nat, remaining: nat, d: Delta, one: bool, exact: bool)
    requires !d.InsertRange?
  {
    if d.AnnotateRange? || d.length == 0 then one && (Exact(ps) <==> exact)
    else if remaining == d.length then
      && (Exact(ps) <==> exact) && i < |ps|
      && (one <==> (ps[i].thing.kind == Ether ==> remaining <= ps[i].thing.length))
    else (Exact(ps) <==> exact && one) && (remaining > 0 ==> !one)
  }

  lemma StartsAt(ts: seq<Thing>, us: seq<Thing>, i: nat, offset: nat)
    requires i < |ts| && offset < ts[i].length && us == SplitThings(ts, offset, i)
    ensures var k := if offset == 0 then i else i + 1;
      k < |us| && us[k].kind == ts[i].kind && us[k].length == ts[i].length - offset
  {
  }

  lemma ProgressStarts(ps: seq<Piece>, ts: seq<Thing>, us: seq<Thing>, d: Delta)
    requires Find(ts, d.position, 0).0 < |ts| && Matches(ps, us) && !d.InsertRange?
    requires var (i, offset) := Find(ts, d.position, 0); us == SplitThings(ts, offset, i)
    ensures var (i, offset) := Find(ts, d.position, 0);
      Progress(ps, if offset == 0 then i else i + 1, d.length, d, OneThing(ts, d), Exact(ps))
  {
    hide Exact, Find, ChangedThing;
    StartsAt(ts, us, Find(ts, d.position, 0).0, Find(ts, d.position, 0).1);
  }

  lemma ProgressChange(
    ps: seq<Piece>, qs: seq<Piece>, i: nat, remaining: nat, length: nat, d: Delta, one: bool, exact: bool)
    requires !d.InsertRange? && Progress(ps, i, remaining, d, one, exact) && remaining <= d.length
    requires i < |ps| && ps[i].thing.kind == Ether && 0 < ps[i].thing.length == length <= remaining
    requires Exact(qs) <==> Exact(ps) && (d.RemoveRange? ==> length == d.length)
    ensures Progress(qs, i + 1, remaining - length, d, one, exact)
  {
    hide Exact;
  }

  lemma ProgressSplit(ps: seq<Piece>, qs: seq<Piece>, i: nat, remaining: nat, d: Delta, one: bool, exact: bool)
    requires !d.InsertRange? && Progress(ps, i, remaining, d, one, exact)
    requires i < |ps| && i < |qs| && ps[i].thing.kind == qs[i].thing.kind == Ether
    requires ps[i].thing.length > remaining == qs[i].thing.length && (Exact(qs) <==> Exact(ps))
    ensures Progress(qs, i, remaining, d, one, exact)
  {
    hide Exact;
  }

  lemma ProgressEnds(ps: seq<Piece>, i: nat, remaining: nat, d: Delta, one: bool, exact: bool)
    requires !d.InsertRange? && Progress(ps, i, remaining, d, one, exact)
    requires remaining == 0 || i == |ps| || (i < |ps| && ps[i].thing.kind != Ether)
    ensures Exact(ps) <==> exact && one
  {
    hide Exact;
  }

  // ---------- The things after a range ----------

  /** The things after an insertion. */
  function InsertedThings(ts: seq<Thing>, d: Delta): seq<Thing>
    requires d.InsertRange?
  {
    var (i, offset) := Find(ts, d.position, 0);
    if i == |ts| then ts + [NewThing(d)]
    else
      var us := SplitThings(ts, offset, i);
      var k := if offset == 0 then i else i + 1;
      us[..k] + [NewThing(d)] + us[k..]
  }

  /** The things from number i on are covered until nothing remains or something is in the way. */
  function CoveredThings(ts: seq<Thing>, i: nat, remaining: nat, d: Delta): (seq<Thing>, bool)
    requires i <= |ts|
    decreases |ts| - i
  {
    if remaining == 0 then (ts, true)
    else if i == |ts| || ts[i].kind != Ether then (ts, false)
    else if ts[i].length <= remaining then
      CoveredThings(ts[i := ChangedThing(ts[i], d)], i + 1, remaining - ts[i].length, d)
    else
      var us := SplitThings(ts, remaining, i);
      (us[i := ChangedThing(us[i], d)], true)
  }

  /** The things after a range, and whether it was accepted. */
  function Added(ts: seq<Thing>, d: Delta): (seq<Thing>, bool) {
    var (i, offset) := Find(ts, d.position, 0);
    if d.InsertRange? then if i == |ts| && offset > 0 then (ts, false) else (InsertedThings(ts, d), true)
    else if i == |ts| then (ts, false)
    else CoveredThings(SplitThings(ts, offset, i), if offset == 0 then i else i + 1, d.length, d)
  }

  lemma AddedInserts(ts: seq<Thing>, d: Delta)
    requires d.InsertRange?
    ensures OneThing(ts, d)
    ensures var (i, offset) := Find(ts, d.position, 0);
      if i == |ts| && offset > 0 then Added(ts, d) == (ts, false)
      else
        var us := SplitThings(ts, offset, i);
        var k := if offset == 0 then i else i + 1;
        k <= |us| && Added(ts, d) == (us[..k] + [NewThing(d)] + us[k..], true)
  {
    hide Find, NewThing;
    assert ts + [NewThing(d)] == ts[..|ts|] + [NewThing(d)] + ts[|ts|..];
  }

  lemma AddedCovers(ts: seq<Thing>, d: Delta)
    requires !d.InsertRange? && Find(ts, d.position, 0).0 < |ts|
    ensures var (i, offset) := Find(ts, d.position, 0);
      var us := SplitThings(ts, offset, i);
      var k := if offset == 0 then i else i + 1;
      k <= |us| && Added(ts, d) == CoveredThings(us, k, d.length, d)
  {
  }

  lemma CoveredNext(ts: seq<Thing>, i: nat, remaining: nat, d: Delta)
    requires i <= |ts|
    ensures remaining == 0 ==> CoveredThings(ts, i, remaining, d) == (ts, true)
    ensures remaining > 0 && (i == |ts| || ts[i].kind != Ether) ==> CoveredThings(ts, i, remaining, d) == (ts, false)
    ensures remaining > 0 && i < |ts| && ts[i].kind == Ether && ts[i].length <= remaining ==>
      CoveredThings(ts, i, remaining, d)
        == CoveredThings(ts[i := ChangedThing(ts[i], d)], i + 1, remaining - ts[i].length, d)
  {
  }

  lemma SplitFirst(ts: seq<Thing>, i: nat, at: nat)
    requires i < |ts| && 0 < at < ts[i].length
    ensures var us := SplitThings(ts, at, i);
      i < |us| && us[i].kind == ts[i].kind && us[i].length == at
  {
  }

  lemma SplitLength(ts: seq<Thing>, i: nat, offset: nat)
    requires i < |ts| && offset < ts[i].length
    ensures SplitThings(ts, offset, i) != [] && (offset == 0 && i == 0 ==> SplitThings(ts, offset, i)[0].length > 0)
  {
  }

  lemma OutsideAdds(ts: seq<Thing>, d: Delta)
    requires !d.InsertRange? && Find(ts, d.position, 0).0 == |ts|
    ensures Added(ts, d) == (ts, false) && OneThing(ts, d)
  {
  }

  /** Covering a part of a thing is splitting it and covering the first part. */
  lemma CoveredSplit(ts: seq<Thing>, i: nat, remaining: nat, d: Delta)
    requires i < |ts| && ts[i].kind == Ether && 0 < remaining < ts[i].length
    ensures CoveredThings(SplitThings(ts, remaining, i), i, remaining, d) == CoveredThings(ts, i, remaining, d)
  {
  }

  /** Every removal of the run lies in one thing, the first range that is refused included. */
  predicate EachInOne(ts: seq<Thing>, ds: seq<Delta>)
    decreases ds
  {
    ds == [] || (OneThing(ts, ds[0]) && (Added(ts, ds[0]).1 ==> EachInOne(Added(ts, ds[0]).0, ds[1..])))
  }

  // ---------- Covering pieces one by one ----------

  /** The first `done` spots of the range have been dealt with: what stands before the loop, and what after. */
  predicate Covered(d: Delta, s: seq<Spot>, start: nat, done: nat, before: seq<Spot>, after: seq<Spot>) {
    && start <= |s| && done <= KeptRun(s[start..])
    && before == s[..start] + Changed(d, s[start..start + done])
    && after == s[start + done..]
  }

  lemma NothingCovered(d: Delta, s: seq<Spot>, start: nat, before: seq<Spot>, after: seq<Spot>)
    requires s == before + after && |before| == start
    ensures Covered(d, s, start, 0, before, after)
  {
    hide KeptRun;
    assert s[start..start] == [] && Changed(d, []) == [];
  }

  lemma {:induction false} KeptRunConcat(a: seq<Spot>, b: seq<Spot>)
    requires forall k :: 0 <= k < |a| ==> a[k].Kept?
    ensures KeptRun(a + b) == |a| + KeptRun(b)
  {
    if a == [] {
      assert a + b == b;
    } else {
      assert (a + b)[1..] == a[1..] + b;
      KeptRunConcat(a[1..], b);
    }
  }

  lemma {:induction false} KeptRunKept(s: seq<Spot>, n: nat)
    requires n <= KeptRun(s)
    ensures forall k :: 0 <= k < n ==> s[k].Kept?
    ensures KeptRun(s[n..]) == KeptRun(s) - n
  {
    if n == 0 {
      assert s[n..] == s;
    } else {
      KeptRunKept(s[1..], n - 1);
      assert s[1..][n - 1..] == s[n..];
      assert forall k :: 0 < k < n ==> s[k] == s[1..][k - 1];
    }
  }

  lemma CoverMore(
    d: Delta, s: seq<Spot>, start: nat, done: nat, before: seq<Spot>, spots: seq<Spot>, after: seq<Spot>)
    requires Covered(d, s, start, done, before, spots + after) && forall k :: 0 <= k < |spots| ==> spots[k].Kept?
    ensures Covered(d, s, start, done + |spots|, before + Changed(d, spots), after)
  {
    hide Changed;
    LongerRun(s[start..], done, spots, after);
    ChangedConcat(d, s[start..start + done], spots);
    assert s[start..][done..] == s[start + done..];
    hide KeptRun;
    assert s[start..start + done + |spots|] == s[start..start + done] + spots;
    assert s[start + (done + |spots|)..] == after;
  }

  lemma LongerRun(s: seq<Spot>, done: nat, spots: seq<Spot>, after: seq<Spot>)
    requires done <= KeptRun(s) && s[done..] == spots + after && forall k :: 0 <= k < |spots| ==> spots[k].Kept?
    ensures done + |spots| <= KeptRun(s)
  {
    KeptRunKept(s, done);
    KeptRunConcat(spots, after);
  }

  lemma ChangedConcat(d: Delta, a: seq<Spot>, b: seq<Spot>)
    ensures Changed(d, a + b) == Changed(d, a) + Changed(d, b)
  {
  }

  /** The range ends here, or something is in its way. */
  lemma CoveredAll(d: Delta, s: seq<Spot>, start: nat, done: nat, before: seq<Spot>, after: seq<Spot>)
    requires Covered(d, s, start, done, before, after) && !d.InsertRange? && done <= d.length
    requires start == Index(s, d.position) && d.position < |TextOf(s)|
    requires done == d.length || KeptRun(after) == 0
    ensures before + after == Edited(s, d) && (Accepts(s, d) <==> done == d.length)
  {
    hide Index, TextOf, Changed, KeptRun, Edited;
    EditedIs(s, d);
    KeptRunKept(s[start..], done);
    assert s[start..][done..] == s[start + done..];
  }

  lemma InTheWay(ps: seq<Piece>, i: nat)
    requires i <= |ps| && Sound(ps) && (i == |ps| || ps[i].thing.kind != Ether)
    ensures KeptRun(Spots(ps[i..])) == 0
  {
    if i < |ps| {
      PieceAt(ps, i);
      assert Fits(ps[i]);
      assert SpotsOf(ps[i]) != [] && !SpotsOf(ps[i])[0].Kept?;
    }
  }

  lemma EtherIsKept(p: Piece)
    requires Fits(p) && p.thing.kind == Ether
    ensures |SpotsOf(p)| == p.thing.length && forall k :: 0 <= k < |SpotsOf(p)| ==> SpotsOf(p)[k].Kept?
  {
  }

  lemma SameRest<T>(a: seq<T>, b: seq<T>, c: seq<T>)
    requires a + b == a + c
    ensures b == c
  {
    assert (a + b)[|a|..] == b && (a + c)[|a|..] == c;
  }

  lemma StartSpots(text: string)
    ensures TextOf(KeptSpots(text, None)) == Marked(text, None) && OriginalOf(KeptSpots(text, None)) == text
  {
    var s := KeptSpots(text, None);
    if text != "" {
      StartSpots(text[1..]);
      assert s[1..] == KeptSpots(text[1..], None);
    }
  }

  // ---------- The builder ----------

  class Builder {
    var things: seq<Thing>
    ghost var pieces: seq<Piece>

    ghost predicate Valid()
      reads this
    {
      Matches(pieces, things) && Sound(pieces)
    }

    /** The text with its tombstones, which the things stand for. */
    ghost function State(): seq<Spot>
      reads this
    {
      Spots(pieces)
    }

    /** The text as the deltas have made it. */
    ghost function Text(): seq<Cell>
      reads this
    {
      TextOf(State())
    }

    /** The text the builder started from. */
    ghost function Original(): string
      reads this
    {
      OriginalOf(State())
    }

    /** The characters that the deltas have inserted. */
    ghost function InsertedText(): string
      reads this
    {
      InsertedOf(State())
    }

    /** How many characters the deltas have deleted. */
    ghost function RemovedCount(): nat
      reads this
    {
      GoneCount(State())
    }

    constructor (text: string)
      ensures Valid() && State() == KeptSpots(text, None) && things == [Thing(Ether, None, |text|, None)]
      ensures Text() == Marked(text, None) && Original() == text
      ensures Whole(things) && Removed(things) == RemovedCount()
    {
      things := [Thing(Ether, None, |text|, None)];
      pieces := [Piece(Thing(Ether, None, |text|, None), text, 0)];
      new;
      OnePiece(pieces[0]);
      StartSpots(text);
      RemovedIff(pieces, things);
    }

    /** Splits a thing unless the position is its start; returns the thing that starts at the position. */
    method SplitAt(position: nat, offset: nat) returns (i: nat)
      requires Valid() && offset <= |things|
      requires position > 0 ==> offset < |things| && position < things[offset].length
      modifies this
      ensures Valid() && State() == old(State())
      ensures i <= |things| && |Spots(pieces[..i])| == |Spots(old(pieces)[..offset])| + position
      ensures things == SplitThings(old(things), position, offset) && i == if position == 0 then offset else offset + 1
      ensures position == 0 ==> pieces == old(pieces)
      ensures pieces[..offset] == old(pieces)[..offset]
      ensures Whole(things) <==>
        old(Whole(things)) && !(position > 0 && old(things)[offset].kind == Inserted)
      ensures Exact(pieces) <==> old(Exact(pieces))
    {
      hide Spots, Fits, SpotsOf, Sound, Whole, Exact;
      if position == 0 {
        return offset;
      }
      var currentThing := things[offset];
      var newThing := currentThing.(length := currentThing.length - position);
      PieceFits(pieces, offset);
      SplitKeeps(pieces[offset], position);
      WholeSplit(pieces, things, position, offset);
      ghost var parts := SplitPiece(pieces[offset], position);
      ExactSplit(pieces, offset, position);
      SplitInPlace(pieces, offset, parts.0, parts.1);
      InPlaceSound(pieces, offset, parts.0, parts.1);
      pieces := InPlace(pieces, offset, parts.0, parts.1);
      things := things[offset := currentThing.(length := position)];
      things := things[..offset + 1] + [newThing] + things[offset + 1..];
      assert things == old(things)[..offset] + [parts.0.thing, parts.1.thing] + old(things)[offset + 1..];
      i := offset + 1;
    }

    /** The walk over the things, to the one in which the position lies. */
    method Locate(position: nat) returns (i: nat, offset: nat)
      ensures (i, offset) == Find(things, position, 0)
    {
      i, offset := 0, position;
      while i < |things| && offset >= things[i].length
        invariant i <= |things| && Find(things, position, 0) == Find(things, offset, i)
      {
        offset := offset - things[i].length;
        i := i + 1;
      }
    }

    /** The position in the things is the position in the text. */
    lemma Located(position: nat)
      requires Valid()
      ensures var (i, offset) := Find(things, position, 0);
        && Index(State(), position) == |Spots(pieces[..i])| + (if i < |things| then offset else 0)
        && (i < |things| <==> position < |Text()|) && (i == |things| ==> position == |Text()| + offset)
    {
      hide Fits, Sound, TextOf, Index, SpotsOf;
      FindIndex(pieces, things, position, 0);
      assert pieces[0..] == pieces && pieces[..0] == [];
    }

    method Insert(range: Delta) returns (ok: bool)
      requires Valid() && range.InsertRange?
      modifies this
      ensures Valid() && ok == Accepts(old(State()), range) && State() == Edited(old(State()), range)
      ensures (things, ok) == Added(old(things), range)
      ensures Whole(things) <==> old(Whole(things)) && !StartsInside(old(State()), range)
      ensures Exact(pieces) <==> old(Exact(pieces)) && OneThing(old(things), range)
    {
      hide Spots, SpotsOf, Fits, Find, TextOf, Index, Sound, NewSpots, NewThing, SplitThings, Whole, StartsInside;
      hide Exact, Added, OneThing;
      AddedInserts(things, range);
      Located(range.position);
      InsideIff(pieces, things, range);
      var i, offset := Locate(range.position);
      if i == |things| && offset > 0 {
        return false;
      }
      i := SplitAt(offset, i);
      var thing := NewThing(range);
      ghost var piece := Piece(thing, range.text, 0);
      NewPiece(range);
      WholeInsert(things, i, range);
      FirstNotEmpty(old(things), range.position);
      InsertPiece(pieces, i, piece, range);
      InsertSound(pieces, i, piece);
      ExactInsert(pieces, i, piece);
      things := things[..i] + [thing] + things[i..];
      pieces := pieces[..i] + [piece] + pieces[i..];
      ok := true;
    }

    /** Deletes or annotates one ether thing. */
    method Change(i: nat, range: Delta)
      requires Valid() && i < |things| && things[i].kind == Ether && !range.InsertRange?
      requires 0 < things[i].length <= range.length
      modifies this
      ensures Valid() && things == old(things)[i := ChangedThing(old(things)[i], range)]
      ensures Exact(pieces) <==>
        old(Exact(pieces)) && (range.RemoveRange? ==> old(things)[i].length == range.length)
      ensures Whole(things) <==> old(Whole(things))
      ensures Spots(pieces[..i + 1]) == Spots(old(pieces)[..i]) + Changed(range, SpotsOf(old(pieces)[i]))
      ensures Spots(pieces[i + 1..]) == Spots(old(pieces)[i + 1..])
    {
      hide Spots, SpotsOf, Fits, Changed, ChangedThing, Sound, Whole, Exact;
      WholeChange(things, i, range);
      var thing := ChangedThing(things[i], range);
      ghost var piece := pieces[i].(thing := thing);
      PieceFits(pieces, i);
      ChangedPiece(pieces[i], range);
      ChangeInPlace(pieces, i, piece);
      ChangeSound(pieces, i, piece);
      ExactChange(pieces, i, range);
      pieces := pieces[i := piece];
      things := things[i := thing];
    }

    /** Splits so that a thing starts at the position of the range; false when the position is behind the text. */
    method Begin(range: Delta) returns (found: bool, i: nat)
      requires Valid() && !range.InsertRange?
      modifies this
      ensures Valid() && State() == old(State()) && (found <==> range.position < |Text()|)
      ensures !found ==> things == old(things) && pieces == old(pieces)
      ensures i <= |things| && (found ==> |Spots(pieces[..i])| == Index(State(), range.position))
      ensures found && i == 0 ==> i < |things| && things[0].length > 0
      ensures
        Added(old(things), range) == if found then CoveredThings(things, i, range.length, range) else (things, false)
      ensures Whole(things) <==> old(Whole(things)) && !StartsInside(State(), range)
      ensures
        if found then Progress(pieces, i, range.length, range, OneThing(old(things), range), old(Exact(pieces)))
        else OneThing(things, range)
    {
      hide Spots, SpotsOf, Fits, Find, TextOf, Index, Sound, Whole, StartsInside;
      hide Exact, OneThing, Progress, SplitThings, Added, CoveredThings;
      InsideIff(pieces, things, range);
      Located(range.position);
      var offset;
      i, offset := Locate(range.position);
      if i == |things| {
        OutsideAdds(things, range);
        return false, i;
      }
      AddedCovers(things, range);
      SplitLength(things, i, offset);
      i := SplitAt(offset, i);
      ProgressStarts(pieces, old(things), things, range);
      found := true;
    }

    /** Removes or annotates, thing by thing; false when something other than ether is met. */
    method Cover(range: Delta) returns (ok: bool)
      requires Valid() && !range.InsertRange?
      modifies this
      ensures Valid() && ok == Accepts(old(State()), range) && State() == Edited(old(State()), range)
      ensures (things, ok) == Added(old(things), range)
      ensures Whole(things) <==> old(Whole(things)) && !StartsInside(old(State()), range)
      ensures Exact(pieces) <==> old(Exact(pieces)) && OneThing(old(things), range)
    {
      hide Spots, SpotsOf, Fits, Find, TextOf, Index, Sound, Covered, Changed, KeptRun, Whole, StartsInside;
      hide Exact, OneThing, Progress, SplitThings, ChangedThing, Added, CoveredThings, Accepts, Edited;
      ghost var was, one := State(), OneThing(things, range);
      var found, i := Begin(range);
      if !found {
        OutsideIsRefused(was, range);
        return false;
      }
      ghost var start := |Spots(pieces[..i])|;
      SpotsSplit(pieces, i);
      NothingCovered(range, was, start, Spots(pieces[..i]), Spots(pieces[i..]));
      var remaining: nat := range.length;
      ghost var split := false;
      while remaining > 0
        invariant i <= |things| && Valid() && (i == 0 ==> i < |things| && things[0].length > 0)
        invariant remaining <= range.length
        invariant Covered(range, was, start, range.length - remaining, Spots(pieces[..i]), Spots(pieces[i..]))
        invariant split && remaining > 0 ==> i < |things| && things[i].length == remaining
        invariant Whole(things) <==> old(Whole(things)) && !StartsInside(was, range)
        invariant Progress(pieces, i, remaining, range, one, old(Exact(pieces)))
        invariant CoveredThings(things, i, remaining, range) == Added(old(things), range)
        decreases remaining, if split then 0 else 1
      {
        CoveredNext(things, i, remaining, range);
        if i == |things| || things[i].kind != Ether {
          ProgressEnds(pieces, i, remaining, range, one, old(Exact(pieces)));
          SpotsSplit(pieces, i);
          InTheWay(pieces, i);
          CoveredAll(range, was, start, range.length - remaining, Spots(pieces[..i]), Spots(pieces[i..]));
          return false;
        }
        EtherLength(pieces, i);
        if things[i].length <= remaining {
          var length := things[i].length;
          PieceAt(pieces, i);
          CoverMore(range, was, start, range.length - remaining,
                    Spots(pieces[..i]), SpotsOf(pieces[i]), Spots(pieces[i + 1..]));
          ghost var before := pieces;
          Change(i, range);
          ProgressChange(before, pieces, i, remaining, length, range, one, old(Exact(pieces)));
          remaining := remaining - length;
          i := i + 1;
        } else {
          ghost var before := pieces;
          SpotsSplit(before, i);
          CoveredSplit(things, i, remaining, range);
          SplitFirst(things, i, remaining);
          var next := SplitAt(remaining, i);
          ProgressSplit(before, pieces, i, remaining, range, one, old(Exact(pieces)));
          SpotsSplit(pieces, i);
          SameRest(Spots(before[..i]), Spots(before[i..]), Spots(pieces[i..]));
          split := true;
        }
      }
      SpotsSplit(pieces, i);
      CoveredAll(range, was, start, range.length, Spots(pieces[..i]), Spots(pieces[i..]));
      ProgressEnds(pieces, i, remaining, range, one, old(Exact(pieces)));
      CoveredNext(things, i, remaining, range);
      ok := true;
    }

    /**
     * Accepted if and only if the text with tombstones accepts the range, which then shows the edited text; a
     * refused range leaves behind what was done of it.
     */
    method AddRange(range: Delta) returns (ok: bool)
      requires Valid()
      modifies this
      ensures Valid() && ok == Accepts(old(State()), range) && State() == Edited(old(State()), range)
      ensures Original() == old(Original())
      ensures ok ==> SplicedAll(old(Text()), [range]) == Some(Text())
      ensures (things, ok) == Added(old(things), range)
      ensures Whole(things) <==> old(Whole(things)) && !StartsInside(old(State()), range)
      ensures Exact(pieces) <==> old(Exact(pieces)) && OneThing(old(things), range)
    {
      hide Accepts, Edited, Spliced, TextOf, OriginalOf, Spots, Whole, StartsInside, Added, Exact, OneThing;
      EditShows(State(), range);
      if range.InsertRange? {
        ok := Insert(range);
      } else {
        ok := Cover(range);
      }
      if ok {
        assert [range][1..] == [];
      }
    }

    /** True if and only if every range is accepted; the pieces then show the text with the same edits made directly. */
    method AddSequencedDelta(ranges: seq<Delta>) returns (ok: bool)
      requires Valid()
      modifies this
      ensures Valid() && ok == AcceptsAll(old(State()), ranges) && State() == EditedAll(old(State()), ranges)
      ensures Original() == old(Original())
      ensures ok ==> SplicedAll(old(Text()), ranges) == Some(Text())
      ensures Whole(things) <==> old(Whole(things)) && NoneInside(old(State()), ranges)
      ensures old(Whole(things)) ==> (Carried(things) == InsertedText() <==> NoneInside(old(State()), ranges))
      ensures Removed(things) == RemovedCount() <==>
        old(Removed(things) == RemovedCount()) && EachInOne(old(things), ranges)
    {
      hide Accepts, Edited, SplicedAll, TextOf, OriginalOf, InsertedOf, Spots, Sound, Whole, StartsInside, Carried;
      hide Added, Exact, OneThing, Removed, GoneCount;
      RemovedIff(pieces, things);
      RunShowsEdits(State(), ranges);
      ok := true;
      assert ranges[0..] == ranges;
      for k := 0 to |ranges|
        invariant Valid()
        invariant AcceptsAll(old(State()), ranges) == AcceptsAll(State(), ranges[k..])
        invariant EditedAll(old(State()), ranges) == EditedAll(State(), ranges[k..])
        invariant Whole(things) && NoneInside(State(), ranges[k..])
          <==> old(Whole(things)) && NoneInside(old(State()), ranges)
        invariant Exact(pieces) && EachInOne(things, ranges[k..])
          <==> old(Exact(pieces)) && EachInOne(old(things), ranges)
      {
        assert ranges[k..][1..] == ranges[k + 1..];
        var added := AddRange(ranges[k]);
        if !added {
          CarriedIff(pieces, things);
          RemovedIff(pieces, things);
          return false;
        }
      }
      CarriedIff(pieces, things);
      RemovedIff(pieces, things);
    }
  }

  lemma FirstNotEmpty(ts: seq<Thing>, position: nat)
    ensures var (i, offset) := Find(ts, position, 0); i < |ts| ==> offset < ts[i].length
  {
  }

  lemma PieceFits(ps: seq<Piece>, i: nat)
    requires Sound(ps) && i < |ps|
    ensures Fits(ps[i])
  {
  }

  lemma EtherLength(ps: seq<Piece>, i: nat)
    requires Sound(ps) && i < |ps| && ps[i].thing.kind == Ether
    ensures i > 0 ==> ps[i].thing.length > 0
    ensures |SpotsOf(ps[i])| == ps[i].thing.length && forall k :: 0 <= k < |SpotsOf(ps[i])| ==> SpotsOf(ps[i])[k].Kept?
  {
    EtherIsKept(ps[i]);
  }

  lemma OutsideIsRefused(s: seq<Spot>, d: Delta)
    requires !d.InsertRange? && d.position >= |TextOf(s)|
    ensures !Accepts(s, d) && Edited(s, d) == s
  {
    hide TextOf, Index;
    IndexBehind(s, d.position);
    assert s[|s|..] == [] && Changed(d, []) == [];
  }

  /**
   * With xy inserted and z inserted between its characters, the text is xzy, but both parts of the split thing carry
   * xy, so the things carry xyzxy.
   */
  method InsertInside() returns (carried: string, ghost text: seq<Cell>)
    ensures carried == "xyzxy" && text == Marked("xzy", None)
  {
    var builder := new Builder("");
    var xy, z := InsertRange(0, "xy"), InsertRange(1, "z");
    InsideThings(xy, z);
    InsideText(xy, z);
    var ok := builder.AddRange(xy);
    ok := builder.AddRange(z);
    carried := Carried(builder.things);
    text := builder.Text();
  }

  lemma InsideThings(xy: Delta, z: Delta)
    requires xy == InsertRange(0, "xy") && z == InsertRange(1, "z")
    ensures var (ts, ok) := Added([EtherOf(0)], xy);
      ok && Added(ts, z).1 && Carried(Added(ts, z).0) == "xyzxy"
  {
    hide Added, InsertedThings, Carried;
    var ether := EtherOf(0);
    var whole := [ether, NewThing(xy)];
    assert Find([ether], 0, 0) == Find([ether], 0, 1) == (1, 0);
    AddedInserts([ether], xy);
    assert Added([ether], xy).0 == whole && Added([ether], xy).1;
    assert Find(whole, 1, 0) == Find(whole, 1, 1) == (1, 1);
    var part := NewThing(xy).(length := 1);
    assert SplitThings(whole, 1, 1) == [ether, part, part];
    AddedInserts(whole, z);
    assert Added(whole, z).0 == [ether, part, NewThing(z), part] && Added(whole, z).1;
    CarriedFour(ether, part, NewThing(z), part);
  }

  lemma CarriedFour(a: Thing, b: Thing, c: Thing, d: Thing)
    ensures Carried([a, b, c, d]) == CarriedBy(a) + CarriedBy(b) + CarriedBy(c) + CarriedBy(d)
  {
    hide CarriedBy;
    CarriedFirst(d, []);
    CarriedFirst(c, [d]);
    CarriedFirst(b, [c, d]);
    CarriedFirst(a, [b, c, d]);
    assert [a] + [b, c, d] == [a, b, c, d] && [b] + [c, d] == [b, c, d] && [c] + [d] == [c, d] && [d] + [] == [d];
  }

  lemma CarriedFirst(t: Thing, ts: seq<Thing>)
    ensures Carried([t] + ts) == CarriedBy(t) + Carried(ts) && Carried([]) == ""
  {
    hide CarriedBy;
    assert ([t] + ts)[1..] == ts;
  }

  lemma InsideText(xy: Delta, z: Delta)
    requires xy == InsertRange(0, "xy") && z == InsertRange(1, "z")
    ensures SplicedAll(Marked("", None), [xy]) == Some(Marked("xy", None))
    ensures SplicedAll(Marked("xy", None), [z]) == Some(Marked("xzy", None))
  {
    assert [xy][1..] == [] == [z][1..];
    assert Spliced(Marked("", None), xy) == Marked("xy", None);
    assert Spliced(Marked("xy", None), z) == Marked("xzy", None);
  }

  /** With c removed from abcdef, the adjacent b and d can no longer be removed in one range. */
  method RemoveAcrossGap() returns (first: bool, second: bool)
    ensures first && !second
  {
    var builder := new Builder("abcdef");
    var c, bd := RemoveRange(2, 1), RemoveRange(1, 2);
    GapThings(c, bd);
    first := builder.AddRange(c);
    second := builder.AddRange(bd);
  }

  function EtherOf(length: nat): Thing {
    Thing(Ether, None, length, None)
  }

  lemma GapThings(c: Delta, bd: Delta)
    requires c == RemoveRange(2, 1) && bd == RemoveRange(1, 2)
    ensures var (ts, ok) := Added([EtherOf(6)], c);
      ok && !Added(ts, bd).1
  {
    hide Added, CoveredThings, SplitThings, Find;
    var whole := [EtherOf(6)];
    FindFirst(whole, 2);
    AddedCovers(whole, c);
    SplitIs(whole, 2, 0);
    assert SplitThings(whole, 2, 0) == [EtherOf(2), EtherOf(4)];
    CoveredPart([EtherOf(2), EtherOf(4)], 1, 1, c);
    var gone := ChangedThing(EtherOf(1), c);
    var ts := [EtherOf(2), gone, EtherOf(3)];
    assert Added(whole, c).0 == ts && Added(whole, c).1;
    FindFirst(ts, 1);
    AddedCovers(ts, bd);
    SplitIs(ts, 1, 0);
    var us := [EtherOf(1), EtherOf(1), gone, EtherOf(3)];
    assert SplitThings(ts, 1, 0) == us;
    CoveredNext(us, 1, 2, bd);
    CoveredNext(us[1 := ChangedThing(us[1], bd)], 2, 1, bd);
  }

  lemma FindFirst(ts: seq<Thing>, position: nat)
    requires ts != [] && position < ts[0].length
    ensures Find(ts, position, 0) == (0, position)
  {
  }

  lemma SplitIs(ts: seq<Thing>, at: nat, i: nat)
    requires i < |ts| && 0 < at <= ts[i].length
    ensures SplitThings(ts, at, i)
      == ts[..i] + [ts[i].(length := at), ts[i].(length := ts[i].length - at)] + ts[i + 1..]
  {
  }

  lemma CoveredPart(ts: seq<Thing>, i: nat, remaining: nat, d: Delta)
    requires i < |ts| && ts[i].kind == Ether && 0 < remaining < ts[i].length
    ensures var (us, ok) := CoveredThings(ts, i, remaining, d);
      var first, second := ts[i].(length := remaining), ts[i].(length := ts[i].length - remaining);
      ok && us == ts[..i] + [ChangedThing(first, d), second] + ts[i + 1..]
  {
    hide ChangedThing;
  }

  /**
   * With ab annotated in abcd, bc lies in two things. Removed in one range, each of the two carries the length of the
   * whole range, so the things carry 4 where two characters are gone.
   */
  method RemoveAcrossMark() returns (removed: nat, ghost text: seq<Cell>)
    ensures removed == 4 && text == [Cell('a', Some(1)), Cell('d', None)]
  {
    var builder := new Builder("abcd");
    var ab, bc := AnnotateRange(0, 2, 1), RemoveRange(1, 2);
    MarkThings(ab, bc);
    MarkText(ab, bc);
    var ok := builder.AddRange(ab);
    ok := builder.AddRange(bc);
    removed := Removed(builder.things);
    text := builder.Text();
  }

  lemma MarkThings(ab: Delta, bc: Delta)
    requires ab == AnnotateRange(0, 2, 1) && bc == RemoveRange(1, 2)
    ensures var (ts, ok) := Added([EtherOf(4)], ab);
      ok && Added(ts, bc).1 && Removed(Added(ts, bc).0) == 4
  {
    hide Added, CoveredThings, SplitThings, Find, Removed;
    var whole := [EtherOf(4)];
    FindFirst(whole, 0);
    AddedCovers(whole, ab);
    NoSplit(whole, 0);
    CoveredPart(whole, 0, 2, ab);
    var ts := [ChangedThing(EtherOf(2), ab), EtherOf(2)];
    assert Added(whole, ab).0 == ts && Added(whole, ab).1;
    FindFirst(ts, 1);
    AddedCovers(ts, bc);
    SplitIs(ts, 1, 0);
    var mark := ChangedThing(EtherOf(1), ab);
    var us := [mark, mark, EtherOf(2)];
    assert SplitThings(ts, 1, 0) == us;
    CoveredNext(us, 1, 2, bc);
    var b, c := ChangedThing(mark, bc), ChangedThing(EtherOf(1), bc);
    assert us[1 := b] == [mark, b, EtherOf(2)];
    CoveredPart([mark, b, EtherOf(2)], 2, 1, bc);
    assert Added(ts, bc).0 == [mark, b, c, EtherOf(1)] && Added(ts, bc).1;
    RemovedFour(mark, b, c, EtherOf(1));
  }

  lemma NoSplit(ts: seq<Thing>, i: nat)
    ensures SplitThings(ts, 0, i) == ts
  {
  }

  lemma RemovedFour(a: Thing, b: Thing, c: Thing, d: Thing)
    ensures Removed([a, b, c, d]) == RemovedBy(a) + RemovedBy(b) + RemovedBy(c) + RemovedBy(d)
  {
    hide RemovedBy;
    assert [a, b, c, d][1..] == [b, c, d] && [b, c, d][1..] == [c, d] && [c, d][1..] == [d] && [d][1..] == [];
    assert Removed([d]) == RemovedBy(d) + Removed([]);
    assert Removed([c, d]) == RemovedBy(c) + Removed([d]);
  }

  lemma MarkText(ab: Delta, bc: Delta)
    requires ab == AnnotateRange(0, 2, 1) && bc == RemoveRange(1, 2)
    ensures
      var cells := Marked("ab", Some(1)) + Marked("cd", None);
      && SplicedAll(Marked("abcd", None), [ab]) == Some(cells)
      && SplicedAll(cells, [bc]) == Some([Cell('a', Some(1)), Cell('d', None)])
  {
    var cells := Marked("ab", Some(1)) + Marked("cd", None);
    assert [ab][1..] == [] == [bc][1..];
    assert Spliced(Marked("abcd", None), ab) == cells;
    assert Spliced(cells, bc) == [Cell('a', Some(1)), Cell('d', None)];
  }
}
