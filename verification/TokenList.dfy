/**
 * Space-separated token lists, and the search that skips from space to space
 * (examples/data-objects/flow-util-lib/src/tokenlist.ts).
 */
module TokenList {
  import opened Options

  // ---------- Substring search, as String.prototype.indexOf has it ----------

  predicate OccursAt(s: string, t: string, p: nat) {
    p + |t| <= |s| && s[p..p + |t|] == t
  }

  /** The first occurrence at or after `from`; None stands for -1. */
  function IndexOf(s: string, t: string, from: nat): (r: Option<nat>)
    ensures r.Some? ==>
      && from <= r.value <= |s| && OccursAt(s, t, r.value)
      && forall p :: from <= p < r.value ==> !OccursAt(s, t, p)
    ensures r.None? && from <= |s| ==> forall p :: from <= p ==> !OccursAt(s, t, p)
    decreases if from <= |s| then |s| - from + 1 else 0
  {
    if from > |s| then None
    else if OccursAt(s, t, from) then Some(from)
    else IndexOf(s, t, from + 1)
  }

  // ---------- The search ----------

  /** The token stands at p with a space or an end of the list on either side. */
  predicate Bounded(s: string, t: string, p: nat) {
    && OccursAt(s, t, p)
    && (p == 0 || s[p - 1] == ' ')
    && (p + |t| == |s| || s[p + |t|] == ' ')
  }

  /** The first such position at or after p. */
  function FirstBounded(s: string, t: string, p: nat): (r: Option<nat>)
    ensures r.Some? ==>
      && p <= r.value < |s| && Bounded(s, t, r.value)
      && forall q :: p <= q < r.value ==> !Bounded(s, t, q)
    ensures r.None? ==> forall q :: p <= q < |s| ==> !Bounded(s, t, q)
    decreases |s| - p
  {
    if p >= |s| then None
    else if Bounded(s, t, p) then Some(p)
    else FirstBounded(s, t, p + 1)
  }

  datatype Span = Span(start: nat, end: nat)

  /** Every position that the loop skips is one where the token does not stand between spaces. */
  method FindToken(tokenList: string, token: string) returns (r: Option<Span>)
    ensures r == match FirstBounded(tokenList, token, 0)
                 case None => None
                 case Some(p) => Some(Span(p, p + |token|))
  {
    hide OccursAt, Bounded;
    if tokenList == "" {
      return None;
    }
    var start := 0;
    while true
      invariant start < |tokenList|
      invariant forall q :: 0 <= q < start ==> !Bounded(tokenList, token, q)
      decreases |tokenList| - start
    {
      var at := IndexOf(tokenList, token, start);
      NotBefore(tokenList, token, start, if at.Some? then at.value else |tokenList|);
      if at.None? {
        return None;
      }
      EmptyOccurs(tokenList, token, start);
      start := at.value;
      Within(tokenList, token, start);
      if start == 0 || tokenList[start - 1] == ' ' {
        var end := start + |token|;
        if end == |tokenList| || tokenList[end] == ' ' {
          return Some(Span(start, end));
        }
      }
      var space := IndexOf(tokenList, " ", start + 1);
      NoneAfter(tokenList, token, start, if space.Some? then space.value else |tokenList|);
      if space.None? {
        return None;
      }
      Within(tokenList, " ", space.value);
      start := space.value;
    }
  }

  lemma Within(s: string, t: string, p: nat)
    requires OccursAt(s, t, p)
    ensures p + |t| <= |s|
    ensures Bounded(s, t, p) <==> (p == 0 || s[p - 1] == ' ') && (p + |t| == |s| || s[p + |t|] == ' ')
  {
  }

  lemma EmptyOccurs(s: string, t: string, p: nat)
    requires p <= |s|
    ensures |t| == 0 ==> OccursAt(s, t, p)
  {
  }

  lemma NotBefore(s: string, t: string, from: nat, p: nat)
    requires forall q :: from <= q < p ==> !OccursAt(s, t, q)
    ensures forall q :: from <= q < p ==> !Bounded(s, t, q)
  {
  }

  /** Between a position that is not bounded and the next space, no token can start. */
  lemma NoneAfter(s: string, t: string, p: nat, q: nat)
    requires p < |s| && q <= |s| && !Bounded(s, t, p) && OccursAt(s, t, p)
    requires forall k :: p + 1 <= k < q ==> !OccursAt(s, " ", k)
    ensures forall k :: p <= k < q ==> !Bounded(s, t, k)
  {
    forall k | p < k < q ensures s[k] != ' ' {
      assert !OccursAt(s, " ", k);
      assert s[k..k + 1] == [s[k]];
    }
    if |t| > 0 {
      assert t[0] == s[p..p + |t|][0];
    }
    forall k | p < k < q && OccursAt(s, t, k) && |t| > 0 ensures t[0] == s[k] {
      assert t[0] == s[k..k + |t|][0];
    }
  }

  // ---------- Splitting on spaces ----------

  /** The length of the first piece. */
  function PieceEnd(s: string): (n: nat)
    ensures n <= |s| && (n < |s| ==> s[n] == ' ') && forall i :: 0 <= i < n ==> s[i] != ' '
  {
    if s == "" || s[0] == ' ' then 0 else PieceEnd(s[1..]) + 1
  }

  function Split(s: string): (r: seq<string>)
    ensures r != []
    decreases |s|
  {
    var n := PieceEnd(s);
    if n == |s| then [s] else [s[..n]] + Split(s[n + 1..])
  }

  function Join(pieces: seq<string>): string
    requires pieces != []
  {
    if |pieces| == 1 then pieces[0] else pieces[0] + " " + Join(pieces[1..])
  }

  predicate SpaceFree(t: string) {
    forall i :: 0 <= i < |t| ==> t[i] != ' '
  }

  predicate IsToken(t: string) {
    t != "" && SpaceFree(t)
  }

  lemma {:induction false} SplitJoins(s: string)
    ensures Join(Split(s)) == s && forall k :: 0 <= k < |Split(s)| ==> SpaceFree(Split(s)[k])
    decreases |s|
  {
    var n := PieceEnd(s);
    if n < |s| {
      SplitJoins(s[n + 1..]);
      assert s == s[..n] + " " + s[n + 1..];
      assert Split(s)[1..] == Split(s[n + 1..]);
    }
  }

  lemma {:induction false} JoinSplits(pieces: seq<string>)
    requires pieces != [] && forall k :: 0 <= k < |pieces| ==> SpaceFree(pieces[k])
    ensures Split(Join(pieces)) == pieces
  {
    if |pieces| > 1 {
      JoinSplits(pieces[1..]);
      SplitAfter(pieces[0], Join(pieces[1..]));
      assert pieces == [pieces[0]] + pieces[1..];
    } else {
      assert PieceEnd(pieces[0]) == |pieces[0]|;
    }
  }

  lemma SplitAfter(a: string, rest: string)
    requires SpaceFree(a)
    ensures Split(a + " " + rest) == [a] + Split(rest)
  {
    hide Split;
    var s := a + " " + rest;
    assert s[|a|] == ' ' && forall i :: 0 <= i < |a| ==> s[i] == a[i];
    assert PieceEnd(s) == |a|;
    assert s[..|a|] == a && s[|a| + 1..] == rest;
    SplitIs(s);
  }

  lemma SplitIs(s: string)
    requires PieceEnd(s) < |s|
    ensures Split(s) == [s[..PieceEnd(s)]] + Split(s[PieceEnd(s) + 1..])
  {
    hide PieceEnd;
  }

  /** Where piece k starts. */
  function PieceStart(pieces: seq<string>, k: nat): nat
    requires k < |pieces|
  {
    if k == 0 then 0 else |pieces[0]| + 1 + PieceStart(pieces[1..], k - 1)
  }

  /** The first piece that is the token. */
  function FirstPiece(pieces: seq<string>, t: string): (r: Option<nat>)
    ensures r.Some? ==> r.value < |pieces| && pieces[r.value] == t && t !in pieces[..r.value]
    ensures r.None? ==> t !in pieces
  {
    if pieces == [] then None
    else if pieces[0] == t then Some(0)
    else
      match FirstPiece(pieces[1..], t)
      case None => None
      case Some(k) =>
        assert pieces[..k + 1] == [pieces[0]] + pieces[1..][..k];
        Some(k + 1)
  }

  function Located(pieces: seq<string>, k: Option<nat>): Option<nat>
    requires k.Some? ==> k.value < |pieces|
  {
    if k.None? then None else Some(PieceStart(pieces, k.value))
  }

  function Shifted(k: Option<nat>, m: nat): Option<nat> {
    if k.None? then None else Some(m + k.value)
  }

  /**
   * A token stands between spaces just where a piece equal to it starts, so the first such position is that of the
   * first such piece.
   */
  lemma {:induction false} FindAgreesWithSplit(s: string, t: string)
    requires IsToken(t)
    ensures FirstBounded(s, t, 0) == Located(Split(s), FirstPiece(Split(s), t))
    decreases |s|
  {
    hide FirstBounded, Split, FirstPiece, PieceEnd, Located, Bounded;
    var n := PieceEnd(s);
    if s[..n] == t {
      FoundAtOnce(s, t);
    } else if n == |s| {
      OnePiece(s, t);
    } else {
      FindAgreesWithSplit(s[n + 1..], t);
      NotInFirst(s, t, n);
      ShiftBounded(s, t, n + 1, 0);
      FirstSkips(s, t, 0, n + 1);
      LaterPiece(s, t);
    }
  }

  lemma FoundAtOnce(s: string, t: string)
    requires IsToken(t) && s[..PieceEnd(s)] == t
    ensures FirstBounded(s, t, 0) == Some(0) == Located(Split(s), FirstPiece(Split(s), t))
  {
    assert Bounded(s, t, 0);
  }

  lemma LaterPiece(s: string, t: string)
    requires PieceEnd(s) < |s| && s[..PieceEnd(s)] != t
    ensures var n := PieceEnd(s);
      Located(Split(s), FirstPiece(Split(s), t))
        == Shifted(Located(Split(s[n + 1..]), FirstPiece(Split(s[n + 1..]), t)), n + 1)
  {
    hide Split, PieceEnd;
    SplitIs(s);
    assert Split(s)[1..] == Split(s[PieceEnd(s) + 1..]);
  }

  lemma OnePiece(s: string, t: string)
    requires IsToken(t) && PieceEnd(s) == |s| && s != t
    ensures FirstBounded(s, t, 0) == None == Located(Split(s), FirstPiece(Split(s), t))
  {
    if FirstBounded(s, t, 0).Some? {
      BoundedInFirst(s, t, FirstBounded(s, t, 0).value);
    }
  }

  /** A token that starts in the first piece is the first piece. */
  lemma BoundedInFirst(s: string, t: string, p: nat)
    requires IsToken(t) && p <= PieceEnd(s) && Bounded(s, t, p)
    ensures s[..PieceEnd(s)] == t && p == 0
  {
    assert forall i :: 0 <= i < |t| ==> t[i] == s[p..p + |t|][i] == s[p + i];
  }

  lemma NotInFirst(s: string, t: string, n: nat)
    requires IsToken(t) && n == PieceEnd(s) < |s| && s[..n] != t
    ensures forall p :: 0 <= p <= n ==> !Bounded(s, t, p)
  {
    forall p | 0 <= p <= n && Bounded(s, t, p) ensures false {
      BoundedInFirst(s, t, p);
    }
  }

  /** After a space, positions are bounded as they are in the rest of the list. */
  lemma {:induction false} ShiftBounded(s: string, t: string, m: nat, p: nat)
    requires 0 < m <= |s| && s[m - 1] == ' '
    ensures FirstBounded(s, t, m + p) == Shifted(FirstBounded(s[m..], t, p), m)
    decreases |s| - m - p
  {
    hide Bounded;
    if m + p < |s| {
      SameBounds(s, t, m, p);
      ShiftBounded(s, t, m, p + 1);
    }
  }

  lemma SameBounds(s: string, t: string, m: nat, p: nat)
    requires 0 < m && m + p <= |s| && s[m - 1] == ' '
    ensures Bounded(s, t, m + p) == Bounded(s[m..], t, p)
  {
    if p + |t| <= |s| - m {
      assert s[m..][p..p + |t|] == s[m + p..m + p + |t|];
    }
  }

  lemma {:induction false} FirstSkips(s: string, t: string, p: nat, q: nat)
    requires p <= q && forall k :: p <= k < q ==> !Bounded(s, t, k)
    ensures FirstBounded(s, t, p) == FirstBounded(s, t, q)
    decreases q - p
  {
    if p < q {
      FirstSkips(s, t, p + 1, q);
    }
  }

  // ---------- Editing a list ----------

  function Set(tokenList: string, token: string): string {
    if tokenList == "" then token
    else if token == "" || FirstBounded(tokenList, token, 0).Some? then tokenList
    else tokenList + " " + token
  }

  function Unset(tokenList: string, token: string): string {
    match FirstBounded(tokenList, token, 0)
    case None => tokenList
    case Some(start) =>
      var end := start + |token|;
      if end < |tokenList| then tokenList[..start] + tokenList[end + 1..]
      else tokenList[..if start > 0 then start - 1 else 0]
  }

  function Without(pieces: seq<string>, k: nat): seq<string>
    requires k < |pieces|
  {
    pieces[..k] + pieces[k + 1..]
  }

  lemma {:induction false} JoinConcat(a: seq<string>, b: seq<string>)
    requires a != [] && b != []
    ensures Join(a + b) == Join(a) + " " + Join(b)
  {
    if |a| == 1 {
      assert (a + b)[1..] == b;
    } else {
      JoinConcat(a[1..], b);
      assert (a + b)[1..] == a[1..] + b;
    }
  }

  function Before(pieces: seq<string>): string {
    if pieces == [] then "" else Join(pieces) + " "
  }

  function After(pieces: seq<string>): string {
    if pieces == [] then "" else " " + Join(pieces)
  }

  lemma JoinAround(a: seq<string>, t: string, b: seq<string>)
    ensures Join(a + [t] + b) == Before(a) + t + After(b)
  {
    hide Join;
    JoinOne(t);
    if a != [] {
      JoinConcat(a, [t]);
    } else {
      assert a + [t] == [t];
    }
    if b != [] {
      JoinConcat(a + [t], b);
    } else {
      assert a + [t] + b == a + [t];
    }
  }

  lemma JoinOne(t: string)
    ensures Join([t]) == t
  {
  }

  lemma {:induction false} StartIs(pieces: seq<string>, k: nat)
    requires k < |pieces|
    ensures PieceStart(pieces, k) == |Before(pieces[..k])|
  {
    if k > 1 {
      StartIs(pieces[1..], k - 1);
      assert pieces[..k][1..] == pieces[1..][..k - 1];
    }
  }

  /** Cutting piece k and one space out of the text. */
  lemma CutPiece(pieces: seq<string>, k: nat)
    requires k < |pieces|
    ensures var s := Join(pieces);
      var start := PieceStart(pieces, k);
      var end := start + |pieces[k]|;
      && end <= |s| && (end == |s| <==> k == |pieces| - 1)
      && (end < |s| ==> s[..start] + s[end + 1..] == Join(Without(pieces, k)))
      && (end == |s| && k > 0 ==> start > 0 && s[..start - 1] == Join(Without(pieces, k)))
      && (end == |s| && k == 0 ==> start == 0)
  {
    hide Join, PieceStart;
    var a, b := pieces[..k], pieces[k + 1..];
    StartIs(pieces, k);
    assert pieces == a + [pieces[k]] + b;
    JoinAround(a, pieces[k], b);
    if a != [] && b != [] {
      JoinConcat(a, b);
    } else if b != [] {
      assert a + b == b;
    } else {
      assert a + b == a;
    }
  }

  /** Unset removes the first piece that is the token, with one space, and nothing else. */
  lemma UnsetRemovesOnePiece(tokenList: string, token: string)
    requires IsToken(token)
    ensures var pieces := Split(tokenList);
      match FirstPiece(pieces, token)
      case None => Unset(tokenList, token) == tokenList
      case Some(k) =>
        if |pieces| == 1 then Unset(tokenList, token) == "" else Split(Unset(tokenList, token)) == Without(pieces, k)
  {
    hide Split, FirstPiece, PieceStart, Join, FirstBounded;
    var pieces := Split(tokenList);
    FindAgreesWithSplit(tokenList, token);
    SplitJoins(tokenList);
    match FirstPiece(pieces, token) {
      case None =>
      case Some(k) =>
        CutPiece(pieces, k);
        if |pieces| > 1 {
          JoinSplits(Without(pieces, k));
        }
    }
  }

  lemma {:induction false} SplitAppend(s: string, t: string)
    requires SpaceFree(t)
    ensures Split(s + " " + t) == Split(s) + [t]
    decreases |s|
  {
    hide Split;
    var n := PieceEnd(s);
    AloneSplits(t);
    if n == |s| {
      AloneSplits(s);
      SplitAfter(s, t);
    } else {
      SplitIs(s);
      SplitAppend(s[n + 1..], t);
      assert s + " " + t == s[..n] + " " + (s[n + 1..] + " " + t);
      SplitAfter(s[..n], s[n + 1..] + " " + t);
    }
  }

  lemma FoundIffPiece(s: string, t: string)
    requires IsToken(t)
    ensures FirstBounded(s, t, 0).Some? <==> t in Split(s)
  {
    hide Split, FirstPiece, PieceStart, FirstBounded;
    FindAgreesWithSplit(s, t);
  }

  /** Set appends the token unless it is there. */
  lemma SetAddsOnce(tokenList: string, token: string)
    requires IsToken(token)
    ensures Split(Set(tokenList, token))
         == if tokenList == "" then [token]
            else if token in Split(tokenList) then Split(tokenList)
            else Split(tokenList) + [token]
    ensures token in Split(Set(tokenList, token)) && Set(Set(tokenList, token), token) == Set(tokenList, token)
  {
    hide Split, FirstBounded;
    FoundIffPiece(tokenList, token);
    SplitAppend(tokenList, token);
    AloneSplits(token);
    FoundIffPiece(Set(tokenList, token), token);
  }

  lemma AloneSplits(t: string)
    requires SpaceFree(t)
    ensures Split(t) == [t]
  {
    assert PieceEnd(t) == |t|;
  }

  /** Unset undoes set when the token was absent. */
  lemma UnsetUndoesSet(tokenList: string, token: string)
    requires IsToken(token) && token !in Split(tokenList)
    ensures Unset(Set(tokenList, token), token) == tokenList
  {
    hide Split, FirstBounded, Join;
    FoundIffPiece(tokenList, token);
    SplitAppend(tokenList, token);
    AloneSplits(token);
    SplitJoins(tokenList);
    var added := Set(tokenList, token);
    UnsetRemovesOnePiece(added, token);
    SplitJoins(Unset(added, token));
    if tokenList != "" {
      var pieces := Split(tokenList);
      assert Split(added) == pieces + [token];
      assert Without(pieces + [token], |pieces|) == pieces;
    }
  }

  // ---------- Toggling ----------

  class Toggle {
    var toAdd: seq<string>
    var toRemove: set<string>

    constructor (toAdd: seq<string>, toRemove: set<string>)
      ensures this.toAdd == toAdd && this.toRemove == toRemove
    {
      this.toAdd, this.toRemove := toAdd, toRemove;
    }

    /** Tokens that the list has move from `toAdd` to `toRemove`; the others stay, in their order. */
    method Compute(tokenList: string)
      modifies this
      ensures toAdd == Absent(tokenList, old(toAdd))
      ensures toRemove == old(toRemove) + Present(tokenList, old(toAdd))
    {
      hide FirstBounded, Present, Absent;
      if tokenList == "" {
        NothingFound(toAdd);
        return;
      }
      ghost var was := toAdd;
      var i := |toAdd|;
      NoneLeft(tokenList);
      while i > 0
        invariant 0 <= i <= |was| && i <= |toAdd| && toAdd[..i] == was[..i]
        invariant toAdd[i..] == Absent(tokenList, was[i..])
        invariant toRemove == old(toRemove) + Present(tokenList, was[i..])
      {
        i := i - 1;
        var token := toAdd[i];
        assert was[i..] == [token] + was[i + 1..] && toAdd[i..] == [token] + toAdd[i + 1..];
        MoveOne(tokenList, token, was[i + 1..]);
        var found := FindToken(tokenList, token);
        if found.Some? {
          toRemove := toRemove + {token};
          toAdd := toAdd[..i] + toAdd[i + 1..];
        }
      }
      assert was[0..] == was && toAdd[0..] == toAdd;
    }
  }

  /** The tokens that the list lacks. */
  function Absent(tokenList: string, tokens: seq<string>): seq<string> {
    if tokens == [] then []
    else (if FirstBounded(tokenList, tokens[0], 0).Some? then [] else [tokens[0]]) + Absent(tokenList, tokens[1..])
  }

  /** The tokens that it has. */
  function Present(tokenList: string, tokens: seq<string>): set<string> {
    set t | t in tokens && FirstBounded(tokenList, t, 0).Some?
  }

  lemma NoneLeft(tokenList: string)
    ensures Absent(tokenList, []) == [] && Present(tokenList, []) == {}
  {
  }

  lemma MoveOne(tokenList: string, token: string, rest: seq<string>)
    ensures var found := FirstBounded(tokenList, token, 0).Some?;
      && Absent(tokenList, [token] + rest) == (if found then [] else [token]) + Absent(tokenList, rest)
      && Present(tokenList, [token] + rest) == Present(tokenList, rest) + if found then {token} else {}
  {
    hide FirstBounded;
    assert ([token] + rest)[1..] == rest;
  }

  lemma {:induction false} NothingFound(tokens: seq<string>)
    ensures Absent("", tokens) == tokens && Present("", tokens) == {}
  {
    if tokens != [] {
      NothingFound(tokens[1..]);
    }
  }
}
