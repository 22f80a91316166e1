/**
 * A binary heap whose nodes know their position, with removal and re-keying of any node
 * (common/lib/common-utils/src/heap.ts).
 */
module Heap {
  import opened Options

  // ---------- Order on sequences; index 0 is the sentinel ----------

  /** Negative or zero means at most. */
  type Compare<!T> = (T, T) -> int

  ghost predicate TotalPreorder<T(!new)>(cmp: Compare<T>) {
    && (forall a, b :: cmp(a, b) <= 0 || cmp(b, a) <= 0)
    && (forall a, b, c :: cmp(a, b) <= 0 && cmp(b, c) <= 0 ==> cmp(a, c) <= 0)
  }

  /** The element at i is not below its parent. */
  predicate Above<T>(cmp: Compare<T>, vs: seq<T>, i: nat)
    requires i < |vs|
  {
    cmp(vs[i / 2], vs[i]) <= 0
  }

  predicate HeapOrdered<T>(cmp: Compare<T>, vs: seq<T>) {
    forall i :: 2 <= i < |vs| ==> Above(cmp, vs, i)
  }

  /** The children of k are not below the parent of k. */
  predicate Skips<T>(cmp: Compare<T>, vs: seq<T>, k: nat) {
    forall i :: 2 <= i < |vs| && 2 <= k && i / 2 == k ==> cmp(vs[k / 2], vs[i]) <= 0
  }

  /** Only the element at k may be below its parent. */
  predicate UpBroken<T>(cmp: Compare<T>, vs: seq<T>, k: nat) {
    (forall i :: 2 <= i < |vs| && i != k ==> Above(cmp, vs, i)) && Skips(cmp, vs, k)
  }

  /** Only the children of k may be below it. */
  predicate DownBroken<T>(cmp: Compare<T>, vs: seq<T>, k: nat) {
    (forall i :: 2 <= i < |vs| && i / 2 != k ==> Above(cmp, vs, i)) && Skips(cmp, vs, k)
  }

  /** Any order around k, as after its value changed. */
  predicate BrokenAt<T>(cmp: Compare<T>, vs: seq<T>, k: nat) {
    (forall i :: 2 <= i < |vs| && i != k && i / 2 != k ==> Above(cmp, vs, i)) && Skips(cmp, vs, k)
  }

  function Swapped<T>(s: seq<T>, k: nat, j: nat): seq<T>
    requires k < |s| && j < |s|
  {
    s[k := s[j]][j := s[k]]
  }

  /** The same elements in another order, but for the sentinel. */
  predicate Rearranged<T(==)>(s: seq<T>, s': seq<T>) {
    |s'| == |s| && s != [] && s'[0] == s[0] && multiset(s') == multiset(s)
  }

  lemma SwapRearranges<T>(s: seq<T>, k: nat, j: nat)
    requires 1 <= k < |s| && 1 <= j < |s|
    ensures Rearranged(s, Swapped(s, k, j))
  {
  }

  lemma RearrangedTrans<T>(s: seq<T>, t: seq<T>, u: seq<T>)
    requires Rearranged(s, t) && Rearranged(t, u)
    ensures Rearranged(s, u)
  {
  }

  lemma Unmoved<T>(s: seq<T>)
    requires s != []
    ensures Rearranged(s, s)
  {
  }

  function Members<T>(s: seq<T>): set<T> {
    set x | x in s
  }

  lemma RearrangedMembers<T>(s: seq<T>, t: seq<T>)
    requires Rearranged(s, t)
    ensures |t| == |s| > 0 && Members(t) == Members(s)
  {
    forall x ensures x in t <==> x in s {
      assert x in t <==> x in multiset(t);
      assert x in s <==> x in multiset(s);
    }
  }

  lemma SwapUp<T(!new)>(cmp: Compare<T>, vs: seq<T>, k: nat)
    requires TotalPreorder(cmp) && 1 < k < |vs| && UpBroken(cmp, vs, k) && !Above(cmp, vs, k)
    ensures UpBroken(cmp, Swapped(vs, k, k / 2), k / 2)
  {
    var p := k / 2;
    var s := Swapped(vs, k, p);
    forall i | 2 <= i < |s| && i != p ensures Above(cmp, s, i) {
      assert i != k ==> Above(cmp, vs, i);
      if i / 2 == k {
        assert cmp(vs[p], vs[i]) <= 0;
      }
    }
    if 2 <= p {
      assert Above(cmp, vs, p);
      forall i | 2 <= i < |s| && i / 2 == p ensures cmp(s[p / 2], s[i]) <= 0 {
        assert i != k ==> Above(cmp, vs, i);
      }
    }
  }

  lemma SwapDown<T(!new)>(cmp: Compare<T>, vs: seq<T>, k: nat, j: nat)
    requires TotalPreorder(cmp) && 1 <= k && j / 2 == k && 1 < j < |vs| && DownBroken(cmp, vs, k) && !Above(cmp, vs, j)
    requires forall i :: 2 <= i < |vs| && i / 2 == k ==> cmp(vs[j], vs[i]) <= 0
    ensures DownBroken(cmp, Swapped(vs, k, j), j)
  {
    var s := Swapped(vs, k, j);
    forall i | 2 <= i < |s| && i / 2 != j ensures Above(cmp, s, i) {
      if i == k {
        assert cmp(vs[k / 2], vs[j]) <= 0;
      } else {
        assert i / 2 != k ==> Above(cmp, vs, i);
      }
    }
    forall i | 2 <= i < |s| && i / 2 == j ensures cmp(s[j / 2], s[i]) <= 0 {
      assert Above(cmp, vs, i);
    }
  }

  lemma UpDone<T>(cmp: Compare<T>, vs: seq<T>, k: nat)
    requires UpBroken(cmp, vs, k) && (k < 2 || k >= |vs| || Above(cmp, vs, k))
    ensures HeapOrdered(cmp, vs)
  {
  }

  lemma DownDone<T>(cmp: Compare<T>, vs: seq<T>, k: nat)
    requires DownBroken(cmp, vs, k) && (forall i :: 2 <= i < |vs| && i / 2 == k ==> Above(cmp, vs, i))
    ensures HeapOrdered(cmp, vs)
  {
  }

  /** A node that is below its parent is below its children too, so only the way up is broken. */
  lemma BrokenUp<T(!new)>(cmp: Compare<T>, vs: seq<T>, k: nat)
    requires TotalPreorder(cmp) && BrokenAt(cmp, vs, k) && 1 < k < |vs| && !Above(cmp, vs, k)
    ensures UpBroken(cmp, vs, k)
  {
    forall i | 2 <= i < |vs| && i / 2 == k ensures Above(cmp, vs, i) {
      assert cmp(vs[k / 2], vs[i]) <= 0;
    }
  }

  lemma BrokenDown<T>(cmp: Compare<T>, vs: seq<T>, k: nat)
    requires BrokenAt(cmp, vs, k) && (1 < k < |vs| ==> Above(cmp, vs, k))
    ensures DownBroken(cmp, vs, k)
  {
  }

  /** Changing one value breaks the order only around it. */
  lemma ChangeBreaksAt<T(!new)>(cmp: Compare<T>, vs: seq<T>, k: nat, x: T)
    requires TotalPreorder(cmp) && HeapOrdered(cmp, vs) && k < |vs|
    ensures BrokenAt(cmp, vs[k := x], k)
  {
    var s := vs[k := x];
    forall i | 2 <= i < |s| && i != k && i / 2 != k ensures Above(cmp, s, i) {
      assert Above(cmp, vs, i);
    }
    forall i | 2 <= i < |s| && 2 <= k && i / 2 == k ensures cmp(s[k / 2], s[i]) <= 0 {
      assert Above(cmp, vs, i) && Above(cmp, vs, k);
    }
  }

  lemma PrefixOrdered<T>(cmp: Compare<T>, vs: seq<T>, n: nat)
    requires HeapOrdered(cmp, vs) && n <= |vs|
    ensures HeapOrdered(cmp, vs[..n])
  {
    forall i | 2 <= i < n ensures Above(cmp, vs[..n], i) {
      assert Above(cmp, vs, i);
    }
  }

  lemma {:induction false} RootIsLeast<T(!new)>(cmp: Compare<T>, vs: seq<T>, i: nat)
    requires TotalPreorder(cmp) && HeapOrdered(cmp, vs) && 1 <= i < |vs|
    ensures cmp(vs[1], vs[i]) <= 0
  {
    if i > 1 {
      RootIsLeast(cmp, vs, i / 2);
      assert Above(cmp, vs, i);
    } else {
      assert cmp(vs[1], vs[1]) <= 0;
    }
  }

  // ---------- The heap ----------

  class HeapNode<T> {
    var value: T
    var position: nat

    constructor (value: T, position: nat)
      ensures this.value == value && this.position == position
    {
      this.value, this.position := value, position;
    }
  }

  ghost function ValuesOf<T>(nodes: seq<HeapNode<T>>): (vs: seq<T>)
    reads nodes
    ensures |vs| == |nodes| && forall i :: 0 <= i < |nodes| ==> vs[i] == nodes[i].value
  {
    seq(|nodes|, i requires 0 <= i < |nodes| reads nodes => nodes[i].value)
  }

  class Heap<T(!new)> {
    const cmp: Compare<T>
    var L: seq<HeapNode<T>>

    /** Every node knows where it is. */
    ghost predicate Placed()
      reads this, L
    {
      L != [] && forall i :: 0 <= i < |L| ==> L[i].position == i
    }

    ghost predicate Valid()
      reads this, L
    {
      TotalPreorder(cmp) && Placed() && HeapOrdered(cmp, ValuesOf(L))
    }

    /** The nodes in the heap, without the sentinel. */
    ghost function Nodes(): multiset<HeapNode<T>>
      reads this
    {
      if L == [] then multiset{} else multiset(L[1..])
    }

    ghost function Contents(): multiset<T>
      reads this, L
    {
      if L == [] then multiset{} else multiset(ValuesOf(L)[1..])
    }

    constructor (cmp: Compare<T>, min: T)
      requires TotalPreorder(cmp)
      ensures Valid() && this.cmp == cmp && Nodes() == multiset{} && Contents() == multiset{}
      ensures |L| == 1 && fresh(L[0]) && L[0].value == min
    {
      this.cmp := cmp;
      var sentinel := new HeapNode(min, 0);
      L := [sentinel];
    }

    function Count(): nat
      requires L != []
      reads this
    {
      |L| - 1
    }

    /** Exchanges two nodes; no value changes. */
    method Swap(k: nat, j: nat)
      requires Placed() && k < |L| && j < |L|
      modifies this`L, Members(L)`position
      ensures Placed() && L == Swapped(old(L), k, j)
      ensures ValuesOf(L) == Swapped(old(ValuesOf(L)), k, j)
    {
      var tmp := L[k];
      L := L[k := L[j]];
      L[k].position := k;
      L := L[j := tmp];
      L[j].position := j;
    }

    predicate IsGreaterThanParent(k: nat)
      requires k < |L|
      reads this, L
    {
      k > 1 && cmp(L[k / 2].value, L[k].value) > 0
    }

    method Fixup(pos: nat)
      requires TotalPreorder(cmp) && Placed() && pos < |L| && UpBroken(cmp, ValuesOf(L), pos)
      modifies this`L, Members(L)`position
      ensures Valid() && Rearranged(old(L), L) && Rearranged(old(ValuesOf(L)), ValuesOf(L))
    {
      hide UpBroken, HeapOrdered, TotalPreorder, Swapped, Rearranged, Members, ValuesOf;
      ghost var nodes, values := L, ValuesOf(L);
      Unmoved(nodes);
      Unmoved(values);
      var k: nat := pos;
      while IsGreaterThanParent(k)
        invariant k < |L| && Placed() && UpBroken(cmp, ValuesOf(L), k)
        invariant Rearranged(nodes, L) && Rearranged(values, ValuesOf(L)) && Members(L) == Members(nodes)
        decreases k
      {
        SwapUp(cmp, ValuesOf(L), k);
        SwapStep(nodes, values, L, ValuesOf(L), k, k / 2);
        Swap(k, k / 2);
        k := k / 2;
      }
      UpDone(cmp, ValuesOf(L), k);
    }

    /** The smaller child of k. */
    method LeastChild(k: nat) returns (j: nat)
      requires TotalPreorder(cmp) && L != [] && 1 <= k && 2 * k < |L|
      ensures 1 < j < |L| && j / 2 == k
      ensures forall i :: 2 <= i < |L| && i / 2 == k ==> cmp(L[j].value, L[i].value) <= 0
    {
      j := 2 * k;
      if j < Count() && cmp(L[j].value, L[j + 1].value) > 0 {
        j := j + 1;
      }
    }

    method Fixdown(pos: nat)
      requires TotalPreorder(cmp) && Placed() && 1 <= pos && DownBroken(cmp, ValuesOf(L), pos)
      modifies this`L, Members(L)`position
      ensures Valid() && Rearranged(old(L), L) && Rearranged(old(ValuesOf(L)), ValuesOf(L))
    {
      hide DownBroken, HeapOrdered, TotalPreorder, Swapped, Rearranged, Members, ValuesOf;
      ghost var nodes, values := L, ValuesOf(L);
      Unmoved(nodes);
      Unmoved(values);
      var k: nat := pos;
      while 2 * k <= Count()
        invariant 1 <= k && |L| == |nodes| && Placed() && DownBroken(cmp, ValuesOf(L), k)
        invariant Rearranged(nodes, L) && Rearranged(values, ValuesOf(L)) && Members(L) == Members(nodes)
        decreases |L| - k
      {
        var j := LeastChild(k);
        if cmp(L[k].value, L[j].value) <= 0 {
          ChildrenAbove(cmp, ValuesOf(L), k, j);
          DownDone(cmp, ValuesOf(L), k);
          return;
        }
        SwapDown(cmp, ValuesOf(L), k, j);
        SwapStep(nodes, values, L, ValuesOf(L), k, j);
        Swap(k, j);
        k := j;
      }
      DownDone(cmp, ValuesOf(L), k);
    }

    /** The order around the node must be as it is after only its value changed. */
    method Update(node: HeapNode<T>)
      requires TotalPreorder(cmp) && Placed() && node in L[1..] && BrokenAt(cmp, ValuesOf(L), node.position)
      modifies this`L, Members(L)`position
      ensures Valid() && Rearranged(old(L), L) && Rearranged(old(ValuesOf(L)), ValuesOf(L))
    {
      hide UpBroken, DownBroken, BrokenAt, HeapOrdered, TotalPreorder, Rearranged, Members, ValuesOf;
      var k := node.position;
      if IsGreaterThanParent(k) {
        BrokenUp(cmp, ValuesOf(L), k);
        Fixup(k);
      } else {
        BrokenDown(cmp, ValuesOf(L), k);
        Fixdown(k);
      }
    }

    method Add(x: T) returns (node: HeapNode<T>)
      requires Valid()
      modifies this`L, Members(L)`position
      ensures Valid() && fresh(node) && node.value == x && L[0] == old(L[0])
      ensures Nodes() == old(Nodes()) + multiset{node} && Contents() == old(Contents()) + multiset{x}
    {
      hide UpBroken, HeapOrdered, TotalPreorder, Rearranged, ValuesOf;
      node := new HeapNode(x, |L|);
      ghost var nodes, values := L, ValuesOf(L);
      L := L + [node];
      PushedUp(cmp, values, x);
      assert ValuesOf(L) == values + [x];
      Fixup(Count());
      RestRearranged(nodes + [node], L);
      RestRearranged(values + [x], ValuesOf(L));
      PushRest(nodes, node);
      PushRest(values, x);
    }

    /** Moves a node to the end of the array and drops it; the node that takes its place may be out of order. */
    method TakeOut(k: nat) returns (node: HeapNode<T>)
      requires Valid() && 1 <= k < |L|
      modifies this`L, Members(L)`position
      ensures node == old(L[k]) && Placed() && |L| == old(|L|) - 1 && L[0] == old(L[0]) && Members(L) <= old(Members(L))
      ensures Nodes() == old(Nodes()) - multiset{node} && Contents() == old(Contents()) - multiset{node.value}
      ensures (k < |L| ==> BrokenAt(cmp, ValuesOf(L), k)) && (k == |L| ==> HeapOrdered(cmp, ValuesOf(L)))
    {
      hide BrokenAt, HeapOrdered, TotalPreorder, Swapped, Members, ValuesOf;
      ghost var nodes, values := L, ValuesOf(L);
      var last := Count();
      MovedAround(cmp, values, k);
      RemovedRest(nodes, k);
      RemovedRest(values, k);
      Swap(k, last);
      node := L[last];
      ghost var swapped := ValuesOf(L);
      L := L[..last];
      assert ValuesOf(L) == swapped[..last];
    }

    /** A rearrangement keeps nodes and contents. */
    twostate lemma RearrangedKeeps()
      requires Rearranged(old(L), L) && Rearranged(old(ValuesOf(L)), ValuesOf(L))
      ensures L[0] == old(L[0]) && |L| == old(|L|) && Members(L) == old(Members(L))
      ensures Nodes() == old(Nodes()) && Contents() == old(Contents())
    {
      hide Members, ValuesOf;
      RearrangedMembers(old(L), L);
      RestRearranged(old(L), L);
      RestRearranged(old(ValuesOf(L)), ValuesOf(L));
    }

    /** No value is below that of the root. */
    lemma RootIsMinimum()
      requires Valid() && Count() > 0
      ensures L[1].value in Contents() && forall y :: y in Contents() ==> cmp(L[1].value, y) <= 0
    {
      hide HeapOrdered, TotalPreorder;
      RootLeastOfAll(cmp, ValuesOf(L));
      RootPresent(ValuesOf(L));
    }

    /** Takes out a node that no other value is below. */
    method Get() returns (x: T)
      requires Valid() && Count() > 0
      modifies this`L, Members(L)`position
      ensures Valid() && L[0] == old(L[0]) && |L| == old(|L|) - 1 && Members(L) <= old(Members(L))
      ensures x == old(L[1].value) && x in old(Contents()) && (forall y :: y in old(Contents()) ==> cmp(x, y) <= 0)
      ensures Nodes() == old(Nodes()) - multiset{old(L[1])} && Contents() == old(Contents()) - multiset{x}
    {
      hide DownBroken, BrokenAt, HeapOrdered, TotalPreorder, Rearranged, Members, ValuesOf, Contents, Nodes, Placed;
      RootIsMinimum();
      var node := TakeOut(1);
      RootMoved(cmp, ValuesOf(L));
      label taken:
      Fixdown(1);
      RearrangedKeeps@taken();
      x := node.value;
    }

    /** The node that `Get` would take out; None when there is none. */
    method Peek() returns (r: Option<HeapNode<T>>)
      requires Valid()
      ensures r.None? <==> Nodes() == multiset{}
      ensures r.Some? ==>
        && r.value in Nodes() && r.value.position == 1
        && forall y :: y in Contents() ==> cmp(r.value.value, y) <= 0
    {
      if |L| == 1 {
        return None;
      }
      RootLeastOfAll(cmp, ValuesOf(L));
      assert L[1] == L[1..][0];
      r := Some(L[1]);
    }

    method Remove(node: HeapNode<T>)
      requires Valid() && node in L[1..]
      modifies this`L, Members(L)`position
      ensures Valid() && L[0] == old(L[0])
      ensures Nodes() == old(Nodes()) - multiset{node} && Contents() == old(Contents()) - multiset{node.value}
    {
      hide BrokenAt, HeapOrdered, TotalPreorder, Rearranged, Members, ValuesOf;
      var position := node.position;
      assert 1 <= position < |L| && L[position] == node;
      var removed := TakeOut(position);
      if position != |L| {
        assert L[position] == L[1..][position - 1];
        label taken:
        Update(L[position]);
        RearrangedKeeps@taken();
      }
    }
  }

  // ---------- Clients ----------

  /** Changing the value of one node and then calling update re-keys the node. */
  method Rekey<T(!new)>(heap: Heap<T>, node: HeapNode<T>, x: T)
    requires heap.Valid() && node in heap.L[1..]
    modifies heap`L, Members(heap.L)`position, node`value
    ensures heap.Valid() && heap.Nodes() == old(heap.Nodes()) && node.value == x
    ensures heap.Contents() == old(heap.Contents()) - multiset{old(node.value)} + multiset{x}
  {
    hide BrokenAt, HeapOrdered, TotalPreorder, Rearranged, Members, ValuesOf;
    var k := node.position;
    assert 1 <= k < |heap.L| && heap.L[k] == node;
    ghost var nodes, values := heap.L, ValuesOf(heap.L);
    ChangeBreaksAt(heap.cmp, values, k, x);
    ChangedRest(values, k, x);
    node.value := x;
    assert ValuesOf(heap.L) == values[k := x];
    heap.Update(node);
    RestRearranged(nodes, heap.L);
    RestRearranged(values[k := x], ValuesOf(heap.L));
  }

  lemma ChangedRest<T>(s: seq<T>, k: nat, x: T)
    requires 1 <= k < |s|
    ensures multiset(s[k := x][1..]) == multiset(s[1..]) - multiset{s[k]} + multiset{x}
  {
    assert s[k := x][1..] == s[1..][k - 1 := x];
  }

  ghost predicate Sorted<T>(cmp: Compare<T>, s: seq<T>) {
    forall i, j :: 0 <= i < j < |s| ==> cmp(s[i], s[j]) <= 0
  }

  /** Draining a heap yields what was added, in order. */
  method Drain<T(!new)>(heap: Heap<T>) returns (sorted: seq<T>)
    requires heap.Valid()
    modifies heap`L, Members(heap.L)`position
    ensures heap.Valid() && heap.Count() == 0
    ensures Sorted(heap.cmp, sorted) && multiset(sorted) == old(heap.Contents())
  {
    hide HeapOrdered, TotalPreorder, Members, ValuesOf, Sorted, Heap.Contents, Below;
    sorted := [];
    NothingDrained(heap.cmp, heap.Contents());
    while heap.Count() > 0
      invariant heap.Valid() && Members(heap.L) <= old(Members(heap.L))
      invariant multiset(sorted) + heap.Contents() == old(heap.Contents())
      invariant Sorted(heap.cmp, sorted) && Below(heap.cmp, sorted, heap.Contents())
      decreases |heap.L|
    {
      ghost var contents := heap.Contents();
      var x := heap.Get();
      DrainStep(heap.cmp, sorted, contents, x);
      sorted := sorted + [x];
    }
    EmptyContents(heap);
  }

  ghost predicate Below<T>(cmp: Compare<T>, s: seq<T>, contents: multiset<T>) {
    forall a, y :: a in s && y in contents ==> cmp(a, y) <= 0
  }

  lemma NothingDrained<T>(cmp: Compare<T>, contents: multiset<T>)
    ensures Sorted(cmp, []) && Below(cmp, [], contents) && multiset([]) + contents == contents
  {
  }

  lemma DrainStep<T>(cmp: Compare<T>, s: seq<T>, contents: multiset<T>, x: T)
    requires Sorted(cmp, s) && Below(cmp, s, contents) && x in contents && forall y :: y in contents ==> cmp(x, y) <= 0
    ensures Sorted(cmp, s + [x]) && Below(cmp, s + [x], contents - multiset{x})
    ensures multiset(s + [x]) + (contents - multiset{x}) == multiset(s) + contents
  {
  }

  lemma EmptyContents<T(!new)>(heap: Heap<T>)
    requires |heap.L| == 1
    ensures heap.Contents() == multiset{}
  {
  }

  lemma RootPresent<T>(vs: seq<T>)
    requires 1 < |vs|
    ensures vs[1] in multiset(vs[1..])
  {
    assert vs[1] == vs[1..][0];
  }

  lemma RestRearranged<T>(s: seq<T>, t: seq<T>)
    requires Rearranged(s, t)
    ensures s != [] && t != [] && t[0] == s[0] && multiset(t[1..]) == multiset(s[1..])
  {
    assert s == [s[0]] + s[1..] && t == [t[0]] + t[1..];
    assert multiset(s) == multiset{s[0]} + multiset(s[1..]) && multiset(t) == multiset{t[0]} + multiset(t[1..]);
    assert multiset(t[1..]) == multiset(t) - multiset{t[0]};
  }

  lemma PushRest<T>(s: seq<T>, x: T)
    requires s != []
    ensures multiset((s + [x])[1..]) == multiset(s[1..]) + multiset{x} && (s + [x])[0] == s[0]
  {
    assert (s + [x])[1..] == s[1..] + [x];
  }

  /** Exchanging with the last element and dropping it removes one element. */
  lemma RemovedRest<T>(s: seq<T>, k: nat)
    requires 1 <= k < |s|
    ensures var last := |s| - 1;
      && |Swapped(s, k, last)| == |s| && Swapped(s, k, last)[last] == s[k]
      && var t := Swapped(s, k, last)[..last];
         t[0] == s[0] && Members(t) <= Members(s) && multiset(t[1..]) == multiset(s[1..]) - multiset{s[k]}
  {
    hide Members, Swapped, Rearranged;
    var last := |s| - 1;
    var w := Swapped(s, k, last);
    SwapRearranges(s, k, last);
    RearrangedMembers(s, w);
    RestRearranged(s, w);
    SwappedLast(s, k);
    TakenMembers(w, last);
    LastTaken(w[1..], s[k]);
    assert w[1..][..last - 1] == w[..last][1..];
  }

  lemma SwappedLast<T>(s: seq<T>, k: nat)
    requires 1 <= k < |s|
    ensures var w := Swapped(s, k, |s| - 1);
      |w| == |s| && w[|s| - 1] == s[k] && w[..|s| - 1][0] == s[0] && w[1..][|s| - 2] == s[k]
  {
  }

  lemma TakenMembers<T>(s: seq<T>, n: nat)
    requires n <= |s|
    ensures Members(s[..n]) <= Members(s)
  {
  }

  lemma LastTaken<T>(s: seq<T>, x: T)
    requires s != [] && s[|s| - 1] == x
    ensures multiset(s[..|s| - 1]) == multiset(s) - multiset{x}
  {
    assert s == s[..|s| - 1] + [x];
  }

  lemma PushedUp<T(!new)>(cmp: Compare<T>, vs: seq<T>, x: T)
    requires HeapOrdered(cmp, vs) && vs != []
    ensures UpBroken(cmp, vs + [x], |vs|)
  {
    var s := vs + [x];
    forall i | 2 <= i < |s| && i != |vs| ensures Above(cmp, s, i) {
      assert Above(cmp, vs, i);
    }
  }

  lemma MovedAround<T(!new)>(cmp: Compare<T>, vs: seq<T>, k: nat)
    requires TotalPreorder(cmp) && HeapOrdered(cmp, vs) && 1 <= k < |vs|
    ensures var last := |vs| - 1;
      var s := Swapped(vs, k, last)[..last];
      (k < last ==> BrokenAt(cmp, s, k)) && (k == last ==> HeapOrdered(cmp, s))
  {
    var last := |vs| - 1;
    PrefixOrdered(cmp, vs, last);
    if k < last {
      ChangeBreaksAt(cmp, vs[..last], k, vs[last]);
      assert Swapped(vs, k, last)[..last] == vs[..last][k := vs[last]];
    } else {
      assert Swapped(vs, k, last)[..last] == vs[..last];
    }
  }

  lemma RootMoved<T(!new)>(cmp: Compare<T>, vs: seq<T>)
    requires if 1 < |vs| then BrokenAt(cmp, vs, 1) else HeapOrdered(cmp, vs)
    ensures DownBroken(cmp, vs, 1)
  {
  }

  lemma RootLeastOfAll<T(!new)>(cmp: Compare<T>, vs: seq<T>)
    requires TotalPreorder(cmp) && HeapOrdered(cmp, vs) && 1 < |vs|
    ensures forall y :: y in multiset(vs[1..]) ==> cmp(vs[1], y) <= 0
  {
    forall y | y in multiset(vs[1..]) ensures cmp(vs[1], y) <= 0 {
      var i :| 0 <= i < |vs[1..]| && vs[1..][i] == y;
      RootIsLeast(cmp, vs, i + 1);
    }
  }

  lemma SwapStep<N, T>(nodes: seq<N>, values: seq<T>, ns: seq<N>, vs: seq<T>, k: nat, j: nat)
    requires Rearranged(nodes, ns) && Rearranged(values, vs) && |ns| == |vs| && 1 <= k < |ns| && 1 <= j < |ns|
    ensures Rearranged(nodes, Swapped(ns, k, j)) && Rearranged(values, Swapped(vs, k, j))
    ensures |Swapped(ns, k, j)| == |nodes| && Members(Swapped(ns, k, j)) == Members(nodes)
  {
    hide Swapped, Rearranged, Members;
    SwapRearranges(ns, k, j);
    SwapRearranges(vs, k, j);
    RearrangedTrans(nodes, ns, Swapped(ns, k, j));
    RearrangedTrans(values, vs, Swapped(vs, k, j));
    RearrangedMembers(nodes, Swapped(ns, k, j));
  }

  lemma ChildrenAbove<T(!new)>(cmp: Compare<T>, vs: seq<T>, k: nat, j: nat)
    requires TotalPreorder(cmp) && 1 < j < |vs| && j / 2 == k && cmp(vs[k], vs[j]) <= 0
    requires forall i :: 2 <= i < |vs| && i / 2 == k ==> cmp(vs[j], vs[i]) <= 0
    ensures forall i :: 2 <= i < |vs| && i / 2 == k ==> Above(cmp, vs, i)
  {
  }
}
