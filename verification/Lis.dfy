/**
 * The longest increasing subsequence of an array, found by patience sorting
 * (examples/data-objects/flow-util-lib/src/lis.ts).
 */
module Lis {

  /** `idx` lists positions of `x`, left to right, whose values strictly increase. */
  ghost predicate IsIncreasingPick(x: seq<int>, idx: seq<int>)
  {
    && (forall j :: 0 <= j < |idx| ==> 0 <= idx[j] < |x|)
    && (forall j, k :: 0 <= j < k < |idx| ==> idx[j] < idx[k] && x[idx[j]] < x[idx[k]])
  }

  ghost predicate PickedBy(x: seq<int>, idx: seq<int>, r: seq<int>)
  {
    && IsIncreasingPick(x, idx)
    && |r| == |idx|
    && forall j :: 0 <= j < |idx| ==> r[j] == x[idx[j]]
  }

  /** `r` is a strictly increasing subsequence of `x` ... */
  ghost predicate IsIncreasingSubsequence(x: seq<int>, r: seq<int>)
  {
    exists idx: seq<int> :: PickedBy(x, idx, r)
  }

  /** ... and no other one is longer. */
  ghost predicate IsLongest(x: seq<int>, r: seq<int>)
  {
    && IsIncreasingSubsequence(x, r)
    && forall other: seq<int> :: IsIncreasingSubsequence(x, other) ==> |other| <= |r|
  }

  /**
   * What the table `m` promises about the first `i` elements: a pick of length L that ends before
   * `i` ends no lower than x[m[L - 1]].
   */
  ghost predicate Dominates(x: seq<int>, m: seq<int>, i: int)
  {
    && (forall j :: 0 <= j < |m| ==> 0 <= m[j] < i <= |x|)
    && forall idx: seq<int> :: EndsBefore(x, idx, i) ==> |idx| <= |m| && x[m[|idx| - 1]] <= x[idx[|idx| - 1]]
  }

  ghost predicate EndsBefore(x: seq<int>, idx: seq<int>, i: int)
  {
    IsIncreasingPick(x, idx) && idx != [] && idx[|idx| - 1] < i
  }

  /** The tails recorded in `m` strictly increase. */
  ghost predicate TailsIncrease(x: seq<int>, m: seq<int>)
  {
    && (forall j :: 0 <= j < |m| ==> 0 <= m[j] < |x|)
    && (forall j, k :: 0 <= j < k < |m| ==> x[m[j]] < x[m[k]])
  }

  /**
   * `rank[k]` is the slot of `m` that element k was written to (-1 if it never was); following `p`
   * from an element of rank r > 0 leads to an earlier, smaller element of rank r - 1.
   */
  ghost predicate Chained(x: seq<int>, p: seq<int>, rank: seq<int>)
  {
    && |rank| <= |x| == |p|
    && forall k :: 0 <= k < |rank| && rank[k] > 0 ==>
        0 <= p[k] < k && rank[p[k]] == rank[k] - 1 && x[p[k]] < x[k]
  }

  ghost predicate Ranked(m: seq<int>, rank: seq<int>)
  {
    forall j :: 0 <= j < |m| ==> 0 <= m[j] < |rank| && rank[m[j]] == j
  }

  /** Recording element i in slot `lo`, the first slot whose tail is not below x[i], keeps the promise. */
  lemma DominatesStep(x: seq<int>, m: seq<int>, m': seq<int>, i: int, lo: int)
    requires 0 <= i < |x|
    requires Dominates(x, m, i)
    requires 0 <= lo <= |m|
    requires forall j :: 0 <= j < lo ==> x[m[j]] < x[i]
    requires forall j :: lo <= j < |m| ==> x[i] <= x[m[j]]
    requires m' == (if lo == |m| then m + [i] else if x[i] < x[m[lo]] then m[lo := i] else m)
    ensures Dominates(x, m', i + 1)
  {
    forall idx: seq<int> | EndsBefore(x, idx, i + 1)
      ensures |idx| <= |m'| && x[m'[|idx| - 1]] <= x[idx[|idx| - 1]]
    {
      var n := |idx| - 1;
      if idx[n] < i {
        assert EndsBefore(x, idx, i);
      } else if n > 0 {
        var front := idx[..n];
        assert EndsBefore(x, front, i);
        assert x[m[n - 1]] <= x[idx[n - 1]] < x[i];
        assert n - 1 < lo;
      }
    }
  }

  /** The loop invariant of `Lis` after i elements. */
  ghost predicate Table(x: seq<int>, m: seq<int>, p: seq<int>, rank: seq<int>, i: int)
  {
    && |m| > 0 && |rank| == i
    && Dominates(x, m, i)
    && TailsIncrease(x, m)
    && Ranked(m, rank)
    && Chained(x, p, rank)
  }

  lemma TableStart(x: seq<int>, p: seq<int>)
    requires |x| == |p| > 0
    ensures Table(x, [0], p, [0], 1)
  {
    forall idx: seq<int> | EndsBefore(x, idx, 1) ensures |idx| <= 1 && x[0] <= x[idx[|idx| - 1]] {
      assert idx[0] >= 0;
    }
  }

  /** Element i goes to slot `lo`, with the tail of slot lo - 1 as its predecessor. */
  lemma TableRecord(x: seq<int>, m: seq<int>, p: seq<int>, rank: seq<int>, i: int, lo: int, m': seq<int>, p': seq<int>)
    requires 0 <= i < |x| && Table(x, m, p, rank, i)
    requires 0 <= lo <= |m| && (lo < |m| ==> x[i] < x[m[lo]])
    requires lo > 0 ==> x[m[lo - 1]] < x[i]
    requires m' == if lo == |m| then m + [i] else m[lo := i]
    requires |p'| == |p| && (forall k :: 0 <= k < |p| && k != i ==> p'[k] == p[k])
    requires lo > 0 ==> p'[i] == m[lo - 1]
    ensures Table(x, m', p', rank + [lo], i + 1)
  {
    TailsAround(x, m, x[i], lo);
    DominatesStep(x, m, m', i, lo);
    TailsStep(x, m, m', i, lo);
    ChainStep(x, m, p, rank, i, lo, m', p');
  }

  lemma TailsAround(x: seq<int>, m: seq<int>, v: int, lo: int)
    requires TailsIncrease(x, m) && 0 <= lo <= |m|
    requires lo < |m| ==> v <= x[m[lo]]
    requires lo > 0 ==> x[m[lo - 1]] < v
    ensures forall j :: 0 <= j < lo ==> x[m[j]] < v
    ensures forall j :: lo <= j < |m| ==> v <= x[m[j]]
  {
    assert forall j :: 0 <= j < lo ==> x[m[j]] <= x[m[lo - 1]];
    assert forall j :: lo <= j < |m| ==> x[m[lo]] <= x[m[j]];
  }

  lemma TailsStep(x: seq<int>, m: seq<int>, m': seq<int>, i: int, lo: int)
    requires TailsIncrease(x, m) && 0 <= i < |x| && 0 <= lo <= |m|
    requires forall j :: 0 <= j < lo ==> x[m[j]] < x[i]
    requires lo < |m| ==> x[i] < x[m[lo]]
    requires m' == if lo == |m| then m + [i] else m[lo := i]
    ensures TailsIncrease(x, m')
  {
  }

  lemma ChainStep(x: seq<int>, m: seq<int>, p: seq<int>, rank: seq<int>, i: int, lo: int, m': seq<int>, p': seq<int>)
    requires 0 <= i < |x| && |rank| == i && Ranked(m, rank) && Chained(x, p, rank)
    requires 0 <= lo <= |m|
    requires lo > 0 ==> x[m[lo - 1]] < x[i]
    requires m' == if lo == |m| then m + [i] else m[lo := i]
    requires |p'| == |p| && (forall k :: 0 <= k < |p| && k != i ==> p'[k] == p[k])
    requires lo > 0 ==> p'[i] == m[lo - 1]
    ensures Ranked(m', rank + [lo]) && Chained(x, p', rank + [lo])
  {
    forall k | 0 <= k <= i && (rank + [lo])[k] > 0
      ensures 0 <= p'[k] < k && (rank + [lo])[p'[k]] == (rank + [lo])[k] - 1 && x[p'[k]] < x[k]
    {
      assert k < i ==> p'[k] == p[k];
      assert lo > 0 ==> rank[m[lo - 1]] == lo - 1;
    }
  }

  /** An element equal to the tail of its slot is passed over. */
  lemma TableSkip(x: seq<int>, m: seq<int>, p: seq<int>, rank: seq<int>, i: int, lo: int)
    requires 0 <= i < |x| && Table(x, m, p, rank, i)
    requires 0 <= lo < |m| && x[i] == x[m[lo]]
    ensures Table(x, m, p, rank + [-1], i + 1)
  {
    TailsAround(x, m, x[i], lo);
    DominatesStep(x, m, m, i, lo);
  }

  /** A table that dominates the whole input bounds the length of every increasing subsequence. */
  lemma NoneLonger(x: seq<int>, m: seq<int>, other: seq<int>)
    requires Dominates(x, m, |x|)
    requires IsIncreasingSubsequence(x, other)
    ensures |other| <= |m|
  {
    var idx :| PickedBy(x, idx, other);
    if idx != [] {
      assert EndsBefore(x, idx, |x|);
    }
  }

  lemma PickFits(x: seq<int>, idx: seq<int>)
    requires IsIncreasingPick(x, idx)
    ensures idx != [] ==> 0 <= idx[0] <= idx[|idx| - 1] < |x|
  {
  }

  lemma EmptyIsLongest(x: seq<int>)
    requires |x| == 0
    ensures IsLongest(x, x)
  {
    assert PickedBy(x, x, x);
    forall idx: seq<int> ensures !EndsBefore(x, idx, 0) {
      if IsIncreasingPick(x, idx) {
        PickFits(x, idx);
      }
    }
    FullTableIsLongest(x, x, x);
  }

  lemma FullTableIsLongest(x: seq<int>, m: seq<int>, r: seq<int>)
    requires Dominates(x, m, |x|) && IsIncreasingSubsequence(x, r) && |r| == |m|
    ensures IsLongest(x, r)
  {
    forall other: seq<int> | IsIncreasingSubsequence(x, other) ensures |other| <= |r| {
      NoneLonger(x, m, other);
    }
  }

  method Lis(x: seq<int>) returns (r: seq<int>)
    ensures IsLongest(x, r)
  {
    if |x| == 0 {
      EmptyIsLongest(x);
      return x;
    }
    var m := [0];
    var p := new int[|x|];
    ghost var rank := [0];
    TableStart(x, p[..]);
    var i := 1;
    while i < |x|
      invariant 1 <= i <= |x| == p.Length
      invariant Table(x, m, p[..], rank, i)
    {
      m, rank := Place(x, i, m, p, rank);
      i := i + 1;
    }
    r := Reconstruct(x, m, p, rank);
    FullTableIsLongest(x, m, r);
  }

  /** One turn of the main loop: finds the slot of x[i] and records it there if it improves the slot. */
  method Place(x: seq<int>, i: int, m: seq<int>, p: array<int>, ghost rank: seq<int>)
    returns (m': seq<int>, ghost rank': seq<int>)
    requires 0 <= i < |x| == p.Length && Table(x, m, p[..], rank, i)
    modifies p
    ensures Table(x, m', p[..], rank', i + 1)
  {
    ghost var p0 := p[..];
    var mj := m[|m| - 1];
    if x[mj] < x[i] {
      p[i] := mj;
      m' := m + [i];
      rank' := rank + [|m|];
      TableRecord(x, m, p0, rank, i, |m|, m', p[..]);
      return;
    }
    var lo := SearchTail(x, m, x[i]);
    if x[i] < x[m[lo]] {
      if lo != 0 {
        p[i] := m[lo - 1];
      }
      m' := m[lo := i];
      rank' := rank + [lo];
      TableRecord(x, m, p0, rank, i, lo, m', p[..]);
    } else {
      m', rank' := m, rank + [-1];
      TableSkip(x, m, p0, rank, i, lo);
    }
  }

  /** The inner binary search: the first slot of `m` whose tail is not below `v`. */
  method SearchTail(x: seq<int>, m: seq<int>, v: int) returns (lo: int)
    requires TailsIncrease(x, m)
    requires |m| > 0 && v <= x[m[|m| - 1]]
    ensures 0 <= lo < |m|
    ensures forall j :: 0 <= j < lo ==> x[m[j]] < v
    ensures v <= x[m[lo]]
  {
    lo := 0;
    var hi := |m| - 1;
    while lo < hi
      invariant 0 <= lo <= hi < |m|
      invariant forall j :: 0 <= j < lo ==> x[m[j]] < v
      invariant v <= x[m[hi]]
    {
      var mid := (lo + hi) / 2;
      if x[m[mid]] < v {
        lo := mid + 1;
      } else {
        hi := mid;
      }
    }
  }

  /** Overwrites the table, last slot first, with the values met on the predecessor chain. */
  method Reconstruct(x: seq<int>, table: seq<int>, p: array<int>, ghost rank: seq<int>) returns (m: seq<int>)
    requires |table| > 0 && |rank| == |x| == p.Length
    requires Ranked(table, rank) && Chained(x, p[..], rank)
    ensures |m| == |table| && IsIncreasingSubsequence(x, m)
  {
    m := table;
    var j := |m|;
    var mj := m[j - 1];
    ghost var picked: seq<int> := [];
    while j > 0
      invariant 0 <= j <= |m| == |table|
      invariant |picked| == |m| - j && PickedBy(x, picked, m[j..])
      invariant j > 0 ==> 0 <= mj < |x| && rank[mj] == j - 1
      invariant j > 0 && picked != [] ==> mj < picked[0] && x[mj] < x[picked[0]]
    {
      j := j - 1;
      m := m[j := x[mj]];
      picked := [mj] + picked;
      assert j > 0 ==> p[..][mj] == p[mj];
      mj := p[mj];
    }
    assert m[0..] == m;
  }
}
