/**
 * The range tracker: a run-length compressed step function from primary to secondary numbers
 * (common/lib/common-utils/src/rangeTracker.ts). It refines the plain log of the pairs that were added.
 */
module RangeTracker {
  import opened Common
  import opened Options

  /** Offsets 0..length above `primary` map to the same offsets above `secondary`. */
  datatype Range = Range(primary: int, secondary: int, length: nat)

  datatype Snapshot = Snapshot(ranges: seq<Range>, lastPrimary: int, lastSecondary: int)

  datatype Pair = Pair(primary: int, secondary: int)

  // ---------- The log ----------

  /** The secondary of the last logged pair whose primary is at most q. */
  function Lookup(log: seq<Pair>, q: int): Option<int> {
    if log == [] then None
    else if log[|log| - 1].primary <= q then Some(log[|log| - 1].secondary)
    else Lookup(log[..|log| - 1], q)
  }

  predicate Monotone(log: seq<Pair>) {
    forall i, j :: 0 <= i <= j < |log| ==> log[i].primary <= log[j].primary && log[i].secondary <= log[j].secondary
  }

  // ---------- The ranges ----------

  function RangeEnd(r: Range): Pair {
    Pair(r.primary + r.length, r.secondary + r.length)
  }

  function ValueIn(r: Range, q: int): int {
    Min(q - r.primary, r.length) + r.secondary
  }

  /** The index of the range that answers q: the one before the first later range that starts beyond q. */
  function Segment(ranges: seq<Range>, q: int, i: nat): (k: nat)
    requires i < |ranges|
    ensures i <= k < |ranges|
    ensures forall j :: i < j <= k ==> ranges[j].primary <= q
    ensures k + 1 < |ranges| ==> q < ranges[k + 1].primary
    decreases |ranges| - i
  {
    if i + 1 == |ranges| || q < ranges[i + 1].primary then i else Segment(ranges, q, i + 1)
  }

  function At(ranges: seq<Range>, q: int): int
    requires ranges != []
  {
    ValueIn(ranges[Segment(ranges, q, 0)], q)
  }

  /** Ranges follow each other without overlapping. */
  predicate Ordered(ranges: seq<Range>) {
    forall i, j :: 0 <= i < j < |ranges| ==>
      ranges[i].primary + ranges[i].length < ranges[j].primary
        && ranges[i].secondary + ranges[i].length <= ranges[j].secondary
  }

  // ---------- The operations on ranges ----------

  /** `add`, after its assertions. */
  function AddTo(ranges: seq<Range>, primary: int, secondary: int): (r: seq<Range>)
    requires ranges != []
    ensures r != []
  {
    var last := |ranges| - 1;
    var head := ranges[last];
    var end := RangeEnd(head);
    if secondary == end.secondary then ranges
    else if primary == end.primary then
      if head.length == 0 then ranges[last := head.(secondary := secondary)]
      else ranges[last := head.(length := head.length - 1)] + [Range(primary, secondary, 0)]
    else if end.primary + 1 == primary && end.secondary + 1 == secondary
      then ranges[last := head.(length := head.length + 1)]
    else ranges + [Range(primary, secondary, 0)]
  }

  /** The range cut off below p. */
  function CutAt(r: Range, p: int): Range {
    Range(p, r.secondary + Min(p - r.primary, r.length), Max(r.length - (p - r.primary), 0))
  }

  /** `updateBase`, after its assertion. */
  function Rebase(ranges: seq<Range>, p: int): (r: seq<Range>)
    requires ranges != []
    ensures r != []
  {
    var k := Segment(ranges, p, 0);
    [CutAt(ranges[k], p)] + ranges[k + 1..]
  }

  // ---------- Refinement ----------

  /** The tracker answers like the log from its base on. */
  ghost predicate Answers(ranges: seq<Range>, log: seq<Pair>)
    requires ranges != []
  {
    forall q :: q >= ranges[0].primary ==> Lookup(log, q) == Some(At(ranges, q))
  }

  function Head(ranges: seq<Range>): Range
    requires ranges != []
  {
    ranges[|ranges| - 1]
  }

  /** What every operation keeps, wherever the base is moved. */
  ghost predicate Refines(t: Snapshot, log: seq<Pair>) {
    && t.ranges != [] && log != [] && Monotone(log)
    && log[|log| - 1] == Pair(t.lastPrimary, t.lastSecondary)
    && (forall j :: 1 <= j < |t.ranges| ==> t.ranges[j].primary <= t.lastPrimary)
    && RangeEnd(Head(t.ranges)).primary <= Max(t.ranges[0].primary, t.lastPrimary)
    && RangeEnd(Head(t.ranges)).secondary == t.lastSecondary
    && Answers(t.ranges, log)
  }

  predicate Accepts(t: Snapshot, primary: int, secondary: int) {
    primary >= t.lastPrimary && secondary >= t.lastSecondary
  }

  /** What a client can check before `add`: the pair repeats the last secondary or does not lie below the base. */
  predicate InPlace(t: Snapshot, primary: int, secondary: int)
    requires t.ranges != []
  {
    secondary == t.lastSecondary || primary >= t.ranges[0].primary
  }

  function Added(t: Snapshot, primary: int, secondary: int): Snapshot
    requires t.ranges != []
  {
    Snapshot(AddTo(t.ranges, primary, secondary), primary, secondary)
  }

  function Rebased(t: Snapshot, p: int): Snapshot
    requires t.ranges != []
  {
    t.(ranges := Rebase(t.ranges, p))
  }

  lemma StartRefines(primary: int, secondary: int)
    ensures var t := Snapshot([Range(primary, secondary, 0)], primary, secondary);
      Refines(t, [Pair(primary, secondary)]) && Ordered(t.ranges)
  {
  }

  /** Every range but the first starts at or before q, so the last one answers. */
  lemma LastAnswers(ranges: seq<Range>, q: int)
    requires ranges != [] && forall j :: 1 <= j < |ranges| ==> ranges[j].primary <= q
    ensures Segment(ranges, q, 0) == |ranges| - 1
  {
  }

  /** Below the primary of a pushed range nothing changes. */
  lemma {:induction false} PushKeeps(ranges: seq<Range>, r: Range, q: int, i: nat)
    requires i < |ranges| && q < r.primary
    ensures Segment(ranges + [r], q, i) == Segment(ranges, q, i)
    decreases |ranges| - i
  {
    if i + 1 < |ranges| && q >= ranges[i + 1].primary {
      PushKeeps(ranges, r, q, i + 1);
    }
  }

  /** Changing the secondary or the length of the last range changes no segment. */
  lemma {:induction false} HeadKeepsSegments(ranges: seq<Range>, r: Range, q: int, i: nat)
    requires i < |ranges| && r.primary == Head(ranges).primary
    ensures Segment(ranges[|ranges| - 1 := r], q, i) == Segment(ranges, q, i)
    decreases |ranges| - i
  {
    if i + 1 < |ranges| && q >= ranges[i + 1].primary {
      HeadKeepsSegments(ranges, r, q, i + 1);
    }
  }

  lemma LookupAdded(log: seq<Pair>, pair: Pair, q: int)
    ensures Lookup(log + [pair], q) == if pair.primary <= q then Some(pair.secondary) else Lookup(log, q)
  {
    assert (log + [pair])[..|log|] == log;
  }

  /** One answer after `add`. */
  lemma AddAnswers(t: Snapshot, log: seq<Pair>, primary: int, secondary: int, q: int)
    requires Refines(t, log) && Accepts(t, primary, secondary) && q >= t.ranges[0].primary
    ensures AddTo(t.ranges, primary, secondary)[0].primary == t.ranges[0].primary
    ensures At(AddTo(t.ranges, primary, secondary), q) == if primary <= q then secondary else At(t.ranges, q)
  {
    hide Segment, Answers, Monotone, AddTo, At;
    AddShape(t.ranges, primary, secondary);
    if primary <= q {
      AddedAnswers(t, log, primary, secondary, q);
    } else {
      AddKeepsBelow(t.ranges, primary, secondary, q);
    }
  }

  /** `add` changes the head and may push one range. */
  lemma AddShape(ranges: seq<Range>, primary: int, secondary: int)
    requires ranges != []
    ensures var r := AddTo(ranges, primary, secondary);
      && |ranges| <= |r| <= |ranges| + 1 && r[0].primary == ranges[0].primary
      && (forall j :: 0 <= j < |ranges| ==> r[j].primary == ranges[j].primary)
      && (|r| > |ranges| ==> Head(r) == Range(primary, secondary, 0))
  {
  }

  lemma AddedAnswers(t: Snapshot, log: seq<Pair>, primary: int, secondary: int, q: int)
    requires Refines(t, log) && Accepts(t, primary, secondary) && q >= t.ranges[0].primary && primary <= q
    ensures At(AddTo(t.ranges, primary, secondary), q) == secondary
  {
    hide Segment, Answers, Monotone;
    var r := AddTo(t.ranges, primary, secondary);
    AddShape(t.ranges, primary, secondary);
    LastAnswers(r, q);
  }

  lemma AddKeepsBelow(ranges: seq<Range>, primary: int, secondary: int, q: int)
    requires ranges != [] && ranges[0].primary <= q < primary
    ensures At(AddTo(ranges, primary, secondary), q) == At(ranges, q)
  {
    hide Segment;
    var r := AddTo(ranges, primary, secondary);
    var last := |ranges| - 1;
    HeadKeepsSegments(ranges, r[last], q, 0);
    assert r[..|ranges|] == ranges[last := r[last]];
    if |r| > |ranges| {
      PushKeeps(r[..|ranges|], Head(r), q, 0);
      assert r == r[..|ranges|] + [Head(r)];
    }
  }

  lemma AddRefines(t: Snapshot, log: seq<Pair>, primary: int, secondary: int)
    requires Refines(t, log) && Accepts(t, primary, secondary)
    ensures Refines(Added(t, primary, secondary), log + [Pair(primary, secondary)])
    ensures AddTo(t.ranges, primary, secondary)[0].primary == t.ranges[0].primary
  {
    var log' := log + [Pair(primary, secondary)];
    AddAnswers(t, log, primary, secondary, t.ranges[0].primary);
    var t' := Added(t, primary, secondary);
    forall q | q >= t'.ranges[0].primary ensures Lookup(log', q) == Some(At(t'.ranges, q)) {
      AddAnswers(t, log, primary, secondary, q);
      LookupAdded(log, Pair(primary, secondary), q);
    }
  }

  /**
   * An accepted pair keeps the ranges in order if and only if it repeats the last secondary or does not lie
   * below the base.
   */
  lemma AddOrdered(t: Snapshot, log: seq<Pair>, primary: int, secondary: int)
    requires Refines(t, log) && Ordered(t.ranges) && Accepts(t, primary, secondary)
    ensures Ordered(AddTo(t.ranges, primary, secondary)) <==> InPlace(t, primary, secondary)
  {
    hide Answers, Monotone, Segment, At;
    var r := AddTo(t.ranges, primary, secondary);
    if !InPlace(t, primary, secondary) {
      assert r == t.ranges + [Range(primary, secondary, 0)];
      assert r[|r| - 1].primary < r[0].primary;
    }
  }

  /** Segments from the cut on. */
  lemma {:induction false} CutSegments(ranges: seq<Range>, r: Range, k: nat, q: int, i: nat)
    requires k + i < |ranges| && r.primary <= q
    ensures Segment([r] + ranges[k + 1..], q, i) + k == Segment(ranges, q, k + i)
    decreases |ranges| - i
  {
    var cut := [r] + ranges[k + 1..];
    assert forall j :: 1 <= j < |cut| ==> cut[j] == ranges[k + j];
    if i + 1 < |cut| && q >= cut[i + 1].primary {
      CutSegments(ranges, r, k, q, i + 1);
    }
  }

  lemma {:induction false} SegmentFrom(ranges: seq<Range>, q: int, k: nat)
    requires k < |ranges| && forall j :: 1 <= j <= k ==> ranges[j].primary <= q
    ensures Segment(ranges, q, 0) == Segment(ranges, q, k)
  {
    if k > 0 {
      SegmentFrom(ranges, q, k - 1);
    }
  }

  /** Cutting a range keeps its values from the cut on. */
  lemma CutKeepsValues(r: Range, p: int, q: int)
    requires r.primary <= p <= q
    ensures CutAt(r, p).primary == p && ValueIn(CutAt(r, p), q) == ValueIn(r, q)
    ensures RangeEnd(CutAt(r, p)).secondary == RangeEnd(r).secondary
    ensures RangeEnd(CutAt(r, p)).primary == Max(p, RangeEnd(r).primary)
  {
  }

  lemma RebaseAnswers(ranges: seq<Range>, p: int, q: int)
    requires ranges != [] && ranges[0].primary <= p <= q
    ensures At(Rebase(ranges, p), q) == At(ranges, q)
  {
    hide CutAt, ValueIn, Segment, Rebase;
    var k := Segment(ranges, p, 0);
    var cut := CutAt(ranges[k], p);
    RebaseIs(ranges, p, k);
    SegmentFrom(ranges, q, k);
    CutKeepsValues(ranges[k], p, q);
    CutSegments(ranges, cut, k, q, 0);
    var i := Segment([cut] + ranges[k + 1..], q, 0);
    assert i > 0 ==> ([cut] + ranges[k + 1..])[i] == ranges[k + i];
  }

  lemma CutIs(r: Range, p: int)
    ensures CutAt(r, p) == Range(p, r.secondary + Min(p - r.primary, r.length), Max(r.length - (p - r.primary), 0))
  {
  }

  lemma RebaseIs(ranges: seq<Range>, p: int, k: nat)
    requires ranges != [] && k == Segment(ranges, p, 0)
    ensures Rebase(ranges, p) == [CutAt(ranges[k], p)] + ranges[k + 1..]
  {
  }

  lemma CutInPlace(ranges: seq<Range>, k: nat, cut: Range)
    requires k < |ranges|
    ensures ranges[k := cut][k..] == [cut] + ranges[k + 1..]
    ensures k == 0 ==> ranges[k := cut] == [cut] + ranges[1..]
  {
  }

  lemma RebaseRefines(t: Snapshot, log: seq<Pair>, p: int)
    requires Refines(t, log) && p >= t.ranges[0].primary
    ensures Refines(Rebased(t, p), log) && Rebase(t.ranges, p)[0].primary == p
  {
    var t' := Rebased(t, p);
    var k := Segment(t.ranges, p, 0);
    CutKeepsValues(t.ranges[k], p, p);
    forall q | q >= p ensures Lookup(log, q) == Some(At(t'.ranges, q)) {
      RebaseAnswers(t.ranges, p, q);
    }
  }

  /** Moving the base keeps the ranges in order, wherever it is moved. */
  lemma RebaseOrdered(ranges: seq<Range>, p: int)
    requires ranges != [] && Ordered(ranges) && p >= ranges[0].primary
    ensures Ordered(Rebase(ranges, p))
  {
    hide Segment, CutAt, Ordered;
    var k := Segment(ranges, p, 0);
    CutKeepsValues(ranges[k], p, p);
    CutOrdered(ranges, CutAt(ranges[k], p), k, p);
  }

  lemma CutOrdered(ranges: seq<Range>, cut: Range, k: nat, p: int)
    requires Ordered(ranges) && k < |ranges| && ranges[k].primary <= p
        && (k + 1 < |ranges| ==> p < ranges[k + 1].primary)
    requires RangeEnd(cut).secondary == RangeEnd(ranges[k]).secondary
        && RangeEnd(cut).primary == Max(p, RangeEnd(ranges[k]).primary)
    ensures Ordered([cut] + ranges[k + 1..])
  {
    var r := [cut] + ranges[k + 1..];
    forall i, j | 0 <= i < j < |r|
      ensures r[i].primary + r[i].length < r[j].primary && r[i].secondary + r[i].length <= r[j].secondary
    {
      assert r[j] == ranges[k + j];
      if i > 0 {
        assert r[i] == ranges[k + i];
      } else if j > 1 {
        assert ranges[k + 1].primary + ranges[k + 1].length < ranges[k + j].primary;
      }
    }
  }

  // ---------- Queries ----------

  lemma {:induction false} LookupMonotone(log: seq<Pair>, p: int, q: int)
    requires Monotone(log) && p <= q && Lookup(log, p).Some?
    ensures Lookup(log, q).Some? && Lookup(log, p).value <= Lookup(log, q).value
    ensures exists i :: 0 <= i < |log| && log[i].secondary == Lookup(log, p).value
  {
    var last := |log| - 1;
    if log[last].primary > q {
      LookupMonotone(log[..last], p, q);
      assert forall i :: 0 <= i < last ==> log[..last][i] == log[i];
    } else if log[last].primary > p {
      LookupMonotone(log[..last], p, p);
      assert forall i :: 0 <= i < last ==> log[..last][i] == log[i];
    }
  }

  /** From the base on, later primaries never have smaller secondaries. */
  lemma GetMonotone(t: Snapshot, log: seq<Pair>, p: int, q: int)
    requires Refines(t, log) && t.ranges[0].primary <= p <= q
    ensures At(t.ranges, p) <= At(t.ranges, q)
  {
    LookupMonotone(log, p, q);
    assert Lookup(log, p) == Some(At(t.ranges, p)) && Lookup(log, q) == Some(At(t.ranges, q));
  }

  // ---------- Whole runs ----------

  datatype Step = Add(primary: int, secondary: int) | UpdateBase(base: int)

  /** A step whose assertion fails changes nothing. */
  function Apply(t: Snapshot, step: Step): (r: Snapshot)
    requires t.ranges != []
    ensures r.ranges != []
  {
    match step
    case Add(primary, secondary) => if Accepts(t, primary, secondary) then Added(t, primary, secondary) else t
    case UpdateBase(p) => if p >= t.ranges[0].primary then Rebased(t, p) else t
  }

  function Record(t: Snapshot, log: seq<Pair>, step: Step): seq<Pair> {
    if step.Add? && Accepts(t, step.primary, step.secondary) then log + [Pair(step.primary, step.secondary)] else log
  }

  function Run(t: Snapshot, steps: seq<Step>): (r: Snapshot)
    requires t.ranges != []
    ensures r.ranges != []
  {
    if steps == [] then t else Apply(Run(t, steps[..|steps| - 1]), steps[|steps| - 1])
  }

  function RunLog(t: Snapshot, log: seq<Pair>, steps: seq<Step>): seq<Pair>
    requires t.ranges != []
  {
    if steps == [] then log
    else
      var before := steps[..|steps| - 1];
      Record(Run(t, before), RunLog(t, log, before), steps[|steps| - 1])
  }

  /** n pairs that each go one further than the last in both numbers. */
  function Diagonal(primary: int, secondary: int, n: nat): seq<Step> {
    seq(n, i requires 0 <= i < n => Step.Add(primary + i + 1, secondary + i + 1))
  }

  /** They are kept in one range, however many they are. */
  lemma {:induction false} DiagonalIsOneRange(t: Snapshot, n: nat)
    requires t.ranges != [] && RangeEnd(Head(t.ranges)) == Pair(t.lastPrimary, t.lastSecondary)
    ensures
      var last, head := |t.ranges| - 1, Head(t.ranges);
      Run(t, Diagonal(t.lastPrimary, t.lastSecondary, n))
        == Snapshot(t.ranges[last := head.(length := head.length + n)], t.lastPrimary + n, t.lastSecondary + n)
  {
    var steps := Diagonal(t.lastPrimary, t.lastSecondary, n);
    if n > 0 {
      DiagonalIsOneRange(t, n - 1);
      assert steps[..n - 1] == Diagonal(t.lastPrimary, t.lastSecondary, n - 1);
    }
  }

  /** After any run the tracker answers like the log of the accepted pairs. */
  lemma {:induction false} RunRefines(t: Snapshot, log: seq<Pair>, steps: seq<Step>)
    requires Refines(t, log)
    ensures Refines(Run(t, steps), RunLog(t, log, steps))
  {
    if steps != [] {
      var before := steps[..|steps| - 1];
      RunRefines(t, log, before);
      StepRefines(Run(t, before), RunLog(t, log, before), steps[|steps| - 1]);
    }
  }

  lemma StepRefines(t: Snapshot, log: seq<Pair>, step: Step)
    requires Refines(t, log)
    ensures Refines(Apply(t, step), Record(t, log, step))
  {
    hide Refines, Added, Rebased;
    HasRanges(t, log);
    match step {
      case Add(primary, secondary) =>
        if Accepts(t, primary, secondary) {
          AddRefines(t, log, primary, secondary);
        }
      case UpdateBase(p) =>
        if p >= t.ranges[0].primary {
          RebaseRefines(t, log, p);
        }
    }
  }

  lemma HasRanges(t: Snapshot, log: seq<Pair>)
    requires Refines(t, log)
    ensures t.ranges != [] && log != []
  {
  }

  /** Every accepted pair of the run repeats the last secondary or does not lie below the base of its time. */
  predicate AddsInPlace(t: Snapshot, steps: seq<Step>)
    requires t.ranges != []
  {
    steps == []
    || (var before := steps[..|steps| - 1];
        AddsInPlace(t, before) && StepInPlace(Run(t, before), steps[|steps| - 1]))
  }

  predicate StepInPlace(t: Snapshot, step: Step)
    requires t.ranges != []
  {
    step.Add? && Accepts(t, step.primary, step.secondary) ==> InPlace(t, step.primary, step.secondary)
  }

  lemma StepOrdered(t: Snapshot, log: seq<Pair>, step: Step)
    requires Refines(t, log) && Ordered(t.ranges)
    ensures Ordered(Apply(t, step).ranges) <==> StepInPlace(t, step)
  {
    hide Refines, Ordered, AddTo, Rebase, InPlace;
    HasRanges(t, log);
    match step {
      case Add(primary, secondary) =>
        if Accepts(t, primary, secondary) {
          AddOrdered(t, log, primary, secondary);
        }
      case UpdateBase(p) =>
        if p >= t.ranges[0].primary {
          RebaseOrdered(t.ranges, p);
        }
    }
  }

  /** The ranges are in order throughout a run if and only if its pairs are all in place. */
  lemma {:induction false} RunOrdered(t: Snapshot, log: seq<Pair>, steps: seq<Step>)
    requires Refines(t, log) && Ordered(t.ranges)
    ensures AddsInPlace(t, steps) <==> forall k :: 0 <= k <= |steps| ==> Ordered(Run(t, steps[..k]).ranges)
  {
    hide Refines, Ordered, StepInPlace, Apply;
    HasRanges(t, log);
    if steps == [] {
      assert steps[..0] == steps;
    } else {
      var before := steps[..|steps| - 1];
      RunOrdered(t, log, before);
      RunRefines(t, log, before);
      assert forall k :: 0 <= k < |steps| ==> before[..k] == steps[..k];
      assert steps[..|steps|] == steps && before[..|before|] == before;
      if Ordered(Run(t, before).ranges) {
        StepOrdered(Run(t, before), RunLog(t, log, before), steps[|steps| - 1]);
      }
    }
  }

  /** No step of the run moves the base beyond the last primary of its time. */
  predicate BasesReached(t: Snapshot, steps: seq<Step>)
    requires t.ranges != []
  {
    steps == []
    || (var before := steps[..|steps| - 1];
        var step := steps[|steps| - 1];
        BasesReached(t, before) && (step.UpdateBase? ==> step.base <= Run(t, before).lastPrimary))
  }

  /** Such a run keeps its base at or below the last primary, so all its pairs are in place. */
  lemma {:induction false} ReachedInPlace(t: Snapshot, log: seq<Pair>, steps: seq<Step>)
    requires Refines(t, log) && t.ranges[0].primary <= t.lastPrimary && BasesReached(t, steps)
    ensures AddsInPlace(t, steps) && Run(t, steps).ranges[0].primary <= Run(t, steps).lastPrimary
  {
    hide Refines, AddTo, Rebase, Accepts;
    HasRanges(t, log);
    if steps != [] {
      var before := steps[..|steps| - 1];
      ReachedInPlace(t, log, before);
      RunRefines(t, log, before);
      ReachedStep(Run(t, before), RunLog(t, log, before), steps[|steps| - 1]);
    }
  }

  lemma ReachedStep(t: Snapshot, log: seq<Pair>, step: Step)
    requires Refines(t, log) && t.ranges[0].primary <= t.lastPrimary
        && (step.UpdateBase? ==> step.base <= t.lastPrimary)
    ensures StepInPlace(t, step) && Apply(t, step).ranges[0].primary <= Apply(t, step).lastPrimary
  {
    hide Answers, Monotone, AddTo, Rebase;
    match step {
      case Add(primary, secondary) => AddShape(t.ranges, primary, secondary);
      case UpdateBase(p) =>
        if p >= t.ranges[0].primary {
          RebaseRefines(t, log, p);
        }
    }
  }

  /**
   * With the base moved beyond the last primary, a pair below the base is accepted and puts the ranges out of order,
   * though every answer stays right.
   */
  lemma AddBelowBase()
    ensures var t := Run(Snapshot([Range(0, 0, 0)], 0, 0), [UpdateBase(10), Add(5, 1)]);
      t.ranges == [Range(10, 0, 0), Range(5, 1, 0)] && !Ordered(t.ranges)
  {
    hide Rebase, AddTo, Ordered;
    RebasedStart();
    AddedBelow(Range(10, 0, 0), 5, 1);
    var start := Snapshot([Range(0, 0, 0)], 0, 0);
    var steps := [UpdateBase(10), Add(5, 1)];
    assert steps[..1] == [UpdateBase(10)] && steps[..1][..0] == [];
    assert Run(start, steps[..1]) == Snapshot([Range(10, 0, 0)], 0, 0);
  }

  lemma RebasedStart()
    ensures Rebase([Range(0, 0, 0)], 10) == [Range(10, 0, 0)]
  {
    hide Segment;
    var k := Segment([Range(0, 0, 0)], 10, 0);
    assert CutAt(Range(0, 0, 0), 10) == Range(10, 0, 0);
  }

  lemma AddedBelow(head: Range, primary: int, secondary: int)
    requires head.length == 0 && primary < head.primary && secondary > head.secondary
    ensures AddTo([head], primary, secondary) == [head, Range(primary, secondary, 0)]
    ensures !Ordered([head, Range(primary, secondary, 0)])
  {
    hide Ordered;
    NotOrdered([head, Range(primary, secondary, 0)]);
  }

  lemma NotOrdered(ranges: seq<Range>)
    requires |ranges| > 1 && ranges[1].primary < ranges[0].primary
    ensures !Ordered(ranges)
  {
  }

  // ---------- The tracker ----------

  class RangeTracker {
    var ranges: seq<Range>
    var lastPrimary: int
    var lastSecondary: int
    ghost var log: seq<Pair>

    ghost function State(): Snapshot
      reads this
    {
      Snapshot(ranges, lastPrimary, lastSecondary)
    }

    ghost predicate Valid()
      reads this
    {
      Refines(State(), log)
    }

    constructor (primary: int, secondary: int)
      ensures Valid() && Ordered(ranges)
      ensures log == [Pair(primary, secondary)] && ranges == [Range(primary, secondary, 0)]
    {
      ranges := [Range(primary, secondary, 0)];
      lastPrimary, lastSecondary := primary, secondary;
      log := [Pair(primary, secondary)];
      new;
      StartRefines(primary, secondary);
    }

    /**
     * A tracker restored from a snapshot is in the state that was written, whatever it is; it carries on where the
     * tracker that wrote it stopped.
     */
    constructor Restore(snapshot: Snapshot, ghost history: seq<Pair>)
      ensures State() == snapshot && log == history
      ensures Refines(snapshot, history) ==> Valid()
    {
      ranges, lastPrimary, lastSecondary := snapshot.ranges, snapshot.lastPrimary, snapshot.lastSecondary;
      log := history;
    }

    method Serialize() returns (snapshot: Snapshot)
      ensures snapshot == State()
    {
      snapshot := Snapshot(ranges, lastPrimary, lastSecondary);
    }

    /** False when an assertion fails. */
    method Add(primary: int, secondary: int) returns (ok: bool)
      requires Valid()
      modifies this
      ensures Valid() && ranges[0].primary == old(ranges[0].primary)
      ensures ok == (primary >= old(lastPrimary) && secondary >= old(lastSecondary))
      ensures if ok then log == old(log) + [Pair(primary, secondary)] else State() == old(State()) && log == old(log)
      ensures State() == Apply(old(State()), Step.Add(primary, secondary))
      ensures ok && old(Ordered(ranges)) ==> (Ordered(ranges) <==> InPlace(old(State()), primary, secondary))
    {
      hide Refines, Ordered, InPlace;
      if primary < lastPrimary || secondary < lastSecondary {
        return false;
      }
      HasRanges(State(), log);
      AddRefines(State(), log, primary, secondary);
      if Ordered(ranges) {
        AddOrdered(State(), log, primary, secondary);
      }
      log := log + [Pair(primary, secondary)];
      lastPrimary, lastSecondary := primary, secondary;
      var last := |ranges| - 1;
      var head := ranges[last];
      var primaryHead := head.primary + head.length;
      var secondaryHead := head.secondary + head.length;
      if secondary == secondaryHead {
        return true;
      }
      if primary == primaryHead {
        if head.length == 0 {
          ranges := ranges[last := head.(secondary := secondary)];
        } else {
          ranges := ranges[last := head.(length := head.length - 1)];
          ranges := ranges + [Range(primary, secondary, 0)];
        }
      } else if primaryHead + 1 == primary && secondaryHead + 1 == secondary {
        ranges := ranges[last := head.(length := head.length + 1)];
      } else {
        ranges := ranges + [Range(primary, secondary, 0)];
      }
      ok := true;
    }

    /** The index after the range that answers `primary`. */
    method FindSegment(primary: int) returns (index: nat)
      requires ranges != []
      ensures 1 <= index <= |ranges| && index - 1 == Segment(ranges, primary, 0)
    {
      index := 1;
      while index < |ranges| && primary >= ranges[index].primary
        invariant 1 <= index <= |ranges|
        invariant Segment(ranges, primary, 0) == Segment(ranges, primary, index - 1)
      {
        index := index + 1;
      }
    }

    /** The secondary of the last pair added at or below `primary`; None when an assertion fails. */
    method Get(primary: int) returns (r: Option<int>)
      requires Valid()
      ensures r == if primary >= ranges[0].primary then Lookup(log, primary) else None
      ensures primary >= ranges[0].primary ==> r.Some?
    {
      if primary < ranges[0].primary {
        return None;
      }
      var index := FindSegment(primary);
      var closest := ranges[index - 1];
      r := Some(Min(primary - closest.primary, closest.length) + closest.secondary);
      assert Lookup(log, primary) == Some(At(ranges, primary));
    }

    method UpdateBase(primary: int) returns (ok: bool)
      requires Valid()
      modifies this
      ensures Valid() && log == old(log)
      ensures ok == (primary >= old(ranges[0].primary))
      ensures if ok then ranges[0].primary == primary else State() == old(State())
      ensures State() == Apply(old(State()), Step.UpdateBase(primary))
      ensures old(Ordered(ranges)) ==> Ordered(ranges)
    {
      hide Refines, Segment, Rebase, CutAt, AddTo, Ordered, Min;
      HasRanges(State(), log);
      if primary < ranges[0].primary {
        return false;
      }
      RebaseRefines(State(), log, primary);
      if Ordered(ranges) {
        RebaseOrdered(ranges, primary);
      }
      var index := FindSegment(primary);
      var range := ranges[index - 1];
      var delta := primary - range.primary;
      var cut := Range(primary, range.secondary + Min(delta, range.length), Max(range.length - delta, 0));
      ranges := ranges[index - 1 := cut];
      if index - 1 > 0 {
        ranges := ranges[index - 1..];
      }
      ok := true;
      CutIs(range, primary);
      CutInPlace(old(ranges), index - 1, cut);
      RebaseIs(old(ranges), primary, index - 1);
    }
  }
}
