/**
 * Label-aware sliding-window segmentation of the training pipeline
 * (create_sliding_windows in ml_training/train_gesture_model.py).
 *
 * One pass over the label stream closes a segment whenever the label
 * changes or the last index is reached; inside each closed segment,
 * fixed-width windows are cut at offsets 0, stride, 2*stride, ...
 * The scan closes a segment at index i as the half-open range
 * [segment_start, i), so the stream's last sample never lands in a window.
 */
module Windowing {
  import opened Wrappers

  /** One sample: its channel readings in column order. */
  type Row = seq<real>

  /** A gesture label as the training script passes it: a LabelEncoder class index. */
  type Label = int

  /** Default window width (one second at 50 Hz) and default stride. */
  const WINDOW_SIZE: nat := 50
  const STRIDE: nat := 25

  /** A closed segment: the sample indices [start, end) and the label they share. */
  datatype Segment = Segment(start: nat, end: nat, gesture: Label)

  /** Where an emitted window sits: the stream index of its first sample, and its label. */
  datatype Placement = Placement(start: nat, gesture: Label)

  /** `y[0]` on an empty stream, and `range(..., 0)` for a zero stride, both raise. */
  datatype WindowError = EmptyLabels | ZeroStride

  // ---------------------------------------------------------------------
  // The scan that closes segments
  // ---------------------------------------------------------------------

  /**
   * The segments the scan closes from index i on, while the open segment
   * starts at segStart and carries the label cur.
   */
  function Scan(y: seq<Label>, i: nat, segStart: nat, cur: Label): seq<Segment>
    requires 1 <= i <= |y| && segStart < i
    decreases |y| - i
  {
    if i == |y| then []
    else if y[i] != cur || i == |y| - 1 then
      [Segment(segStart, i, cur)] + Scan(y, i + 1, i, y[i])
    else
      Scan(y, i + 1, segStart, cur)
  }

  /** All segments the scan closes over a non-empty stream. */
  function ClosedSegments(y: seq<Label>): seq<Segment>
    requires |y| > 0
  {
    Scan(y, 1, 0, y[0])
  }

  /**
   * segs splits y[lo..hi] into runs: non-empty segments, contiguous and
   * covering the range exactly, each uniform, neighbouring segments carrying
   * different labels.
   */
  ghost predicate RunsOver(y: seq<Label>, segs: seq<Segment>, lo: nat, hi: nat)
  {
    && hi <= |y|
    && (segs != [] ==> segs[0].start == lo && segs[|segs| - 1].end == hi)
    && (forall k :: 0 <= k < |segs| ==> segs[k].start < segs[k].end <= hi)
    && (forall k :: 0 <= k < |segs| - 1 ==> segs[k].end == segs[k + 1].start)
    && (forall k :: 0 <= k < |segs| - 1 ==> segs[k].gesture != segs[k + 1].gesture)
    && (forall k, t :: 0 <= k < |segs| && segs[k].start <= t < segs[k].end ==> y[t] == segs[k].gesture)
  }

  /** segs is the decomposition of z into its maximal runs of equal labels. */
  ghost predicate IsRunDecomposition(z: seq<Label>, segs: seq<Segment>)
  {
    (segs == [] <==> |z| == 0) && RunsOver(z, segs, 0, |z|)
  }

  /** A uniform run put in front of runs that start where it ends, with a different label. */
  lemma ConsRun(y: seq<Label>, seg: Segment, rest: seq<Segment>, lo: nat, hi: nat)
    requires seg.start == lo && seg.start < seg.end <= hi && RunsOver(y, rest, seg.end, hi)
    requires forall t :: seg.start <= t < seg.end ==> y[t] == seg.gesture
    requires rest == [] ==> seg.end == hi
    requires rest != [] ==> rest[0].gesture != seg.gesture
    ensures RunsOver(y, [seg] + rest, lo, hi)
  {
    var segs := [seg] + rest;
    forall k | 0 <= k < |segs| - 1
      ensures segs[k].end == segs[k + 1].start && segs[k].gesture != segs[k + 1].gesture
    {
      if k > 0 {
        assert segs[k] == rest[k - 1] && segs[k + 1] == rest[k];
      }
    }
    forall k, t | 0 <= k < |segs| && segs[k].start <= t < segs[k].end
      ensures y[t] == segs[k].gesture
    {
      if k > 0 {
        assert segs[k] == rest[k - 1];
      }
    }
  }

  /** What the scan from i yields, given that [segStart, i) shares the label cur. */
  lemma {:induction false} ScanIsRuns(y: seq<Label>, i: nat, segStart: nat, cur: Label)
    requires 1 <= i <= |y| && segStart < i
    requires forall t :: segStart <= t < i ==> y[t] == cur
    ensures Scan(y, i, segStart, cur) == [] <==> i == |y|
    ensures i < |y| ==> RunsOver(y, Scan(y, i, segStart, cur), segStart, |y| - 1)
    ensures i < |y| ==> Scan(y, i, segStart, cur)[0].gesture == cur
    decreases |y| - i, 1
  {
    if i == |y| {
    } else if y[i] != cur || i == |y| - 1 {
      ScanCloses(y, i, segStart, cur);
      ScanClosesAt(y, i, segStart, cur);
    } else {
      ScanIsRuns(y, i + 1, segStart, cur);
    }
  }

  /** The step of the scan that closes [segStart, i): that run, then the runs from i on. */
  lemma {:induction false} ScanClosesAt(y: seq<Label>, i: nat, segStart: nat, cur: Label)
    requires 1 <= i < |y| && segStart < i
    requires forall t :: segStart <= t < i ==> y[t] == cur
    requires y[i] != cur || i == |y| - 1
    ensures RunsOver(y, [Segment(segStart, i, cur)] + Scan(y, i + 1, i, y[i]), segStart, |y| - 1)
    decreases |y| - i, 0
  {
    var seg := Segment(segStart, i, cur);
    var rest := Scan(y, i + 1, i, y[i]);
    if i + 1 < |y| {
      ScanIsRuns(y, i + 1, i, y[i]);
      assert y[i] != cur && rest[0].gesture == y[i];
      ConsRun(y, seg, rest, segStart, |y| - 1);
    } else {
      assert rest == [];
      ConsRun(y, seg, [], segStart, |y| - 1);
    }
  }

  /** Runs over a range of y are runs over any prefix of y that contains the range. */
  lemma RunsOverPrefix(y: seq<Label>, segs: seq<Segment>, lo: nat, hi: nat)
    requires RunsOver(y, segs, lo, hi)
    ensures RunsOver(y[..hi], segs, lo, hi)
  {
    var z := y[..hi];
    forall k, t | 0 <= k < |segs| && segs[k].start <= t < segs[k].end
      ensures z[t] == segs[k].gesture
    {
      assert z[t] == y[t];
    }
  }

  /**
   * The scan splits everything but the final sample into its maximal runs:
   * a last label equal to the one before shortens the last run by one, and a
   * new last label forms a one-sample run that is never closed.
   */
  lemma ClosedSegmentsAreRuns(y: seq<Label>)
    requires |y| > 0
    ensures IsRunDecomposition(y[..|y| - 1], ClosedSegments(y))
    ensures ClosedSegments(y) == Runs(y[..|y| - 1])
  {
    ScanIsRuns(y, 1, 0, y[0]);
    if |y| > 1 {
      RunsOverPrefix(y, ClosedSegments(y), 0, |y| - 1);
    }
    RunDecompositionUnique(y[..|y| - 1], ClosedSegments(y));
  }

  /** The first index from j on where z ends or stops carrying the label z[s]. */
  function RunEnd(z: seq<Label>, s: nat, j: nat): (e: nat)
    requires s < j <= |z|
    ensures j <= e <= |z|
    decreases |z| - j
  {
    if j == |z| || z[j] != z[s] then j else RunEnd(z, s, j + 1)
  }

  /** Reference definition: the maximal runs of z from index s on, built run by run. */
  function RunsFrom(z: seq<Label>, s: nat): seq<Segment>
    requires s <= |z|
    decreases |z| - s
  {
    if s == |z| then []
    else
      var e := RunEnd(z, s, s + 1);
      [Segment(s, e, z[s])] + RunsFrom(z, e)
  }

  function Runs(z: seq<Label>): seq<Segment>
  {
    RunsFrom(z, 0)
  }

  /** A run that starts at s and first changes label (or ends) at e ends at e. */
  lemma {:induction false} RunEndIs(z: seq<Label>, s: nat, j: nat, e: nat)
    requires s < j <= e <= |z|
    requires forall t :: s <= t < e ==> z[t] == z[s]
    requires e == |z| || z[e] != z[s]
    ensures RunEnd(z, s, j) == e
    decreases e - j
  {
    if j < e {
      RunEndIs(z, s, j + 1, e);
    }
  }

  /** Every suffix of a run decomposition is the reference decomposition from its first start. */
  lemma {:induction false} DecompositionSuffix(z: seq<Label>, a: seq<Segment>, k: nat)
    requires IsRunDecomposition(z, a) && k < |a|
    ensures a[k..] == RunsFrom(z, a[k].start)
    decreases |a| - k
  {
    var seg := a[k];
    assert z[seg.start] == seg.gesture;
    assert forall t :: seg.start <= t < seg.end ==> z[t] == z[seg.start];
    assert RunsFrom(z, seg.start) == [Segment(seg.start, RunEnd(z, seg.start, seg.start + 1), seg.gesture)]
                                     + RunsFrom(z, RunEnd(z, seg.start, seg.start + 1));
    if k + 1 < |a| {
      var next := a[k + 1];
      assert seg.end == next.start && next.start < next.end <= |z|;
      assert z[seg.end] == next.gesture;
      RunEndIs(z, seg.start, seg.start + 1, seg.end);
      DecompositionSuffix(z, a, k + 1);
      SliceCons(a, k);
    } else {
      RunEndIs(z, seg.start, seg.start + 1, seg.end);
      assert a[k..] == [seg];
    }
  }

  lemma SliceCons<T>(a: seq<T>, k: nat)
    requires k < |a|
    ensures a[k..] == [a[k]] + a[k + 1..]
  {
  }

  /** A run decomposition is the reference one; in particular it is unique. */
  lemma RunDecompositionUnique(z: seq<Label>, a: seq<Segment>)
    requires IsRunDecomposition(z, a)
    ensures a == Runs(z)
  {
    if a != [] {
      DecompositionSuffix(z, a, 0);
      assert a[0..] == a;
    }
  }

  /** A stream of one sample closes no segment. */
  lemma SingleSampleNoSegments(y: seq<Label>)
    requires |y| == 1
    ensures ClosedSegments(y) == []
  {
  }

  // ---------------------------------------------------------------------
  // Windows inside a segment
  // ---------------------------------------------------------------------

  /** Segments with start <= end, each ending no later than the next begins. */
  ghost predicate Ordered(segs: seq<Segment>)
  {
    && (forall k :: 0 <= k < |segs| ==> segs[k].start <= segs[k].end)
    && (forall k :: 0 <= k < |segs| - 1 ==> segs[k].end <= segs[k + 1].start)
  }

  /**
   * The windows of one segment at offsets off, off + s, ... for as long as a
   * window of width w still fits: `range(off, len(segment) - w + 1, s)`.
   */
  function PlacementsFrom(seg: Segment, w: nat, s: nat, off: nat): (ps: seq<Placement>)
    requires s > 0 && seg.start <= seg.end
    ensures forall j :: 0 <= j < |ps| ==> WithinSegment(ps[j], seg, w)
    decreases seg.end - seg.start + 1 - off
  {
    if off < seg.end - seg.start - w + 1 then
      [Placement(seg.start + off, seg.gesture)] + PlacementsFrom(seg, w, s, off + s)
    else
      []
  }

  /** The windows of the segments in order, segment by segment. */
  function Placements(segs: seq<Segment>, w: nat, s: nat): seq<Placement>
    requires s > 0 && Ordered(segs)
  {
    if segs == [] then []
    else Placements(segs[..|segs| - 1], w, s) + PlacementsFrom(segs[|segs| - 1], w, s, 0)
  }

  /** The number of windows the source's formula promises for a segment of length L. */
  function WindowCount(L: nat, w: nat, s: nat): nat
    requires s > 0
  {
    if L >= w then (L - w) / s + 1 else 0
  }

  /** For a positive s, any multiple s * x with x >= 1 is at least s. */
  lemma MulAtLeast(s: int, x: int)
    requires s > 0
    ensures x >= 1 ==> s * x >= s
  {
    if x >= 1 {
      assert s * x == s * (x - 1) + s;
    }
  }

  /** Stepping the offset by s removes exactly one window. */
  lemma DivStep(a: nat, s: nat)
    requires s > 0 && a >= s
    ensures a / s == (a - s) / s + 1
  {
    var q1, q2 := a / s, (a - s) / s;
    assert s * q1 + a % s == a;
    assert s * q2 + (a - s) % s == a - s;
    MulAtLeast(s, q1 - q2 - 1);
    MulAtLeast(s, q2 + 1 - q1);
    assert s * (q1 - q2 - 1) == s * q1 - s * q2 - s;
    assert s * (q2 + 1 - q1) == s * q2 + s - s * q1;
  }

  /** Less than one stride left: no further window. */
  lemma DivSmall(a: nat, s: nat)
    requires s > 0 && a < s
    ensures a / s == 0
  {
    var q := a / s;
    assert s * q + a % s == a;
    MulAtLeast(s, q);
    MulAtLeast(s, -q);
  }

  /**
   * Each window of a segment from offset off on: it lies wholly inside the
   * segment, carries the segment's label, and starts s after the one before.
   * Their number is ((L - w - off) / s) + 1 when one fits, else zero.
   */
  lemma {:induction false} PlacementsFromFacts(seg: Segment, w: nat, s: nat, off: nat)
    requires s > 0 && seg.start <= seg.end
    ensures var ps := PlacementsFrom(seg, w, s, off);
      var L := seg.end - seg.start;
      && |ps| == (if off + w <= L then (L - w - off) / s + 1 else 0)
      && (ps != [] ==> ps[0].start == seg.start + off)
      && (forall j :: 0 <= j < |ps| - 1 ==> ps[j + 1].start == ps[j].start + s)
      && (forall j :: 0 <= j < |ps| ==> seg.start + off <= ps[j].start && WithinSegment(ps[j], seg, w))
      && StartsIncrease(ps)
    decreases seg.end - seg.start + 1 - off
  {
    var L := seg.end - seg.start;
    if off + w <= L {
      PlacementsFromFacts(seg, w, s, off + s);
      var ps := PlacementsFrom(seg, w, s, off);
      var rest := PlacementsFrom(seg, w, s, off + s);
      assert ps == [Placement(seg.start + off, seg.gesture)] + rest;
      if off + s + w <= L {
        DivStep(L - w - off, s);
      } else {
        DivSmall(L - w - off, s);
      }
      forall j | 0 <= j < |ps| - 1 ensures ps[j + 1].start == ps[j].start + s {
        if j > 0 {
          assert ps[j] == rest[j - 1] && ps[j + 1] == rest[j];
        }
      }
      forall j | 0 <= j < |ps| ensures seg.start + off <= ps[j].start && WithinSegment(ps[j], seg, w) {
        if j > 0 {
          assert ps[j] == rest[j - 1];
        }
      }
      forall j, j' | 0 <= j < j' < |ps| ensures ps[j].start < ps[j'].start {
        assert ps[j'] == rest[j' - 1];
        if j > 0 {
          assert ps[j] == rest[j - 1];
        }
      }
    }
  }

  /** A segment of length L >= w yields (L - w) / s + 1 windows, and none when L < w. */
  lemma SegmentWindowCount(seg: Segment, w: nat, s: nat)
    requires s > 0 && seg.start <= seg.end
    ensures |PlacementsFrom(seg, w, s, 0)| == WindowCount(seg.end - seg.start, w, s)
  {
    PlacementsFromFacts(seg, w, s, 0);
  }

  /** The total number of windows over a sequence of segments. */
  function TotalWindowCount(segs: seq<Segment>, w: nat, s: nat): nat
    requires s > 0 && Ordered(segs)
  {
    if segs == [] then 0
    else TotalWindowCount(segs[..|segs| - 1], w, s) + WindowCount(segs[|segs| - 1].end - segs[|segs| - 1].start, w, s)
  }

  /** The number of windows is the sum of the per-segment counts. */
  lemma {:induction false} PlacementsCount(segs: seq<Segment>, w: nat, s: nat)
    requires s > 0 && Ordered(segs)
    ensures |Placements(segs, w, s)| == TotalWindowCount(segs, w, s)
  {
    if segs != [] {
      var init := segs[..|segs| - 1];
      assert Ordered(init);
      PlacementsCount(init, w, s);
      SegmentWindowCount(segs[|segs| - 1], w, s);
    }
  }

  /** The window at p lies inside seg and carries seg's label. */
  ghost predicate WithinSegment(p: Placement, seg: Segment, w: nat)
  {
    seg.start <= p.start && p.start + w <= seg.end && p.gesture == seg.gesture
  }

  ghost predicate InSomeSegment(p: Placement, segs: seq<Segment>, w: nat)
  {
    exists k :: 0 <= k < |segs| && WithinSegment(p, segs[k], w)
  }

  ghost predicate StartsIncrease(ps: seq<Placement>)
  {
    forall j, j' :: 0 <= j < j' < |ps| ==> ps[j].start < ps[j'].start
  }

  /** Every window lies inside one of the segments and carries its label. */
  lemma {:induction false} PlacementsInSegments(segs: seq<Segment>, w: nat, s: nat)
    requires s > 0 && Ordered(segs)
    ensures forall j :: 0 <= j < |Placements(segs, w, s)| ==> InSomeSegment(Placements(segs, w, s)[j], segs, w)
  {
    if segs != [] {
      var n := |segs|;
      var init := segs[..n - 1];
      assert Ordered(init);
      PlacementsInSegments(init, w, s);
      PlacementsFromFacts(segs[n - 1], w, s, 0);
      var pre := Placements(init, w, s);
      var tail := PlacementsFrom(segs[n - 1], w, s, 0);
      var ps := Placements(segs, w, s);
      assert ps == pre + tail;
      forall j | 0 <= j < |ps| ensures InSomeSegment(ps[j], segs, w) {
        if j < |pre| {
          assert ps[j] == pre[j];
          assert InSomeSegment(pre[j], init, w);
          var k :| 0 <= k < |init| && WithinSegment(pre[j], init[k], w);
          assert segs[k] == init[k];
        } else {
          assert ps[j] == tail[j - |pre|];
          assert WithinSegment(ps[j], segs[n - 1], w);
        }
      }
    }
  }

  /** No window reaches past the end of the last segment. */
  lemma {:induction false} PlacementsBeforeLastEnd(segs: seq<Segment>, w: nat, s: nat)
    requires s > 0 && Ordered(segs) && segs != []
    ensures forall j :: 0 <= j < |Placements(segs, w, s)| ==> Placements(segs, w, s)[j].start + w <= segs[|segs| - 1].end
  {
    var n := |segs|;
    var init := segs[..n - 1];
    assert Ordered(init);
    var last := segs[n - 1];
    var pre := Placements(init, w, s);
    var tail := PlacementsFrom(last, w, s, 0);
    if init != [] {
      PlacementsBeforeLastEnd(init, w, s);
      assert init[n - 2] == segs[n - 2];
      assert init[n - 2].end <= last.start <= last.end;
    }
    assert forall j :: 0 <= j < |tail| ==> tail[j].start + w <= last.end by {
      forall j | 0 <= j < |tail| ensures tail[j].start + w <= last.end {
        assert WithinSegment(tail[j], last, w);
      }
    }
    BoundsAppend(pre, tail, w, last.end);
  }

  /** A bound on the window ends of two lists of windows bounds their concatenation. */
  lemma BoundsAppend(pre: seq<Placement>, tail: seq<Placement>, w: nat, bound: int)
    requires forall j :: 0 <= j < |pre| ==> pre[j].start + w <= bound
    requires forall j :: 0 <= j < |tail| ==> tail[j].start + w <= bound
    ensures forall j :: 0 <= j < |pre + tail| ==> (pre + tail)[j].start + w <= bound
  {
    forall j | 0 <= j < |pre + tail| ensures (pre + tail)[j].start + w <= bound {
      if j < |pre| {
        assert (pre + tail)[j] == pre[j];
      } else {
        assert (pre + tail)[j] == tail[j - |pre|];
      }
    }
  }

  /**
   * With w > 0 the window starts strictly increase: the output is in
   * segment order, then in ascending offset order within a segment.
   */
  lemma {:induction false} PlacementsIncrease(segs: seq<Segment>, w: nat, s: nat)
    requires s > 0 && Ordered(segs) && w > 0
    ensures StartsIncrease(Placements(segs, w, s))
  {
    if segs != [] {
      var n := |segs|;
      var init := segs[..n - 1];
      var last := segs[n - 1];
      assert Ordered(init);
      PlacementsIncrease(init, w, s);
      PlacementsFromFacts(last, w, s, 0);
      var pre := Placements(init, w, s);
      var tail := PlacementsFrom(last, w, s, 0);
      if init != [] {
        PlacementsBeforeLastEnd(init, w, s);
        assert init[n - 2].end <= last.start;
      }
      assert forall j :: 0 <= j < |pre| ==> pre[j].start < last.start;
      assert forall j :: 0 <= j < |tail| ==> last.start <= tail[j].start;
      StartsIncreaseAppend(pre, tail, last.start);
    }
  }

  /** Increasing starts before a bound, then increasing starts from it, increase throughout. */
  lemma StartsIncreaseAppend(pre: seq<Placement>, tail: seq<Placement>, bound: nat)
    requires StartsIncrease(pre) && StartsIncrease(tail)
    requires forall j :: 0 <= j < |pre| ==> pre[j].start < bound
    requires forall j :: 0 <= j < |tail| ==> bound <= tail[j].start
    ensures StartsIncrease(pre + tail)
  {
    var ps := pre + tail;
    forall j, j' | 0 <= j < j' < |ps| ensures ps[j].start < ps[j'].start {
      if j' < |pre| {
        assert ps[j] == pre[j] && ps[j'] == pre[j'];
      } else if j < |pre| {
        assert ps[j] == pre[j] && ps[j'] == tail[j' - |pre|];
      } else {
        assert ps[j] == tail[j - |pre|] && ps[j'] == tail[j' - |pre|];
      }
    }
  }

  /** The run decomposition of the scan is ordered and ends before the final sample. */
  lemma ClosedSegmentsOrdered(y: seq<Label>)
    requires |y| > 0
    ensures Ordered(ClosedSegments(y))
    ensures forall k :: 0 <= k < |ClosedSegments(y)| ==> ClosedSegments(y)[k].end <= |y| - 1
  {
    ClosedSegmentsAreRuns(y);
  }

  /** The windows of a non-empty stream with a positive stride. */
  function StreamPlacements(y: seq<Label>, w: nat, s: nat): (ps: seq<Placement>)
    requires |y| > 0 && s > 0
    ensures forall j :: 0 <= j < |ps| ==> ps[j].start + w <= |y| - 1
  {
    ClosedSegmentsOrdered(y);
    if ClosedSegments(y) != [] then
      PlacementsBeforeLastEnd(ClosedSegments(y), w, s);
      Placements(ClosedSegments(y), w, s)
    else
      []
  }
  /** The input slice each placement names. */
  function WindowsOf(X: seq<Row>, ps: seq<Placement>, w: nat): seq<seq<Row>>
    requires forall j :: 0 <= j < |ps| ==> ps[j].start + w <= |X|
  {
    seq(|ps|, j requires 0 <= j < |ps| => X[ps[j].start..ps[j].start + w])
  }

  function LabelsOf(ps: seq<Placement>): seq<Label>
  {
    seq(|ps|, j requires 0 <= j < |ps| => ps[j].gesture)
  }

  /** A slice of a slice is a slice of the original. */
  lemma SliceOfSlice<T>(X: seq<T>, a: nat, b: nat, c: nat, d: nat)
    requires a <= b <= |X| && c <= d <= b - a
    ensures X[a..b][c..d] == X[a + c..a + d]
  {
    assert |X[a..b][c..d]| == d - c;
    forall t | 0 <= t < d - c ensures X[a..b][c..d][t] == X[a + c..a + d][t] {
      assert X[a..b][c..d][t] == X[a..b][c + t] == X[a + c + t];
    }
  }

  /** What create_sliding_windows returns, or the exception it raises. */
  function SlidingWindows(X: seq<Row>, y: seq<Label>, w: nat, s: nat): (r: Result<(seq<seq<Row>>, seq<Label>), WindowError>)
    requires |X| == |y|
    ensures r.Failure? <==> |y| == 0 || (s == 0 && |y| >= 2)
    ensures r.Success? ==> |r.value.0| == |r.value.1|
  {
    if |y| == 0 then Failure(EmptyLabels)
    else if s == 0 then (if |y| >= 2 then Failure(ZeroStride) else Success(([], [])))
    else
      var ps := StreamPlacements(y, w, s);
      Success((WindowsOf(X, ps, w), LabelsOf(ps)))
  }

  /** Windows of the concatenation are the windows of each part. */
  lemma WindowsOfAppend(X: seq<Row>, a: seq<Placement>, b: seq<Placement>, w: nat)
    requires forall j :: 0 <= j < |a| ==> a[j].start + w <= |X|
    requires forall j :: 0 <= j < |b| ==> b[j].start + w <= |X|
    ensures WindowsOf(X, a + b, w) == WindowsOf(X, a, w) + WindowsOf(X, b, w)
    ensures LabelsOf(a + b) == LabelsOf(a) + LabelsOf(b)
  {
    var ab := a + b;
    forall j | 0 <= j < |ab| ensures ab[j].start + w <= |X| {
      if j >= |a| {
        assert ab[j] == b[j - |a|];
      }
    }
  }

  /** One more window of the segment: the next placement, and the slice it names, appended. */
  lemma StrideStep(X: seq<Row>, seg: Segment, w: nat, s: nat, start: nat, cut: seq<Placement>)
    requires s > 0 && seg.start <= seg.end <= |X|
    requires start < seg.end - seg.start - w + 1
    requires cut + PlacementsFrom(seg, w, s, start) == PlacementsFrom(seg, w, s, 0)
    requires forall j :: 0 <= j < |cut| ==> cut[j].start + w <= seg.end
    ensures var p := Placement(seg.start + start, seg.gesture);
      && (cut + [p]) + PlacementsFrom(seg, w, s, start + s) == PlacementsFrom(seg, w, s, 0)
      && (forall j :: 0 <= j < |cut + [p]| ==> (cut + [p])[j].start + w <= seg.end)
      && WindowsOf(X, cut + [p], w) == WindowsOf(X, cut, w) + [X[seg.start..seg.end][start..start + w]]
      && LabelsOf(cut + [p]) == LabelsOf(cut) + [seg.gesture]
  {
    var p := Placement(seg.start + start, seg.gesture);
    assert PlacementsFrom(seg, w, s, start) == [p] + PlacementsFrom(seg, w, s, start + s);
    assert (cut + [p]) + PlacementsFrom(seg, w, s, start + s) == cut + PlacementsFrom(seg, w, s, start);
    SliceOfSlice(X, seg.start, seg.end, start, start + w);
    WindowsOfAppend(X, cut, [p], w);
  }

  /**
   * The stride loop of lines 79-85: cuts the segment [segmentStart, segmentEnd)
   * out of X and appends its windows, each tagged with currentLabel.
   */
  method AppendSegmentWindows(X: seq<Row>, segmentStart: nat, segmentEnd: nat, currentLabel: Label,
                              windowSize: nat, stride: nat, windows: seq<seq<Row>>, labels: seq<Label>)
    returns (windows': seq<seq<Row>>, labels': seq<Label>)
    requires segmentStart <= segmentEnd <= |X| && stride > 0
    ensures var ps := PlacementsFrom(Segment(segmentStart, segmentEnd, currentLabel), windowSize, stride, 0);
      windows' == windows + WindowsOf(X, ps, windowSize) && labels' == labels + LabelsOf(ps)
  {
    ghost var seg := Segment(segmentStart, segmentEnd, currentLabel);
    ghost var cut: seq<Placement> := [];
    var segmentX := X[segmentStart..segmentEnd];
    windows', labels' := windows, labels;
    var start: nat := 0;
    while start < |segmentX| - windowSize + 1
      invariant cut + PlacementsFrom(seg, windowSize, stride, start) == PlacementsFrom(seg, windowSize, stride, 0)
      invariant forall j :: 0 <= j < |cut| ==> cut[j].start + windowSize <= segmentEnd
      invariant windows' == windows + WindowsOf(X, cut, windowSize) && labels' == labels + LabelsOf(cut)
      decreases |segmentX| + 1 - start
    {
      StrideStep(X, seg, windowSize, stride, start, cut);
      windows' := windows' + [segmentX[start..start + windowSize]];
      labels' := labels' + [currentLabel];
      cut := cut + [Placement(segmentStart + start, currentLabel)];
      start := start + stride;
    }
    assert PlacementsFrom(seg, windowSize, stride, start) == [];
  }

  /** Once the scan has passed the last index, the windows cut so far are the whole result. */
  lemma ScanExit(X: seq<Row>, y: seq<Label>, w: nat, s: nat, segStart: nat, cur: Label,
                 done: seq<Segment>, placed: seq<Placement>)
    requires |X| == |y| && 0 < |y| && segStart < |y| && s > 0
    requires done + Scan(y, |y|, segStart, cur) == ClosedSegments(y)
    requires Ordered(done) && placed == Placements(done, w, s)
    ensures forall j :: 0 <= j < |placed| ==> placed[j].start + w <= |X|
    ensures SlidingWindows(X, y, w, s) == Success((WindowsOf(X, placed, w), LabelsOf(placed)))
  {
    assert done == ClosedSegments(y);
    assert placed == StreamPlacements(y, w, s);
  }

  /** The scan step that closes a segment at i. */
  lemma ScanCloses(y: seq<Label>, i: nat, segStart: nat, cur: Label)
    requires 1 <= i < |y| && segStart < i
    requires y[i] != cur || i == |y| - 1
    ensures Scan(y, i, segStart, cur) == [Segment(segStart, i, cur)] + Scan(y, i + 1, i, y[i])
  {
  }

  /** The scan step that keeps the open segment going past i. */
  lemma ScanSkips(y: seq<Label>, i: nat, segStart: nat, cur: Label)
    requires 1 <= i < |y| && segStart < i
    requires !(y[i] != cur || i == |y| - 1)
    ensures Scan(y, i, segStart, cur) == Scan(y, i + 1, segStart, cur)
  {
  }

  lemma AppendAssociative<T>(a: seq<T>, b: seq<T>, c: seq<T>)
    ensures a + (b + c) == (a + b) + c
  {
  }

  /** Closing one more segment after the ones already closed: the bookkeeping of the outer loop. */
  lemma CloseSegmentStep(X: seq<Row>, done: seq<Segment>, placed: seq<Placement>, seg: Segment, w: nat, s: nat)
    requires s > 0 && seg.start < seg.end <= |X|
    requires Ordered(done) && forall k :: 0 <= k < |done| ==> done[k].end <= seg.start
    requires placed == Placements(done, w, s)
    requires forall j :: 0 <= j < |placed| ==> placed[j].start + w <= |X|
    ensures Ordered(done + [seg])
    ensures var cut := PlacementsFrom(seg, w, s, 0);
      && placed + cut == Placements(done + [seg], w, s)
      && (forall j :: 0 <= j < |placed + cut| ==> (placed + cut)[j].start + w <= |X|)
      && WindowsOf(X, placed + cut, w) == WindowsOf(X, placed, w) + WindowsOf(X, cut, w)
      && LabelsOf(placed + cut) == LabelsOf(placed) + LabelsOf(cut)
  {
    var next := done + [seg];
    assert next[..|done|] == done;
    assert Ordered(next) by {
      forall k | 0 <= k < |next| - 1 ensures next[k].end <= next[k + 1].start {
        if k < |done| - 1 {
          assert next[k] == done[k] && next[k + 1] == done[k + 1];
        } else {
          assert next[k] == done[k] && next[k + 1] == seg;
        }
      }
    }
    var cut := PlacementsFrom(seg, w, s, 0);
    WindowsOfAppend(X, placed, cut, w);
  }

  /**
   * What holds between iterations of the outer loop at index i: the segments
   * closed so far, followed by those the scan still closes, are all of them;
   * windows and labels hold exactly the windows of the closed segments.
   */
  ghost predicate ScanState(X: seq<Row>, y: seq<Label>, w: nat, s: nat, i: nat, segStart: nat, cur: Label,
                            done: seq<Segment>, windows: seq<seq<Row>>, labels: seq<Label>)
    requires |X| == |y|
  {
    && 1 <= i <= |y| && segStart < i
    && done + Scan(y, i, segStart, cur) == ClosedSegments(y)
    && (forall k :: 0 <= k < |done| ==> done[k].end <= segStart)
    && Ordered(done)
    && (s == 0 ==> done == [] && windows == [] && labels == [] && (|y| >= 2 ==> i <= |y| - 1))
    && (s > 0 ==>
          && (forall j :: 0 <= j < |Placements(done, w, s)| ==> Placements(done, w, s)[j].start + w <= |X|)
          && windows == WindowsOf(X, Placements(done, w, s), w)
          && labels == LabelsOf(Placements(done, w, s)))
  }

  /** Closing [segStart, i) takes the loop state at i to the loop state at i + 1. */
  lemma CloseSegmentState(X: seq<Row>, y: seq<Label>, w: nat, s: nat, i: nat, segStart: nat, cur: Label,
                          done: seq<Segment>, windows: seq<seq<Row>>, labels: seq<Label>)
    requires |X| == |y| && s > 0 && i < |y|
    requires y[i] != cur || i == |y| - 1
    requires ScanState(X, y, w, s, i, segStart, cur, done, windows, labels)
    ensures var seg := Segment(segStart, i, cur);
      var cut := PlacementsFrom(seg, w, s, 0);
      ScanState(X, y, w, s, i + 1, i, y[i], done + [seg], windows + WindowsOf(X, cut, w), labels + LabelsOf(cut))
  {
    var seg := Segment(segStart, i, cur);
    var cut := PlacementsFrom(seg, w, s, 0);
    var placed := Placements(done, w, s);
    var done' := done + [seg];
    CloseSegmentStep(X, done, placed, seg, w, s);
    ScanCloses(y, i, segStart, cur);
    AppendAssociative(done, [seg], Scan(y, i + 1, i, y[i]));
    assert done' + Scan(y, i + 1, i, y[i]) == ClosedSegments(y);
    assert forall k :: 0 <= k < |done'| ==> done'[k].end <= i by {
      forall k | 0 <= k < |done'| ensures done'[k].end <= i {
        if k < |done| {
          assert done'[k] == done[k];
        } else {
          assert done'[k] == seg;
        }
      }
    }
    assert Placements(done', w, s) == placed + cut;
  }

  /**
   * The body of the outer loop when it closes the segment [segmentStart, i):
   * that segment's windows are appended, and the next segment starts at i.
   */
  method CloseSegment(X: seq<Row>, y: seq<Label>, windowSize: nat, stride: nat, i: nat,
                      segmentStart: nat, currentLabel: Label, ghost done: seq<Segment>,
                      windows: seq<seq<Row>>, labels: seq<Label>)
    returns (windows': seq<seq<Row>>, labels': seq<Label>, ghost done': seq<Segment>)
    requires |X| == |y| && stride > 0 && i < |y|
    requires y[i] != currentLabel || i == |y| - 1
    requires ScanState(X, y, windowSize, stride, i, segmentStart, currentLabel, done, windows, labels)
    ensures ScanState(X, y, windowSize, stride, i + 1, i, y[i], done', windows', labels')
  {
    var segmentEnd := i;
    ghost var seg := Segment(segmentStart, segmentEnd, currentLabel);
    windows', labels' := AppendSegmentWindows(X, segmentStart, segmentEnd, currentLabel, windowSize, stride, windows, labels);
    CloseSegmentState(X, y, windowSize, stride, i, segmentStart, currentLabel, done, windows, labels);
    done' := done + [seg];
  }

  /**
   * The scan of lines 68-97 over sequences in place of Python lists.
   * Its result is the one SlidingWindows describes.
   */
  method CreateSlidingWindows(X: seq<Row>, y: seq<Label>, windowSize: nat, stride: nat)
    returns (r: Result<(seq<seq<Row>>, seq<Label>), WindowError>)
    requires |X| == |y|
    ensures r == SlidingWindows(X, y, windowSize, stride)
  {
    if |y| == 0 {
      return Failure(EmptyLabels);
    }
    var windows: seq<seq<Row>> := [];
    var labels: seq<Label> := [];
    var currentLabel := y[0];
    var segmentStart: nat := 0;
    ghost var done: seq<Segment> := [];
    var i := 1;
    while i < |y|
      invariant ScanState(X, y, windowSize, stride, i, segmentStart, currentLabel, done, windows, labels)
      decreases |y| - i
    {
      if y[i] != currentLabel || i == |y| - 1 {
        if stride == 0 {
          return Failure(ZeroStride);
        }
        windows, labels, done := CloseSegment(X, y, windowSize, stride, i, segmentStart, currentLabel, done, windows, labels);
        segmentStart := i;
        currentLabel := y[i];
      } else {
        ScanSkips(y, i, segmentStart, currentLabel);
      }
      i := i + 1;
    }
    if stride == 0 {
      return Success(([], []));
    }
    ScanExit(X, y, windowSize, stride, segmentStart, currentLabel, done, Placements(done, windowSize, stride));
    r := Success((windows, labels));
  }

  // ---------------------------------------------------------------------
  // What the emitted windows satisfy
  // ---------------------------------------------------------------------

  /**
   * Every emitted window has exactly w rows and is the contiguous slice of
   * the input at its start; every stream index it covers carries the label
   * emitted beside it (no window straddles a label change); and none covers
   * the final sample.
   */
  lemma WindowsRespectSegments(X: seq<Row>, y: seq<Label>, w: nat, s: nat)
    requires |X| == |y| && |y| > 0 && s > 0
    ensures var ps := StreamPlacements(y, w, s);
      var out := SlidingWindows(X, y, w, s).value;
      && |out.0| == |ps| && |out.1| == |ps|
      && forall j :: 0 <= j < |ps| ==>
           && |out.0[j]| == w
           && out.0[j] == X[ps[j].start..ps[j].start + w]
           && ps[j].start + w <= |y| - 1
           && (forall t :: ps[j].start <= t < ps[j].start + w ==> y[t] == out.1[j])
  {
    var segs := ClosedSegments(y);
    ClosedSegmentsAreRuns(y);
    ClosedSegmentsOrdered(y);
    PlacementsInSegments(segs, w, s);
    var ps := StreamPlacements(y, w, s);
    var z := y[..|y| - 1];
    forall j, t | 0 <= j < |ps| && ps[j].start <= t < ps[j].start + w
      ensures y[t] == ps[j].gesture
    {
      assert InSomeSegment(ps[j], segs, w);
      var k :| 0 <= k < |segs| && WithinSegment(ps[j], segs[k], w);
      assert z[t] == segs[k].gesture;
    }
  }

  /** Window starts strictly increase: segment order, then ascending offset. */
  lemma WindowsInStreamOrder(y: seq<Label>, w: nat, s: nat)
    requires |y| > 0 && s > 0 && w > 0
    ensures StartsIncrease(StreamPlacements(y, w, s))
  {
    ClosedSegmentsOrdered(y);
    PlacementsIncrease(ClosedSegments(y), w, s);
  }

  /** The number of windows is the sum over the closed segments of (L - w) / s + 1, or 0 when L < w. */
  lemma WindowTotal(X: seq<Row>, y: seq<Label>, w: nat, s: nat)
    requires |X| == |y| && |y| > 0 && s > 0
    ensures Ordered(ClosedSegments(y))
    ensures |SlidingWindows(X, y, w, s).value.0| == TotalWindowCount(ClosedSegments(y), w, s)
  {
    ClosedSegmentsOrdered(y);
    PlacementsCount(ClosedSegments(y), w, s);
  }

  /** An empty stream fails at y[0]; a one-sample stream yields no windows. */
  lemma ShortStreams(X: seq<Row>, y: seq<Label>, w: nat, s: nat)
    requires |X| == |y| && |y| <= 1
    ensures |y| == 0 ==> SlidingWindows(X, y, w, s) == Failure(EmptyLabels)
    ensures |y| == 1 ==> SlidingWindows(X, y, w, s) == Success(([], []))
  {
    if |y| == 1 && s > 0 {
      SingleSampleNoSegments(y);
    }
  }

  /**
   * Labels A, A, A, B over two constant channels, w = 2, s = 1: the run of
   * A gives windows at offsets 0 and 1, and the final B sample gives none.
   */
  lemma FourSampleScenario()
    ensures var X: seq<Row> := [[1.0, 1.0], [1.0, 1.0], [1.0, 1.0], [0.0, 0.0]];
      SlidingWindows(X, [0, 0, 0, 1], 2, 1)
        == Success(([[[1.0, 1.0], [1.0, 1.0]], [[1.0, 1.0], [1.0, 1.0]]], [0, 0]))
  {
    var X: seq<Row> := [[1.0, 1.0], [1.0, 1.0], [1.0, 1.0], [0.0, 0.0]];
    var y: seq<Label> := [0, 0, 0, 1];
    FourSamplePlacements();
    var ps := StreamPlacements(y, 2, 1);
    assert WindowsOf(X, ps, 2) == [X[0..2], X[1..3]];
    assert LabelsOf(ps) == [0, 0];
    assert X[0..2] == [[1.0, 1.0], [1.0, 1.0]] && X[1..3] == [[1.0, 1.0], [1.0, 1.0]];
  }

  /** The placements behind FourSampleScenario: one closed segment [0, 3), windows at 0 and 1. */
  lemma FourSamplePlacements()
    ensures ClosedSegments([0, 0, 0, 1]) == [Segment(0, 3, 0)]
    ensures StreamPlacements([0, 0, 0, 1], 2, 1) == [Placement(0, 0), Placement(1, 0)]
  {
    var y: seq<Label> := [0, 0, 0, 1];
    var seg := Segment(0, 3, 0);
    assert Scan(y, 4, 3, 1) == [];
    assert Scan(y, 3, 0, 0) == [seg];
    assert Scan(y, 2, 0, 0) == [seg];
    assert PlacementsFrom(seg, 2, 1, 2) == [];
    assert PlacementsFrom(seg, 2, 1, 1) == [Placement(1, 0)];
    assert PlacementsFrom(seg, 2, 1, 0) == [Placement(0, 0), Placement(1, 0)];
    assert [seg][..0] == [];
  }
}
