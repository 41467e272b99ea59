/**
 * The per-window statistical summary of the training pipeline
 * (extract_features in ml_training/train_gesture_model.py).
 *
 * For every channel, reduced along axis 0 of the window: the mean, the
 * standard deviation and the range max - min; the feature vector is the
 * three per-channel blocks concatenated in that order. Readings are real
 * numbers here. The standard deviation is a parameter: only the slot it
 * fills in the vector is modelled, not its floating-point value.
 */
module Features {
  import opened Wrappers
  import Windowing

  type Row = Windowing.Row

  /** np.min and np.max raise on a zero-size reduction axis. */
  datatype FeatureError = EmptyWindow

  /** Every row of the window carries exactly `channels` readings. */
  ghost predicate Rectangular(window: seq<Row>, channels: nat)
  {
    forall t :: 0 <= t < |window| ==> |window[t]| == channels
  }

  /** Channel c of the window, read down axis 0. */
  function Column(window: seq<Row>, c: nat): (col: seq<real>)
    requires forall t :: 0 <= t < |window| ==> c < |window[t]|
    ensures |col| == |window|
    ensures forall t :: 0 <= t < |col| ==> col[t] == window[t][c]
  {
    seq(|window|, t requires 0 <= t < |window| => window[t][c])
  }

  function Sum(s: seq<real>): real
  {
    if s == [] then 0.0 else Sum(s[..|s| - 1]) + s[|s| - 1]
  }

  /** np.mean over one channel. */
  function Mean(s: seq<real>): real
    requires |s| > 0
  {
    Sum(s) / (|s| as real)
  }

  /** np.max over one channel: a reading of the channel, and none is larger. */
  function Max(s: seq<real>): (m: real)
    requires |s| > 0
    ensures m in s
    ensures forall i :: 0 <= i < |s| ==> s[i] <= m
  {
    if |s| == 1 then s[0]
    else
      var rest := Max(s[1..]);
      if s[0] >= rest then s[0] else rest
  }

  /** np.min over one channel: a reading of the channel, and none is smaller. */
  function Min(s: seq<real>): (m: real)
    requires |s| > 0
    ensures m in s
    ensures forall i :: 0 <= i < |s| ==> m <= s[i]
  {
    if |s| == 1 then s[0]
    else
      var rest := Min(s[1..]);
      if s[0] <= rest then s[0] else rest
  }

  /** The range of one channel, max - min; never negative. */
  function Range(s: seq<real>): (r: real)
    requires |s| > 0
    ensures r >= 0.0
    ensures exists i, k :: 0 <= i < |s| && 0 <= k < |s| && r == s[i] - s[k]
  {
    Max(s) - Min(s)
  }

  /** The per-channel reductions over a window, each a vector of `channels` values. */
  function ColumnMeans(window: seq<Row>, channels: nat): seq<real>
    requires |window| > 0 && Rectangular(window, channels)
  {
    seq(channels, c requires 0 <= c < channels => Mean(Column(window, c)))
  }

  function ColumnStds(window: seq<Row>, channels: nat, std: seq<real> -> real): seq<real>
    requires Rectangular(window, channels)
  {
    seq(channels, c requires 0 <= c < channels => std(Column(window, c)))
  }

  function ColumnMins(window: seq<Row>, channels: nat): seq<real>
    requires |window| > 0 && Rectangular(window, channels)
  {
    seq(channels, c requires 0 <= c < channels => Min(Column(window, c)))
  }

  function ColumnMaxes(window: seq<Row>, channels: nat): seq<real>
    requires |window| > 0 && Rectangular(window, channels)
  {
    seq(channels, c requires 0 <= c < channels => Max(Column(window, c)))
  }

  /** range_val = max_val - min_val, channel by channel. */
  function ColumnRanges(window: seq<Row>, channels: nat): seq<real>
    requires |window| > 0 && Rectangular(window, channels)
  {
    seq(channels, c requires 0 <= c < channels => Range(Column(window, c)))
  }

  /** The range block is the difference of the maximum and minimum blocks. */
  lemma RangesFromExtremes(window: seq<Row>, channels: nat)
    requires |window| > 0 && Rectangular(window, channels)
    ensures ColumnRanges(window, channels)
      == seq(channels, c requires 0 <= c < channels => ColumnMaxes(window, channels)[c] - ColumnMins(window, channels)[c])
  {
    var r := ColumnRanges(window, channels);
    var d := seq(channels, c requires 0 <= c < channels => ColumnMaxes(window, channels)[c] - ColumnMins(window, channels)[c]);
    forall c | 0 <= c < channels ensures r[c] == d[c] {
      assert r[c] == Max(Column(window, c)) - Min(Column(window, c));
      assert ColumnMaxes(window, channels)[c] == Max(Column(window, c));
      assert ColumnMins(window, channels)[c] == Min(Column(window, c));
      assert d[c] == ColumnMaxes(window, channels)[c] - ColumnMins(window, channels)[c];
    }
  }

  /** The feature vector of one window: the mean block, the std block, the range block. */
  function FeatureVector(window: seq<Row>, channels: nat, std: seq<real> -> real): (v: seq<real>)
    requires |window| > 0 && Rectangular(window, channels)
    ensures |v| == 3 * channels
  {
    ColumnMeans(window, channels) + ColumnStds(window, channels, std) + ColumnRanges(window, channels)
  }

  /**
   * The layout of the feature vector, 3 * channels values:
   * [mean_0 .. mean_{C-1} | std_0 .. std_{C-1} | range_0 .. range_{C-1}];
   * channel c's mean, std and range sit at c, channels + c and 2 * channels + c.
   */
  lemma FeatureVectorLayout(window: seq<Row>, channels: nat, std: seq<real> -> real, c: nat)
    requires |window| > 0 && Rectangular(window, channels) && c < channels
    ensures var v := FeatureVector(window, channels, std);
      && v[c] == Mean(Column(window, c))
      && v[channels + c] == std(Column(window, c))
      && v[2 * channels + c] == Range(Column(window, c))
  {
    var m, d, r := ColumnMeans(window, channels), ColumnStds(window, channels, std), ColumnRanges(window, channels);
    ThreeBlocks(m, d, r, c);
  }

  /** Indexing into three blocks of equal length laid end to end. */
  lemma ThreeBlocks<T>(a: seq<T>, b: seq<T>, e: seq<T>, c: nat)
    requires |a| == |b| == |e| && c < |a|
    ensures (a + b + e)[c] == a[c]
    ensures (a + b + e)[|a| + c] == b[c]
    ensures (a + b + e)[2 * |a| + c] == e[c]
  {
    assert 2 * |a| + c == |a + b| + c;
  }

  /**
   * The loop of lines 105-122: one feature vector per window, in window
   * order, or the error np.min raises on the first empty window.
   */
  method ExtractFeatures(windows: seq<seq<Row>>, channels: nat, std: seq<real> -> real)
    returns (r: Result<seq<seq<real>>, FeatureError>)
    requires forall j :: 0 <= j < |windows| ==> Rectangular(windows[j], channels)
    ensures r.Failure? <==> exists j :: 0 <= j < |windows| && windows[j] == []
    ensures r.Success? ==> |r.value| == |windows|
    ensures r.Success? ==> forall j :: 0 <= j < |windows| ==>
      r.value[j] == FeatureVector(windows[j], channels, std)
  {
    var features: seq<seq<real>> := [];
    var j := 0;
    while j < |windows|
      invariant 0 <= j <= |windows|
      invariant forall k :: 0 <= k < j ==> windows[k] != []
      invariant |features| == j
      invariant forall k :: 0 <= k < j ==> features[k] == FeatureVector(windows[k], channels, std)
    {
      var window := windows[j];
      if window == [] {
        return Failure(EmptyWindow);
      }
      var mean := ColumnMeans(window, channels);
      var stdVal := ColumnStds(window, channels, std);
      var minVal := ColumnMins(window, channels);
      var maxVal := ColumnMaxes(window, channels);
      var rangeVal := seq(channels, c requires 0 <= c < channels => maxVal[c] - minVal[c]);
      RangesFromExtremes(window, channels);
      var featureVector := mean + stdVal + rangeVal;
      features := features + [featureVector];
      j := j + 1;
    }
    return Success(features);
  }

  // ---------------------------------------------------------------------
  // Properties of the summary
  // ---------------------------------------------------------------------

  lemma {:induction false} SumBounds(s: seq<real>, lo: real, hi: real)
    requires forall i :: 0 <= i < |s| ==> lo <= s[i] <= hi
    ensures (|s| as real) * lo <= Sum(s) <= (|s| as real) * hi
  {
    if s != [] {
      SumBounds(s[..|s| - 1], lo, hi);
    }
  }

  lemma DivLower(a: real, n: real, lo: real)
    requires n > 0.0 && n * lo <= a
    ensures lo <= a / n
  {
    assert a / n * n == a;
  }

  lemma DivUpper(a: real, n: real, hi: real)
    requires n > 0.0 && a <= n * hi
    ensures a / n <= hi
  {
    assert a / n * n == a;
  }

  /** Bounds on every reading bound the mean. */
  lemma MeanBounds(s: seq<real>, lo: real, hi: real)
    requires |s| > 0
    requires forall i :: 0 <= i < |s| ==> lo <= s[i] <= hi
    ensures lo <= Mean(s) <= hi
  {
    var n, total := |s| as real, Sum(s);
    SumBounds(s, lo, hi);
    DivLower(total, n, lo);
    DivUpper(total, n, hi);
  }

  /** A channel constant at x across the window has mean x and range 0. */
  lemma ConstantChannel(window: seq<Row>, channels: nat, c: nat, x: real)
    requires |window| > 0 && Rectangular(window, channels) && c < channels
    requires forall t :: 0 <= t < |window| ==> window[t][c] == x
    ensures Mean(Column(window, c)) == x
    ensures Range(Column(window, c)) == 0.0
  {
    var col := Column(window, c);
    MeanBounds(col, x, x);
    assert Max(col) == x && Min(col) == x;
  }

  /** The mean of a channel lies between its minimum and its maximum. */
  lemma MeanWithinMinMax(s: seq<real>)
    requires |s| > 0
    ensures Min(s) <= Mean(s) <= Max(s)
  {
    MeanBounds(s, Min(s), Max(s));
  }

  /**
   * Channels are reduced independently: two windows that agree on channel c
   * agree on the three features of c, whatever their other channels hold.
   */
  lemma ChannelsIndependent(w1: seq<Row>, w2: seq<Row>, channels: nat, c: nat, std: seq<real> -> real)
    requires |w1| > 0 && Rectangular(w1, channels) && |w2| > 0 && Rectangular(w2, channels)
    requires c < channels && Column(w1, c) == Column(w2, c)
    ensures var v1, v2 := FeatureVector(w1, channels, std), FeatureVector(w2, channels, std);
      v1[c] == v2[c] && v1[channels + c] == v2[channels + c] && v1[2 * channels + c] == v2[2 * channels + c]
  {
    FeatureVectorLayout(w1, channels, std, c);
    FeatureVectorLayout(w2, channels, std, c);
  }

  /** A window of two identical samples [1, 1]: means 1, 1, the std slots, ranges 0, 0. */
  lemma ConstantWindowScenario(std: seq<real> -> real)
    ensures FeatureVector([[1.0, 1.0], [1.0, 1.0]], 2, std)
      == [1.0, 1.0, std([1.0, 1.0]), std([1.0, 1.0]), 0.0, 0.0]
  {
    var window: seq<Row> := [[1.0, 1.0], [1.0, 1.0]];
    var col := Column(window, 0);
    assert col == [1.0, 1.0];
    assert Column(window, 1) == col;
    ConstantChannel(window, 2, 0, 1.0);
    ConstantChannel(window, 2, 1, 1.0);
    assert ColumnMeans(window, 2) == [1.0, 1.0];
    assert ColumnStds(window, 2, std) == [std(col), std(col)];
    assert ColumnRanges(window, 2) == [0.0, 0.0];
  }
}
