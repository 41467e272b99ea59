/**
 * The training data path of ml_training/train_gesture_model.py put together:
 * the feature matrix selected from the CSV records, cut into windows with the
 * script's WINDOW_SIZE and STRIDE, and summarised window by window.
 */
module Pipeline {
  import Columns
  import Windowing
  import Features

  /** Every row selected from the frame carries the 66 channels. */
  lemma SelectedRowsHaveAllChannels(frame: seq<Columns.Record>)
    requires Columns.SelectColumns(frame).Some?
    ensures forall t :: 0 <= t < |frame| ==> |Columns.SelectColumns(frame).value[t]| == Columns.TOTAL_FEATURES
  {
    forall t | 0 <= t < |frame| ensures |Columns.SelectColumns(frame).value[t]| == Columns.TOTAL_FEATURES {
      Columns.SelectRowLayout(frame[t]);
    }
  }

  /**
   * With the script's constants, windowing a selected frame of labelled samples
   * succeeds, and every window is 50 samples of 66 channels. None is empty, so
   * extract_features summarises each one, into 3 * 66 = 198 values.
   */
  lemma TrainingWindowsSummarise(frame: seq<Columns.Record>, y: seq<Windowing.Label>, std: seq<real> -> real)
    requires Columns.SelectColumns(frame).Some? && |frame| == |y| && |y| > 0
    ensures var X := Columns.SelectColumns(frame).value;
      var out := Windowing.SlidingWindows(X, y, Windowing.WINDOW_SIZE, Windowing.STRIDE);
      && out.Success?
      && forall j :: 0 <= j < |out.value.0| ==>
           && |out.value.0[j]| == Windowing.WINDOW_SIZE
           && out.value.0[j] != []
           && Features.Rectangular(out.value.0[j], Columns.TOTAL_FEATURES)
           && |Features.FeatureVector(out.value.0[j], Columns.TOTAL_FEATURES, std)| == 198
  {
    var X := Columns.SelectColumns(frame).value;
    var w, s := Windowing.WINDOW_SIZE, Windowing.STRIDE;
    SelectedRowsHaveAllChannels(frame);
    Windowing.WindowsRespectSegments(X, y, w, s);
    var ps := Windowing.StreamPlacements(y, w, s);
    var windows := Windowing.SlidingWindows(X, y, w, s).value.0;
    forall j | 0 <= j < |windows| ensures Features.Rectangular(windows[j], Columns.TOTAL_FEATURES) {
      assert windows[j] == X[ps[j].start..ps[j].start + w];
      forall t | 0 <= t < |windows[j]| ensures |windows[j][t]| == Columns.TOTAL_FEATURES {
        assert windows[j][t] == X[ps[j].start + t];
      }
    }
  }
}
