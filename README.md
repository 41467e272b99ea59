# OpenMuscle FlexGrid: the training data path and the gesture controller, in Dafny

This project models two pieces of sequential logic from the OpenMuscle FlexGrid
repository and proves properties of each.

**The training data path** comes from `ml_training/train_gesture_model.py`:

- The 66-column layout of a sample: 60 pressure cells `S{row}_{col}` of a 4 x 15 grid, then six inertial axes.
- `create_sliding_windows`: the label-aware segmentation. One scan over the label stream closes a segment whenever the label changes or the last index is reached. Fixed-width windows are cut at stride offsets inside each closed segment.
- `extract_features`: for each window, the per-channel mean, standard deviation and range, concatenated in that order.

**The gesture controller** comes from `integration/ble_receiver.py`:

- The debounce state (`last_gesture`, `last_gesture_time`, a cooldown of 1.0 s) of `GestureActionController.handle_gesture`.
- The if/elif dispatch of the nine gesture names.
- The `device_map` and `service_map` lookups.
- The branch choice of `control_light`.
- The URLs of the Hue and Home Assistant requests.
- For every action, the one request it would make, represented as an `Effect` value.

Files, one module each:

- `wrappers.dfy`: `Option` and `Result`.
- `columns.dfy`: constants, column names, and the row projection `df[sensor_cols + imu_cols]`.
- `windowing.dfy`: the segment scan, window placement, and the imperative `CreateSlidingWindows`. That method is proved equal to the function `SlidingWindows`.
- `features.dfy`: the reductions and `FeatureVector`, plus the imperative `ExtractFeatures`.
- `pipeline.dfy`: the three steps above composed with the script's constants.
- `routing.dfy`: gesture to command, and command to request.
- `controller.dfy`:
  - The pure `Step` function.
  - Event traces, stated with `StateAfter` and `OutcomeAt`.
  - The `GestureActionController` class. Its `HandleGesture` method updates the two fields in place and is proved to agree with `Step`.

Modelling choices:

- Sensor readings are `real`. Labels are `int`, because the script passes `LabelEncoder` indices to `create_sliding_windows`.
- An empty label stream fails, as `y[0]` raises. A zero stride fails exactly when a segment gets closed, which means at least two samples, because `range(..., 0)` raises.
- `np.min` raises on an empty window, so `ExtractFeatures` fails exactly when some window is empty.
- The standard deviation is a function parameter. The model states which slot of the feature vector it fills, not its value.
- A configuration entry counts as set when it is present and non-empty, which is Python truthiness on strings.
- `call_home_assistant_service` reads the URL and token with `[]`. A missing key raises, and `handle_gesture` reports the action as failed; the model gives `ActionFailed` there.
- The debounce test is Python truthiness on `last_gesture_time`. A recorded time of exactly 0.0 therefore never suppresses an event, and the model keeps that behaviour.

## Model

| member | source | states |
|---|---|---|
| Windowing.ScanIsRuns | ml_training/train_gesture_model.py:72-89 | From index i with [segStart, i) labelled cur, the scan closes contiguous non-empty segments. The first starts at segStart with label cur and the last ends at len(y)-1. Each segment is uniform, neighbouring labels differ, and there are none iff i is the end. |
| Windowing.ClosedSegmentsAreRuns | ml_training/train_gesture_model.py:72-89 | The closed segments are exactly the maximal equal-label runs of y without its final sample. The last sample joins no segment, whether it repeats the previous label or not. |
| Windowing.RunDecompositionUnique | ml_training/train_gesture_model.py:72-89 | The maximal-run decomposition of a label sequence is unique, so the scan's output is fully determined by that property. |
| Windowing.SingleSampleNoSegments | ml_training/train_gesture_model.py:75 | A one-sample stream closes no segment, because `range(1, 1)` is empty. |
| Windowing.PlacementsFrom | ml_training/train_gesture_model.py:82-85 | Every window cut from a segment lies wholly inside it and carries its label. |
| Windowing.PlacementsFromFacts | ml_training/train_gesture_model.py:82-85 | From offset off, a segment of length L yields (L-w-off)/s+1 windows when one fits, else none. The first is at off, consecutive starts differ by the stride, and starts strictly increase. |
| Windowing.SegmentWindowCount | ml_training/train_gesture_model.py:82 | A closed segment of length L yields (L-w)/s+1 windows when L >= w and none otherwise. |
| Windowing.PlacementsCount | ml_training/train_gesture_model.py:75-89 | The total number of windows is the sum of the per-segment counts. |
| Windowing.PlacementsInSegments | ml_training/train_gesture_model.py:79-85 | Every window lies inside one of the closed segments and carries that segment's label. |
| Windowing.PlacementsBeforeLastEnd | ml_training/train_gesture_model.py:78-85 | No window reaches past the end of the last closed segment. |
| Windowing.PlacementsIncrease | ml_training/train_gesture_model.py:82-88 | With w > 0, window starts strictly increase: segment order first, then ascending offset. |
| Windowing.ClosedSegmentsOrdered | ml_training/train_gesture_model.py:75-89 | Closed segments are ordered and none ends after index len(y)-1. |
| Windowing.StreamPlacements | ml_training/train_gesture_model.py:75-89 | Every window of a non-empty stream ends at or before index len(y)-1, so it never covers the final sample. |
| Windowing.SlidingWindows | ml_training/train_gesture_model.py:64-97 | The function fails iff y is empty (`y[0]`) or the stride is 0 with at least two samples. On success, windows and labels have equal length. |
| Windowing.AppendSegmentWindows | ml_training/train_gesture_model.py:79-85 | The stride loop appends exactly the segment's windows, as slices of X, and their labels to the two lists. |
| Windowing.CloseSegmentState | ml_training/train_gesture_model.py:76-88 | Closing the segment [segStart, i) when the label changes or i is the last index takes the loop state at i to the loop state at i+1. The closed segments grow by that segment, the windows and labels by its windows, and the open segment restarts at i with label y[i]. |
| Windowing.CloseSegment | ml_training/train_gesture_model.py:76-88 | The body of the outer loop, under a positive stride, appends the closed segment's windows and labels and reaches the loop state at i+1. |
| Windowing.CreateSlidingWindows | ml_training/train_gesture_model.py:64-97 | The imperative scan with its nested stride loop returns exactly what SlidingWindows describes, error cases included. |
| Windowing.WindowsRespectSegments | ml_training/train_gesture_model.py:72-89 | Each emitted window has exactly w rows and equals the contiguous slice of X at its start. Every index it covers has the label emitted beside it, and it ends before the final sample. |
| Windowing.WindowsInStreamOrder | ml_training/train_gesture_model.py:82-88 | With w > 0, the emitted windows are in strictly increasing stream position. |
| Windowing.WindowTotal | ml_training/train_gesture_model.py:75-89 | The number of windows is the sum over the closed segments of (L-w)/s+1, or 0 when L < w. |
| Windowing.ShortStreams | ml_training/train_gesture_model.py:72-75 | An empty stream fails at `y[0]`, and a one-sample stream yields zero windows. |
| Windowing.FourSampleScenario | ml_training/train_gesture_model.py:64-97 | With labels 0,0,0,1, w=2 and s=1 the output is two windows labelled 0. The final sample contributes nothing. |
| Windowing.FourSamplePlacements | ml_training/train_gesture_model.py:72-85 | Labels 0,0,0,1 close the single segment [0, 3) labelled 0. With w=2 and s=1 it holds windows at 0 and 1. |
| Features.Max | ml_training/train_gesture_model.py:112 | The maximum is a reading of the channel, and no reading exceeds it. |
| Features.Min | ml_training/train_gesture_model.py:111 | The minimum is a reading of the channel, and no reading is below it. |
| Features.Range | ml_training/train_gesture_model.py:113 | The range is never negative, and it is the difference of two readings of the channel. |
| Features.FeatureVector | ml_training/train_gesture_model.py:109-116 | The vector of a window with C channels has 3*C entries. |
| Features.FeatureVectorLayout | ml_training/train_gesture_model.py:107-116 | For every channel c < C: the mean of channel c is at index c, its std at C+c and its range at 2C+c. |
| Features.RangesFromExtremes | ml_training/train_gesture_model.py:111-113 | The range of each channel is its maximum minus its minimum, channel by channel. |
| Features.ExtractFeatures | ml_training/train_gesture_model.py:100-122 | The loop fails iff some window is empty. Otherwise it returns one vector per window, in window order, each equal to FeatureVector. |
| Features.MeanBounds | ml_training/train_gesture_model.py:109 | Any lower and upper bounds on all readings also bound the mean. |
| Features.ConstantChannel | ml_training/train_gesture_model.py:109-113 | A channel constant at x has mean x and range 0. |
| Features.MeanWithinMinMax | ml_training/train_gesture_model.py:109-112 | The mean of a channel lies between its minimum and maximum. |
| Features.ChannelsIndependent | ml_training/train_gesture_model.py:109-116 | Two windows agreeing on channel c agree on c's mean, std and range, whatever their other channels hold. |
| Features.ConstantWindowScenario | ml_training/train_gesture_model.py:107-117 | Two identical samples [1,1] give [1, 1, std, std, 0, 0]. |
| Columns.Decimal | ml_training/train_gesture_model.py:53 | The decimal text of n is non-empty, has one digit iff n < 10, and ends in the digit n % 10. |
| Columns.DecimalInjective | ml_training/train_gesture_model.py:53 | Different numbers have different decimal texts. |
| Columns.SensorNameInjective | ml_training/train_gesture_model.py:53 | For rows below 4, the name `S{r}_{c}` determines both r and c. |
| Columns.SensorColumnsUpTo | ml_training/train_gesture_model.py:53 | The comprehension is row-major: 15 names per row, with `S{r}_{c}` at index 15r+c. |
| Columns.FeatureColumnLayout | ml_training/train_gesture_model.py:53-56 | The columns number 66 = TOTAL_FEATURES. `S{r}_{c}` sits at 15r+c for r<4 and c<15, and the six inertial names follow in order at 60..65. |
| Columns.SensorColumnAt | ml_training/train_gesture_model.py:53 | Sensor column k is the cell (k/15, k%15). |
| Columns.SensorColumnsDistinct | ml_training/train_gesture_model.py:53 | Two sensor columns have the same name only at the same index. |
| Columns.ImuColumnAt | ml_training/train_gesture_model.py:53-56 | The inertial name k sits at index 60+k of the selected columns. |
| Columns.SensorNotImu | ml_training/train_gesture_model.py:53-54 | No grid name `S{r}_{c}` equals any of the six inertial names. |
| Columns.ImuColumnsDistinct | ml_training/train_gesture_model.py:54 | The six inertial names are pairwise different. |
| Columns.FeatureColumnsDistinctAt | ml_training/train_gesture_model.py:53-56 | Two feature columns have the same name only at the same index. |
| Columns.FeatureColumnsDistinct | ml_training/train_gesture_model.py:53-56 | No column name occurs twice in the selected list. |
| Columns.SelectRow | ml_training/train_gesture_model.py:56 | A record's row is selected iff the record has all 66 columns; a missing column is an error. |
| Columns.SelectRowLayout | ml_training/train_gesture_model.py:56 | A selected row holds 66 readings: cell (r, c) at 15r+c, then the inertial axes at 60+k. |
| Columns.SelectColumnsLayout | ml_training/train_gesture_model.py:53-56 | The feature matrix exists iff every record has all 66 columns, a missing one being the KeyError. It then has one row per record, in record order. Row i holds 66 readings of record i: cell (r, c) at 15r+c and inertial axis k at 60+k. |
| Pipeline.SelectedRowsHaveAllChannels | ml_training/train_gesture_model.py:56 | Every selected row has TOTAL_FEATURES readings. |
| Pipeline.TrainingWindowsSummarise | ml_training/train_gesture_model.py:64-116 | With WINDOW_SIZE 50 and STRIDE 25, windowing a selected frame succeeds. Every window is 50 rectangular samples of 66 channels, and none is empty, so extract_features gives each a 198-value vector. |
| Routing.GestureTable | integration/ble_receiver.py:75-94 | The nine gesture names select: light on or off, direction left or right, Uber, media previous or next, door unlock, phone unlock. A missing name selects nothing. |
| Routing.RouteMapsExactlyKnownGestures | integration/ble_receiver.py:75-94 | A gesture selects an action iff it is one of the nine names. |
| Routing.RouteInjective | integration/ble_receiver.py:75-94 | No two gesture names select the same action. |
| Routing.DeviceFor | integration/ble_receiver.py:143-150 | The direction lookup finds a device iff the direction is a key of the map. |
| Routing.DeviceTable | integration/ble_receiver.py:143-150 | The directions map as left→lamp_1, right→lamp_2, up→ceiling_fan and down→floor_lamp. No other direction finds a device. |
| Routing.MediaService | integration/ble_receiver.py:248-255 | The media lookup finds a service iff the action is a key of the map. |
| Routing.MediaTable | integration/ble_receiver.py:248-255 | play, pause, next and previous map to their media_player services. No other action finds one. |
| Routing.Replace | integration/ble_receiver.py:268 | `s.replace(a, b)` keeps the length, turns every a into b and keeps every other character. `ReplaceDots` is the dot-to-slash instance, and `RestoreDots` the slash-to-dot instance used to state the round trip. |
| Routing.ReplaceDotsLeavesNoDot | integration/ble_receiver.py:268 | No dot remains after the replacement. |
| Routing.ReplaceDotsRoundTrip | integration/ble_receiver.py:268 | A service name without slashes is recovered from its path. |
| Routing.ReplaceDotsKeepsDotFree | integration/ble_receiver.py:268 | A name without dots is unchanged. |
| Routing.ReplaceDotsSplit | integration/ble_receiver.py:268 | `domain.service` becomes `domain/service`. |
| Routing.HomeAssistantUrlShape | integration/ble_receiver.py:268 | The URL is the base, then `/api/services/`, then the dot-free service path. Distinct slash-free services give distinct URLs. |
| Routing.DottedServiceUrl | integration/ble_receiver.py:268 | A service `<domain>.<name>`, with no dot in either part, is posted under `/api/services/<domain>/<name>`. |
| Routing.LightServiceUrls | integration/ble_receiver.py:123-127 | light.turn_on and light.turn_off are posted to `/api/services/light/turn_on` and `/api/services/light/turn_off`. |
| Routing.HomeAssistantService | integration/ble_receiver.py:264-275 | The call posts iff both the URL and the token entries are present; otherwise it fails, because `[]` raises. The post goes to `HomeAssistantUrl(base, service)` (line 268) with the token as bearer (line 270) and the given entity in the body. |
| Routing.ControlLightBranches | integration/ble_receiver.py:101-130 | Hue is used iff bridge and token are both set, with on == (action == "on") and the lights/1/state URL. Without Hue and with the Home Assistant URL set, the request is exactly the Home Assistant call: light.turn_on iff action is "on", else light.turn_off, on entity light.<id>. A Home Assistant post goes to /api/services/light/turn_on or turn_off. Simulation happens iff neither system is configured. |
| Routing.LightOnOffDiffer | integration/ble_receiver.py:111-127 | "on" and "off" give the same request only when no request is made. |
| Routing.PointingToggles | integration/ble_receiver.py:132-166 | point_left and point_right toggle lamp_1 and lamp_2 through homeassistant.toggle, or are simulated without Home Assistant. |
| Routing.SwipesSkipTracks | integration/ble_receiver.py:241-260 | With Home Assistant set, swipe_left calls media_previous_track and swipe_right calls media_next_track on Spotify. |
| Routing.UberDoorPhoneActions | integration/ble_receiver.py:83-92 | fist_close posts the ride request to the Uber URL with the API key as bearer when the key is set (call_uber, lines 168-201), and is simulated otherwise. twist_cw calls lock.unlock on lock.front_door when the Home Assistant URL is set (unlock_door, lines 203-216), and is simulated otherwise. pinch always posts to the phone webhook (unlock_phone, lines 218-239). |
| Routing.DoorUnlockRequest | integration/ble_receiver.py:203-216 | With the Home Assistant URL and token present, twist_cw posts to <base>/api/services/lock/unlock with that token, for entity lock.front_door. |
| Routing.LookupActions | integration/ble_receiver.py:141-166 | A direction in device_map toggles its device, and any other direction makes no request. With Home Assistant set, an action in service_map calls its service on media_player.spotify, and any other action calls nothing. Without Home Assistant, media control is simulated (lines 241-262). |
| Routing.UnmappedMakesNoRequest | integration/ble_receiver.py:93-94 | An unknown or missing gesture name makes no request under any configuration. |
| Controller.StepContract | integration/ble_receiver.py:54-97 | A same-gesture repeat within the cooldown, after a truthy recorded time, is dropped with the state unchanged. Every other event records (gesture, now) before routing, even unmapped ones, and makes the routed request. |
| Controller.AcceptedCases | integration/ble_receiver.py:66-67 | An event is accepted when its gesture differs, when no time is recorded, or when at least 1.0 s has elapsed; the test is a strict <. |
| Controller.FirstEventAccepted | integration/ble_receiver.py:50-51 | The first event after construction is always accepted. |
| Controller.CooldownBoundary | integration/ble_receiver.py:66-71 | After an acceptance at t, the same gesture at t+0.5 is dropped and at t+1.0 is accepted. |
| Controller.ZeroTimeNeverSuppresses | integration/ble_receiver.py:67 | A recorded time of 0.0 is falsy and never suppresses a repeat. |
| Controller.DroppedKeepState | integration/ble_receiver.py:66-68 | A run of dropped events leaves the state as it was. |
| Controller.CooldownFromLastAccepted | integration/ble_receiver.py:66-71 | After accepted event i and only drops since, event j with the same gesture is dropped iff it arrives less than 1.0 s after i. |
| Controller.AcceptedRepeatsSpaced | integration/ble_receiver.py:66-71 | Two accepted same-gesture events with nothing accepted between them are at least 1.0 s apart. |
| Controller.GestureActionController.constructor | integration/ble_receiver.py:48-52 | A new controller keeps the configuration and has no last gesture and no last time. |
| Controller.GestureActionController.HandleGesture | integration/ble_receiver.py:54-97 | The in-place update of last_gesture and last_gesture_time, and the returned outcome, are exactly those of Step. |

## Left out

- BLE scanning, connection, notifications and command writes (`OpenMuscleBLEClient`): these are device I/O and task scheduling.
- HTTP requests, response-status handling, headers other than the bearer token, the Uber payload and all printing: network and console I/O. Requests are modelled as `Effect` values.
- Failures of the HTTP requests (the `except` of lines 96-97 and of `unlock_phone`): they depend on the network. Only the `KeyError` of a missing Home Assistant entry is modelled.
- `datetime.now()` is read three times in `handle_gesture`. One explicit `now` parameter stands for the reads of `integration/ble_receiver.py` lines 67 (the debounce comparison) and 71 (the recorded time). The read of line 63 only feeds printing.
- `timestamp` of the gesture message is read but never used, and `confidence` only feeds printing. `HandleGesture` takes the already-extracted gesture name.
- The message is assumed to be a JSON object. A list or a number makes `gesture_data.get` raise at line 58, before the debounce, so the state stays untouched.
- The message fields are assumed well-typed:
  - a null or non-numeric `confidence` makes the format at line 63 raise before the debounce, so the state stays untouched; the model always runs the debounce;
  - a non-dict `imu`, or a non-numeric `pitch` or `roll`, makes lines 136-139 raise inside the `try`, so point_left and point_right then make no request; the model always toggles the device.
- JSON decoding of the message: a non-string gesture value is not modelled; the name is `Option<string>`.
- Configuration values are assumed to be strings or absent. A present JSON `null` or non-string value is not modelled. For example, `"home_assistant_token": null` with the URL set makes the request with the header `Bearer None`, where the model gives `ActionFailed`. On the path through `main` every key is present, because `config.update` only overwrites `CONFIG`, so the `KeyError` case arises only for a controller built from another dictionary.
- Each notification starts `handle_gesture` with `asyncio.create_task` (line 344); the model treats the events as a sequential trace. That is faithful to the debounce, because `handle_gesture` has no `await` before it records the gesture at line 71, so each task checks and records the state in one step. The order in which the tasks' requests complete is not modelled.
- `CONFIG`, argparse, `main`, config-file loading and pandas CSV reading: plumbing. A CSV record is a map from column names to readings.
- `df['label']` and `unique()`: the labels reach `create_sliding_windows` as integers.
- sklearn, Keras, TFLite, scaling and plotting: foreign library numerics.
- Floating point: readings and times are exact reals.
- Features.ConstantWindowScenario: does not give the value of the standard deviation, since `np.std` is a floating-point square root.
- Columns.SelectColumns: checks the 66 columns record by record. pandas checks them against the CSV header (`ml_training/train_gesture_model.py` line 56), so a frame with no data rows whose header lacks a column raises KeyError, where the model gives an empty matrix.
- Windowing.SlidingWindows: takes window_size and stride as natural numbers. Negative values, which Python's range would accept, are not modelled.
- Windowing.SlidingWindows: requires len(X) == len(y), which the script guarantees by building both from one data frame.
