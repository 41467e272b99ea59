/**
 * The column layout the training script reads from its CSV input
 * (ml_training/train_gesture_model.py, load_and_preprocess_data): the
 * 4 x 15 pressure grid named S{row}_{col}, row-major, followed by the
 * six inertial axes, TOTAL_FEATURES = 66 channels per sample.
 */
module Columns {
  import opened Wrappers

  const NUM_SENSORS: nat := 60
  const NUM_IMU_FEATURES: nat := 6
  const TOTAL_FEATURES: nat := NUM_SENSORS + NUM_IMU_FEATURES

  /** The grid the sensor names range over: range(4) rows of range(15) columns. */
  const GRID_ROWS: nat := 4
  const GRID_COLS: nat := 15

  const IMU_COLUMNS: seq<string> := ["accel_x", "accel_y", "accel_z", "gyro_x", "gyro_y", "gyro_z"]

  function DigitChar(d: nat): char
    requires d < 10
  {
    ('0' as int + d) as char
  }

  /** The decimal text of n, as an f-string renders an int. */
  function Decimal(n: nat): (s: string)
    ensures |s| >= 1
    ensures |s| == 1 <==> n < 10
    ensures s[|s| - 1] == DigitChar(n % 10)
  {
    if n < 10 then [DigitChar(n)] else Decimal(n / 10) + [DigitChar(n % 10)]
  }

  /** Distinct numbers have distinct decimal texts. */
  lemma {:induction false} DecimalInjective(a: nat, b: nat)
    ensures Decimal(a) == Decimal(b) ==> a == b
  {
    if a >= 10 && b >= 10 && Decimal(a) == Decimal(b) {
      var da, db := Decimal(a), Decimal(b);
      assert da[..|da| - 1] == Decimal(a / 10);
      assert db[..|db| - 1] == Decimal(b / 10);
      DecimalInjective(a / 10, b / 10);
    }
  }

  /** f"S{row}_{col}" */
  function SensorName(row: nat, col: nat): string
  {
    "S" + Decimal(row) + "_" + Decimal(col)
  }

  /** A grid name determines its row and column. */
  lemma SensorNameInjective(r: nat, c: nat, r': nat, c': nat)
    requires r < GRID_ROWS && r' < GRID_ROWS
    ensures SensorName(r, c) == SensorName(r', c') ==> r == r' && c == c'
  {
    var n, n' := SensorName(r, c), SensorName(r', c');
    assert n[1] == DigitChar(r) && n'[1] == DigitChar(r');
    assert n[3..] == Decimal(c) && n'[3..] == Decimal(c');
    DecimalInjective(c, c');
  }

  /**
   * The comprehension [f"S{row}_{col}" for row in range(rows) for col in range(15)]:
   * the row loop outside, so S{r}_{c} sits at index 15 * r + c.
   */
  function SensorColumnsUpTo(rows: nat): (cols: seq<string>)
    ensures |cols| == GRID_COLS * rows
    ensures forall r, c :: 0 <= r < rows && 0 <= c < GRID_COLS ==> cols[GRID_COLS * r + c] == SensorName(r, c)
  {
    if rows == 0 then []
    else SensorColumnsUpTo(rows - 1) + seq(GRID_COLS, c requires 0 <= c < GRID_COLS => SensorName(rows - 1, c))
  }

  function SensorColumns(): seq<string>
  {
    SensorColumnsUpTo(GRID_ROWS)
  }

  /** sensor_cols + imu_cols */
  function FeatureColumns(): seq<string>
  {
    SensorColumns() + IMU_COLUMNS
  }

  /**
   * 66 column names: S{r}_{c} at index 15 * r + c for r < 4, c < 15, then the
   * six inertial names in the order accel_x, accel_y, accel_z, gyro_x, gyro_y, gyro_z.
   */
  lemma FeatureColumnLayout()
    ensures |FeatureColumns()| == TOTAL_FEATURES == 66
    ensures forall r, c :: 0 <= r < GRID_ROWS && 0 <= c < GRID_COLS ==>
      FeatureColumns()[GRID_COLS * r + c] == SensorName(r, c)
    ensures forall k :: 0 <= k < NUM_IMU_FEATURES ==> FeatureColumns()[NUM_SENSORS + k] == IMU_COLUMNS[k]
  {
  }

  /** Sensor index k names grid cell (k / 15, k % 15). */
  lemma SensorColumnAt(k: nat)
    requires k < NUM_SENSORS
    ensures FeatureColumns()[k] == SensorName(k / GRID_COLS, k % GRID_COLS)
  {
    FeatureColumnLayout();
    assert k == GRID_COLS * (k / GRID_COLS) + k % GRID_COLS;
  }

  /** Two grid names at indices below 60 coincide only at the same index. */
  lemma SensorColumnsDistinct(i: nat, j: nat)
    requires i < NUM_SENSORS && j < NUM_SENSORS
    ensures FeatureColumns()[i] == FeatureColumns()[j] ==> i == j
  {
    SensorColumnAt(i);
    SensorColumnAt(j);
    SensorNameInjective(i / GRID_COLS, i % GRID_COLS, j / GRID_COLS, j % GRID_COLS);
  }

  /** Inertial index k names the k-th inertial axis. */
  lemma ImuColumnAt(k: nat)
    requires k < NUM_IMU_FEATURES
    ensures FeatureColumns()[NUM_SENSORS + k] == IMU_COLUMNS[k]
  {
    assert |SensorColumns()| == NUM_SENSORS;
  }

  /** A grid name is never an inertial name: the former starts with 'S', the latter with 'a' or 'g'. */
  lemma SensorNotImu(r: nat, c: nat, k: nat)
    requires k < NUM_IMU_FEATURES
    ensures SensorName(r, c) != IMU_COLUMNS[k]
  {
    assert SensorName(r, c)[0] == 'S';
    assert IMU_COLUMNS[k][0] == (if k < 3 then 'a' else 'g');
  }

  /** The six inertial names are pairwise different. */
  lemma ImuColumnsDistinct(a: nat, b: nat)
    requires a < NUM_IMU_FEATURES && b < NUM_IMU_FEATURES
    ensures IMU_COLUMNS[a] == IMU_COLUMNS[b] ==> a == b
  {
    var x, y := IMU_COLUMNS[a], IMU_COLUMNS[b];
    if x == y {
      assert x[0] == y[0] && x[|x| - 1] == y[|y| - 1];
    }
  }

  /** Two feature columns carry the same name only at the same index. */
  lemma FeatureColumnsDistinctAt(i: nat, j: nat)
    requires i < TOTAL_FEATURES && j < TOTAL_FEATURES
    ensures FeatureColumns()[i] == FeatureColumns()[j] ==> i == j
  {
    if i < NUM_SENSORS && j < NUM_SENSORS {
      SensorColumnsDistinct(i, j);
    } else if i < NUM_SENSORS {
      SensorColumnAt(i);
      ImuColumnAt(j - NUM_SENSORS);
      SensorNotImu(i / GRID_COLS, i % GRID_COLS, j - NUM_SENSORS);
    } else if j < NUM_SENSORS {
      SensorColumnAt(j);
      ImuColumnAt(i - NUM_SENSORS);
      SensorNotImu(j / GRID_COLS, j % GRID_COLS, i - NUM_SENSORS);
    } else {
      ImuColumnAt(i - NUM_SENSORS);
      ImuColumnAt(j - NUM_SENSORS);
      ImuColumnsDistinct(i - NUM_SENSORS, j - NUM_SENSORS);
    }
  }

  /** No column name occurs twice, so selecting by name is unambiguous. */
  lemma FeatureColumnsDistinct()
    ensures forall i, j :: 0 <= i < |FeatureColumns()| && 0 <= j < |FeatureColumns()| ==>
      (FeatureColumns()[i] == FeatureColumns()[j] ==> i == j)
  {
    FeatureColumnLayout();
    forall i, j | 0 <= i < |FeatureColumns()| && 0 <= j < |FeatureColumns()|
      ensures FeatureColumns()[i] == FeatureColumns()[j] ==> i == j
    {
      FeatureColumnsDistinctAt(i, j);
    }
  }

  /** One CSV record: the reading under each column name. */
  type Record = map<string, real>

  /**
   * One row of df[sensor_cols + imu_cols].values: the record's readings in
   * column order, or None where pandas raises KeyError for a missing column.
   */
  function SelectRow(record: Record): (row: Option<seq<real>>)
    ensures row.Some? <==> forall k :: 0 <= k < |FeatureColumns()| ==> FeatureColumns()[k] in record
  {
    var cols := FeatureColumns();
    if forall k :: 0 <= k < |cols| ==> cols[k] in record then
      Some(seq(|cols|, k requires 0 <= k < |cols| => record[cols[k]]))
    else
      None
  }

  /** A selected row holds 66 readings: grid cell (r, c) at 15 * r + c, then the inertial axes. */
  lemma SelectRowLayout(record: Record)
    requires SelectRow(record).Some?
    ensures var row := SelectRow(record).value;
      && |row| == TOTAL_FEATURES
      && (forall r, c :: 0 <= r < GRID_ROWS && 0 <= c < GRID_COLS ==>
        SensorName(r, c) in record && row[GRID_COLS * r + c] == record[SensorName(r, c)])
      && (forall k :: 0 <= k < NUM_IMU_FEATURES ==>
        IMU_COLUMNS[k] in record && row[NUM_SENSORS + k] == record[IMU_COLUMNS[k]])
  {
    FeatureColumnLayout();
    var cols := FeatureColumns();
    var row := SelectRow(record).value;
    assert forall k :: 0 <= k < |cols| ==> cols[k] in record && row[k] == record[cols[k]];
    forall r, c | 0 <= r < GRID_ROWS && 0 <= c < GRID_COLS
      ensures SensorName(r, c) in record && row[GRID_COLS * r + c] == record[SensorName(r, c)]
    {
      var k := GRID_COLS * r + c;
      assert k < |cols| && cols[k] == SensorName(r, c);
    }
    forall k | 0 <= k < NUM_IMU_FEATURES
      ensures IMU_COLUMNS[k] in record && row[NUM_SENSORS + k] == record[IMU_COLUMNS[k]]
    {
      assert cols[NUM_SENSORS + k] == IMU_COLUMNS[k];
    }
  }

  /** The feature matrix X of the whole frame, or None when a column is missing. */
  function SelectColumns(frame: seq<Record>): (x: Option<seq<seq<real>>>)
    ensures x.Some? <==> forall i :: 0 <= i < |frame| ==> SelectRow(frame[i]).Some?
    ensures x.Some? ==> |x.value| == |frame| && forall i :: 0 <= i < |frame| ==> x.value[i] == SelectRow(frame[i]).value
  {
    if forall i :: 0 <= i < |frame| ==> SelectRow(frame[i]).Some? then
      Some(seq(|frame|, i requires 0 <= i < |frame| => SelectRow(frame[i]).value))
    else
      None
  }

  /**
   * df[sensor_cols + imu_cols].values: the matrix exists exactly when every
   * record has every one of the 66 columns, and then row i holds record i's
   * readings, grid cell (r, c) at 15 * r + c and inertial axis k at 60 + k.
   */
  lemma SelectColumnsLayout(frame: seq<Record>)
    ensures SelectColumns(frame).Some? <==>
      forall i, k :: 0 <= i < |frame| && 0 <= k < |FeatureColumns()| ==> FeatureColumns()[k] in frame[i]
    ensures SelectColumns(frame).Some? ==>
      var x := SelectColumns(frame).value;
      && |x| == |frame|
      && forall i :: 0 <= i < |frame| ==>
           && |x[i]| == TOTAL_FEATURES
           && (forall r, c :: 0 <= r < GRID_ROWS && 0 <= c < GRID_COLS ==>
                SensorName(r, c) in frame[i] && x[i][GRID_COLS * r + c] == frame[i][SensorName(r, c)])
           && (forall k :: 0 <= k < NUM_IMU_FEATURES ==>
                IMU_COLUMNS[k] in frame[i] && x[i][NUM_SENSORS + k] == frame[i][IMU_COLUMNS[k]])
  {
    if SelectColumns(frame).Some? {
      forall i | 0 <= i < |frame|
        ensures SelectRow(frame[i]).Some?
        ensures var row := SelectRow(frame[i]).value;
          && |row| == TOTAL_FEATURES
          && (forall r, c :: 0 <= r < GRID_ROWS && 0 <= c < GRID_COLS ==>
               SensorName(r, c) in frame[i] && row[GRID_COLS * r + c] == frame[i][SensorName(r, c)])
          && (forall k :: 0 <= k < NUM_IMU_FEATURES ==>
               IMU_COLUMNS[k] in frame[i] && row[NUM_SENSORS + k] == frame[i][IMU_COLUMNS[k]])
      {
        SelectRowLayout(frame[i]);
      }
    }
  }
}
