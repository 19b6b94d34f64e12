/** The tabular data the encoder works on: a frame is a set of column names and a
    sequence of rows, each row mapping every column name to a cell value. Column
    lookups that pandas would refuse (a missing column, a `.dt` accessor or a
    comparison on the wrong kind of values) are reported as errors. */
module Frames {
  import opened Timestamps

  datatype Option<T> = None | Some(value: T)

  datatype TrigFn = Sin | Cos

  /** One cell. `TrigV(fn, arg, period)` stands for the floating-point value
      fn(2 * pi * arg / period); `NaV` is a missing value (NaN). */
  datatype Value =
    | IntV(i: int)
    | RealV(r: real)
    | TextV(s: string)
    | TimeV(t: Timestamp)
    | TrigV(fn: TrigFn, arg: real, period: int)
    | NaV

  /** Column labels. Every label the encoder reads or writes has its own
      constructor (`SinOf(c)` and `CosOf(c)` are `sin_<c>` and `cos_<c>`); any
      other label of the input is `Other(name)`. */
  datatype Column =
    | Date | DateX | CounterName | LogBikeCount | Temperature | Rainfall | WindSpeed
    | Year | Month | Day | Weekday | Hour | Season
    | SchoolHoliday | PublicHoliday | IsPeak | CurfewFlag
    | SinOf(of: Column) | CosOf(of: Column)
    | RainCategory | IsHotDay | IsColdDay | HighWind
    | TruncatedDate | MergeIndicator
    | Other(name: string)

  /** The label pandas shows for the column. */
  function Label(c: Column): string {
    match c
    case Date => "date"
    case DateX => "date_x"
    case CounterName => "counter_name"
    case LogBikeCount => "log_bike_count"
    case Temperature => "t"
    case Rainfall => "rr1"
    case WindSpeed => "ff"
    case Year => "year"
    case Month => "month"
    case Day => "day"
    case Weekday => "weekday"
    case Hour => "hour"
    case Season => "season"
    case SchoolHoliday => "school_holiday"
    case PublicHoliday => "public_holiday"
    case IsPeak => "is_peak"
    case CurfewFlag => "curfew"
    case SinOf(of) => "sin_" + Label(of)
    case CosOf(of) => "cos_" + Label(of)
    case RainCategory => "rain_category"
    case IsHotDay => "is_hot_day"
    case IsColdDay => "is_cold_day"
    case HighWind => "high_wind"
    case TruncatedDate => "truncated_date"
    case MergeIndicator => "_merge"
    case Other(name) => name
  }

  type Row = map<Column, Value>

  datatype Frame = Frame(columns: set<Column>, rows: seq<Row>)
  {
    /** Every row holds exactly the frame's columns. */
    predicate WellFormed() {
      forall i :: 0 <= i < |rows| ==> rows[i].Keys == columns
    }
  }

  datatype Error =
    | KeyError(column: Column)      // the column does not exist
    | TypeError(column: Column)     // the column holds values of the wrong kind
    | IndicatorColumnClash          // a merge with an indicator meets a column named "_merge"

  datatype Result<T> = Ok(value: T) | Err(error: Error)

  /** A number or a missing value: what pandas compares and sums without raising.
      A `TrigV` cell is not counted as a number: no modelled pass compares or
      bins a `sin_`/`cos_` column, so those cells are treated as non-comparable. */
  predicate IsNumeric(v: Value) {
    v.IntV? || v.RealV? || v.NaV?
  }

  /** The number a numeric, non-missing cell holds. */
  function AsReal(v: Value): real
    requires v.IntV? || v.RealV?
  {
    if v.IntV? then v.i as real else v.r
  }

  /** `bool.astype(int)`. */
  function Flag(b: bool): (f: int)
    ensures f == 0 || f == 1
    ensures f == 1 <==> b
  {
    if b then 1 else 0
  }

  /** What a pass demands of one column before it runs. */
  datatype Need =
    | Present(column: Column)   // the column is read
    | Times(column: Column)     // the column is read through the `.dt` accessor
    | Numbers(column: Column)   // the column is compared or used in arithmetic

  predicate Meets(f: Frame, n: Need)
    requires f.WellFormed()
  {
    && n.column in f.columns
    && (n.Times? ==> forall i :: 0 <= i < |f.rows| ==> f.rows[i][n.column].TimeV?)
    && (n.Numbers? ==> forall i :: 0 <= i < |f.rows| ==> IsNumeric(f.rows[i][n.column]))
  }

  /** The error pandas raises for an unmet need. */
  function Violation(f: Frame, n: Need): Error {
    if n.column in f.columns then TypeError(n.column) else KeyError(n.column)
  }

  /** The first unmet need, in the order the pass reads its columns, as an error. */
  function Check(f: Frame, needs: seq<Need>): (e: Option<Error>)
    requires f.WellFormed()
    ensures e.None? <==> forall k :: 0 <= k < |needs| ==> Meets(f, needs[k])
    ensures e.Some? ==> exists k :: && 0 <= k < |needs| && !Meets(f, needs[k])
                                    && e.value == Violation(f, needs[k])
                                    && forall j :: 0 <= j < k ==> Meets(f, needs[j])
  {
    if needs == [] then None
    else if !Meets(f, needs[0]) then Some(Violation(f, needs[0]))
    else
      var e := Check(f, needs[1..]);
      assert forall k :: 1 <= k < |needs| ==> needs[k] == needs[1..][k - 1];
      e
  }

  // Algebra of rows as maps, used to compose passes.

  lemma MergeAssoc(a: Row, b: Row, c: Row)
    ensures (a + b) + c == a + (b + c)
  {
  }

  /** Adding two rows of columns and dropping a column: the drop can be taken
      apart over the merge. */
  lemma MergeThenRemove(a: Row, m: Row, n: Row, c: Column)
    ensures ((a + m) + n) - {c} == (a - {c}) + ((m + n) - {c})
  {
  }

  /** `frame.drop(columns=...)`: the columns leave the frame and every row. */
  function Drop(f: Frame, cols: set<Column>): (g: Frame)
    requires f.WellFormed() && cols <= f.columns
    ensures g.WellFormed() && g.columns == f.columns - cols && |g.rows| == |f.rows|
    ensures forall i :: 0 <= i < |f.rows| ==> g.rows[i] == f.rows[i] - cols
  {
    Frame(f.columns - cols, seq(|f.rows|, i requires 0 <= i < |f.rows| => f.rows[i] - cols))
  }
}
