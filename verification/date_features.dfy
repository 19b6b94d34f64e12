/** The temporal feature builder: calendar components of `date_x`, the season,
    holiday and peak-hour flags, cyclical encodings of hour and month, and the
    curfew flag, composed by `EncodeDates`, which then drops the timestamp. */
module DateFeatures {
  import opened Timestamps
  import opened Frames
  import Curfew

  // ---------------------------------------------------------------------------
  // Calendar components

  /** The columns `add_basic_date_features` adds, from the timestamp's fields. */
  function BasicDateFeatures(t: Timestamp): Row {
    map[Year := IntV(t.year), Month := IntV(t.month), Day := IntV(t.day),
        Weekday := IntV(DayOfWeek(t)), Hour := IntV(t.hour)]
  }

  /** `add_basic_date_features`: year, month, day, weekday and hour of `date_x`. */
  method AddBasicDateFeatures(f: Frame) returns (r: Result<Frame>)
    requires f.WellFormed()
    ensures r.Err? <==> !Meets(f, Times(DateX))
    ensures r.Err? ==> r.error == Violation(f, Times(DateX))
    ensures r.Ok? ==> && r.value.WellFormed()
                      && r.value.columns == f.columns + {Year, Month, Day, Weekday, Hour}
                      && |r.value.rows| == |f.rows|
    ensures r.Ok? ==> forall i :: 0 <= i < |f.rows| ==>
              r.value.rows[i] == f.rows[i] + BasicDateFeatures(f.rows[i][DateX].t)
  {
    if !Meets(f, Times(DateX)) {
      return Err(Violation(f, Times(DateX)));
    }
    var rows: seq<Row> := [];
    for i := 0 to |f.rows|
      invariant |rows| == i
      invariant forall j :: 0 <= j < i ==> rows[j] == f.rows[j] + BasicDateFeatures(f.rows[j][DateX].t)
    {
      rows := rows + [f.rows[i] + BasicDateFeatures(f.rows[i][DateX].t)];
    }
    r := Ok(Frame(f.columns + {Year, Month, Day, Weekday, Hour}, rows));
  }

  // ---------------------------------------------------------------------------
  // Season

  /** `np.select(conditions, choices, default)`: the choice of the first condition
      that holds, or the default when none does. */
  function Select<T>(conditions: seq<bool>, choices: seq<T>, default: T): (r: T)
    requires |conditions| == |choices|
    ensures (forall k :: 0 <= k < |conditions| ==> !conditions[k]) ==> r == default
    ensures forall k :: 0 <= k < |conditions| ==>
              (conditions[k] && forall j :: 0 <= j < k ==> !conditions[j]) ==> r == choices[k]
  {
    if conditions == [] then default
    else if conditions[0] then choices[0]
    else
      var r := Select(conditions[1..], choices[1..], default);
      assert forall k :: 1 <= k < |conditions| ==> conditions[k] == conditions[1..][k - 1];
      r
  }

  const Seasons: seq<string> := ["Winter", "Spring", "Summer", "Fall"]

  /** The season of a month number; "Unknown" for anything outside the four lists. */
  function SeasonOfMonth(month: int): string {
    Select([month in {12, 1, 2}, month in {3, 4, 5}, month in {6, 7, 8}, month in {9, 10, 11}],
           Seasons, "Unknown")
  }

  /** The season map is total: months 1..12 fall into consecutive three-month
      blocks starting with December, every other value is "Unknown". */
  lemma SeasonByBlocks(month: int)
    ensures 1 <= month <= 12 ==> SeasonOfMonth(month) == Seasons[(month % 12) / 3]
    ensures !(1 <= month <= 12) ==> SeasonOfMonth(month) == "Unknown"
  {
    var conditions := [month in {12, 1, 2}, month in {3, 4, 5}, month in {6, 7, 8}, month in {9, 10, 11}];
    if 1 <= month <= 12 {
      var k := (month % 12) / 3;
      assert conditions[k] && forall j :: 0 <= j < k ==> !conditions[j];
    } else {
      assert forall k :: 0 <= k < 4 ==> !conditions[k];
    }
  }

  /** Every month of a real timestamp has one of the four seasons; the four month
      lists share no month, so each month has exactly one. */
  lemma SeasonPartition(month: int)
    requires 1 <= month <= 12
    ensures SeasonOfMonth(month) in Seasons && SeasonOfMonth(month) != "Unknown"
    ensures SeasonOfMonth(month) == "Winter" <==> month in {12, 1, 2}
    ensures SeasonOfMonth(month) == "Spring" <==> month in {3, 4, 5}
    ensures SeasonOfMonth(month) == "Summer" <==> month in {6, 7, 8}
    ensures SeasonOfMonth(month) == "Fall" <==> month in {9, 10, 11}
  {
    SeasonByBlocks(month);
  }

  /** `isin` on the month cell: an integral number is looked up by value; any
      other cell matches no list. */
  function SeasonOf(month: Value): (s: string)
    ensures s in Seasons || s == "Unknown"
    ensures month.IntV? && 1 <= month.i <= 12 ==> s in Seasons
    ensures month.IntV? && !(1 <= month.i <= 12) ==> s == "Unknown"
    ensures month.RealV? && month.r == month.r.Floor as real ==> s == SeasonOfMonth(month.r.Floor)
    ensures month.RealV? && month.r != month.r.Floor as real ==> s == "Unknown"
    ensures !(month.IntV? || month.RealV?) ==> s == "Unknown"
  {
    SeasonByBlocks(if month.IntV? then month.i else if month.RealV? then month.r.Floor else 0);
    match month
    case IntV(m) => SeasonOfMonth(m)
    case RealV(x) => if x == x.Floor as real then SeasonOfMonth(x.Floor) else "Unknown"
    case _ => "Unknown"
  }

  function SeasonFeature(month: Value): Row {
    map[Season := TextV(SeasonOf(month))]
  }

  /** `add_season_feature`: the column "season" from the column Month. */
  method AddSeasonFeature(f: Frame) returns (r: Result<Frame>)
    requires f.WellFormed()
    ensures r.Err? <==> !Meets(f, Present(Month))
    ensures r.Err? ==> r.error == KeyError(Month)
    ensures r.Ok? ==> && r.value.WellFormed()
                      && r.value.columns == f.columns + {Season}
                      && |r.value.rows| == |f.rows|
    ensures r.Ok? ==> forall i :: 0 <= i < |f.rows| ==>
              r.value.rows[i] == f.rows[i] + SeasonFeature(f.rows[i][Month])
  {
    if !Meets(f, Present(Month)) {
      return Err(KeyError(Month));
    }
    var rows: seq<Row> := [];
    for i := 0 to |f.rows|
      invariant |rows| == i
      invariant forall j :: 0 <= j < i ==> rows[j] == f.rows[j] + SeasonFeature(f.rows[j][Month])
    {
      rows := rows + [f.rows[i] + SeasonFeature(f.rows[i][Month])];
    }
    r := Ok(Frame(f.columns + {Season}, rows));
  }

  // ---------------------------------------------------------------------------
  // Holiday and peak-hour indicators

  /** `isin(holidays)` on the `date_x` cell: membership of the whole timestamp. */
  function HolidayFlag(date: Value, holidays: set<Timestamp>): (b: int)
    ensures b == 0 || b == 1
    ensures !date.TimeV? ==> b == 0
    ensures date.TimeV? && date.t in holidays ==> b == 1
    ensures date.TimeV? && !IsMidnight(date.t) && (forall h :: h in holidays ==> IsMidnight(h)) ==> b == 0
  {
    Flag(date.TimeV? && date.t in holidays)
  }

  /** The holiday sets hold dates, that is midnights; since the flag tests the
      whole timestamp, an observation at any later hour of a holiday is not
      flagged. */
  lemma HolidayFlagIsNotPerDay(t: Timestamp, holidays: set<Timestamp>)
    requires forall h :: h in holidays ==> IsMidnight(h)
    requires FloorDay(t) in holidays && !IsMidnight(t)
    ensures HolidayFlag(TimeV(t), holidays) == 0
    ensures HolidayFlag(TimeV(FloorDay(t)), holidays) == 1
  {
  }

  /** The lambda on the hour cell: 1 inside [6, 9) or [16, 19), else 0; a missing
      hour compares false. */
  function PeakFlag(hour: Value): (p: int)
    requires IsNumeric(hour)
    ensures p == 0 || p == 1
    ensures hour.NaV? ==> p == 0
    ensures p == 1 ==> !hour.NaV? && 6.0 <= AsReal(hour) < 19.0
    ensures !hour.NaV? && 9.0 <= AsReal(hour) < 16.0 ==> p == 0
  {
    if hour.NaV? then 0
    else
      var h := AsReal(hour);
      Flag((6.0 <= h && h < 9.0) || (16.0 <= h && h < 19.0))
  }

  /** For whole hours the peak hours are 6, 7, 8, 16, 17 and 18. */
  lemma PeakHours(hour: int)
    ensures PeakFlag(IntV(hour)) == 1 <==> hour in {6, 7, 8, 16, 17, 18}
    ensures PeakFlag(IntV(hour)) == 0 <==> hour !in {6, 7, 8, 16, 17, 18}
  {
  }

  function IndicatorFeatures(date: Value, hour: Value,
                             schoolHolidays: set<Timestamp>, publicHolidays: set<Timestamp>): Row
    requires IsNumeric(hour)
  {
    map[SchoolHoliday := IntV(HolidayFlag(date, schoolHolidays)),
        PublicHoliday := IntV(HolidayFlag(date, publicHolidays)),
        IsPeak := IntV(PeakFlag(hour))]
  }

  /** `add_indicator_features`: the two holiday flags from `date_x` and the peak
      flag from `hour`. */
  method AddIndicatorFeatures(f: Frame, schoolHolidays: set<Timestamp>, publicHolidays: set<Timestamp>)
    returns (r: Result<Frame>)
    requires f.WellFormed()
    ensures r.Err? <==> Check(f, [Present(DateX), Numbers(Hour)]).Some?
    ensures r.Err? ==> r.error == Check(f, [Present(DateX), Numbers(Hour)]).value
    ensures r.Ok? ==> Meets(f, Present(DateX)) && Meets(f, Numbers(Hour))
    ensures r.Ok? ==> && r.value.WellFormed()
                      && r.value.columns == f.columns + {SchoolHoliday, PublicHoliday, IsPeak}
                      && |r.value.rows| == |f.rows|
    ensures r.Ok? ==> forall i :: 0 <= i < |f.rows| ==>
              && IsNumeric(f.rows[i][Hour])
              && r.value.rows[i] == f.rows[i] + IndicatorFeatures(f.rows[i][DateX], f.rows[i][Hour],
                                                                 schoolHolidays, publicHolidays)
  {
    var e := Check(f, [Present(DateX), Numbers(Hour)]);
    if e.Some? {
      return Err(e.value);
    }
    assert Meets(f, [Present(DateX), Numbers(Hour)][0]);
    assert Meets(f, [Present(DateX), Numbers(Hour)][1]);
    var rows: seq<Row> := [];
    for i := 0 to |f.rows|
      invariant |rows| == i
      invariant forall j :: 0 <= j < i ==>
                  rows[j] == f.rows[j] + IndicatorFeatures(f.rows[j][DateX], f.rows[j][Hour],
                                                           schoolHolidays, publicHolidays)
    {
      var row := f.rows[i];
      rows := rows + [row + IndicatorFeatures(row[DateX], row[Hour], schoolHolidays, publicHolidays)];
    }
    r := Ok(Frame(f.columns + {SchoolHoliday, PublicHoliday, IsPeak}, rows));
  }

  // ---------------------------------------------------------------------------
  // Cyclical encoding

  /** sin or cos of 2 * pi * cell / period; a missing cell stays missing. */
  function Cyclical(fn: TrigFn, cell: Value, period: int): Value
    requires IsNumeric(cell)
  {
    if cell.NaV? then NaV else TrigV(fn, AsReal(cell), period)
  }

  function CyclicalFeatures(column: Column, cell: Value, period: int): Row
    requires IsNumeric(cell)
  {
    map[SinOf(column) := Cyclical(Sin, cell, period), CosOf(column) := Cyclical(Cos, cell, period)]
  }

  /** `create_cyclical_features`: add `sin_<column>` and `cos_<column>` and drop
      the column itself. */
  method CreateCyclicalFeatures(f: Frame, column: Column, period: int) returns (r: Result<Frame>)
    requires f.WellFormed()
    ensures r.Err? <==> !Meets(f, Numbers(column))
    ensures r.Err? ==> r.error == Violation(f, Numbers(column))
    ensures r.Ok? ==> && r.value.WellFormed()
                      && r.value.columns == (f.columns + {SinOf(column), CosOf(column)}) - {column}
                      && |r.value.rows| == |f.rows|
    ensures r.Ok? ==> forall i :: 0 <= i < |f.rows| ==>
              && IsNumeric(f.rows[i][column])
              && r.value.rows[i] == (f.rows[i] + CyclicalFeatures(column, f.rows[i][column], period)) - {column}
  {
    if !Meets(f, Numbers(column)) {
      return Err(Violation(f, Numbers(column)));
    }
    var rows: seq<Row> := [];
    for i := 0 to |f.rows|
      invariant |rows| == i
      invariant forall j :: 0 <= j < i ==>
                  rows[j] == f.rows[j] + CyclicalFeatures(column, f.rows[j][column], period)
    {
      rows := rows + [f.rows[i] + CyclicalFeatures(column, f.rows[i][column], period)];
    }
    var added := Frame(f.columns + {SinOf(column), CosOf(column)}, rows);
    r := Ok(Drop(added, {column}));
  }

  // ---------------------------------------------------------------------------
  // The whole date encoder

  /** The columns `encode_dates` leaves behind in place of `date_x`, `hour` and `month`. */
  const EncodedColumns: set<Column> :=
    {Year, Day, Weekday, Season, SchoolHoliday, PublicHoliday, IsPeak,
     SinOf(Hour), CosOf(Hour), SinOf(Month), CosOf(Month), CurfewFlag}

  const ConsumedColumns: set<Column> := {Hour, Month, DateX}

  /** Everything `encode_dates` derives from one timestamp. */
  function EncodedFeatures(t: Timestamp, schoolHolidays: set<Timestamp>, publicHolidays: set<Timestamp>): (m: Row)
    ensures m.Keys == EncodedColumns
  {
    map[Year := IntV(t.year), Day := IntV(t.day), Weekday := IntV(DayOfWeek(t)),
        Season := TextV(SeasonOfMonth(t.month)),
        SchoolHoliday := IntV(Flag(t in schoolHolidays)),
        PublicHoliday := IntV(Flag(t in publicHolidays)),
        IsPeak := IntV(PeakFlag(IntV(t.hour))),
        SinOf(Hour) := TrigV(Sin, t.hour as real, 24), CosOf(Hour) := TrigV(Cos, t.hour as real, 24),
        SinOf(Month) := TrigV(Sin, t.month as real, 12), CosOf(Month) := TrigV(Cos, t.month as real, 12),
        CurfewFlag := IntV(Flag(Curfew.InCurfew(Curfew.Curfews, t)))]
  }

  /** The features of one timestamp, composed as the passes add and drop them. */
  function StepwiseFeatures(t: Timestamp, school: set<Timestamp>, public: set<Timestamp>): Row {
    var m3 := BasicDateFeatures(t) + SeasonFeature(IntV(t.month))
              + IndicatorFeatures(TimeV(t), IntV(t.hour), school, public);
    var m4 := (m3 + CyclicalFeatures(Hour, IntV(t.hour), 24)) - {Hour};
    var m5 := (m4 + CyclicalFeatures(Month, IntV(t.month), 12)) - {Month};
    (m5 + Curfew.CurfewFeature(t)) - {DateX}
  }

  lemma FeatureColumns(t: Timestamp, school: set<Timestamp>, public: set<Timestamp>)
    ensures BasicDateFeatures(t).Keys == {Year, Month, Day, Weekday, Hour}
    ensures SeasonFeature(IntV(t.month)).Keys == {Season}
    ensures IndicatorFeatures(TimeV(t), IntV(t.hour), school, public).Keys
            == {SchoolHoliday, PublicHoliday, IsPeak}
    ensures CyclicalFeatures(Hour, IntV(t.hour), 24).Keys == {SinOf(Hour), CosOf(Hour)}
    ensures CyclicalFeatures(Month, IntV(t.month), 12).Keys == {SinOf(Month), CosOf(Month)}
    ensures Curfew.CurfewFeature(t).Keys == {CurfewFlag}
  {
  }

  lemma ComposedColumns(b: Row, s: Row, ind: Row, ch: Row, cm: Row, cf: Row)
    requires b.Keys == {Year, Month, Day, Weekday, Hour} && s.Keys == {Season}
    requires ind.Keys == {SchoolHoliday, PublicHoliday, IsPeak}
    requires ch.Keys == {SinOf(Hour), CosOf(Hour)} && cm.Keys == {SinOf(Month), CosOf(Month)}
    requires cf.Keys == {CurfewFlag}
    ensures ((((((b + s + ind) + ch) - {Hour}) + cm) - {Month} + cf) - {DateX}).Keys == EncodedColumns
  {
  }

  lemma StepwiseColumns(t: Timestamp, school: set<Timestamp>, public: set<Timestamp>)
    ensures StepwiseFeatures(t, school, public).Keys == EncodedColumns
  {
    FeatureColumns(t, school, public);
    ComposedColumns(BasicDateFeatures(t), SeasonFeature(IntV(t.month)),
                    IndicatorFeatures(TimeV(t), IntV(t.hour), school, public),
                    CyclicalFeatures(Hour, IntV(t.hour), 24), CyclicalFeatures(Month, IntV(t.month), 12),
                    Curfew.CurfewFeature(t));
  }

  lemma ComposedValues(b: Row, s: Row, ind: Row, ch: Row, cm: Row, cf: Row)
    requires b.Keys == {Year, Month, Day, Weekday, Hour} && s.Keys == {Season}
    requires ind.Keys == {SchoolHoliday, PublicHoliday, IsPeak}
    requires ch.Keys == {SinOf(Hour), CosOf(Hour)} && cm.Keys == {SinOf(Month), CosOf(Month)}
    requires cf.Keys == {CurfewFlag}
    ensures var m := ((((((b + s + ind) + ch) - {Hour}) + cm) - {Month} + cf) - {DateX});
            && m[Year] == b[Year] && m[Day] == b[Day] && m[Weekday] == b[Weekday]
            && m[Season] == s[Season]
            && m[SchoolHoliday] == ind[SchoolHoliday] && m[PublicHoliday] == ind[PublicHoliday]
            && m[IsPeak] == ind[IsPeak]
            && m[SinOf(Hour)] == ch[SinOf(Hour)] && m[CosOf(Hour)] == ch[CosOf(Hour)]
            && m[SinOf(Month)] == cm[SinOf(Month)] && m[CosOf(Month)] == cm[CosOf(Month)]
            && m[CurfewFlag] == cf[CurfewFlag]
  {
    CalendarValues(b, s, ind, ch, cm, cf);
    EarlyValues(b, s, ind, ch, cm, cf);
    LateValues(b, s, ind, ch, cm, cf);
  }

  /** The calendar cells survive the later passes. */
  lemma CalendarValues(b: Row, s: Row, ind: Row, ch: Row, cm: Row, cf: Row)
    requires b.Keys == {Year, Month, Day, Weekday, Hour} && s.Keys == {Season}
    requires ind.Keys == {SchoolHoliday, PublicHoliday, IsPeak}
    requires ch.Keys == {SinOf(Hour), CosOf(Hour)} && cm.Keys == {SinOf(Month), CosOf(Month)}
    requires cf.Keys == {CurfewFlag}
    ensures var m := ((((((b + s + ind) + ch) - {Hour}) + cm) - {Month} + cf) - {DateX});
            m[Year] == b[Year] && m[Day] == b[Day] && m[Weekday] == b[Weekday]
  {
  }

  /** The season and indicator cells survive the later passes. */
  lemma EarlyValues(b: Row, s: Row, ind: Row, ch: Row, cm: Row, cf: Row)
    requires b.Keys == {Year, Month, Day, Weekday, Hour} && s.Keys == {Season}
    requires ind.Keys == {SchoolHoliday, PublicHoliday, IsPeak}
    requires ch.Keys == {SinOf(Hour), CosOf(Hour)} && cm.Keys == {SinOf(Month), CosOf(Month)}
    requires cf.Keys == {CurfewFlag}
    ensures var m := ((((((b + s + ind) + ch) - {Hour}) + cm) - {Month} + cf) - {DateX});
            && m[Season] == s[Season]
            && m[SchoolHoliday] == ind[SchoolHoliday] && m[PublicHoliday] == ind[PublicHoliday]
            && m[IsPeak] == ind[IsPeak]
  {
  }

  /** The cyclical and curfew cells are those their passes add. */
  lemma LateValues(b: Row, s: Row, ind: Row, ch: Row, cm: Row, cf: Row)
    requires b.Keys == {Year, Month, Day, Weekday, Hour} && s.Keys == {Season}
    requires ind.Keys == {SchoolHoliday, PublicHoliday, IsPeak}
    requires ch.Keys == {SinOf(Hour), CosOf(Hour)} && cm.Keys == {SinOf(Month), CosOf(Month)}
    requires cf.Keys == {CurfewFlag}
    ensures var m := ((((((b + s + ind) + ch) - {Hour}) + cm) - {Month} + cf) - {DateX});
            && m[SinOf(Hour)] == ch[SinOf(Hour)] && m[CosOf(Hour)] == ch[CosOf(Hour)]
            && m[SinOf(Month)] == cm[SinOf(Month)] && m[CosOf(Month)] == cm[CosOf(Month)]
            && m[CurfewFlag] == cf[CurfewFlag]
  {
  }

  /** Each encoded feature is the one the pass that adds it computes. */
  lemma EncodedFeatureSources(t: Timestamp, school: set<Timestamp>, public: set<Timestamp>)
    ensures var b, e := BasicDateFeatures(t), EncodedFeatures(t, school, public);
            b[Year] == e[Year] && b[Day] == e[Day] && b[Weekday] == e[Weekday]
    ensures var s, e := SeasonFeature(IntV(t.month)), EncodedFeatures(t, school, public);
            s[Season] == e[Season]
    ensures var ind, e := IndicatorFeatures(TimeV(t), IntV(t.hour), school, public), EncodedFeatures(t, school, public);
            ind[SchoolHoliday] == e[SchoolHoliday] && ind[PublicHoliday] == e[PublicHoliday]
            && ind[IsPeak] == e[IsPeak]
    ensures var ch, cm, e := CyclicalFeatures(Hour, IntV(t.hour), 24), CyclicalFeatures(Month, IntV(t.month), 12),
                             EncodedFeatures(t, school, public);
            ch[SinOf(Hour)] == e[SinOf(Hour)] && ch[CosOf(Hour)] == e[CosOf(Hour)]
            && cm[SinOf(Month)] == e[SinOf(Month)] && cm[CosOf(Month)] == e[CosOf(Month)]
    ensures Curfew.CurfewFeature(t)[CurfewFlag] == EncodedFeatures(t, school, public)[CurfewFlag]
  {
  }

  /** Two rows over the encoded columns that agree on each of them are equal. */
  lemma EqualOnEncodedColumns(m: Row, e: Row)
    requires m.Keys == EncodedColumns && e.Keys == EncodedColumns
    requires m[Year] == e[Year] && m[Day] == e[Day] && m[Weekday] == e[Weekday]
    requires m[Season] == e[Season] && m[IsPeak] == e[IsPeak]
    requires m[SchoolHoliday] == e[SchoolHoliday] && m[PublicHoliday] == e[PublicHoliday]
    requires m[SinOf(Hour)] == e[SinOf(Hour)] && m[CosOf(Hour)] == e[CosOf(Hour)]
    requires m[SinOf(Month)] == e[SinOf(Month)] && m[CosOf(Month)] == e[CosOf(Month)]
    requires m[CurfewFlag] == e[CurfewFlag]
    ensures m == e
  {
  }

  /** Composing the passes' features yields exactly `EncodedFeatures`. */
  lemma FeatureSteps(t: Timestamp, school: set<Timestamp>, public: set<Timestamp>)
    ensures StepwiseFeatures(t, school, public) == EncodedFeatures(t, school, public)
  {
    FeatureColumns(t, school, public);
    StepwiseColumns(t, school, public);
    ComposedValues(BasicDateFeatures(t), SeasonFeature(IntV(t.month)),
                   IndicatorFeatures(TimeV(t), IntV(t.hour), school, public),
                   CyclicalFeatures(Hour, IntV(t.hour), 24), CyclicalFeatures(Month, IntV(t.month), 12),
                   Curfew.CurfewFeature(t));
    EncodedFeatureSources(t, school, public);
    EqualOnEncodedColumns(StepwiseFeatures(t, school, public), EncodedFeatures(t, school, public));
  }

  /** The passes' adds and drops, applied to a row, leave the row without the
      consumed columns plus the composed features. */
  lemma ComposedRow(row: Row, b: Row, s: Row, ind: Row, ch: Row, cm: Row, cf: Row,
                    r1: Row, r2: Row, r3: Row, r4: Row, r5: Row, r6: Row)
    requires r1 == row + b && r2 == r1 + s && r3 == r2 + ind
    requires r4 == (r3 + ch) - {Hour} && r5 == (r4 + cm) - {Month} && r6 == r5 + cf
    ensures r6 - {DateX}
            == (row - ConsumedColumns) + ((((((b + s + ind) + ch) - {Hour}) + cm) - {Month} + cf) - {DateX})
  {
    MergeAssoc(row, b, s);
    MergeAssoc(row, b + s, ind);
    var m3 := b + s + ind;
    MergeThenRemove(row, m3, ch, Hour);
    var m4 := (m3 + ch) - {Hour};
    MergeThenRemove(row - {Hour}, m4, cm, Month);
    var m5 := (m4 + cm) - {Month};
    MergeThenRemove((row - {Hour}) - {Month}, m5, cf, DateX);
    DropConsumed(row);
  }

  lemma DropConsumed(row: Row)
    ensures ((row - {Hour}) - {Month}) - {DateX} == row - ConsumedColumns
  {
  }

  /** The cells each pass reads are the ones of the timestamp, whatever the
      passes before it added or dropped. */
  lemma StepLookups(row: Row, t: Timestamp, b: Row, s: Row, ind: Row, ch: Row, cm: Row,
                    r1: Row, r2: Row, r3: Row, r4: Row, r5: Row)
    requires DateX in row && row[DateX] == TimeV(t)
    requires b.Keys == {Year, Month, Day, Weekday, Hour} && s.Keys == {Season}
    requires ind.Keys == {SchoolHoliday, PublicHoliday, IsPeak}
    requires ch.Keys == {SinOf(Hour), CosOf(Hour)} && cm.Keys == {SinOf(Month), CosOf(Month)}
    requires b[Month] == IntV(t.month) && b[Hour] == IntV(t.hour)
    requires r1 == row + b && r2 == r1 + s && r3 == r2 + ind
    requires r4 == (r3 + ch) - {Hour} && r5 == (r4 + cm) - {Month}
    ensures r1[Month] == IntV(t.month)
    ensures r2[DateX] == TimeV(t) && r2[Hour] == IntV(t.hour) && r3[Hour] == IntV(t.hour)
    ensures Month in r4 && r4[Month] == IntV(t.month) && DateX in r5 && r5[DateX] == TimeV(t)
  {
    assert DateX !in b && DateX !in s && DateX !in ind && DateX !in ch && DateX !in cm;
    assert r1[DateX] == TimeV(t) && r2[DateX] == TimeV(t) && r3[DateX] == TimeV(t);
    assert Month !in s && Month !in ind && Month !in ch;
    assert r2[Month] == IntV(t.month) && r3[Month] == IntV(t.month);
    assert Hour !in s && Hour !in ind;
  }

  /** The columns each feature function adds, whatever cells it is given. */
  lemma FeatureKeys(t: Timestamp, month: Value, date: Value, hour: Value, monthAgain: Value,
                    school: set<Timestamp>, public: set<Timestamp>)
    ensures BasicDateFeatures(t).Keys == {Year, Month, Day, Weekday, Hour}
    ensures BasicDateFeatures(t)[Month] == IntV(t.month) && BasicDateFeatures(t)[Hour] == IntV(t.hour)
    ensures SeasonFeature(month).Keys == {Season}
    ensures IsNumeric(hour) ==> IndicatorFeatures(date, hour, school, public).Keys
                                == {SchoolHoliday, PublicHoliday, IsPeak}
    ensures IsNumeric(hour) ==> CyclicalFeatures(Hour, hour, 24).Keys == {SinOf(Hour), CosOf(Hour)}
    ensures IsNumeric(monthAgain) ==>
              CyclicalFeatures(Month, monthAgain, 12).Keys == {SinOf(Month), CosOf(Month)}
  {
  }

  /** The row-level composition of the seven steps of `encode_dates`. */
  lemma EncodedRow(row: Row, t: Timestamp, school: set<Timestamp>, public: set<Timestamp>,
                   r1: Row, r2: Row, r3: Row, r4: Row, r5: Row, r6: Row)
    requires DateX in row && row[DateX] == TimeV(t)
    requires r1 == row + BasicDateFeatures(t)
    requires r2 == r1 + SeasonFeature(r1[Month])
    requires Hour in r2 && IsNumeric(r2[Hour])
    requires r3 == r2 + IndicatorFeatures(r2[DateX], r2[Hour], school, public)
    requires r4 == (r3 + CyclicalFeatures(Hour, r3[Hour], 24)) - {Hour}
    requires Month in r4 && IsNumeric(r4[Month]) && DateX in r5 && r5[DateX].TimeV?
    requires r5 == (r4 + CyclicalFeatures(Month, r4[Month], 12)) - {Month}
    requires r6 == r5 + Curfew.CurfewFeature(r5[DateX].t)
    ensures r6 - {DateX} == (row - ConsumedColumns) + EncodedFeatures(t, school, public)
  {
    FeatureKeys(t, r1[Month], r2[DateX], r2[Hour], r4[Month], school, public);
    assert Hour in r3 && r3[Hour] == r2[Hour];
    StepLookups(row, t, BasicDateFeatures(t), SeasonFeature(r1[Month]),
                IndicatorFeatures(r2[DateX], r2[Hour], school, public),
                CyclicalFeatures(Hour, r3[Hour], 24), CyclicalFeatures(Month, r4[Month], 12),
                r1, r2, r3, r4, r5);
    ComposedRow(row, BasicDateFeatures(t), SeasonFeature(IntV(t.month)),
                IndicatorFeatures(TimeV(t), IntV(t.hour), school, public),
                CyclicalFeatures(Hour, IntV(t.hour), 24), CyclicalFeatures(Month, IntV(t.month), 12),
                Curfew.CurfewFeature(t), r1, r2, r3, r4, r5, r6);
    FeatureSteps(t, school, public);
  }

  // What each intermediate frame of `encode_dates` still holds of the input's
  // timestamps: the pass after it reads these cells.

  predicate CarriesTime(f: Frame, g: Frame) {
    && |g.rows| == |f.rows|
    && forall i :: 0 <= i < |f.rows| ==>
         && DateX in f.rows[i] && f.rows[i][DateX].TimeV?
         && DateX in g.rows[i] && g.rows[i][DateX] == f.rows[i][DateX]
  }

  predicate CarriesMonth(f: Frame, g: Frame)
    requires CarriesTime(f, g)
  {
    forall i :: 0 <= i < |f.rows| ==> Month in g.rows[i] && g.rows[i][Month] == IntV(f.rows[i][DateX].t.month)
  }

  predicate CarriesHour(f: Frame, g: Frame)
    requires CarriesTime(f, g)
  {
    forall i :: 0 <= i < |f.rows| ==> Hour in g.rows[i] && g.rows[i][Hour] == IntV(f.rows[i][DateX].t.hour)
  }

  lemma AfterBasic(f: Frame, f1: Frame)
    requires f.WellFormed() && Meets(f, Times(DateX)) && |f1.rows| == |f.rows|
    requires forall i :: 0 <= i < |f.rows| ==> f1.rows[i] == f.rows[i] + BasicDateFeatures(f.rows[i][DateX].t)
    ensures CarriesTime(f, f1) && CarriesMonth(f, f1) && CarriesHour(f, f1)
  {
  }

  lemma AfterSeason(f: Frame, f1: Frame, f2: Frame)
    requires CarriesTime(f, f1) && CarriesMonth(f, f1) && CarriesHour(f, f1) && |f2.rows| == |f1.rows|
    requires forall i :: 0 <= i < |f1.rows| ==> f2.rows[i] == f1.rows[i] + SeasonFeature(f1.rows[i][Month])
    ensures CarriesTime(f, f2) && CarriesMonth(f, f2) && CarriesHour(f, f2)
  {
  }

  lemma AfterIndicators(f: Frame, f2: Frame, f3: Frame, school: set<Timestamp>, public: set<Timestamp>)
    requires CarriesTime(f, f2) && CarriesMonth(f, f2) && CarriesHour(f, f2) && |f3.rows| == |f2.rows|
    requires forall i :: 0 <= i < |f2.rows| ==>
               && IsNumeric(f2.rows[i][Hour])
               && f3.rows[i] == f2.rows[i] + IndicatorFeatures(f2.rows[i][DateX], f2.rows[i][Hour], school, public)
    ensures CarriesTime(f, f3) && CarriesMonth(f, f3) && CarriesHour(f, f3)
  {
  }

  lemma AfterHourCycle(f: Frame, f3: Frame, f4: Frame)
    requires CarriesTime(f, f3) && CarriesMonth(f, f3) && CarriesHour(f, f3) && |f4.rows| == |f3.rows|
    requires forall i :: 0 <= i < |f3.rows| ==>
               && IsNumeric(f3.rows[i][Hour])
               && f4.rows[i] == (f3.rows[i] + CyclicalFeatures(Hour, f3.rows[i][Hour], 24)) - {Hour}
    ensures CarriesTime(f, f4) && CarriesMonth(f, f4)
  {
  }

  lemma AfterMonthCycle(f: Frame, f4: Frame, f5: Frame)
    requires CarriesTime(f, f4) && CarriesMonth(f, f4) && |f5.rows| == |f4.rows|
    requires forall i :: 0 <= i < |f4.rows| ==>
               && IsNumeric(f4.rows[i][Month])
               && f5.rows[i] == (f4.rows[i] + CyclicalFeatures(Month, f4.rows[i][Month], 12)) - {Month}
    ensures CarriesTime(f, f5)
  {
  }

  /** The frame-level composition: row by row, the six passes amount to
      `EncodedFeatures` once `date_x` is dropped. */
  lemma EncodedRows(f: Frame, f1: Frame, f2: Frame, f3: Frame, f4: Frame, f5: Frame, f6: Frame,
                    school: set<Timestamp>, public: set<Timestamp>)
    requires f.WellFormed() && Meets(f, Times(DateX))
    requires |f1.rows| == |f.rows| && |f2.rows| == |f.rows| && |f3.rows| == |f.rows|
    requires |f4.rows| == |f.rows| && |f5.rows| == |f.rows| && |f6.rows| == |f.rows|
    requires CarriesTime(f, f1) && CarriesMonth(f, f1) && CarriesTime(f, f2) && CarriesHour(f, f2)
    requires CarriesTime(f, f3) && CarriesHour(f, f3) && CarriesTime(f, f4) && CarriesMonth(f, f4)
    requires CarriesTime(f, f5)
    requires forall i :: 0 <= i < |f.rows| ==> f1.rows[i] == f.rows[i] + BasicDateFeatures(f.rows[i][DateX].t)
    requires forall i :: 0 <= i < |f.rows| ==> f2.rows[i] == f1.rows[i] + SeasonFeature(f1.rows[i][Month])
    requires forall i :: 0 <= i < |f.rows| ==>
               && IsNumeric(f2.rows[i][Hour])
               && f3.rows[i] == f2.rows[i] + IndicatorFeatures(f2.rows[i][DateX], f2.rows[i][Hour], school, public)
    requires forall i :: 0 <= i < |f.rows| ==>
               && IsNumeric(f3.rows[i][Hour])
               && f4.rows[i] == (f3.rows[i] + CyclicalFeatures(Hour, f3.rows[i][Hour], 24)) - {Hour}
    requires forall i :: 0 <= i < |f.rows| ==>
               && IsNumeric(f4.rows[i][Month])
               && f5.rows[i] == (f4.rows[i] + CyclicalFeatures(Month, f4.rows[i][Month], 12)) - {Month}
    requires forall i :: 0 <= i < |f.rows| ==> f6.rows[i] == f5.rows[i] + Curfew.CurfewFeature(f5.rows[i][DateX].t)
    ensures forall i :: 0 <= i < |f.rows| ==>
              f6.rows[i] - {DateX} == (f.rows[i] - ConsumedColumns) + EncodedFeatures(f.rows[i][DateX].t, school, public)
  {
    forall i | 0 <= i < |f.rows|
      ensures f6.rows[i] - {DateX} == (f.rows[i] - ConsumedColumns) + EncodedFeatures(f.rows[i][DateX].t, school, public)
    {
      EncodedRow(f.rows[i], f.rows[i][DateX].t, school, public,
                 f1.rows[i], f2.rows[i], f3.rows[i], f4.rows[i], f5.rows[i], f6.rows[i]);
    }
  }

  /** The column set after the six passes and the final drop. */
  lemma EncodedColumnSet(c: set<Column>)
    ensures ((((((c + {Year, Month, Day, Weekday, Hour}) + {Season}) + {SchoolHoliday, PublicHoliday, IsPeak})
               + {SinOf(Hour), CosOf(Hour)}) - {Hour} + {SinOf(Month), CosOf(Month)}) - {Month} + {CurfewFlag})
            - {DateX}
            == (c - ConsumedColumns) + EncodedColumns
  {
  }

  /** `encode_dates`: all date features of `date_x`, with `hour`, `month` and
      `date_x` replaced by their encodings; the row count never changes. */
  method EncodeDates(f: Frame, schoolHolidays: set<Timestamp>, publicHolidays: set<Timestamp>)
    returns (r: Result<Frame>)
    requires f.WellFormed()
    ensures r.Err? <==> !Meets(f, Times(DateX))
    ensures r.Err? ==> r.error == Violation(f, Times(DateX))
    ensures r.Ok? ==> && r.value.WellFormed()
                      && r.value.columns == (f.columns - ConsumedColumns) + EncodedColumns
                      && |r.value.rows| == |f.rows|
    ensures r.Ok? ==> forall i :: 0 <= i < |f.rows| ==>
              r.value.rows[i] == (f.rows[i] - ConsumedColumns)
                                 + EncodedFeatures(f.rows[i][DateX].t, schoolHolidays, publicHolidays)
  {
    var r1 := AddBasicDateFeatures(f);
    if r1.Err? {
      return r1;
    }
    var f1 := r1.value;
    AfterBasic(f, f1);
    var r2 := AddSeasonFeature(f1);
    var f2 := r2.value;
    AfterSeason(f, f1, f2);
    assert Meets(f2, Present(DateX)) && Meets(f2, Numbers(Hour));
    var r3 := AddIndicatorFeatures(f2, schoolHolidays, publicHolidays);
    var f3 := r3.value;
    AfterIndicators(f, f2, f3, schoolHolidays, publicHolidays);
    assert Meets(f3, Numbers(Hour));
    var r4 := CreateCyclicalFeatures(f3, Hour, 24);
    var f4 := r4.value;
    AfterHourCycle(f, f3, f4);
    assert Meets(f4, Numbers(Month));
    var r5 := CreateCyclicalFeatures(f4, Month, 12);
    var f5 := r5.value;
    AfterMonthCycle(f, f4, f5);
    assert Meets(f5, Times(DateX));
    var r6 := Curfew.CurfewPeriods(f5, DateX);
    var f6 := r6.value;
    EncodedRows(f, f1, f2, f3, f4, f5, f6, schoolHolidays, publicHolidays);
    EncodedColumnSet(f.columns);
    var f7 := Drop(f6, {DateX});
    r := Ok(f7);
  }

  /** The encoder is one-way: its output has no `date_x`, so a second run
      fails with a KeyError instead of producing features. */
  lemma EncodeDatesTwiceFails(g: Frame, c: set<Column>)
    requires g.WellFormed() && g.columns == (c - ConsumedColumns) + EncodedColumns
    ensures !Meets(g, Times(DateX)) && Violation(g, Times(DateX)) == KeyError(DateX)
  {
  }
}
