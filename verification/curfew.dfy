/** The curfew classifier: a fixed table of nightly curfew windows and the flag a
    timestamp gets from it. A window's date bounds are midnight timestamps and are
    compared with the whole timestamp, so the last day of a window is inside it
    only at its first instant. */
module Curfew {
  import opened Timestamps
  import opened Frames

  /** Dates `start`..`end` (as midnight timestamps) during which the curfew runs
      from `startHour` until `endHour` the next morning. */
  datatype CurfewWindow = CurfewWindow(start: Timestamp, end: Timestamp, startHour: int, endHour: int)

  /** The five historical curfew periods, in the order they are tried. */
  const Curfews: seq<CurfewWindow> := [
    CurfewWindow(Midnight(2020, 10, 17), Midnight(2020, 10, 29), 21, 6),
    CurfewWindow(Midnight(2021, 1, 16), Midnight(2021, 3, 20), 18, 6),
    CurfewWindow(Midnight(2021, 3, 21), Midnight(2021, 5, 19), 19, 6),
    CurfewWindow(Midnight(2021, 5, 20), Midnight(2021, 6, 9), 21, 6),
    CurfewWindow(Midnight(2021, 6, 10), Midnight(2021, 6, 20), 23, 6)
  ]

  /** `start <= timestamp <= end`. */
  predicate Within(w: CurfewWindow, t: Timestamp) {
    LessEq(w.start, t) && LessEq(t, w.end)
  }

  /** The hour test `hour >= start_hour or hour < end_hour`, meant for a span
      that wraps past midnight. */
  predicate HourTest(w: CurfewWindow, hour: int) {
    hour >= w.startHour || hour < w.endHour
  }

  predicate Matches(w: CurfewWindow, t: Timestamp) {
    Within(w, t) && HourTest(w, t.hour)
  }

  /** Some window of the table both contains the timestamp and passes its hour
      test. Outside every window's date range nothing is flagged whatever the
      hour, and inside the range of a window whose span does not wrap past
      midnight every hour is flagged. */
  predicate InCurfew(windows: seq<CurfewWindow>, t: Timestamp)
    ensures (forall i :: 0 <= i < |windows| ==> !Within(windows[i], t)) ==> !InCurfew(windows, t)
    ensures (exists i :: 0 <= i < |windows| && Within(windows[i], t) && windows[i].startHour <= windows[i].endHour)
            ==> InCurfew(windows, t)
  {
    exists i :: 0 <= i < |windows| && Matches(windows[i], t)
  }

  /** `is_curfew`: try the windows in order and answer 1 at the first one that
      contains the timestamp and passes its hour test, 0 when none does. */
  method IsCurfew(windows: seq<CurfewWindow>, t: Timestamp) returns (flag: int)
    ensures flag == 0 || flag == 1
    ensures flag == 1 <==> InCurfew(windows, t)
  {
    for i := 0 to |windows|
      invariant forall j :: 0 <= j < i ==> !Matches(windows[j], t)
    {
      var w := windows[i];
      if LessEq(w.start, t) && LessEq(t, w.end) {
        if t.hour >= w.startHour || t.hour < w.endHour {
          return 1;
        }
      }
    }
    return 0;
  }

  /** The column `curfew_periods` adds for a row whose date column holds `t`. */
  function CurfewFeature(t: Timestamp): Row {
    map[CurfewFlag := IntV(Flag(InCurfew(Curfews, t)))]
  }

  /** `curfew_periods`: add the column "curfew", the classifier applied to every
      timestamp of the date column; the date column must hold timestamps. */
  method CurfewPeriods(f: Frame, dateColumn: Column) returns (r: Result<Frame>)
    requires f.WellFormed()
    ensures r.Err? <==> !Meets(f, Times(dateColumn))
    ensures r.Err? ==> r.error == Violation(f, Times(dateColumn))
    ensures r.Ok? ==> && r.value.WellFormed()
                      && r.value.columns == f.columns + {CurfewFlag}
                      && |r.value.rows| == |f.rows|
    ensures r.Ok? ==> forall i :: 0 <= i < |f.rows| ==>
              r.value.rows[i] == f.rows[i] + CurfewFeature(f.rows[i][dateColumn].t)
  {
    if !Meets(f, Times(dateColumn)) {
      return Err(Violation(f, Times(dateColumn)));
    }
    var rows: seq<Row> := [];
    for i := 0 to |f.rows|
      invariant |rows| == i
      invariant forall j :: 0 <= j < i ==> rows[j] == f.rows[j] + CurfewFeature(f.rows[j][dateColumn].t)
    {
      var flag := IsCurfew(Curfews, f.rows[i][dateColumn].t);
      rows := rows + [f.rows[i] + map[CurfewFlag := IntV(flag)]];
    }
    r := Ok(Frame(f.columns + {CurfewFlag}, rows));
  }

  // ---------------------------------------------------------------------------
  // Properties of the fixed table

  /** The windows follow one another: each ends strictly before the next starts. */
  lemma CurfewTableOrdered(i: int, j: int)
    requires 0 <= i < j < |Curfews|
    ensures Less(Curfews[i].end, Curfews[j].start)
  {
    var w0, w1, w2, w3, w4 := Curfews[0], Curfews[1], Curfews[2], Curfews[3], Curfews[4];
    assert Less(w0.end, w1.start) && Less(w1.end, w2.start)
        && Less(w2.end, w3.start) && Less(w3.end, w4.start);
    assert LessEq(w1.start, w1.end) && LessEq(w2.start, w2.end) && LessEq(w3.start, w3.end);
    forall a, b, c: Timestamp ensures LessEq(a, b) && LessEq(b, c) ==> LessEq(a, c) {
      LessEqTotalOrder(a, b, c);
    }
  }

  /** No timestamp lies inside two windows of the table. */
  lemma CurfewWindowsDisjoint(i: int, j: int, t: Timestamp)
    requires 0 <= i < |Curfews| && 0 <= j < |Curfews| && i != j
    ensures !(Within(Curfews[i], t) && Within(Curfews[j], t))
  {
    var lo, hi := if i < j then i else j, if i < j then j else i;
    CurfewTableOrdered(lo, hi);
    LessEqTotalOrder(Curfews[hi].start, t, Curfews[lo].end);
    LessEqTotalOrder(Curfews[lo].end, Curfews[hi].start, Curfews[lo].end);
  }

  /** Inside window i, the flag is exactly window i's hour test. */
  lemma CurfewInsideWindow(i: int, t: Timestamp)
    requires 0 <= i < |Curfews| && Within(Curfews[i], t)
    ensures InCurfew(Curfews, t) <==> HourTest(Curfews[i], t.hour)
  {
    forall j | 0 <= j < |Curfews| && j != i
      ensures !Matches(Curfews[j], t)
    {
      CurfewWindowsDisjoint(i, j, t);
    }
  }

  /** Outside every window's [start, end] range the flag is 0, whatever the hour. */
  lemma CurfewOutsideWindows(t: Timestamp)
    requires forall i :: 0 <= i < |Curfews| ==> !Within(Curfews[i], t)
    ensures !InCurfew(Curfews, t)
  {
  }

  /** Before the first window, after the last one, and between the first two
      (late October 2020 to mid January 2021) the flag is 0. */
  lemma CurfewOutsidePeriods(t: Timestamp)
    requires || Less(t, Midnight(2020, 10, 17))
             || Less(Midnight(2021, 6, 20), t)
             || (Less(Midnight(2020, 10, 29), t) && Less(t, Midnight(2021, 1, 16)))
    ensures !InCurfew(Curfews, t)
  {
    forall i | 0 <= i < |Curfews|
      ensures !Within(Curfews[i], t)
    {
      var w := Curfews[i];
      LessEqTotalOrder(w.start, t, Midnight(2020, 10, 17));
      LessEqTotalOrder(Midnight(2021, 6, 20), t, w.end);
      LessEqTotalOrder(Midnight(2021, 6, 20), w.end, t);
      LessEqTotalOrder(w.start, t, Midnight(2021, 1, 16));
      LessEqTotalOrder(Midnight(2020, 10, 29), t, w.end);
      LessEqTotalOrder(w.end, Midnight(2020, 10, 29), t);
      LessEqTotalOrder(t, Midnight(2021, 1, 16), w.start);
    }
  }

  /** On the last day of a window only midnight is inside it: 2020-10-29 gets the
      flag at 00:00 and not at 01:00, although 1 < 6. */
  lemma CurfewEndDay(t: Timestamp)
    requires t.Valid() && SameDay(t, Midnight(2020, 10, 29))
    ensures InCurfew(Curfews, t) <==> IsMidnight(t)
  {
    AtMostMidnightOfSameDay(t);
    if IsMidnight(t) {
      assert Matches(Curfews[0], t);
    } else {
      CurfewOutsideWindows(t);
    }
  }

  /** The evenings of 2021-03-20, 2021-05-19, 2021-06-09 and 2021-06-20 fall between
      two windows (or after the last) and get no flag, although each is the
      last day of a curfew period. */
  lemma CurfewGapEvenings()
    ensures !InCurfew(Curfews, OnTheHour(2021, 3, 20, 22))
    ensures !InCurfew(Curfews, OnTheHour(2021, 5, 19, 22))
    ensures !InCurfew(Curfews, OnTheHour(2021, 6, 9, 23))
    ensures !InCurfew(Curfews, OnTheHour(2021, 6, 20, 23))
  {
    CurfewOutsideWindows(OnTheHour(2021, 3, 20, 22));
    CurfewOutsideWindows(OnTheHour(2021, 5, 19, 22));
    CurfewOutsideWindows(OnTheHour(2021, 6, 9, 23));
    CurfewOutsidePeriods(OnTheHour(2021, 6, 20, 23));
  }

  lemma CurfewExamples()
    ensures InCurfew(Curfews, OnTheHour(2020, 10, 20, 22))
    ensures !InCurfew(Curfews, OnTheHour(2020, 10, 20, 10))
    ensures InCurfew(Curfews, OnTheHour(2021, 2, 1, 18))
    ensures !InCurfew(Curfews, OnTheHour(2021, 2, 1, 17))
    ensures !InCurfew(Curfews, OnTheHour(2020, 10, 29, 1))
  {
    CurfewInsideWindow(0, OnTheHour(2020, 10, 20, 22));
    CurfewInsideWindow(0, OnTheHour(2020, 10, 20, 10));
    CurfewInsideWindow(1, OnTheHour(2021, 2, 1, 18));
    CurfewInsideWindow(1, OnTheHour(2021, 2, 1, 17));
    CurfewEndDay(OnTheHour(2020, 10, 29, 1));
  }

  /** The hour test only describes a span across midnight: for a window whose
      start hour is not after its end hour, every hour passes it. */
  lemma HourTestCoversDayWhenNotWrapping(w: CurfewWindow, hour: int)
    requires w.startHour <= w.endHour
    ensures HourTest(w, hour)
  {
  }

  /** For the wrapping windows of the table, the hours that pass are exactly the
      night hours from the start hour to midnight and from midnight to 6:00. */
  lemma HourTestNightHours(i: int, hour: int)
    requires 0 <= i < |Curfews| && 0 <= hour < 24
    ensures HourTest(Curfews[i], hour) <==> (Curfews[i].startHour <= hour < 24 || 0 <= hour < 6)
  {
  }
}
