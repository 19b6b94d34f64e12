/** Naive (zone-less) timestamps with nanosecond precision, as pandas holds them,
    with the operations the feature encoder uses: the lexicographic order of
    timestamp comparison, flooring to the day, and calendar field extraction. */
module Timestamps {

  datatype Timestamp = Timestamp(year: int, month: int, day: int,
                                 hour: int, minute: int, second: int, nanosecond: int)
  {
    /** A real calendar instant: fields within their calendar ranges. */
    predicate Valid() {
      && 1 <= month <= 12
      && 1 <= day <= DaysInMonth(year, month)
      && 0 <= hour < 24
      && 0 <= minute < 60
      && 0 <= second < 60
      && 0 <= nanosecond < 1000000000
    }
  }

  predicate IsLeapYear(year: int) {
    year % 4 == 0 && (year % 100 != 0 || year % 400 == 0)
  }

  function DaysInMonth(year: int, month: int): int {
    if month == 2 then (if IsLeapYear(year) then 29 else 28)
    else if month in {4, 6, 9, 11} then 30
    else 31
  }

  /** The timestamp that a date string "YYYY-MM-DD" denotes: midnight of that day. */
  function Midnight(year: int, month: int, day: int): Timestamp {
    Timestamp(year, month, day, 0, 0, 0, 0)
  }

  /** A timestamp on the hour, as the hourly observations are. */
  function OnTheHour(year: int, month: int, day: int, hour: int): Timestamp {
    Timestamp(year, month, day, hour, 0, 0, 0)
  }

  predicate IsMidnight(t: Timestamp) {
    t.hour == 0 && t.minute == 0 && t.second == 0 && t.nanosecond == 0
  }

  predicate SameDay(a: Timestamp, b: Timestamp) {
    a.year == b.year && a.month == b.month && a.day == b.day
  }

  /** Timestamp comparison `a <= b`: lexicographic on the fields, largest unit first. */
  predicate LessEq(a: Timestamp, b: Timestamp) {
    if a.year != b.year then a.year < b.year
    else if a.month != b.month then a.month < b.month
    else if a.day != b.day then a.day < b.day
    else if a.hour != b.hour then a.hour < b.hour
    else if a.minute != b.minute then a.minute < b.minute
    else if a.second != b.second then a.second < b.second
    else a.nanosecond <= b.nanosecond
  }

  /** Timestamp comparison `a < b`. */
  predicate Less(a: Timestamp, b: Timestamp) {
    LessEq(a, b) && a != b
  }

  lemma LessEqTotalOrder(a: Timestamp, b: Timestamp, c: Timestamp)
    ensures LessEq(a, a)
    ensures LessEq(a, b) && LessEq(b, a) ==> a == b
    ensures LessEq(a, b) && LessEq(b, c) ==> LessEq(a, c)
    ensures LessEq(a, b) || LessEq(b, a)
  {
  }

  /** `ts.dt.floor("D")`: the midnight that starts the timestamp's day. */
  function FloorDay(t: Timestamp): (d: Timestamp)
    ensures SameDay(d, t) && IsMidnight(d)
    ensures t.Valid() ==> d.Valid() && LessEq(d, t)
    ensures d == t <==> IsMidnight(t)
  {
    Midnight(t.year, t.month, t.day)
  }

  /** Within one day (time fields non-negative), a timestamp is at most that day's
      midnight exactly when it is that midnight: comparing against a date string
      admits only the first instant of the day. */
  lemma AtMostMidnightOfSameDay(t: Timestamp)
    requires t.Valid()
    ensures LessEq(t, FloorDay(t)) <==> IsMidnight(t)
  {
  }

  /** Days since 1970-01-01 of a proleptic Gregorian date. */
  function DaysFromCivil(year: int, month: int, day: int): int {
    var y := if month <= 2 then year - 1 else year;
    var era := y / 400;
    var yearOfEra := y - era * 400;
    var dayOfYear := (153 * (if month > 2 then month - 3 else month + 9) + 2) / 5 + day - 1;
    var dayOfEra := yearOfEra * 365 + yearOfEra / 4 - yearOfEra / 100 + dayOfYear;
    era * 146097 + dayOfEra - 719468
  }

  /** `ts.dt.weekday`: Monday is 0 and Sunday is 6 (1970-01-01 was a Thursday). */
  function DayOfWeek(t: Timestamp): (w: int)
    ensures 0 <= w < 7
  {
    (DaysFromCivil(t.year, t.month, t.day) + 3) % 7
  }

  /** Consecutive days within a month have consecutive weekdays. */
  lemma WeekdayNextDay(t: Timestamp, u: Timestamp)
    requires u.year == t.year && u.month == t.month && u.day == t.day + 1
    ensures DayOfWeek(u) == (DayOfWeek(t) + 1) % 7
  {
  }

  lemma WeekdayExamples()
    ensures DayOfWeek(Midnight(1970, 1, 1)) == 3
    ensures DayOfWeek(OnTheHour(2020, 10, 20, 22)) == 1
    ensures DayOfWeek(Midnight(2021, 3, 20)) == 5
  {
    EpochDays();
    DaysOf2020();
    DaysOf2021();
  }

  lemma EpochDays()
    ensures DaysFromCivil(1970, 1, 1) == 0
  {
    assert 1969 / 400 == 4;
  }

  lemma DaysOf2020()
    ensures DaysFromCivil(2020, 10, 20) == 18555
  {
    assert 2020 / 400 == 5;
  }

  lemma DaysOf2021()
    ensures DaysFromCivil(2021, 3, 20) == 18706
  {
    assert 2021 / 400 == 5;
  }
}
