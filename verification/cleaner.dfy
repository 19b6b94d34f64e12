/** The dead-period cleaner: rows are grouped by counter and calendar day, and
    every group whose counts sum to exactly zero is removed whole. */
module Cleaner {
  import opened Timestamps
  import opened Frames

  /** A (counter, day) group: the counter's cell and the midnight of the day. */
  datatype GroupKey = GroupKey(counter: Value, day: Timestamp)

  /** A row the cleaner can place in a group: a timestamp under "date", a counter
      and a numeric (or missing) count. */
  predicate Groupable(row: Row) {
    && Date in row && row[Date].TimeV? && CounterName in row
    && LogBikeCount in row && IsNumeric(row[LogBikeCount])
  }

  predicate AllGroupable(rows: seq<Row>) {
    forall i :: 0 <= i < |rows| ==> Groupable(rows[i])
  }

  /** The group of a row: its counter and its date floored to the day. */
  function KeyOf(row: Row): (k: GroupKey)
    requires Groupable(row)
    ensures IsMidnight(k.day) && SameDay(k.day, row[Date].t)
  {
    GroupKey(row[CounterName], FloorDay(row[Date].t))
  }

  /** A group `groupby` forms: one whose counter is not missing. */
  predicate Formed(k: GroupKey) {
    !k.counter.NaV?
  }

  /** What a count adds to a group sum: a missing count adds nothing. */
  function CountOf(v: Value): real {
    if v.IntV? || v.RealV? then AsReal(v) else 0.0
  }

  /** What one row adds to the sum of group k. */
  function Contribution(row: Row, k: GroupKey): real {
    if Groupable(row) && KeyOf(row) == k then CountOf(row[LogBikeCount]) else 0.0
  }

  /** The number of rows of group k whose count is present and non-zero. */
  function NonZeroCounts(rows: seq<Row>, k: GroupKey): nat {
    if rows == [] then 0
    else
      var last := rows[|rows| - 1];
      NonZeroCounts(rows[..|rows| - 1], k)
      + (if Groupable(last) && KeyOf(last) == k && !last[LogBikeCount].NaV? && AsReal(last[LogBikeCount]) != 0.0
         then 1 else 0)
  }

  /** `groupby([...])["log_bike_count"].sum()` for the group k. Missing counts
      are skipped, so a group whose counts are all zero or missing, and a key no
      row has, sum to zero. */
  function GroupSum(rows: seq<Row>, k: GroupKey): (s: real)
    ensures NonZeroCounts(rows, k) == 0 ==> s == 0.0
  {
    if rows == [] then 0.0
    else GroupSum(rows[..|rows| - 1], k) + Contribution(rows[|rows| - 1], k)
  }

  /** The dead periods: the formed groups whose counts sum to zero. */
  function DeadDays(rows: seq<Row>): (dead: set<GroupKey>)
    requires AllGroupable(rows)
    ensures forall k :: k in dead ==> Formed(k) && GroupSum(rows, k) == 0.0
    ensures forall k :: k in dead ==> exists i :: 0 <= i < |rows| && KeyOf(rows[i]) == k
    ensures forall i :: 0 <= i < |rows| && rows[i][CounterName].NaV? ==> KeyOf(rows[i]) !in dead
  {
    set i | 0 <= i < |rows| && Formed(KeyOf(rows[i])) && GroupSum(rows, KeyOf(rows[i])) == 0.0
      :: KeyOf(rows[i])
  }

  /** The rows whose group is not in `dead`, in order, without "truncated_date". */
  function KeepWhere(rows: seq<Row>, dead: set<GroupKey>): (kept: seq<Row>)
    requires AllGroupable(rows)
    ensures |kept| <= |rows|
    ensures forall i :: 0 <= i < |kept| ==> TruncatedDate !in kept[i]
  {
    if rows == [] then []
    else
      var last := rows[|rows| - 1];
      KeepWhere(rows[..|rows| - 1], dead)
      + (if KeyOf(last) in dead then [] else [last - {TruncatedDate}])
  }

  // ---------------------------------------------------------------------------
  // The pass

  /** The group sums: one entry per formed group of the rows, holding the sum of
      its counts. */
  method GroupSums(rows: seq<Row>) returns (sums: map<GroupKey, real>)
    requires AllGroupable(rows)
    ensures forall i :: 0 <= i < |rows| && Formed(KeyOf(rows[i])) ==> KeyOf(rows[i]) in sums
    ensures forall k :: k in sums ==> Formed(k) && exists i :: 0 <= i < |rows| && KeyOf(rows[i]) == k
    ensures forall k :: k in sums ==> sums[k] == GroupSum(rows, k)
  {
    sums := map[];
    for i := 0 to |rows|
      invariant forall j :: 0 <= j < i && Formed(KeyOf(rows[j])) ==> KeyOf(rows[j]) in sums
      invariant forall k :: k in sums ==> Formed(k) && exists j :: 0 <= j < i && KeyOf(rows[j]) == k
      invariant SumsAgree(rows[..i], sums)
    {
      var k := KeyOf(rows[i]);
      ghost var before := sums;
      if Formed(k) {
        var previous := if k in sums then sums[k] else 0.0;
        sums := sums[k := previous + CountOf(rows[i][LogBikeCount])];
      }
      SumsStep(rows, i, before, sums);
    }
    assert rows[..|rows|] == rows;
  }

  /** Every formed group's entry (0 when absent) is its sum over `prefix`. */
  ghost predicate SumsAgree(prefix: seq<Row>, sums: map<GroupKey, real>) {
    forall k :: Formed(k) ==> GroupSum(prefix, k) == if k in sums then sums[k] else 0.0
  }

  /** One step of the first pass: adding row i's count to its group's entry
      keeps every entry equal to the sum over the rows seen so far. */
  lemma SumsStep(rows: seq<Row>, i: int, sums: map<GroupKey, real>, next: map<GroupKey, real>)
    requires AllGroupable(rows) && 0 <= i < |rows|
    requires SumsAgree(rows[..i], sums)
    requires next == if Formed(KeyOf(rows[i]))
                     then sums[KeyOf(rows[i]) := (if KeyOf(rows[i]) in sums then sums[KeyOf(rows[i])] else 0.0)
                                                 + CountOf(rows[i][LogBikeCount])]
                     else sums
    ensures SumsAgree(rows[..i + 1], next)
  {
    assert rows[..i] + [rows[i]] == rows[..i + 1];
    forall k | Formed(k)
      ensures GroupSum(rows[..i + 1], k) == if k in next then next[k] else 0.0
    {
      GroupSumSnoc(rows[..i], rows[i], k);
    }
  }

  /** The `left_only` rows of the outer merge against `zeroDays`, without the
      helper column. */
  method KeepLeftOnly(rows: seq<Row>, zeroDays: set<GroupKey>) returns (kept: seq<Row>)
    requires AllGroupable(rows)
    ensures kept == KeepWhere(rows, zeroDays)
  {
    kept := [];
    for i := 0 to |rows|
      invariant kept == KeepWhere(rows[..i], zeroDays)
    {
      assert rows[..i + 1][..i] == rows[..i];
      if KeyOf(rows[i]) !in zeroDays {
        kept := kept + [rows[i] - {TruncatedDate}];
      }
    }
    assert rows[..|rows|] == rows;
  }

  /** `delete_zeros`: sum the counts per (counter, day), collect the groups whose
      sum is zero, keep the rows of every other group (the `left_only` rows of
      the outer merge) and drop the helper column. pandas returns the kept rows
      ordered by the merge keys, so only the multiset of rows is promised. */
  method DeleteZeros(f: Frame) returns (r: Result<Frame>)
    requires f.WellFormed()
    ensures r.Err? <==> || Check(f, [Times(Date), Present(CounterName), Numbers(LogBikeCount)]).Some?
                        || MergeIndicator in f.columns
    ensures r.Err? ==> r.error == (var e := Check(f, [Times(Date), Present(CounterName), Numbers(LogBikeCount)]);
                                   if e.Some? then e.value else IndicatorColumnClash)
    ensures r.Ok? ==> && AllGroupable(f.rows)
                      && r.value.WellFormed()
                      && r.value.columns == f.columns - {TruncatedDate}
                      && multiset(r.value.rows) == multiset(KeepWhere(f.rows, DeadDays(f.rows)))
  {
    var e := Check(f, [Times(Date), Present(CounterName), Numbers(LogBikeCount)]);
    if e.Some? {
      return Err(e.value);
    }
    if MergeIndicator in f.columns {
      return Err(IndicatorColumnClash);
    }
    assert Meets(f, [Times(Date), Present(CounterName), Numbers(LogBikeCount)][0]);
    assert Meets(f, [Times(Date), Present(CounterName), Numbers(LogBikeCount)][1]);
    assert Meets(f, [Times(Date), Present(CounterName), Numbers(LogBikeCount)][2]);
    NeedsMakeGroupable(f);
    var sums := GroupSums(f.rows);
    var zeroDays := set k | k in sums && sums[k] == 0.0;
    ZeroDaysAreDead(f.rows, sums, zeroDays);
    var kept := KeepLeftOnly(f.rows, zeroDays);
    KeptRowsWellFormed(f, zeroDays);
    r := Ok(Frame(f.columns - {TruncatedDate}, kept));
  }

  lemma NeedsMakeGroupable(f: Frame)
    requires f.WellFormed()
    requires Meets(f, Times(Date)) && Meets(f, Present(CounterName)) && Meets(f, Numbers(LogBikeCount))
    ensures AllGroupable(f.rows)
  {
  }

  /** The kept rows hold the input's columns less "truncated_date". */
  lemma KeptRowsWellFormed(f: Frame, dead: set<GroupKey>)
    requires f.WellFormed() && AllGroupable(f.rows)
    ensures Frame(f.columns - {TruncatedDate}, KeepWhere(f.rows, dead)).WellFormed()
  {
    var kept := KeepWhere(f.rows, dead);
    KeptRowsComeFromInput(f.rows, dead);
    forall i | 0 <= i < |kept| ensures kept[i].Keys == f.columns - {TruncatedDate} {
      assert kept[i] in kept;
    }
  }

  /** The groups with a zero entry in the sums are exactly the dead periods. */
  lemma ZeroDaysAreDead(rows: seq<Row>, sums: map<GroupKey, real>, zeroDays: set<GroupKey>)
    requires AllGroupable(rows)
    requires forall i :: 0 <= i < |rows| && Formed(KeyOf(rows[i])) ==> KeyOf(rows[i]) in sums
    requires forall k :: k in sums ==> Formed(k) && exists i :: 0 <= i < |rows| && KeyOf(rows[i]) == k
    requires forall k :: k in sums ==> sums[k] == GroupSum(rows, k)
    requires zeroDays == set k | k in sums && sums[k] == 0.0
    ensures zeroDays == DeadDays(rows)
  {
    forall k | k in zeroDays ensures k in DeadDays(rows) {
      var i :| 0 <= i < |rows| && KeyOf(rows[i]) == k;
    }
  }

  // ---------------------------------------------------------------------------
  // Properties

  /** A row's group is dead exactly when it is formed (its counter is not
      missing) and its sum is zero. */
  lemma DeadIffGroupSumZero(rows: seq<Row>, i: int)
    requires AllGroupable(rows) && 0 <= i < |rows|
    ensures KeyOf(rows[i]) in DeadDays(rows) <==> Formed(KeyOf(rows[i])) && GroupSum(rows, KeyOf(rows[i])) == 0.0
  {
  }

  /** A row reaches the output (less the helper column) exactly when its group
      is not formed (a missing counter) or its group's sum is non-zero. */
  lemma KeptIffGroupSumNonZero(rows: seq<Row>, i: int)
    requires AllGroupable(rows) && 0 <= i < |rows|
    ensures rows[i] - {TruncatedDate} in KeepWhere(rows, DeadDays(rows))
            <==> !Formed(KeyOf(rows[i])) || GroupSum(rows, KeyOf(rows[i])) != 0.0
  {
    var dead := DeadDays(rows);
    var r := rows[i] - {TruncatedDate};
    if r in KeepWhere(rows, dead) {
      KeptRowsComeFromInput(rows, dead);
      var j :| 0 <= j < |rows| && KeyOf(rows[j]) !in dead && r == rows[j] - {TruncatedDate};
      assert rows[j][Date] == r[Date] == rows[i][Date];
      assert rows[j][CounterName] == r[CounterName] == rows[i][CounterName];
      assert KeyOf(rows[j]) == KeyOf(rows[i]);
    }
    if KeyOf(rows[i]) !in dead {
      LiveRowsKept(rows, dead, i);
    }
  }

  /** A row whose group is not dead reaches the output, less the helper column. */
  lemma {:induction false} LiveRowsKept(rows: seq<Row>, dead: set<GroupKey>, i: int)
    requires AllGroupable(rows) && 0 <= i < |rows| && KeyOf(rows[i]) !in dead
    ensures rows[i] - {TruncatedDate} in KeepWhere(rows, dead)
  {
    var init := rows[..|rows| - 1];
    if i < |rows| - 1 {
      assert init[i] == rows[i];
      LiveRowsKept(init, dead, i);
    }
  }

  /** Every output row is an input row, kept because its group is not dead, less
      the helper column. */
  lemma {:induction false} KeptRowsComeFromInput(rows: seq<Row>, dead: set<GroupKey>)
    requires AllGroupable(rows)
    ensures forall r :: r in KeepWhere(rows, dead) ==>
              exists j :: 0 <= j < |rows| && KeyOf(rows[j]) !in dead && r == rows[j] - {TruncatedDate}
  {
    if rows != [] {
      var init := rows[..|rows| - 1];
      KeptRowsComeFromInput(init, dead);
      forall r | r in KeepWhere(rows, dead)
        ensures exists j :: 0 <= j < |rows| && KeyOf(rows[j]) !in dead && r == rows[j] - {TruncatedDate}
      {
        if r in KeepWhere(init, dead) {
          var j :| 0 <= j < |init| && KeyOf(init[j]) !in dead && r == init[j] - {TruncatedDate};
          assert rows[j] == init[j];
        } else {
          assert KeyOf(rows[|rows| - 1]) !in dead && r == rows[|rows| - 1] - {TruncatedDate};
        }
      }
    }
  }

  /** With no dead group every row is kept; when every row's group is dead,
      none is. */
  lemma {:induction false} KeepWhereExtremes(rows: seq<Row>, dead: set<GroupKey>)
    requires AllGroupable(rows)
    ensures (forall i :: 0 <= i < |rows| ==> KeyOf(rows[i]) !in dead) ==> |KeepWhere(rows, dead)| == |rows|
    ensures (forall i :: 0 <= i < |rows| ==> KeyOf(rows[i]) in dead) ==> KeepWhere(rows, dead) == []
  {
    if rows != [] {
      var init := rows[..|rows| - 1];
      assert forall i :: 0 <= i < |init| ==> init[i] == rows[i];
      KeepWhereExtremes(init, dead);
    }
  }

  /** The number of rows of group k. */
  function GroupSize(rows: seq<Row>, k: GroupKey): nat {
    if rows == [] then 0
    else GroupSize(rows[..|rows| - 1], k) + (if Groupable(rows[|rows| - 1]) && KeyOf(rows[|rows| - 1]) == k then 1 else 0)
  }

  /** A group is kept or removed whole: the output holds all of its rows or none. */
  lemma {:induction false} GroupsKeptWhole(rows: seq<Row>, dead: set<GroupKey>, k: GroupKey)
    requires AllGroupable(rows)
    ensures GroupSize(KeepWhere(rows, dead), k) == if k in dead then 0 else GroupSize(rows, k)
  {
    if rows != [] {
      var init, last := rows[..|rows| - 1], rows[|rows| - 1];
      GroupsKeptWhole(init, dead, k);
      var tail := if KeyOf(last) in dead then [] else [last - {TruncatedDate}];
      GroupSizeAppend(KeepWhere(init, dead), tail, k);
      if tail != [] {
        assert Groupable(last - {TruncatedDate}) && KeyOf(last - {TruncatedDate}) == KeyOf(last);
        assert [last - {TruncatedDate}][..0] == [];
      }
    }
  }

  lemma {:induction false} GroupSizeAppend(a: seq<Row>, b: seq<Row>, k: GroupKey)
    ensures GroupSize(a + b, k) == GroupSize(a, k) + GroupSize(b, k)
  {
    if b != [] {
      assert (a + b)[..|a + b| - 1] == a + b[..|b| - 1];
      GroupSizeAppend(a, b[..|b| - 1], k);
    } else {
      assert a + b == a;
    }
  }

  /** Under the hypothesis that no count is negative, a group sums to zero
      exactly when every count in it is zero or missing. */
  lemma {:induction false} ZeroSumMeansAllZero(rows: seq<Row>, k: GroupKey)
    requires forall i :: 0 <= i < |rows| && Groupable(rows[i]) ==> CountOf(rows[i][LogBikeCount]) >= 0.0
    ensures GroupSum(rows, k) >= 0.0
    ensures GroupSum(rows, k) == 0.0 <==> forall i :: 0 <= i < |rows| ==> Contribution(rows[i], k) == 0.0
  {
    if rows != [] {
      var init := rows[..|rows| - 1];
      ZeroSumMeansAllZero(init, k);
      assert forall i :: 0 <= i < |init| ==> init[i] == rows[i];
    }
  }

  /** With non-negative counts, a row's (counter, day) group is a dead period
      exactly when every count of that group is zero or missing: a day with one
      non-zero reading keeps all its rows, zero readings included. */
  lemma DeadIffAllZero(rows: seq<Row>, i: int)
    requires AllGroupable(rows) && 0 <= i < |rows| && Formed(KeyOf(rows[i]))
    requires forall j :: 0 <= j < |rows| ==> CountOf(rows[j][LogBikeCount]) >= 0.0
    ensures KeyOf(rows[i]) in DeadDays(rows)
            <==> forall j :: 0 <= j < |rows| && KeyOf(rows[j]) == KeyOf(rows[i]) ==> CountOf(rows[j][LogBikeCount]) == 0.0
  {
    var k := KeyOf(rows[i]);
    ZeroSumMeansAllZero(rows, k);
    DeadIffGroupSumZero(rows, i);
    assert forall j :: 0 <= j < |rows| ==> Contribution(rows[j], k) == if KeyOf(rows[j]) == k then CountOf(rows[j][LogBikeCount]) else 0.0;
  }

  /** One reading of counter "A" on January `day` 2021 at `hour`. */
  function Reading(day: int, hour: int, count: real): Row {
    map[Date := TimeV(OnTheHour(2021, 1, day, hour)), CounterName := TextV("A"), LogBikeCount := RealV(count)]
  }

  lemma GroupSumSnoc(rows: seq<Row>, row: Row, k: GroupKey)
    ensures GroupSum(rows + [row], k) == GroupSum(rows, k) + Contribution(row, k)
  {
    assert (rows + [row])[..|rows|] == rows;
  }

  const ExampleRows: seq<Row> := [Reading(1, 0, 0.0), Reading(1, 1, 0.0), Reading(1, 2, 0.0),
                                   Reading(2, 8, 0.0), Reading(2, 9, 1.5)]

  lemma ReadingContribution(day: int, hour: int, count: real, other: int)
    ensures Groupable(Reading(day, hour, count))
    ensures KeyOf(Reading(day, hour, count)) == GroupKey(TextV("A"), Midnight(2021, 1, day))
    ensures Contribution(Reading(day, hour, count), GroupKey(TextV("A"), Midnight(2021, 1, other)))
            == if day == other then count else 0.0
  {
  }

  /** The sums of the example: zero on the first day, 1.5 on the second. */
  lemma ExampleSums()
    ensures AllGroupable(ExampleRows)
    ensures KeyOf(ExampleRows[1]) == KeyOf(ExampleRows[0]) && KeyOf(ExampleRows[2]) == KeyOf(ExampleRows[0])
    ensures KeyOf(ExampleRows[4]) == KeyOf(ExampleRows[3])
    ensures GroupSum(ExampleRows, KeyOf(ExampleRows[0])) == 0.0
    ensures GroupSum(ExampleRows, KeyOf(ExampleRows[3])) == 1.5
  {
    var r := ExampleRows;
    var first, second := GroupKey(TextV("A"), Midnight(2021, 1, 1)), GroupKey(TextV("A"), Midnight(2021, 1, 2));
    ReadingContribution(1, 0, 0.0, 1);
    ReadingContribution(1, 1, 0.0, 1);
    ReadingContribution(1, 2, 0.0, 1);
    ReadingContribution(2, 8, 0.0, 1);
    ReadingContribution(2, 9, 1.5, 1);
    ReadingContribution(1, 0, 0.0, 2);
    ReadingContribution(1, 1, 0.0, 2);
    ReadingContribution(1, 2, 0.0, 2);
    ReadingContribution(2, 8, 0.0, 2);
    ReadingContribution(2, 9, 1.5, 2);
    GroupSumSnoc([], r[0], first);
    GroupSumSnoc([r[0]], r[1], first);
    GroupSumSnoc([r[0], r[1]], r[2], first);
    GroupSumSnoc([r[0], r[1], r[2]], r[3], first);
    GroupSumSnoc([r[0], r[1], r[2], r[3]], r[4], first);
    GroupSumSnoc([], r[0], second);
    GroupSumSnoc([r[0]], r[1], second);
    GroupSumSnoc([r[0], r[1]], r[2], second);
    GroupSumSnoc([r[0], r[1], r[2]], r[3], second);
    GroupSumSnoc([r[0], r[1], r[2], r[3]], r[4], second);
    assert [] + [r[0]] == [r[0]] && [r[0]] + [r[1]] == [r[0], r[1]];
    assert [r[0], r[1]] + [r[2]] == [r[0], r[1], r[2]];
    assert [r[0], r[1], r[2]] + [r[3]] == [r[0], r[1], r[2], r[3]];
    assert [r[0], r[1], r[2], r[3]] + [r[4]] == r;
  }

  /** Counter "A" reads zero three times on one day and once zero, once 1.5 on
      the next: the first day goes, the second stays whole. */
  lemma TwoDayExample()
    ensures AllGroupable(ExampleRows)
    ensures KeepWhere(ExampleRows, DeadDays(ExampleRows)) == [ExampleRows[3], ExampleRows[4]]
  {
    var rows := ExampleRows;
    ExampleSums();
    DeadIffGroupSumZero(rows, 0);
    DeadIffGroupSumZero(rows, 3);
    var dead := DeadDays(rows);
    assert KeyOf(rows[0]) in dead && KeyOf(rows[3]) !in dead;
    assert rows[3] - {TruncatedDate} == rows[3] && rows[4] - {TruncatedDate} == rows[4];
    assert rows[..4][..3] == rows[..3] && rows[..3][..2] == rows[..2] && rows[..2][..1] == rows[..1];
    assert rows[..1][..0] == [];
    assert KeepWhere(rows[..1], dead) == [];
    assert KeepWhere(rows[..2], dead) == [];
    assert KeepWhere(rows[..3], dead) == [];
    assert KeepWhere(rows[..4], dead) == [rows[3]];
  }
}
