/** The weather rules: rainfall binned into four right-closed intervals, and
    three threshold flags on temperature (in kelvin) and wind speed. */
module Weather {
  import opened Frames

  // ---------------------------------------------------------------------------
  // Binning (`pd.cut` with right-closed intervals)

  /** A bin edge: a number, or positive infinity. */
  datatype Edge = Finite(x: real) | PosInf

  /** `e < x`. */
  predicate Above(x: real, e: Edge) {
    e.Finite? && e.x < x
  }

  /** `x <= e`. */
  predicate AtMost(x: real, e: Edge) {
    e.PosInf? || x <= e.x
  }

  predicate EdgeLess(a: Edge, b: Edge) {
    a.Finite? && (b.PosInf? || a.x < b.x)
  }

  /** The edges are strictly increasing, as `pd.cut` demands of its bins. */
  predicate Increasing(edges: seq<Edge>) {
    forall i, j :: 0 <= i < j < |edges| ==> EdgeLess(edges[i], edges[j])
  }

  /** Bin i is the interval (edges[i], edges[i + 1]]. */
  predicate InBin(edges: seq<Edge>, i: int, x: real) {
    0 <= i && i + 1 < |edges| && Above(x, edges[i]) && AtMost(x, edges[i + 1])
  }

  /** The first bin, from bin `from` on, that contains `x`. */
  function BinFrom(edges: seq<Edge>, x: real, from: nat): (b: Option<nat>)
    decreases |edges| - from
    ensures b.Some? ==> && from <= b.value && InBin(edges, b.value, x)
                        && forall j :: from <= j < b.value ==> !InBin(edges, j, x)
    ensures b.None? ==> forall j :: from <= j ==> !InBin(edges, j, x)
  {
    if from + 1 >= |edges| then None
    else if InBin(edges, from, x) then Some(from)
    else BinFrom(edges, x, from + 1)
  }

  /** With increasing edges the bins are disjoint. */
  lemma BinUnique(edges: seq<Edge>, x: real, i: int, j: int)
    requires Increasing(edges)
    ensures InBin(edges, i, x) && InBin(edges, j, x) ==> i == j
  {
    if 0 <= i && i + 1 < j < |edges| {
      assert EdgeLess(edges[i + 1], edges[j]);
    }
    if 0 <= j && j + 1 < i < |edges| {
      assert EdgeLess(edges[j + 1], edges[i]);
    }
  }

  /** `pd.cut(x, bins=edges, labels=labels)` on one number: the label of the bin
      holding it, or no category when no bin does. */
  function Cut(edges: seq<Edge>, labels: seq<string>, x: real): (c: Option<string>)
    requires |labels| + 1 == |edges|
    ensures c.None? <==> forall j :: !InBin(edges, j, x)
    ensures Increasing(edges) ==> forall j :: InBin(edges, j, x) ==> c == Some(labels[j])
  {
    var b := BinFrom(edges, x, 0);
    if b.Some? then
      assert forall j :: InBin(edges, j, x) && Increasing(edges) ==> j == b.value by {
        forall j ensures InBin(edges, j, x) && Increasing(edges) ==> j == b.value {
          if Increasing(edges) {
            BinUnique(edges, x, j, b.value);
          }
        }
      }
      Some(labels[b.value])
    else None
  }

  // ---------------------------------------------------------------------------
  // Rain category

  const RainEdges: seq<Edge> := [Finite(-1.0), Finite(0.0), Finite(2.0), Finite(10.0), PosInf]

  const RainLabels: seq<string> := ["No Rain", "Light Rain", "Moderate Rain", "Heavy Rain"]

  function CategorizeRain(x: real): Option<string> {
    Cut(RainEdges, RainLabels, x)
  }

  /** The rain bins written out: (-1, 0], (0, 2], (2, 10] and (10, inf), and no
      category at or below -1. */
  lemma RainBins(x: real)
    ensures CategorizeRain(x) == if x <= -1.0 then None
                                 else if x <= 0.0 then Some("No Rain")
                                 else if x <= 2.0 then Some("Light Rain")
                                 else if x <= 10.0 then Some("Moderate Rain")
                                 else Some("Heavy Rain")
  {
    assert Increasing(RainEdges);
    if x <= -1.0 {
      assert forall j :: !InBin(RainEdges, j, x);
    } else if x <= 0.0 {
      assert InBin(RainEdges, 0, x);
    } else if x <= 2.0 {
      assert InBin(RainEdges, 1, x);
    } else if x <= 10.0 {
      assert InBin(RainEdges, 2, x);
    } else {
      assert InBin(RainEdges, 3, x);
    }
  }

  /** Each bin includes its right edge and excludes its left one. */
  lemma RainBoundaries()
    ensures CategorizeRain(-1.0) == None
    ensures CategorizeRain(0.0) == Some("No Rain")
    ensures CategorizeRain(2.0) == Some("Light Rain")
    ensures CategorizeRain(2.0001) == Some("Moderate Rain")
    ensures CategorizeRain(10.0) == Some("Moderate Rain")
    ensures CategorizeRain(10.0001) == Some("Heavy Rain")
  {
    RainBins(-1.0);
    RainBins(0.0);
    RainBins(2.0);
    RainBins(2.0001);
    RainBins(10.0);
    RainBins(10.0001);
  }

  /** The rain category of one cell: a missing value, or a value in no bin, has
      no category (NaN in the categorical column). */
  function RainCell(rainfall: Value): (c: Value)
    requires IsNumeric(rainfall)
    ensures c.NaV? || c.TextV?
    ensures c.NaV? <==> rainfall.NaV? || AsReal(rainfall) <= -1.0
    ensures c.TextV? ==> c.s in RainLabels
  {
    if rainfall.NaV? then NaV
    else
      RainBins(AsReal(rainfall));
      var c := CategorizeRain(AsReal(rainfall));
      if c.Some? then TextV(c.value) else NaV
  }

  function RainFeature(rainfall: Value): Row
    requires IsNumeric(rainfall)
  {
    map[RainCategory := RainCell(rainfall)]
  }

  /** `categorize_weather`: the column "rain_category" from "rr1". */
  method CategorizeWeather(f: Frame) returns (r: Result<Frame>)
    requires f.WellFormed()
    ensures r.Err? <==> !Meets(f, Numbers(Rainfall))
    ensures r.Err? ==> r.error == Violation(f, Numbers(Rainfall))
    ensures r.Ok? ==> && r.value.WellFormed()
                      && r.value.columns == f.columns + {RainCategory}
                      && |r.value.rows| == |f.rows|
    ensures r.Ok? ==> forall i :: 0 <= i < |f.rows| ==>
              && IsNumeric(f.rows[i][Rainfall])
              && r.value.rows[i] == f.rows[i] + RainFeature(f.rows[i][Rainfall])
  {
    if !Meets(f, Numbers(Rainfall)) {
      return Err(Violation(f, Numbers(Rainfall)));
    }
    var rows: seq<Row> := [];
    for i := 0 to |f.rows|
      invariant |rows| == i
      invariant forall j :: 0 <= j < i ==> rows[j] == f.rows[j] + RainFeature(f.rows[j][Rainfall])
    {
      rows := rows + [f.rows[i] + RainFeature(f.rows[i][Rainfall])];
    }
    r := Ok(Frame(f.columns + {RainCategory}, rows));
  }

  // ---------------------------------------------------------------------------
  // Threshold indicators (a missing value compares false)

  function HotFlag(t: Value): (b: int)
    requires IsNumeric(t)
    ensures b == 0 || b == 1
    ensures t.NaV? ==> b == 0
    ensures b == 1 <==> !t.NaV? && AsReal(t) > 300.0
  {
    if t.NaV? then 0 else Flag(AsReal(t) > 300.0)
  }

  function ColdFlag(t: Value): (b: int)
    requires IsNumeric(t)
    ensures b == 0 || b == 1
    ensures t.NaV? ==> b == 0
    ensures b == 1 <==> !t.NaV? && AsReal(t) < 283.0
  {
    if t.NaV? then 0 else Flag(AsReal(t) < 283.0)
  }

  function HighWindFlag(ff: Value): (b: int)
    requires IsNumeric(ff)
    ensures b == 0 || b == 1
    ensures ff.NaV? ==> b == 0
    ensures b == 1 <==> !ff.NaV? && AsReal(ff) > 5.0
  {
    if ff.NaV? then 0 else Flag(AsReal(ff) > 5.0)
  }

  /** The temperature thresholds do not overlap: no reading is both hot and cold,
      and a reading from 283 to 300 kelvin is neither. */
  lemma HotColdExclusive(t: Value)
    requires IsNumeric(t)
    ensures !(HotFlag(t) == 1 && ColdFlag(t) == 1)
    ensures (t.IntV? || t.RealV?) && 283.0 <= AsReal(t) <= 300.0 ==> HotFlag(t) == 0 && ColdFlag(t) == 0
  {
  }

  function WeatherIndicators(t: Value, ff: Value): Row
    requires IsNumeric(t) && IsNumeric(ff)
  {
    map[IsHotDay := IntV(HotFlag(t)), IsColdDay := IntV(ColdFlag(t)), HighWind := IntV(HighWindFlag(ff))]
  }

  /** `add_weather_indicators`: "is_hot_day" and "is_cold_day" from "t", then
      "high_wind" from "ff". */
  method AddWeatherIndicators(f: Frame) returns (r: Result<Frame>)
    requires f.WellFormed()
    ensures r.Err? <==> Check(f, [Numbers(Temperature), Numbers(WindSpeed)]).Some?
    ensures r.Err? ==> r.error == Check(f, [Numbers(Temperature), Numbers(WindSpeed)]).value
    ensures r.Ok? ==> Meets(f, Numbers(Temperature)) && Meets(f, Numbers(WindSpeed))
    ensures r.Ok? ==> && r.value.WellFormed()
                      && r.value.columns == f.columns + {IsHotDay, IsColdDay, HighWind}
                      && |r.value.rows| == |f.rows|
    ensures r.Ok? ==> forall i :: 0 <= i < |f.rows| ==>
              && IsNumeric(f.rows[i][Temperature]) && IsNumeric(f.rows[i][WindSpeed])
              && r.value.rows[i] == f.rows[i] + WeatherIndicators(f.rows[i][Temperature], f.rows[i][WindSpeed])
  {
    var e := Check(f, [Numbers(Temperature), Numbers(WindSpeed)]);
    if e.Some? {
      return Err(e.value);
    }
    assert Meets(f, [Numbers(Temperature), Numbers(WindSpeed)][0]);
    assert Meets(f, [Numbers(Temperature), Numbers(WindSpeed)][1]);
    var rows: seq<Row> := [];
    for i := 0 to |f.rows|
      invariant |rows| == i
      invariant forall j :: 0 <= j < i ==>
                  rows[j] == f.rows[j] + WeatherIndicators(f.rows[j][Temperature], f.rows[j][WindSpeed])
    {
      var row := f.rows[i];
      rows := rows + [row + WeatherIndicators(row[Temperature], row[WindSpeed])];
    }
    r := Ok(Frame(f.columns + {IsHotDay, IsColdDay, HighWind}, rows));
  }

  // ---------------------------------------------------------------------------
  // Both weather passes

  const WeatherColumns: set<Column> := {RainCategory, IsHotDay, IsColdDay, HighWind}

  /** Every weather feature of one row. */
  function WeatherFeatures(row: Row): Row
    requires Rainfall in row && Temperature in row && WindSpeed in row
    requires IsNumeric(row[Rainfall]) && IsNumeric(row[Temperature]) && IsNumeric(row[WindSpeed])
  {
    RainFeature(row[Rainfall]) + WeatherIndicators(row[Temperature], row[WindSpeed])
  }

  /** The weather features only add columns: what the row held under any other
      column is untouched. */
  lemma WeatherIsAdditive(row: Row)
    requires Rainfall in row && Temperature in row && WindSpeed in row
    requires IsNumeric(row[Rainfall]) && IsNumeric(row[Temperature]) && IsNumeric(row[WindSpeed])
    ensures WeatherFeatures(row).Keys == WeatherColumns
    ensures (row + WeatherFeatures(row)).Keys == row.Keys + WeatherColumns
    ensures (row + WeatherFeatures(row)) - WeatherColumns == row - WeatherColumns
  {
  }

  /** Adding "rain_category" leaves the needs of the indicator pass as they were. */
  lemma RainKeepsNeeds(f: Frame, g: Frame, c: Column)
    requires f.WellFormed() && g.WellFormed() && c != RainCategory
    requires g.columns == f.columns + {RainCategory} && |g.rows| == |f.rows|
    requires forall i :: 0 <= i < |f.rows| ==> c in f.rows[i] ==> g.rows[i][c] == f.rows[i][c]
    ensures Meets(g, Numbers(c)) <==> Meets(f, Numbers(c))
    ensures Violation(g, Numbers(c)) == Violation(f, Numbers(c))
  {
  }

  /** `engineer_weather_features`: `categorize_weather`, then `add_weather_indicators`. */
  method EngineerWeatherFeatures(f: Frame) returns (r: Result<Frame>)
    requires f.WellFormed()
    ensures r.Err? <==> Check(f, [Numbers(Rainfall), Numbers(Temperature), Numbers(WindSpeed)]).Some?
    ensures r.Err? ==> r.error == Check(f, [Numbers(Rainfall), Numbers(Temperature), Numbers(WindSpeed)]).value
    ensures r.Ok? ==> Meets(f, Numbers(Rainfall)) && Meets(f, Numbers(Temperature)) && Meets(f, Numbers(WindSpeed))
    ensures r.Ok? ==> && r.value.WellFormed()
                      && r.value.columns == f.columns + WeatherColumns
                      && |r.value.rows| == |f.rows|
    ensures r.Ok? ==> forall i :: 0 <= i < |f.rows| ==>
              && IsNumeric(f.rows[i][Rainfall]) && IsNumeric(f.rows[i][Temperature])
              && IsNumeric(f.rows[i][WindSpeed])
              && r.value.rows[i] == f.rows[i] + WeatherFeatures(f.rows[i])
  {
    var needs := [Numbers(Rainfall), Numbers(Temperature), Numbers(WindSpeed)];
    var r1 := CategorizeWeather(f);
    if r1.Err? {
      assert !Meets(f, needs[0]);
      return r1;
    }
    var f1 := r1.value;
    RainKeepsNeeds(f, f1, Temperature);
    RainKeepsNeeds(f, f1, WindSpeed);
    assert needs[1..] == [Numbers(Temperature), Numbers(WindSpeed)];
    assert Check(f1, needs[1..]) == Check(f, needs[1..]);
    var r2 := AddWeatherIndicators(f1);
    if r2.Err? {
      return r2;
    }
    var f2 := r2.value;
    forall i | 0 <= i < |f.rows|
      ensures f2.rows[i] == f.rows[i] + WeatherFeatures(f.rows[i])
    {
      MergeAssoc(f.rows[i], RainFeature(f.rows[i][Rainfall]),
                 WeatherIndicators(f.rows[i][Temperature], f.rows[i][WindSpeed]));
    }
    r := Ok(f2);
  }
}
