# Bike-count feature encoder, modelled in Dafny

This project models the feature-engineering core of `preprocess_FE.py`, a pandas
pipeline that turns hourly bicycle-counter observations into model features. The
model covers four parts:

- **Curfew classifier** (`curfew_periods` / `is_curfew`). A fixed table of five
  nightly curfew periods (2020-10-17 to 2021-06-20), and the 0/1 flag each
  timestamp gets from it.
- **Date encoder** (`add_basic_date_features`, `add_season_feature`,
  `add_indicator_features`, `create_cyclical_features`, `encode_dates`).
  Calendar fields of `date_x`, the season, the school-holiday, public-holiday
  and peak-hour flags, sin/cos encodings of hour and month, and the curfew
  flag. `hour` and `month` are dropped by `create_cyclical_features` once
  they are encoded, and the timestamp `date_x` is dropped at the end.
- **Weather rules** (`categorize_weather`, `add_weather_indicators`,
  `engineer_weather_features`). Rainfall is binned into four right-closed
  intervals, and temperature and wind get threshold flags.
- **Dead-period cleaner** (`delete_zeros`). It removes every (counter, day)
  group whose counts sum to zero.

## How the model is built

A DataFrame is a `Frame`: a set of column labels and a sequence of rows, each
row a map from label to cell. Every pandas pass that assigns columns is a
method with a loop over the rows. It returns `Ok` with the new frame, or `Err`
with the error pandas would raise: a missing column, or a `.dt` accessor or
comparison on the wrong kind of cells. Each method's contract states:

- when it fails and with which error;
- the exact new column set;
- that the row count is unchanged (except in the cleaner);
- each output row as the input row plus a feature map, defined as a function
  of the cells the pass reads.

The pure rules are functions with lemmas about them: the curfew table, the
season map, the peak hours, the rain bins and the thresholds. The lemmas give
the rule written out independently, its boundary cases, and its examples.

The modules are:

- `Timestamps`: naive timestamps with nanoseconds, their order, day flooring,
  and the weekday.
- `Frames`: cells, labels, frames, errors, column needs, and `drop`.
- `Curfew`
- `DateFeatures`
- `Weather`
- `Cleaner`

Timestamp comparison is lexicographic on the fields. `pd.Timestamp("YYYY-MM-DD")`
is the midnight of that day. Weekdays are computed from days since 1970-01-01,
with Monday as 0.

### Behaviours of the code worth knowing

Three behaviours of the code are easy to misread. Each has a lemma that
states it:

- **Holiday flags.** The code (lines 137-138) tests the whole `date_x`
  timestamp for membership in the holiday sets, and those sets hold dates.
  So an hourly observation is flagged only at the midnight of a holiday.
  `DateFeatures.HolidayFlagIsNotPerDay` states this.
- **Curfew end date.** The code compares the timestamp with
  `pd.Timestamp(end_date)`, the midnight that starts the end day (lines
  60-62). So on the last day of a period only 00:00 is inside it.
  `Curfew.CurfewEndDay` and `Curfew.CurfewGapEvenings` state this.
- **Dead days.** The code (lines 213-216) removes exactly the (counter, day)
  groups whose counts *sum* to zero. When no count is negative, that is the
  same as every count of the group being zero or missing, so a day with one
  non-zero reading is kept whole. `Cleaner.DeadIffAllZero` proves this under
  that hypothesis. The code itself does not check the sign of the counts.

## Model

| member | source | states |
|---|---|---|
| Timestamps.FloorDay | preprocess_FE.py:210 | `dt.floor("D")` gives the midnight of the same day. That is never later than the timestamp, and equals it exactly when the timestamp is a midnight. |
| Timestamps.AtMostMidnightOfSameDay | preprocess_FE.py:60-62 | A valid timestamp compares `<=` with its own day's date string only when it is that midnight. |
| Timestamps.DayOfWeek | preprocess_FE.py:101 | The weekday is always in 0..6. |
| Timestamps.WeekdayNextDay | preprocess_FE.py:101 | Consecutive days of a month have consecutive weekdays modulo 7. |
| Timestamps.WeekdayExamples | preprocess_FE.py:101 | 1970-01-01 is a Thursday (3), 2020-10-20 a Tuesday (1) and 2021-03-20 a Saturday (5). |
| Timestamps.LessEqTotalOrder | preprocess_FE.py:62 | Timestamp comparison is a total order: reflexive, antisymmetric, transitive and total. |
| Frames.Check | preprocess_FE.py:137-139 | No error exactly when every column need holds. Otherwise the error is the one for the first unmet need, and all needs before it hold. |
| Frames.Drop | preprocess_FE.py:86 | `drop(columns=...)` removes exactly those columns from the frame and from every row, and keeps the row count. |
| Curfew.IsCurfew | preprocess_FE.py:58-66 | The flag is 0 or 1. It is 1 exactly when some window contains the timestamp and passes the hour test, found by the first-match loop. |
| Curfew.InCurfew | preprocess_FE.py:59-65 | The flag's meaning: some window holds the timestamp and passes its hour test. Outside every window's date range nothing is flagged whatever the hour. Inside the range of a window that does not wrap past midnight, every hour is flagged. |
| Curfew.CurfewPeriods | preprocess_FE.py:39-69 | Fails exactly when the date column is missing or not all timestamps. Otherwise it adds only "curfew", with each row's classifier value, and keeps the row count. |
| Curfew.CurfewTableOrdered | preprocess_FE.py:50-56 | Each curfew period ends strictly before the next starts. |
| Curfew.CurfewWindowsDisjoint | preprocess_FE.py:50-56 | No timestamp lies in two periods, so the order of the first-match loop does not matter. |
| Curfew.CurfewInsideWindow | preprocess_FE.py:59-65 | Inside period i, the flag is exactly period i's test `hour >= start or hour < end`. |
| Curfew.CurfewOutsideWindows | preprocess_FE.py:62 | Outside every period's `[start, end]` range the flag is 0, whatever the hour. |
| Curfew.CurfewOutsidePeriods | preprocess_FE.py:50-66 | The flag is 0 before 2020-10-17, after 2021-06-20, and in the gap between the first two periods. |
| Curfew.CurfewEndDay | preprocess_FE.py:61-62 | On 2020-10-29 (an end date) the flag is 1 only at midnight. So 01:00 gets 0 although 1 < 6. |
| Curfew.CurfewGapEvenings | preprocess_FE.py:51-62 | The evenings of the end dates 2021-03-20, 05-19, 06-09 and 06-20 get no flag. |
| Curfew.CurfewExamples | preprocess_FE.py:51-65 | 2020-10-20 22:00 gives 1 and 10:00 gives 0. 2021-02-01 18:00 gives 1 and 17:00 gives 0. 2020-10-29 01:00 gives 0. |
| Curfew.HourTestCoversDayWhenNotWrapping | preprocess_FE.py:64 | For a window whose start hour is not after its end hour, every hour passes the disjunctive test. |
| Curfew.HourTestNightHours | preprocess_FE.py:64 | For the table's windows, the hours that pass are exactly start-hour..23 and 0..5. |
| DateFeatures.AddBasicDateFeatures | preprocess_FE.py:88-103 | Fails exactly when `date_x` is missing or not all timestamps. Otherwise it adds year, month, day, weekday and hour from each row's timestamp. |
| DateFeatures.Select | preprocess_FE.py:122 | `np.select` gives the choice of the first condition that holds, or the default when none holds. |
| DateFeatures.SeasonByBlocks | preprocess_FE.py:115-122 | Months 1..12 map to Winter/Spring/Summer/Fall in three-month blocks starting in December. Every other value maps to "Unknown". |
| DateFeatures.SeasonPartition | preprocess_FE.py:115-122 | Each month 1..12 has exactly one season, never "Unknown", and each season is exactly its list of months. |
| DateFeatures.SeasonOf | preprocess_FE.py:116-119 | The season of a month cell is one of the four seasons or "Unknown". Whole months 1..12 get a season, and other integers get "Unknown". An integral real is looked up as its integer, a non-integral real gets "Unknown", and a text, timestamp or missing cell gets "Unknown". |
| DateFeatures.AddSeasonFeature | preprocess_FE.py:105-123 | Fails with a KeyError exactly when "month" is missing. Otherwise it adds "season" from each row's month cell. |
| DateFeatures.HolidayFlagIsNotPerDay | preprocess_FE.py:137-138 | With midnight holiday dates, a non-midnight observation on a holiday gets 0. The midnight of that day gets 1. |
| DateFeatures.HolidayFlag | preprocess_FE.py:137-138 | The flag is 0 or 1. A cell that is not a timestamp gets 0, and a timestamp in the set gets 1. When the set holds only midnights, a non-midnight timestamp gets 0. |
| DateFeatures.PeakFlag | preprocess_FE.py:139 | The flag is 0 or 1. A missing hour gets 0. A flagged hour lies in [6, 19), and an hour in [9, 16) is never flagged. |
| DateFeatures.PeakHours | preprocess_FE.py:139 | For whole hours, `is_peak` is 1 exactly at 6, 7, 8, 16, 17 and 18, and 0 otherwise. |
| DateFeatures.AddIndicatorFeatures | preprocess_FE.py:125-140 | Fails with the first unmet need: `date_x` present, then `hour` numeric. Otherwise it adds the two holiday flags and the peak flag per row. |
| DateFeatures.CreateCyclicalFeatures | preprocess_FE.py:72-86 | Fails exactly when the column is missing or not numeric. Otherwise it adds `sin_<c>` and `cos_<c>` and drops `<c>`. A missing cell stays missing. |
| DateFeatures.EncodedFeatures | preprocess_FE.py:142-162 | The features of one timestamp cover exactly the twelve encoded columns. |
| DateFeatures.FeatureSteps | preprocess_FE.py:154-162 | Composing the six passes' feature maps, with their drops, gives exactly `EncodedFeatures`. |
| DateFeatures.EncodedRow | preprocess_FE.py:154-162 | One row through the six passes and the final drop is the row without `hour`, `month` and `date_x`, plus `EncodedFeatures` of its timestamp. |
| DateFeatures.EncodedRows | preprocess_FE.py:154-162 | The same, for every row of the frame. |
| DateFeatures.EncodedColumnSet | preprocess_FE.py:154-162 | The column set after the passes is the input's, less the three consumed columns, plus the twelve encoded ones. |
| DateFeatures.EncodeDates | preprocess_FE.py:142-162 | Fails exactly when `date_x` is missing or not all timestamps. Otherwise every row is replaced by its encoding and the row count is unchanged. |
| DateFeatures.EncodeDatesTwiceFails | preprocess_FE.py:162 | The encoder's output has no `date_x`, so encoding it again fails with a KeyError. |
| Weather.BinFrom | preprocess_FE.py:174-177 | Finds the first right-closed bin holding the value, or none when no bin holds it. |
| Weather.BinUnique | preprocess_FE.py:175 | With increasing edges, no value lies in two bins. |
| Weather.Cut | preprocess_FE.py:174-177 | `pd.cut` gives no category exactly when no bin holds the value. Otherwise it gives the label of the bin that holds it. |
| Weather.RainBins | preprocess_FE.py:174-177 | The rain category is written out: none at or below -1, then (-1,0], (0,2], (2,10] and above 10. |
| Weather.RainBoundaries | preprocess_FE.py:174-177 | -1 gets none, 0 No Rain, 2 Light Rain, 2.0001 Moderate Rain, 10 Moderate Rain and 10.0001 Heavy Rain. |
| Weather.RainCell | preprocess_FE.py:174-177 | The cell is a category or missing. It is missing exactly when the rainfall is missing or at most -1. Otherwise it is one of the four labels. |
| Weather.CategorizeWeather | preprocess_FE.py:164-178 | Fails exactly when "rr1" is missing or not numeric. Otherwise it adds "rain_category" per row. |
| Weather.HotColdExclusive | preprocess_FE.py:190-191 | No temperature is both hot and cold, and 283..300 K is neither. |
| Weather.HotFlag | preprocess_FE.py:190 | The flag is 0 or 1. A missing temperature gets 0. The flag is 1 exactly when a temperature is present and above 300 K. |
| Weather.ColdFlag | preprocess_FE.py:191 | The flag is 0 or 1. A missing temperature gets 0. The flag is 1 exactly when a temperature is present and below 283 K. |
| Weather.HighWindFlag | preprocess_FE.py:192 | The flag is 0 or 1. A missing wind speed gets 0. The flag is 1 exactly when a wind speed is present and above 5. |
| Weather.AddWeatherIndicators | preprocess_FE.py:180-193 | Fails with the first unmet need, "t" then "ff" numeric. Otherwise it adds the three threshold flags per row. |
| Weather.WeatherIsAdditive | preprocess_FE.py:174-192 | The weather passes add exactly the four weather columns and leave every other cell as it was. |
| Weather.EngineerWeatherFeatures | preprocess_FE.py:195-207 | Fails with the first unmet need: "rr1", then "t", then "ff". Otherwise each row gains exactly its weather features. |
| Cleaner.KeyOf | preprocess_FE.py:210-213 | A row's group day is the midnight of the row's own day. |
| Cleaner.GroupSum | preprocess_FE.py:213-214 | The group's sum skips missing counts, as pandas' `sum` does. A group with no present, non-zero count sums to 0. That covers a group whose counts are all zero or missing, and a key that no row has. |
| Cleaner.DeadDays | preprocess_FE.py:212-216 | Every dead group is formed, sums to zero, and is the group of some row. A row with a missing counter never belongs to a dead group, because `groupby` drops missing keys. |
| Cleaner.KeepWhere | preprocess_FE.py:219-223 | The reference filter used in `DeleteZeros`' contract. It never outputs more rows than it is given, and no output row holds "truncated_date". |
| Cleaner.KeepWhereExtremes | preprocess_FE.py:219-223 | When no row's group is dead, every row is kept. When every row's group is dead, none is. |
| Cleaner.GroupSums | preprocess_FE.py:212-215 | The first pass has one entry per formed (counter, day) group of the rows, holding that group's sum of counts. |
| Cleaner.ZeroDaysAreDead | preprocess_FE.py:212-217 | The groups with a zero sum are exactly the dead periods. |
| Cleaner.KeepLeftOnly | preprocess_FE.py:219-223 | The second pass keeps, in order, the rows whose group is not dead, without "truncated_date". |
| Cleaner.DeleteZeros | preprocess_FE.py:209-224 | Fails with the first unmet need, or when a "_merge" column exists. Otherwise the output holds, as a multiset, exactly the rows of the non-dead groups without "truncated_date". |
| Cleaner.DeadIffGroupSumZero | preprocess_FE.py:212-216 | A row's group is dead exactly when its counter is not missing and the group's sum is zero. |
| Cleaner.KeptIffGroupSumNonZero | preprocess_FE.py:212-223 | A row reaches the output, without "truncated_date", exactly when its counter is missing or its group's sum is non-zero. |
| Cleaner.LiveRowsKept | preprocess_FE.py:219-223 | Every row of a group that is not dead reaches the output, without the helper column. |
| Cleaner.KeptRowsComeFromInput | preprocess_FE.py:219-223 | Every output row is an input row of a non-dead group, without the helper column. |
| Cleaner.GroupsKeptWhole | preprocess_FE.py:219-223 | A group keeps all of its rows or none. |
| Cleaner.ZeroSumMeansAllZero | preprocess_FE.py:213-216 | Under the hypothesis that no count is negative, a group's sum is at least 0. It is 0 exactly when every row of the group counts 0. |
| Cleaner.DeadIffAllZero | preprocess_FE.py:212-222 | Under the hypothesis that no count is negative, a row's day is removed exactly when every count of that counter on that day is zero. |
| Cleaner.TwoDayExample | preprocess_FE.py:209-224 | Three zero readings on one day and one 1.5 reading the next: the first day goes, and the second day stays whole. |

## Left out

- `get_zone_c_holidays` and `get_public_holidays` (lines 7-36) wrap external
  holiday libraries. The holiday sets are parameters of the date encoder.
- CreateCyclicalFeatures: the floating-point values of `np.sin` and `np.cos`
  are kept symbolic (`TrigV(fn, argument, period)`). Only which columns are
  added and dropped, and that a missing cell stays missing, is modelled.
- In-place updates and aliasing: every pass returns a new frame. That the
  caller's DataFrame also gains the new columns is not modelled. This covers
  the column assignments at lines 68, 98-102, 122, 137-139, 174, 190-192 and
  210.
- DeleteZeros: the output is stated as a multiset of rows, because the outer
  merge returns rows ordered by its keys. That order is not modelled.
- `observed=False` in the group-by: for categorical counters it also creates
  empty groups. Their merge rows are `right_only` and are discarded at line
  221, so they cannot change the result.
- Missing timestamps (NaT): a date column must hold timestamps in every row.
  A frame with a NaT is reported as a type error rather than propagated.
- Error kinds: pandas' KeyError, AttributeError, TypeError and ValueError
  become `KeyError`, `TypeError` and `IndicatorColumnClash` without messages.
  Summing text counts is reported as a type error, although pandas would
  concatenate the strings.
- dtypes: integers and floats are `IntV` and `RealV`, and categorical and
  object columns are text cells. Integer width and float rounding are not
  modelled, so group sums are exact and a float sum that rounds to zero is
  not represented.
- Trigonometric cells: a `sin_`/`cos_` cell is not counted as a number, so
  comparing, binning or cyclically encoding such a column would be a type
  error in the model, although pandas would accept it. No modelled pass
  reads those columns.
- Infinite cells: cell values have no infinity. The case `rr1 == inf`, which
  `pd.cut` places in "Heavy Rain", is not represented.
- Column labels: every label the code names has its own constructor, and any
  other label is `Other(name)`. An input label spelled like a named one is
  assumed to be given as that constructor.

