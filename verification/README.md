# Histogram panel time series, modelled in Dafny

This project models the time-series pipeline of the analytics viewer's histogram panel.
All of it lives in one file, `app/panels/histogram/module.js`. The pipeline has five parts.

- **`Interval`** (module `Intervals`, over the UTC calendar of module `Calendar`). An
  interval holds a bucket width. `after` steps an instant one bucket forward and `before`
  steps it one bucket back. Fixed units add or subtract `ms`. Month and year units set
  the UTC month or year field, as `setUTCMonth` and `setUTCFullYear` do. `Calendar`
  follows the Date algorithms of ECMAScript (section 21.4.1 of ECMA-262).
- **`ts.ZeroFilled`** (module `TimeSeries`, the class `ZeroFilled`).
  - The class keeps the stored value of every bucket time and a write counter per raw
    time key.
  - `addValue` parses the time the way `parseInt(time, 10)` does (module `TimeParse`).
  - `getOrderedTimes` sorts and de-duplicates the times (module `Seqs`).
  - `getFlotPairs` folds the ordered times with one of four fill strategies. Module
    `Fill` proves what each strategy emits.
- **The flot `stack` plugin** (module `Stack`).
  - `findMatchingSeries` finds the series to stack on.
  - `stackData` merges the two flat point buffers. It adds the lower y at equal x,
    interpolates when lines are drawn, copies gaps and keeps the optional bottom
    coordinate. The loop body is the function `Step`, and `Merge` runs it.
- **The flot `stackpercent` plugin** (module `StackPercent`, the class `PercentPlugin`).
  - The plugin sums the values of each key over all percent-stacked series.
  - It stacks each series on the persistent per-key bases.
  - It rescales by `100 / sum`, and forces 0 when the sum is not positive.
  - `BasesAfter` runs the loop for every series of a plot in order. Over a whole plot,
    the last series at a key reaches 100 (`PlotTopReaches100`).
- **The render path** (modules `Accumulate` and `Render`).
  - `Accumulate` models the per-mode fold of the facet entries into a series: count,
    min, max and total.
  - `Render` models `derivative`, `scale` and the `required_times` union that aligns
    all series before stacking.

Numbers are Dafny `real`s, which are exact. JavaScript `null` is `None` of an `Option`.
Where a JavaScript operator reads `null` as 0, the model applies `AsNumber`.

## Model

| member | source | states |
|---|---|---|
| Intervals.KindOf | var/lib/jenkins/joc/plugins/operations-center-analytics-viewer/app/panels/histogram/module.js:15-25 | the step is a calendar step for the units "y" and "M", and a fixed step for every other unit |
| Intervals.Ceil | var/lib/jenkins/joc/plugins/operations-center-analytics-viewer/app/panels/histogram/module.js:16 | `Math.ceil`: the least integer not below x |
| Intervals.NewInterval | var/lib/jenkins/joc/plugins/operations-center-analytics-viewer/app/panels/histogram/module.js:11-26 | the width is the ceiling of sec·1000·count, and the kind follows the unit |
| Intervals.FixedSteps | var/lib/jenkins/joc/plugins/operations-center-analytics-viewer/app/panels/histogram/module.js:32-52 | for a fixed unit, after(t) = t + ms and before(t) = t − ms, and each undoes the other |
| Intervals.CalendarGetUnfold | var/lib/jenkins/joc/plugins/operations-center-analytics-viewer/app/panels/histogram/module.js:38-49 | a calendar step sets the month (or year) field to field + delta and keeps date and time of day |
| Intervals.MonthAfter | var/lib/jenkins/joc/plugins/operations-center-analytics-viewer/app/panels/histogram/module.js:41-43 | after(t) of a month interval is the same date and time in the next month (day count overflowing into the month after) |
| Intervals.MonthBefore | var/lib/jenkins/joc/plugins/operations-center-analytics-viewer/app/panels/histogram/module.js:41-43 | before(t) of a month interval is the same date and time in the previous month |
| Intervals.YearAfter | var/lib/jenkins/joc/plugins/operations-center-analytics-viewer/app/panels/histogram/module.js:44-46 | after(t) of a year interval is the same month, date and time one year later |
| Intervals.YearBefore | var/lib/jenkins/joc/plugins/operations-center-analytics-viewer/app/panels/histogram/module.js:44-46 | before(t) of a year interval is the same month, date and time one year earlier |
| Intervals.AfterGrows | var/lib/jenkins/joc/plugins/operations-center-analytics-viewer/app/panels/histogram/module.js:32-52 | after(t) > t for every interval with a positive fixed width or a calendar unit |
| Intervals.BeforeShrinks | var/lib/jenkins/joc/plugins/operations-center-analytics-viewer/app/panels/histogram/module.js:35-52 | before(t) < t for every such interval |
| Intervals.MonthRoundTrip | var/lib/jenkins/joc/plugins/operations-center-analytics-viewer/app/panels/histogram/module.js:38-49 | before(after(t)) = t for a month interval when the date exists in the next month |
| Intervals.MonthRoundTripIff | var/lib/jenkins/joc/plugins/operations-center-analytics-viewer/app/panels/histogram/module.js:38-49 | for a month interval, before(after(t)) = t if and only if the date exists in the next month |
| Intervals.MonthRollsOver | var/lib/jenkins/joc/plugins/operations-center-analytics-viewer/app/panels/histogram/module.js:42 | when the date does not exist in the next month, after(t) rolls over into the month after it, and the round trip fails |
| Intervals.YearRoundTrip | var/lib/jenkins/joc/plugins/operations-center-analytics-viewer/app/panels/histogram/module.js:44-46 | before(after(t)) = t for a year interval on every date except 29 February |
| Intervals.FixedStepsN | var/lib/jenkins/joc/plugins/operations-center-analytics-viewer/app/panels/histogram/module.js:50-52 | k fixed steps from t land on t + k·ms |
| Intervals.MonthsLaterClosed | var/lib/jenkins/joc/plugins/operations-center-analytics-viewer/app/panels/histogram/module.js:42 | k months after (y, m) is (y + (m + k) div 12, (m + k) mod 12) |
| Intervals.MonthStepsN | var/lib/jenkins/joc/plugins/operations-center-analytics-viewer/app/panels/histogram/module.js:38-49 | k month steps from a date up to the 28th keep date and time and land k months later |
| Intervals.YearStepsN | var/lib/jenkins/joc/plugins/operations-center-analytics-viewer/app/panels/histogram/module.js:38-49 | n year steps from any date but 29 February keep month, date and time and land n years later |
| Intervals.TwelveMonthsMakeAYear | var/lib/jenkins/joc/plugins/operations-center-analytics-viewer/app/panels/histogram/module.js:38-49 | from a date up to the 28th, 12·n month steps reach the same instant as n year steps |
| Intervals.JanuaryThirtyFirst | var/lib/jenkins/joc/plugins/operations-center-analytics-viewer/app/panels/histogram/module.js:38-49 | from 31 January, 12·n month steps (n ≥ 1) never reach the instant of n year steps (the first step rolls into March) |
| Calendar.YearLength | var/lib/jenkins/joc/plugins/operations-center-analytics-viewer/app/panels/histogram/module.js:45 | the first day of year y + 1 is the first day of y plus its 365 or 366 days |
| Calendar.YearFromDay | var/lib/jenkins/joc/plugins/operations-center-analytics-viewer/app/panels/histogram/module.js:45 | `getUTCFullYear`: the year whose days contain the day number |
| Calendar.YearsUnique | var/lib/jenkins/joc/plugins/operations-center-analytics-viewer/app/panels/histogram/module.js:45 | only one year contains a given day |
| Calendar.MonthOf | var/lib/jenkins/joc/plugins/operations-center-analytics-viewer/app/panels/histogram/module.js:42 | `getUTCMonth`: the month whose days contain the day within the year |
| Calendar.ComputeFields | var/lib/jenkins/joc/plugins/operations-center-analytics-viewer/app/panels/histogram/module.js:39-45 | any instant splits into valid UTC fields that compose back to it |
| Calendar.ComposeInjective | var/lib/jenkins/joc/plugins/operations-center-analytics-viewer/app/panels/histogram/module.js:39-48 | two valid sets of fields that compose to the same instant are equal |
| Calendar.ComposeRoundTrip | var/lib/jenkins/joc/plugins/operations-center-analytics-viewer/app/panels/histogram/module.js:39-48 | the fields of the instant of valid fields are those fields |
| Calendar.NextMonthDay | var/lib/jenkins/joc/plugins/operations-center-analytics-viewer/app/panels/histogram/module.js:42 | the same date in the next month is the length of this month later |
| Calendar.PrevMonthDay | var/lib/jenkins/joc/plugins/operations-center-analytics-viewer/app/panels/histogram/module.js:42 | the same date in the previous month is the length of that month earlier |
| TimeParse.DigitRun | var/lib/jenkins/joc/plugins/operations-center-analytics-viewer/app/panels/histogram/module.js:68-70 | parseInt reads the longest run of decimal digits |
| TimeParse.ParseDecimalString | var/lib/jenkins/joc/plugins/operations-center-analytics-viewer/app/panels/histogram/module.js:68-70 | parseInt of the decimal numeral of an integer, with anything but a digit after it, gives the integer back |
| TimeParse.ParseDigitsOf | var/lib/jenkins/joc/plugins/operations-center-analytics-viewer/app/panels/histogram/module.js:68-70 | parseInt of the digits of a natural number gives the number, whatever non-digit text follows |
| TimeParse.ParseMinusDigitsOf | var/lib/jenkins/joc/plugins/operations-center-analytics-viewer/app/panels/histogram/module.js:68-70 | a leading minus sign negates the number read |
| TimeParse.ParseIntNaN | var/lib/jenkins/joc/plugins/operations-center-analytics-viewer/app/panels/histogram/module.js:68-70 | text without any digit parses to NaN |
| TimeParse.DigitsValueOfDigits | var/lib/jenkins/joc/plugins/operations-center-analytics-viewer/app/panels/histogram/module.js:68-70 | reading the decimal digits of n gives n |
| TimeParse.TrimStartSuffix | var/lib/jenkins/joc/plugins/operations-center-analytics-viewer/app/panels/histogram/module.js:68-70 | dropping the leading white space leaves a suffix of the text |
| Seqs.Insert | var/lib/jenkins/joc/plugins/operations-center-analytics-viewer/app/panels/histogram/module.js:141-144 | inserting into an ascending sequence keeps it ascending and adds exactly that element |
| Seqs.Sort | var/lib/jenkins/joc/plugins/operations-center-analytics-viewer/app/panels/histogram/module.js:141-144 | the numeric sort is ascending and a permutation of its input |
| Seqs.Uniq | var/lib/jenkins/joc/plugins/operations-center-analytics-viewer/app/panels/histogram/module.js:141-144 | `_.uniq(sorted, true)` is strictly ascending, keeps the same elements and keeps the first one |
| Seqs.SortUniq | var/lib/jenkins/joc/plugins/operations-center-analytics-viewer/app/panels/histogram/module.js:141-144 | sort then uniq is strictly ascending with exactly the input's elements |
| Seqs.AscendingUnique | var/lib/jenkins/joc/plugins/operations-center-analytics-viewer/app/panels/histogram/module.js:141-144 | two strictly ascending sequences with the same elements are equal |
| Seqs.SortUniqByElements | var/lib/jenkins/joc/plugins/operations-center-analytics-viewer/app/panels/histogram/module.js:141-144 | the ordered times depend only on the set of times, not on their order or repetitions |
| TimeSeries.FillStyleOf | var/lib/jenkins/joc/plugins/operations-center-analytics-viewer/app/panels/histogram/module.js:160-168 | "all", "null" and "no" pick their strategies (each if and only if), and every other string picks minimal |
| TimeSeries.DatesTime | var/lib/jenkins/joc/plugins/operations-center-analytics-viewer/app/panels/histogram/module.js:73-75 | getDatesTime cuts an instant down to a whole second: the greatest multiple of 1000 not above it |
| TimeSeries.ParsedTimeDef | var/lib/jenkins/joc/plugins/operations-center-analytics-viewer/app/panels/histogram/module.js:120-124 | a Date gives its instant without milliseconds, and any other time gives parseInt of its text |
| TimeSeries.NumberTimeParsed | var/lib/jenkins/joc/plugins/operations-center-analytics-viewer/app/panels/histogram/module.js:123 | an integer time parses to itself |
| TimeSeries.LastWriteWins | var/lib/jenkins/joc/plugins/operations-center-analytics-viewer/app/panels/histogram/module.js:125-127 | of two writes at the same time, the second one wins |
| TimeSeries.StoreFrame | var/lib/jenkins/joc/plugins/operations-center-analytics-viewer/app/panels/histogram/module.js:125-127 | a write changes no other time, and a NaN time changes nothing |
| TimeSeries.ListsKeysDef | var/lib/jenkins/joc/plugins/operations-center-analytics-viewer/app/panels/histogram/module.js:137 | the key list holds every stored time exactly once |
| TimeSeries.ListsKeysStore | var/lib/jenkins/joc/plugins/operations-center-analytics-viewer/app/panels/histogram/module.js:126 | a write keeps the key list exact: a new time is appended, an existing one stays |
| TimeSeries.ZeroFilled.constructor | var/lib/jenkins/joc/plugins/operations-center-analytics-viewer/app/panels/histogram/module.js:93-111 | empty data and counters, start and end cut to whole seconds, and fill style "minimal" by default |
| TimeSeries.ZeroFilled.AddValue | var/lib/jenkins/joc/plugins/operations-center-analytics-viewer/app/panels/histogram/module.js:118-129 | the counter of the raw key always grows by one; the value is stored at the parsed time, with undefined stored as 0 and nothing stored for NaN; the cache is cleared |
| TimeSeries.ZeroFilled.OrderedTimes | var/lib/jenkins/joc/plugins/operations-center-analytics-viewer/app/panels/histogram/module.js:136-145 | strictly ascending, with exactly the stored times and the included ones |
| TimeSeries.ZeroFilled.MinFlotPairs | var/lib/jenkins/joc/plugins/operations-center-analytics-viewer/app/panels/histogram/module.js:198-223 | appends the minimal-fill points of the i-th time to the result |
| TimeSeries.ZeroFilled.AllFlotPairs | var/lib/jenkins/joc/plugins/operations-center-analytics-viewer/app/panels/histogram/module.js:231-242 | its loop appends the time and then zeros one interval apart while they stay below the next time |
| TimeSeries.ZeroFilled.NullFlotPairs | var/lib/jenkins/joc/plugins/operations-center-analytics-viewer/app/panels/histogram/module.js:249-274 | appends the null-fill points of the i-th time to the result |
| TimeSeries.ZeroFilled.NoZeroFlotPairs | var/lib/jenkins/joc/plugins/operations-center-analytics-viewer/app/panels/histogram/module.js:281-289 | appends the time only when its stored value is truthy |
| TimeSeries.ZeroFilled.StrategyPairs | var/lib/jenkins/joc/plugins/operations-center-analytics-viewer/app/panels/histogram/module.js:160-175 | one call of the chosen strategy appends that strategy's points |
| TimeSeries.ZeroFilled.GetFlotPairs | var/lib/jenkins/joc/plugins/operations-center-analytics-viewer/app/panels/histogram/module.js:155-190 | the reduce over the ordered times gives the fold of the configured strategy, for which the Fill lemmas below hold |
| Fill.EachTimeOnce | var/lib/jenkins/joc/plugins/operations-center-analytics-viewer/app/panels/histogram/module.js:198-289 | every ordered time is emitted exactly once by minimal, all and null fill; no fill emits it once if its value is truthy, otherwise never |
| Fill.CountUpTo | var/lib/jenkins/joc/plugins/operations-center-analytics-viewer/app/panels/histogram/module.js:170-175 | after n steps of the reduce, each of the first n times has been emitted as often as above and no later time at all |
| Fill.ZeroFilledPoints | var/lib/jenkins/joc/plugins/operations-center-analytics-viewer/app/panels/histogram/module.js:198-242 | every point of minimal and all fill is an ordered time with `data[t] \|\| 0`, or a 0 strictly between two consecutive ordered times |
| Fill.PointsUpTo | var/lib/jenkins/joc/plugins/operations-center-analytics-viewer/app/panels/histogram/module.js:170-175 | the same for every prefix of the reduce |
| Fill.MinStepSided | var/lib/jenkins/joc/plugins/operations-center-analytics-viewer/app/panels/histogram/module.js:198-274 | minimal and null fill emit the same three-part shape: an optional point before, the time, an optional point after |
| Fill.SidesBetween | var/lib/jenkins/joc/plugins/operations-center-analytics-viewer/app/panels/histogram/module.js:202-220 | the points before and after a time carry the gap value and lie strictly between two consecutive ordered times |
| Fill.BeforeSideBetween | var/lib/jenkins/joc/plugins/operations-center-analytics-viewer/app/panels/histogram/module.js:202-208 | `[before(t), gap]` is emitted only when the previous time is earlier, and then lies between the two |
| Fill.AfterSideBetween | var/lib/jenkins/joc/plugins/operations-center-analytics-viewer/app/panels/histogram/module.js:214-220 | `[after(t), gap]` is emitted only when a next time exists and is later, and then lies between the two |
| Fill.SidedCount | var/lib/jenkins/joc/plugins/operations-center-analytics-viewer/app/panels/histogram/module.js:198-223 | one step emits its own time once and no other ordered time |
| Fill.AllGapRange | var/lib/jenkins/joc/plugins/operations-center-analytics-viewer/app/panels/histogram/module.js:237-239 | the zeros of the all-fill loop lie from after(t) up to, not including, the next time |
| Fill.AllGapBetween | var/lib/jenkins/joc/plugins/operations-center-analytics-viewer/app/panels/histogram/module.js:234-239 | those zeros are not ordered times and lie between two consecutive ones |
| Fill.NoFillPoints | var/lib/jenkins/joc/plugins/operations-center-analytics-viewer/app/panels/histogram/module.js:281-289 | no fill emits only ordered times that hold a truthy value, with that value |
| Fill.NullStepIsNulled | var/lib/jenkins/joc/plugins/operations-center-analytics-viewer/app/panels/histogram/module.js:249-274 | one null-fill step is the minimal-fill step with its zeros replaced by null |
| Fill.NullMatchesMinimal | var/lib/jenkins/joc/plugins/operations-center-analytics-viewer/app/panels/histogram/module.js:249-274 | null fill is minimal fill with zeros as nulls (same x positions), and minimal fill is null fill with nulls as zeros |
| Fill.ZeroedNulled | var/lib/jenkins/joc/plugins/operations-center-analytics-viewer/app/panels/histogram/module.js:262 | turning the zeros of minimal-fill values into nulls and back loses nothing |
| Fill.AllUpTo | var/lib/jenkins/joc/plugins/operations-center-analytics-viewer/app/panels/histogram/module.js:231-242 | every prefix of the all-fill reduce is chained and ends one interval short of the next time |
| Fill.AllFillChained | var/lib/jenkins/joc/plugins/operations-center-analytics-viewer/app/panels/histogram/module.js:231-242 | all fill starts at the first time and ends at the last, and consecutive points are ascending and at most one interval apart |
| Fill.AllFillExample | var/lib/jenkins/joc/plugins/operations-center-analytics-viewer/app/panels/histogram/module.js:231-242 | with a 60000 ms interval and times {0, 300000}, all fill emits exactly 6 points |
| Fill.MinimalTwoBucketGap | var/lib/jenkins/joc/plugins/operations-center-analytics-viewer/app/panels/histogram/module.js:198-223 | a gap of exactly two buckets makes minimal fill emit the middle time twice |
| Accumulate.SeriesFillStyle | var/lib/jenkins/joc/plugins/operations-center-analytics-viewer/app/panels/histogram/module.js:3143 | a new series fills with null for the derivative view, else minimal when zero filling is on, else no fill |
| Accumulate.FoldFrame | var/lib/jenkins/joc/plugins/operations-center-analytics-viewer/app/panels/histogram/module.js:3155-3187 | the fold writes exactly the times of the entries and leaves every other time as it was |
| Accumulate.CountModeSums | var/lib/jenkins/joc/plugins/operations-center-analytics-viewer/app/panels/histogram/module.js:3162-3163 | in count mode a time ends with its old value (or 0) plus the counts of its entries |
| Accumulate.TotalModeSums | var/lib/jenkins/joc/plugins/operations-center-analytics-viewer/app/panels/histogram/module.js:3183-3184 | in total mode a time ends with its old value (or 0) plus the totals of its entries |
| Accumulate.MinModeIsLeast | var/lib/jenkins/joc/plugins/operations-center-analytics-viewer/app/panels/histogram/module.js:3171-3176 | in min mode a time ends with the least of its old value and its entries' minima, and that value is one of them |
| Accumulate.MaxModeIsGreatest | var/lib/jenkins/joc/plugins/operations-center-analytics-viewer/app/panels/histogram/module.js:3177-3182 | in max mode a time ends with the greatest of its old value and its entries' maxima, and that value is one of them |
| Accumulate.OtherModeZeros | var/lib/jenkins/joc/plugins/operations-center-analytics-viewer/app/panels/histogram/module.js:3162-3186 | any other mode leaves the value undefined, so addValue stores 0 |
| Accumulate.FoldNoNulls | var/lib/jenkins/joc/plugins/operations-center-analytics-viewer/app/panels/histogram/module.js:3155-3187 | the count, min, max and total folds never store null |
| Accumulate.TallyHits | var/lib/jenkins/joc/plugins/operations-center-analytics-viewer/app/panels/histogram/module.js:3158 | the series' hits grow by the sum of the entries' counts |
| Accumulate.TallyCounts | var/lib/jenkins/joc/plugins/operations-center-analytics-viewer/app/panels/histogram/module.js:3160 | each time's counter grows by the counts of the entries at that time, and no counter appears for another time |
| Accumulate.AddEntry | var/lib/jenkins/joc/plugins/operations-center-analytics-viewer/app/panels/histogram/module.js:3155-3186 | one entry: the mode's value is written at its time, its write counter grows, and hits and counters grow by its count |
| Accumulate.AddEntries | var/lib/jenkins/joc/plugins/operations-center-analytics-viewer/app/panels/histogram/module.js:3155-3187 | the loop over the entries leaves the series and the tallies as the folds above |
| Render.Derivative | var/lib/jenkins/joc/plugins/operations-center-analytics-viewer/app/panels/histogram/module.js:3316-3326 | the derivative keeps every x |
| Render.DerivativeNulls | var/lib/jenkins/joc/plugins/operations-center-analytics-viewer/app/panels/histogram/module.js:3319-3322 | a derivative value is null if and only if it is the first one, or its value or the previous one is null |
| Render.DerivativeTelescopes | var/lib/jenkins/joc/plugins/operations-center-analytics-viewer/app/panels/histogram/module.js:3316-3326 | over a run without nulls, the derivative values add up to the last value minus the first |
| Render.Scale | var/lib/jenkins/joc/plugins/operations-center-analytics-viewer/app/panels/histogram/module.js:3304-3308 | scale keeps every x |
| Render.ScaleAt | var/lib/jenkins/joc/plugins/operations-center-analytics-viewer/app/panels/histogram/module.js:3306 | each scaled value is the old one (null as 0) times the factor |
| Render.ScaleNoNulls | var/lib/jenkins/joc/plugins/operations-center-analytics-viewer/app/panels/histogram/module.js:3306 | scaling leaves no null |
| Render.ScaleCompose | var/lib/jenkins/joc/plugins/operations-center-analytics-viewer/app/panels/histogram/module.js:3304-3308 | scaling by a and then by b is scaling by a·b |
| Render.ScaleByOne | var/lib/jenkins/joc/plugins/operations-center-analytics-viewer/app/panels/histogram/module.js:3304-3308 | scaling by 1, or by f and then by 1/f, only turns nulls into zeros |
| Render.TransformShape | var/lib/jenkins/joc/plugins/operations-center-analytics-viewer/app/panels/histogram/module.js:3452-3457 | the render transforms keep every x, and a scale other than 1 leaves no null |
| Render.AllTimes | var/lib/jenkins/joc/plugins/operations-center-analytics-viewer/app/panels/histogram/module.js:3440-3442 | the concatenated ordered times of all series hold exactly all their stored times |
| Render.RequiredTimes | var/lib/jenkins/joc/plugins/operations-center-analytics-viewer/app/panels/histogram/module.js:3438-3447 | strictly ascending; all stored times of all series when there are several, empty otherwise |
| Render.SeriesPairsDef | var/lib/jenkins/joc/plugins/operations-center-analytics-viewer/app/panels/histogram/module.js:3451 | a series is plotted with its own fill style over its times and the required ones |
| Render.SharedTimes | var/lib/jenkins/joc/plugins/operations-center-analytics-viewer/app/panels/histogram/module.js:3438-3451 | with several series, every series is plotted over the same ordered times |
| Render.SingleSeriesOwnTimes | var/lib/jenkins/joc/plugins/operations-center-analytics-viewer/app/panels/histogram/module.js:3438-3451 | a single series is plotted over its own times |
| Render.AlignedForStacking | var/lib/jenkins/joc/plugins/operations-center-analytics-viewer/app/panels/histogram/module.js:3436-3451 | with several series, every series that fills holds exactly one point at every required time, so the stacks line up |
| Render.RenderSeries | var/lib/jenkins/joc/plugins/operations-center-analytics-viewer/app/panels/histogram/module.js:3451-3457 | one series' pairs, then the derivative if set, then the scale if it is not 1 |
| Render.PlotData | var/lib/jenkins/joc/plugins/operations-center-analytics-viewer/app/panels/histogram/module.js:3450-3457 | the loop renders each series, in order |
| Render.RenderData | var/lib/jenkins/joc/plugins/operations-center-analytics-viewer/app/panels/histogram/module.js:3438-3457 | each series rendered over the required times of all series |
| Stack.Series.constructor | var/lib/jenkins/joc/plugins/operations-center-analytics-viewer/app/panels/histogram/module.js:2459-2476 | a series with the given option, buffer and point size, with lines, steps, horizontal bars and bottoms off |
| Stack.Position | var/lib/jenkins/joc/plugins/operations-center-analytics-viewer/app/panels/histogram/module.js:2448-2450 | the index where the scan meets `s`: no earlier series is `s` |
| Stack.LastMatch | var/lib/jenkins/joc/plugins/operations-center-analytics-viewer/app/panels/histogram/module.js:2446-2457 | null if and only if no series of the prefix has the option; otherwise one of the prefix |
| Stack.LastMatchIsLast | var/lib/jenkins/joc/plugins/operations-center-analytics-viewer/app/panels/histogram/module.js:2448-2453 | the series found has the option, and no later series of the prefix has it |
| Stack.MatchBefore | var/lib/jenkins/joc/plugins/operations-center-analytics-viewer/app/panels/histogram/module.js:2446-2457 | a series is never stacked on itself, and only on a series of the plot |
| Stack.FindMatchingSeries | var/lib/jenkins/joc/plugins/operations-center-analytics-viewer/app/panels/histogram/module.js:2446-2457 | the loop with its break returns the last series with the same option before `s` |
| Stack.LayoutOf | var/lib/jenkins/joc/plugins/operations-center-analytics-viewer/app/panels/histogram/module.js:2467-2480 | the layout of two series whose points hold x and y is well formed (a bottom only as a third coordinate) |
| Stack.Nulls | var/lib/jenkins/joc/plugins/operations-center-analytics-viewer/app/panels/histogram/module.js:2504-2505 | `ps` nulls |
| Stack.Branch | var/lib/jenkins/joc/plugins/operations-center-analytics-viewer/app/panels/histogram/module.js:2486-2565 | one branch emits no point or one point, and advances i by a point, j by a point, or both |
| Stack.Compare | var/lib/jenkins/joc/plugins/operations-center-analytics-viewer/app/panels/histogram/module.js:2510-2559 | the comparison of x values moves at least one buffer on, and a skipped point emits nothing |
| Stack.StepsFixed | var/lib/jenkins/joc/plugins/operations-center-analytics-viewer/app/panels/histogram/module.js:2568-2575 | the line-steps fix changes neither position nor fromgap and adds at most one point |
| Stack.Step | var/lib/jenkins/joc/plugins/operations-center-analytics-viewer/app/panels/histogram/module.js:2482-2576 | each iteration keeps both positions on point boundaries and advances i or j, so the loop ends |
| Stack.GapBelow | var/lib/jenkins/joc/plugins/operations-center-analytics-viewer/app/panels/histogram/module.js:2502-2508 | a gap below emits `ps` nulls, moves the lower buffer on and sets fromgap |
| Stack.AddedBelowValues | var/lib/jenkins/joc/plugins/operations-center-analytics-viewer/app/panels/histogram/module.js:2517-2564 | at equal x the output y is its own y plus the lower y, the bottom gains the same, and the rest is copied |
| Stack.CompareSameX | var/lib/jenkins/joc/plugins/operations-center-analytics-viewer/app/panels/histogram/module.js:2517-2526 | at equal x both buffers move on and the point is copied with the lower y added |
| Stack.BottomSameX | var/lib/jenkins/joc/plugins/operations-center-analytics-viewer/app/panels/histogram/module.js:2521-2564 | adding the bottom after the copy gives the stacked point |
| Stack.SameX | var/lib/jenkins/joc/plugins/operations-center-analytics-viewer/app/panels/histogram/module.js:2509-2565 | without line steps, an iteration at equal x appends the stacked point and clears fromgap |
| Stack.RunAligned | var/lib/jenkins/joc/plugins/operations-center-analytics-viewer/app/panels/histogram/module.js:2482-2576 | when both buffers hold points at the same x values, one for one, the rest of the loop appends the stacked points |
| Stack.StackedAligned | var/lib/jenkins/joc/plugins/operations-center-analytics-viewer/app/panels/histogram/module.js:2459-2578 | two such buffers stack point by point: each own y plus the lower y |
| Stack.Merge | var/lib/jenkins/joc/plugins/operations-center-analytics-viewer/app/panels/histogram/module.js:2482-2576 | the while loop produces the stacked buffer |
| Stack.StackData | var/lib/jenkins/joc/plugins/operations-center-analytics-viewer/app/panels/histogram/module.js:2459-2579 | a series without a stack option, or without an earlier series sharing it, keeps its points; otherwise its points become the merge with the series below |
| StackPercent.Accum | var/lib/jenkins/joc/plugins/operations-center-analytics-viewer/app/panels/histogram/module.js:2654-2658 | the falsy-entry reset still makes a key's sum grow by the value |
| StackPercent.RowsIntoTotal | var/lib/jenkins/joc/plugins/operations-center-analytics-viewer/app/panels/histogram/module.js:2648-2660 | one series adds its values for a key to that key's sum; a key is present if and only if it was before or some row has it |
| StackPercent.SumsTotal | var/lib/jenkins/joc/plugins/operations-center-analytics-viewer/app/panels/histogram/module.js:2635-2665 | a key's sum is the total of its values over all percent-stacked series; a key is present if and only if such a series has a row with it |
| StackPercent.GetStackSums | var/lib/jenkins/joc/plugins/operations-center-analytics-viewer/app/panels/histogram/module.js:2635-2665 | the nested loops compute those sums |
| StackPercent.RatioAdd | var/lib/jenkins/joc/plugins/operations-center-analytics-viewer/app/panels/histogram/module.js:2626 | percentages of the same sum add up |
| StackPercent.RatioBounds | var/lib/jenkins/joc/plugins/operations-center-analytics-viewer/app/panels/histogram/module.js:2697-2699 | for 0 ≤ a ≤ b ≤ sum, the percentages are ordered within [0, 100], and the sum itself is 100 |
| StackPercent.Percents | var/lib/jenkins/joc/plugins/operations-center-analytics-viewer/app/panels/histogram/module.js:2623-2630 | one percentage per row |
| StackPercent.KeyShareRatio | var/lib/jenkins/joc/plugins/operations-center-analytics-viewer/app/panels/histogram/module.js:2623-2630 | one series' percentages for a key add up to the percentage of its total |
| StackPercent.AllSharesRatio | var/lib/jenkins/joc/plugins/operations-center-analytics-viewer/app/panels/histogram/module.js:2623-2630 | all series' percentages for a key add up to the percentage of their total |
| StackPercent.SharesMakeWhole | var/lib/jenkins/joc/plugins/operations-center-analytics-viewer/app/panels/histogram/module.js:2609-2665 | with the sums computed from the same series and no null y, the percentages of a key with a positive sum add up to 100 |
| StackPercent.ChunkOf | var/lib/jenkins/joc/plugins/operations-center-analytics-viewer/app/panels/histogram/module.js:2688-2703 | the point keeps its key; with a positive sum its value is (value + base)·100/sum and its bottom base·100/sum; otherwise both are 0 |
| StackPercent.PercentedStep | var/lib/jenkins/joc/plugins/operations-center-analytics-viewer/app/panels/histogram/module.js:2682-2704 | one iteration writes the point with its key's base, then the base grows by the value |
| StackPercent.BasesGrow | var/lib/jenkins/joc/plugins/operations-center-analytics-viewer/app/panels/histogram/module.js:2688-2694 | after the loop, each key's base has grown by the values of that key's points |
| StackPercent.PercentedAt | var/lib/jenkins/joc/plugins/operations-center-analytics-viewer/app/panels/histogram/module.js:2682-2704 | the point at p is written with its key's base plus the values of the earlier points with that key |
| StackPercent.TopReaches100 | var/lib/jenkins/joc/plugins/operations-center-analytics-viewer/app/panels/histogram/module.js:2682-2704 | when the bases and this buffer make up a key's whole sum and the values are not negative, the last point with that key is drawn at 100 |
| StackPercent.PercentPlugin.constructor | var/lib/jenkins/joc/plugins/operations-center-analytics-viewer/app/panels/histogram/module.js:2604-2606 | empty bases, not processed, empty sums |
| StackPercent.PercentPlugin.ProcessRawData | var/lib/jenkins/joc/plugins/operations-center-analytics-viewer/app/panels/histogram/module.js:2609-2632 | the sums are computed once; a percent-stacked series gets one percentage per row, and others get none |
| StackPercent.PercentPlugin.WritePercents | var/lib/jenkins/joc/plugins/operations-center-analytics-viewer/app/panels/histogram/module.js:2682-2706 | the loop writes the percent-stacked buffer and leaves the bases as the specification function says |
| StackPercent.PercentPlugin.StackData | var/lib/jenkins/joc/plugins/operations-center-analytics-viewer/app/panels/histogram/module.js:2667-2707 | a series without the option is left alone; otherwise the sums are computed if not yet processed, and the buffer is percent-stacked on the bases |
| StackPercent.CarriesAt | var/lib/jenkins/joc/plugins/operations-center-analytics-viewer/app/panels/histogram/module.js:2682-2687 | in a buffer built from rows, the point at a multiple of 3 reads its key and value from row q/3 |
| StackPercent.KeyTotalRows | var/lib/jenkins/joc/plugins/operations-center-analytics-viewer/app/panels/histogram/module.js:2648-2660 | with no null y, a buffer's values at a key add up to its rows' total there, the amount getStackSums adds for that series |
| StackPercent.BasesTotal | var/lib/jenkins/joc/plugins/operations-center-analytics-viewer/app/panels/histogram/module.js:2688-2694 | starting from the plugin's empty bases and one stackData call per series in plot order, a key's base before the n-th call is the total at that key of the earlier percent-stacked series |
| StackPercent.BaseMeetsSum | var/lib/jenkins/joc/plugins/operations-center-analytics-viewer/app/panels/histogram/module.js:2635-2694 | before a series is stacked, its key's base plus its own values there make up the whole sum, when no later series has that key |
| StackPercent.PlotTopReaches100 | var/lib/jenkins/joc/plugins/operations-center-analytics-viewer/app/panels/histogram/module.js:2667-2707 | across a whole plot, the last point at a key of the last series with that key is drawn at 100, when the values are not negative and the sum is positive |
| StackPercent.PercentStackExample | var/lib/jenkins/joc/plugins/operations-center-analytics-viewer/app/panels/histogram/module.js:2603-2707 | series [[0,10]] and [[0,30]]: sums {0: 40}; the first is drawn from 0 to 25, the second from 25 to 100 |

## Left out

- `kbn.describe_interval` is not part of this model. Its seconds and count are inputs of `Intervals.NewInterval`.
- `Interval.toString` only returns the interval string. The string is kept as a field.
- The scratch `Date` of `get_complex` is reset with `setTime` at every call. So it is modelled as a pure function of the instant, not as shared state.
- `Intervals.CalendarGetUnfold`: a month or year interval steps by one month or one year whatever its count ("3M" steps one month). The code does this, and the model follows the code.
- Instants beyond ±8.64e15 ms (where `Date` turns into NaN) are not modelled, because the model has no time clipping.
- Floating point is not modelled: numbers are exact reals, with no NaN and no Infinity.
- `TimeSeries.ZeroFilled.AddValue`: times are integers, strings or Dates. A fractional number, or a Date's `toString` text, is not computed; the text is an input.
- `TimeSeries.ZeroFilled.AddValue`: values are undefined, null or numbers. Strings and objects are not modelled.
- `_.keys` order: the model keeps the stored times in insertion order. `getOrderedTimes` sorts them, so the order does not reach any result (`Seqs.SortUniqByElements`).
- `start_time` and `end_time` are kept. The code that used them in `getFlotPairs` is commented out.
- The `mean` mode of the fold is not modelled, because it is floating-point averaging.
- The panel-wide `$scope.hits` counter, `$scope.legend` and the query bookkeeping are controller glue. They are left out.
- `scaleSeconds` is not modelled, because it needs `kbn.interval_to_seconds`, which is not shown.
- The rest of `render_panel` (flot options, DOM, tooltips, zoom) is not modelled.
- Stack keys compare only within one kind (flag with flag, label with label). JavaScript's loose equality across kinds (`1 == "1"`, `true == 1`) is not modelled.
- `Stack.Merge`: when lines are drawn and two consecutive points share an x value, the interpolation divides by zero (NaN or Infinity in JavaScript). The model yields 0 there.
- `Stack.Merge`: a non-null point whose key coordinate is null compares as 0 here. JavaScript's `null == 0` is false.
- `Stack.Merge` requires both buffers to be whole numbers of points, as flot builds them. Reads past the end (undefined) are not modelled.
- `Stack.RunAligned` is stated for buffers that hold points at the same x values without line steps. The interpolating branches are modelled in `Stack.Step` but have no closed-form lemma.
- Flot's `processData`, which builds the buffers and the point format, is not part of this model.
- `datapoints.points` is the `points` field of `Stack.Series`. In stackpercent, the new buffer is returned instead.
- Stackpercent keys are property names (`key + ""`). The model keys by the value itself, so the string conversion is taken as injective.
- The `stackpercent` option is read as a boolean. The code tests `== true` in `processRawData` and truthiness elsewhere.
- `StackPercent.PercentPlugin.StackData` requires a buffer of three coordinates per point. The loop steps by 3 and would read undefined past the end of other buffers.
- `StackPercent.PercentPlugin.StackData` does not set `processed`, as in the code. `processRawData` sets it.
- `StackPercent.PercentPlugin.ProcessRawData` returns `series.percents` as a value instead of setting a property.
- `plot.getData()` and the hook registration are replaced by parameters.
- `TimeSeries.ZeroFilled.constructor` assumes that a fixed interval has a positive width (`Intervals.Valid`). A width of 0 ("0m", since the width is the ceiling of seconds·1000·count) is not modelled. There, `before` and `after` return the time itself. Minimal and null fill then emit each time twice, and the loop of all fill never ends.
- `TimeSeries.NumberTimeParsed` and `TimeSeries.CounterKey` write an integer in plain decimal. JavaScript's `String` does that only below 10^21 in magnitude. Above that it uses exponent form ("1e+21"), and `parseInt` then reads 1, so such times are not modelled.
- The per-series calling order of the `processDatapoints` hook, which belongs to flot's core, is not part of this model. `StackPercent.BasesAfter` takes it to be one `stackData` call per series, in plot order, starting from a new plugin. This composes the postcondition of `StackPercent.PercentPlugin.StackData`.
- `StackPercent.PlotTopReaches100` is stated for buffers that carry their series' rows as x, y and a third coordinate (`StackPercent.Carries`), the buffer flot's `processData` builds.
