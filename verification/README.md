# Crime data demos: a verified model of the data layer

The repository is a set of browser demos. Each one reads police street-crime
CSV files out of a zip archive, counts crimes, and draws or forecasts them.
Around the TensorFlow, zip, Chart.js and OpenAI calls sits a layer of plain data
logic. This project models that layer in Dafny and proves what it computes.

- **Monthly aggregation** (crime-4, crime-5, crime-6, `preprocessAndTrain`).
  Records are filtered on a truthy "Month" and "Crime type" and counted per
  month. The months are sorted and lined up with their counts and the indices
  0 .. n-1.
- **crime-4** rescales by the global minimum and maximum and undoes the rescale
  on the predictions. It produces 12 future inputs and 12 future month labels.
- **crime-5 / crime-6** build `[x, sin(x mod 12), cos(x mod 12)]` features, a
  24-month horizon of future features and labels, and peak and trough
  annotations of the forecast. crime-6 adds the trend data and the summaries
  sent for recommendations. The two files share this code line for line, so one
  module models both; its rows cite crime-6 unless the property is stated for
  crime-5.
- **Chart arrays** shared by crime-4/5/6: observed months followed by forecast
  months, and a forecast series padded with `null`.
- **crime-3**
  - a positional CSV reader;
  - counts keyed by `month-crimeType`, including the way that key is split back;
  - the month × type table;
  - the 12-month sequences, the training pairs and the labelled predictions.
- **crime-chart/script.js**
  - the row filter, and the per-month table of totals, per-type counts and
    details;
  - the sorted labels, the total series and the per-type series, with colours
    by index modulo 12;
  - the legend's hover and leave recolouring, as a class whose methods change
    its series in place.
- **crime-chart/predictions.js**
  - crimes counted per month and the 12-month lookback training windows;
  - a rolling forecast that feeds each prediction back into a 12-value window
    and replaces an invalid prediction by the window mean;
  - the chart arrays.
- **filestructure/script.js**
  - the archive name without its extension;
  - entry paths inserted into a folder/file tree;
  - the tree drawn as text with `├── ` and `└── ` connectors.

**How the code is organised.**
- Pure computations are functions and lemmas. Loops the scripts run are methods
  with loop invariants, each proved against a function that specifies it.
- Floating-point values are Dafny `real`s. `NaN` and the division by zero of a
  degenerate rescale are `None`.
- Four things become parameters:
  - the trained networks (a function from a window to an optional prediction);
  - `Math.sin`/`Math.cos` of the month residue;
  - the numeric test `!isNaN(Number(s))`;
  - the decoded archive, as a list of (name, text) files.

Modules:

| file | module | source |
|---|---|---|
| wrappers.dfy | `Wrappers` | `Option` and `Result` |
| seqs.dfy | `Seqs` | distinct values, `[...new Set(xs)]`, occurrence counts, counting dictionaries |
| text.dfy | `Text` | `split`, `join`, `trim`, `endsWith` |
| ordering.dfy | `Ordering` | the default string `sort` and `Object.keys(o).sort()` |
| calendar.dfy | `Calendar` | `new Date(label + "-01")`, `setMonth`, `toISOString().slice(0, 7)` |
| archive.dfy | `Archive` | archive files, the `.csv` test, header-dropping line split |
| monthly.dfy | `MonthlyCounts` | `preprocessAndTrain` of crime-4/5/6 |
| normalize.dfy | `Normalization` | min/max rescale of crime-4 |
| linear.dfy | `LinearForecast` | crime-4 `normalizeData`, `predictFuture` |
| seasonal.dfy | `SeasonalForecast` | crime-5/6 features, horizon, annotations, recommendations |
| forecastchart.dfy | `ForecastChart` | chart arrays of crime-4/5/6 |
| sequences.dfy | `CrimeSequences` | crime-3 |
| crimechart.dfy | `CrimeChart` | crime-chart/script.js |
| rolling.dfy | `RollingForecast` | crime-chart/predictions.js |
| filetree.dfy | `FileTree` | filestructure/script.js |

## Model

| member | source | states |
|---|---|---|
| Text.Split | crime-3/script.js:46 | `split` on one character always gives at least one piece, and no piece contains the separator |
| Text.JoinSplit | filestructure/script.js:12 | joining the pieces of a split with the same character gives the text back |
| Text.SplitJoin | filestructure/script.js:12 | splitting the join of separator-free pieces gives the pieces back |
| Text.SplitBefore | filestructure/script.js:12 | the text after the last separator is the last piece, and what precedes it splits on its own |
| Text.SplitHasTwo | crime-3/script.js:83 | a key holding "-" splits into at least two pieces, so both destructured names are defined |
| Text.TrimSlice | crime-3/script.js:68-69 | what `trim` keeps is a slice of the field with only white space before and after it |
| Text.Trim | crime-3/script.js:68-69 | `String.prototype.trim`; TrimSlice, TrimEnds and TrimEmpty state what it keeps |
| Text.TrimEnds | crime-3/script.js:68-69 | the trimmed text neither starts nor ends with white space |
| Text.TrimEmpty | crime-chart/predictions.js:23 | `trim` gives "" exactly when the text is all white space |
| Text.EndsWith | crime-3/script.js:15 | `filename.endsWith(suffix)`: the last characters of the name are the suffix; ParseArchiveSkips states its use |
| Seqs.Dedup | crime-3/script.js:91 | `[...new Set(xs)]`: duplicate-free, the same members as the input, in order of first occurrence |
| Seqs.TallyCounts | crime-6/script.js:130-136 | the counting dictionary has a key for exactly the values seen, each mapped to its number of occurrences |
| Seqs.CountsOfCover | crime-6/script.js:130-139 | per-key counts over a duplicate-free key list that covers the data add up to the data's length |
| Seqs.OccurrenceSumCovers | crime-6/script.js:130-136 | counting per key loses and duplicates nothing |
| Ordering.LessTotal | crime-6/script.js:138 | the default string sort orders any two different strings one way round |
| Ordering.LessTransitive | crime-6/script.js:138 | the string order is transitive |
| Ordering.LessIrreflexive | crime-6/script.js:138 | no string sorts before itself |
| Ordering.LessAsymmetric | crime-6/script.js:138 | two strings never sort before each other |
| Ordering.Insert | crime-6/script.js:138 | inserting a new string into an ascending list keeps it ascending and adds exactly that string |
| Ordering.SortedKeys | crime-6/script.js:138 | `Object.keys(o).sort()`: strictly ascending and holding exactly the dictionary's keys |
| Ordering.SortedUnique | crime-chart/script.js:69 | a set of strings has one ascending arrangement, so the sorted keys do not depend on enumeration order |
| Ordering.SortedDistinct | crime-6/script.js:138 | a strictly ascending list has no duplicates |
| Calendar.FromOrdinal | crime-6/script.js:229 | a month count maps back to a valid calendar month with that count |
| Calendar.AddMonthsOrdinal | crime-6/script.js:229 | `setMonth(getMonth() + k)` on the first of a month moves exactly k months, stays a valid month and composes |
| Calendar.AddMonths | crime-6/script.js:229 | `setMonth(getMonth() + k)` on the first of a month; AddMonthsOrdinal states that it moves exactly k months |
| Calendar.OrdinalInjective | crime-6/script.js:229 | a valid month is determined by its month count |
| Calendar.Format | crime-6/script.js:230 | `toISOString().slice(0, 7)` is seven characters long |
| Calendar.ParseMonth | crime-6/script.js:228 | a label that reads as a date is a valid month of a four-digit year |
| Calendar.ParseFormat | crime-6/script.js:228-230 | formatting a month and reading it back gives the month back |
| Calendar.FormatParse | crime-6/script.js:228-230 | a label that reads as a month is exactly that month's formatted label |
| Calendar.FormatChronological | crime-6/script.js:138 | for four-digit years, label order is chronological order |
| Calendar.MonthsAfterSorted | crime-6/script.js:228-231 | the labels of the months after a month are strictly ascending and all after its own label |
| Calendar.MonthsAfter | crime-6/script.js:228-231 | one label per future month, label k being the last month moved on by k + 1; MonthsAfterSorted states their order |
| Calendar.DigitsValuePad | crime-6/script.js:230 | reading a zero-padded number gives the number back |
| Calendar.PadDigitsValue | crime-6/script.js:228 | padding the value of a digit string gives the string back |
| Archive.DataLines | crime-chart/script.js:17 | `split("\n").slice(1)` has one line fewer than the text |
| Archive.DataLinesAfterHeader | crime-3/script.js:42 | after the header line the remaining lines are exactly those of the body |
| MonthlyCounts.Cleaned | crime-6/script.js:125-127 | the filter keeps only records whose "Month" and "Crime type" are truthy, and never adds records |
| MonthlyCounts.CleanedMembers | crime-6/script.js:125-127 | a record is kept exactly when it is an input record with both fields truthy |
| MonthlyCounts.CountedMonths | crime-6/script.js:130-131 | one non-empty month per kept record, in order |
| MonthlyCounts.CountPerMonth | crime-6/script.js:128-136 | `crimeCounts` has exactly the months of the kept records, each mapped to its number of kept records |
| MonthlyCounts.Aggregate | crime-6/script.js:124-140 | `months` strictly ascending and duplicate-free; `counts[k]` is the count of `months[k]` and at least 1; the counts sum to the number of kept records; indices are 0 .. n-1; crime-5/script.js:40-56 and crime-4/script.js:40-62 are the same code |
| Normalization.Min | crime-4/script.js:127 | `tensor.min()` is a member no larger than any value |
| Normalization.Max | crime-4/script.js:126 | `tensor.max()` is a member no smaller than any value |
| Normalization.BoundsOf | crime-4/script.js:126-129 | a non-empty tensor has bounds that are members and enclose every value; an empty one has none |
| Normalization.Normalize | crime-4/script.js:131-136 | `(v - min) / (max - min)` is defined exactly when `max != min`, and then times `(max - min)` gives `v - min` |
| Normalization.DenormalizeNormalize | crime-4/script.js:131-136 | undoing the rescale after applying it gives the value back whenever `max != min` |
| Normalization.NormalizeDenormalize | crime-4/script.js:176-178 | rescaling an un-normalised prediction gives the prediction back |
| Normalization.Denormalize | crime-4/script.js:176-178 | `p * (max - min) + min`; DenormalizeNormalize and NormalizeDenormalize state that it undoes the rescale |
| Normalization.NormalizeUnit | crime-4/script.js:131-136 | a value within the bounds lands in [0, 1], the minimum at 0 and the maximum at 1 |
| Normalization.NormalizeMonotone | crime-4/script.js:131-136 | the rescale keeps the order of values, both ways |
| Normalization.NormalizeWithin | crime-4/script.js:125-136 | a tensor's own values land in [0, 1] in their original order |
| Normalization.BoundsDegenerate | crime-4/script.js:133-136 | the rescale is undefined exactly when every value is the same, and nothing guards against that |
| Normalization.IndicesBounds | crime-4/script.js:131-133 | the index tensor 0 .. n-1 has bounds 0 and n-1, so its rescale is undefined exactly for a single month |
| Normalization.AsReals | crime-4/script.js:89 | integer counts become the same numbers as reals |
| LinearForecast.NormalizeData | crime-4/script.js:125-146 | both tensors are rescaled element by element, with bounds exactly when both are non-empty |
| LinearForecast.NormalizedIndices | crime-4/script.js:131-133 | index k is rescaled to k / (n - 1), and for a single month every value is undefined |
| LinearForecast.NormalizedCounts | crime-4/script.js:134-136 | the counts' rescale is undefined exactly when all counts are equal; otherwise un-normalising gives each count back |
| LinearForecast.MonthIndices | crime-4/script.js:62 | `months.map((_, index) => index)` is 0 .. n-1 |
| LinearForecast.PredictFuture | crime-4/script.js:159-189 | 12 future inputs `lastInput + k` and 12 labels "last month + k", k = 1 .. 12; an unreadable last label (or no months) throws |
| LinearForecast.FutureInputsContinue | crime-4/script.js:160-165 | from indices 0 .. n-1 the future inputs are the contiguous continuation n .. n+11 |
| LinearForecast.Unnormalize | crime-4/script.js:176-178 | one un-normalised value per prediction |
| LinearForecast.UnnormalizeInverts | crime-4/script.js:170-178 | rescaling the un-normalised predictions gives the model's outputs back |
| ForecastChart.ChartSeries | crime-4/script.js:221-239 | labels are the months followed by the future months; the observed series is the counts; the forecast series is `null` under each count and then holds prediction k at position len(counts) + k |
| ForecastChart.ChartAligned | crime-5/script.js:229-233 | with aligned inputs the forecast series is as long as the labels, `null` under every observed month, and holds prediction k under future month k; crime-6/script.js:320-324 is the same code |
| SeasonalForecast.GenerateSeasonalFeatures | crime-6/script.js:148-155 | one feature vector per input, whose first component is the input; crime-5/script.js:65-72 is the same code |
| SeasonalForecast.SeasonalPeriodic | crime-6/script.js:150-153 | the sine and cosine components depend only on x mod 12, so indices 12 apart share them |
| SeasonalForecast.PredictFutureHorizon | crime-6/script.js:217-232 | 24 feature rows with index `n + k` and 24 labels "last month + k", k = 1 .. 24; an unreadable last label throws; crime-5/script.js:132-147 is the same code |
| SeasonalForecast.LastLabel | crime-6/script.js:228 | the last month label, or the text "undefined" when there are no months; PredictFutureHorizon states what follows from it |
| SeasonalForecast.HorizonOrdered | crime-6/script.js:221-231 | the future indices run from n+1 to n+24 strictly increasing; the labels are strictly ascending and all after the last observed month |
| SeasonalForecast.ExtremeIndices | crime-6/script.js:270-304 | the annotated indices are exactly the interior strict local extrema, ascending |
| SeasonalForecast.GeneratePointAnnotations | crime-6/script.js:268-306 | one annotation per interior strict extremum, in index order, with its kind, `xValue = months[i]` and `yValue = p[i]`; crime-5/script.js:177-217 is the same code |
| SeasonalForecast.AnnotatedIndices | crime-6/script.js:270-290 | index i is annotated iff 1 <= i < len-1 and p[i] is strictly above or strictly below both neighbours |
| SeasonalForecast.ExtremumKinds | crime-6/script.js:271-290 | a peak iff strictly above both neighbours, a trough iff strictly below both; never both |
| SeasonalForecast.ExtremumAt | crime-6/script.js:271-290 | the kind of an interior index: peak, trough or none; ExtremumKinds and AnnotatedIndices state when each applies |
| SeasonalForecast.AnnotationAt | crime-6/script.js:275-302 | the annotation of an extremum: its kind, `months[i]` and `predictions[i]`; GeneratePointAnnotations emits one per extremum |
| SeasonalForecast.EndsAndPlateausSkipped | crime-6/script.js:270 | the two ends and any value equal to a neighbour are never annotated |
| SeasonalForecast.AnnotationExamples | crime-5/script.js:179-200 | a valley gives one trough, a hill one peak, a ramp and a plateau nothing |
| SeasonalForecast.FutureIndexRunsAhead | crime-6/script.js:221-222 | as written, a future row's index lies one further past the last observed index than its label lies past the last month, and index n is never used |
| SeasonalForecast.AlignedFutureFeatures | crime-5/script.js:136-137 | the corrected future rows, 24 of them |
| SeasonalForecast.AlignedFutureMatchesLabels | crime-6/script.js:221-231 | in the corrected rows the index offset equals the label's month offset, and the rows continue from index n |
| SeasonalForecast.TrendData | crime-6/script.js:258-261 | one trend point per future month |
| SeasonalForecast.TrendDataUnzips | crime-6/script.js:258-261 | trend point k pairs future month k with prediction k: it unzips into the two arrays |
| SeasonalForecast.FutureDataSummary | crime-6/script.js:52-55 | one date/value pair per trend point |
| SeasonalForecast.ActualDataSummaryAsWritten | crime-6/script.js:47-50 | one entry per observed month |
| SeasonalForecast.HistoricalSummaryRepeatsForecast | crime-6/script.js:47-50 | the "historical" values as written equal the forecast values at the same position, and `null` past the trend data |
| SeasonalForecast.ActualDataSummary | crime-6/script.js:47-50 | the corrected summary has one entry per observed month |
| SeasonalForecast.RecommendationRequest | crime-6/script.js:21-55 | as written: no request exactly when the trend data is empty; otherwise historical entry k is month k with the forecast value at position k (`null` past the trend data), future entry k is trend point k, and the two series agree position by position |
| SeasonalForecast.RecommendationRequestCorrected | crime-6/script.js:47-50 | corrected: no request exactly when the trend data is empty; otherwise historical entry k is month k with its observed count, and the future entries are those of the request as written |
| SeasonalForecast.RecommendationCarriesBothSeries | crime-6/script.js:36-55 | with aligned inputs the corrected request's historical points are exactly the observed (month, count) pairs and its future points the forecast pairs |
| CrimeSequences.ParseRowMeaning | crime-3/script.js:46-72 | a line is kept iff it has at least 12 fields and fields 1 and 9 are not all white space; it keeps those fields trimmed |
| CrimeSequences.ParseRow | crime-3/script.js:46-72 | one line read positionally; ParseRowMeaning states when it is kept and what is kept |
| CrimeSequences.ParseRows | crime-3/script.js:44-72 | parsing never yields more entries than lines |
| CrimeSequences.ParseRowsAppend | crime-3/script.js:44-72 | the lines are parsed independently and in order |
| CrimeSequences.ParseRowsFrom | crime-3/script.js:44-72 | every parsed entry comes from one of the lines |
| CrimeSequences.ParseCsvDropsHeader | crime-3/script.js:42 | the first line is dropped whatever it holds and the rest are parsed |
| CrimeSequences.ParseCsv | crime-3/script.js:41-73 | `parseCSV`: the header line dropped and every other line parsed; ParseCsvDropsHeader states it |
| CrimeSequences.ParseArchiveSkips | crime-3/script.js:14-19 | files not ending in "-street.csv" contribute nothing |
| CrimeSequences.ParseArchive | crime-3/script.js:14-19 | the entries of every "-street.csv" file, file after file; ParseArchiveSkips states that other files add nothing |
| CrimeSequences.CountInInsertionOrder | crime-3/script.js:77-82 | the keys come in first-insertion order, each mapped to its number of occurrences |
| CrimeSequences.AggregateData | crime-3/script.js:76-86 | as written: one entry per distinct key in first-seen order, with its count, and month and type read back by splitting the key on "-"; the counts add up to the number of rows |
| CrimeSequences.KeyPartsExact | crime-3/script.js:82-85 | when neither the month nor the type holds "-", splitting the key gives back exactly the month and the type |
| CrimeSequences.KeyParts | crime-3/script.js:83 | `key.split("-")` destructured to its first two pieces; KeyPartsExact and KeyPartsMisread state when they are the month and the type |
| CrimeSequences.KeyPartsMisread | crime-3/script.js:82-85 | a month "year-mm" (the format the CSV files use) is read back as month = year and type = mm; "2023-01" and "Burglary" come back as "2023" and "01" |
| CrimeSequences.AggregatePairs | crime-3/script.js:76-86 | corrected: one entry per distinct (month, type) pair in first-seen order, keeping both fields, with its count |
| CrimeSequences.AggregatePairsTotal | crime-3/script.js:78-81 | the pair counts add up to the number of rows |
| CrimeSequences.MonthlyTableCells | crime-3/script.js:95-98 | each cell holds the count of the last entry for its month and type: later entries overwrite earlier ones |
| CrimeSequences.MonthlyTableMonths | crime-3/script.js:95-101 | the table has a row for exactly the months of the data |
| CrimeSequences.FillMonthlyData | crime-3/script.js:95-98 | the loop builds the table entry by entry |
| CrimeSequences.BuildSequence | crime-3/script.js:105-113 | the inner loop gives the rows of months i .. i+11 |
| CrimeSequences.PrepareDataForModel | crime-3/script.js:89-118 | types in first-seen order; months ascending; `max(0, months - 11)` sequences, sequence i being the 12 rows of months i .. i+11 |
| CrimeSequences.WindowCells | crime-3/script.js:107-111 | sequence i, row j, column k is the data's count for month i+j and type k, or 0 |
| CrimeSequences.TrainingPairs | crime-3/script.js:135-143 | training goes ahead iff there are at least 2 sequences; then pair k is (sequence k, sequence k+1) |
| CrimeSequences.TrainingNeedsThirteenMonths | crime-3/script.js:29-32 | the sufficiency check passes exactly when there are at least 13 months |
| CrimeSequences.LastSequences | crime-3/script.js:160 | `slice(-12)`: the last twelve sequences, or all of them when there are fewer |
| CrimeSequences.LabelPredictions | crime-3/script.js:164-167 | one labelled prediction per prediction |
| CrimeSequences.LabelPredictionsPerType | crime-3/script.js:164-167 | with one prediction per type, prediction k goes to type k and each type is named once |
| CrimeChart.AcceptRow | crime-chart/script.js:35-42 | an accepted row has a non-empty month and crime type |
| CrimeChart.AcceptedRows | crime-chart/script.js:14-42 | the accepted rows of every CSV file, file after file, header lines dropped; CountLines and HandleFileUpload state that the loops count exactly these |
| CrimeChart.AcceptRowMeaning | crime-chart/script.js:19-42 | a row is accepted iff it has at least 10 fields, fields 1 and 9 are non-empty and fields 4 and 5 are numeric; it keeps them untrimmed |
| CrimeChart.AddRowStep | crime-chart/script.js:44-57 | one more row keeps the table equal to the tally of the rows so far |
| CrimeChart.AddRow | crime-chart/script.js:44-57 | the updates one accepted row makes; AddRowStep and CountRow state them |
| CrimeChart.Tabulate | crime-chart/script.js:44-57 | the table after counting the rows in order; TabulateTally and TotalIsSumOfTypes state its contents |
| CrimeChart.TabulateTally | crime-chart/script.js:44-57 | a month's total is its number of rows; a type's count is its number of rows in that month, with one detail per row |
| CrimeChart.TotalIsSumOfTypes | crime-chart/script.js:44-52 | every month's total equals the sum of its type counts over all crime types |
| CrimeChart.AppendRow | crime-chart/script.js:44-57 | counting one more row extends the table and the type list |
| CrimeChart.CountRow | crime-chart/script.js:44-57 | the script's in-order updates for one row give the table plus that row |
| CrimeChart.CountLines | crime-chart/script.js:19-58 | the line loop counts exactly the accepted rows of the file |
| CrimeChart.HandleFileUpload | crime-chart/script.js:14-63 | the table tallies exactly the accepted rows of the CSV files; `crimeTypes` is the distinct types in first-seen order |
| CrimeChart.Totals | crime-chart/script.js:70 | one total per label |
| CrimeChart.TypeSeries | crime-chart/script.js:102-104 | one value per label |
| CrimeChart.RenderChart | crime-chart/script.js:66-115 | sorted month labels; `1 + types` datasets; the total series in blue; type i's series in `colors[i mod 12]`, equal to its original colour |
| CrimeChart.CountOfOccurrences | crime-chart/script.js:103 | a type's series value is its number of rows in that month, 0 when there are none |
| CrimeChart.TotalSeriesIsSumOfTypeSeries | crime-chart/script.js:69-104 | at every label the total series is the sum of the per-type series over all types |
| CrimeChart.Greyed | crime-chart/script.js:139-148 | hovering keeps the number of series |
| CrimeChart.Restored | crime-chart/script.js:150-157 | leaving keeps the number of series |
| CrimeChart.GreyedMeaning | crime-chart/script.js:139-148 | hovering greys every other series, leaves the hovered one unchanged, and changes only colours |
| CrimeChart.RestoredMeaning | crime-chart/script.js:150-157 | leaving depends only on the series, not on the current colours; it is idempotent, gives the initial colouring, and leaves that colouring unchanged |
| CrimeChart.ApplySameSeries | crime-chart/script.js:139-157 | any run of hover and leave events changes only colours |
| CrimeChart.LeaveRestoresInitial | crime-chart/script.js:150-157 | after any hovering, leaving brings back exactly the colouring the chart was drawn with |
| CrimeChart.Legend.constructor | crime-chart/script.js:127 | the legend holds the drawn series |
| CrimeChart.Legend.OnHover | crime-chart/script.js:139-148 | the series become the greyed series of the previous ones |
| CrimeChart.Legend.OnLeave | crime-chart/script.js:150-157 | the series become the restored series of the previous ones |
| RollingForecast.RowMonth | crime-chart/predictions.js:19-23 | a row counts iff it has a second field that is not all white space, and it counts under that field untrimmed |
| RollingForecast.CountStep | crime-chart/predictions.js:25-26 | the two-step update adds exactly one occurrence of the month |
| RollingForecast.CountRows | crime-chart/predictions.js:18-27 | the row loop adds the months of the accepted rows to the counts |
| RollingForecast.RowMonths | crime-chart/predictions.js:18-27 | the months of the accepted rows, in row order; CountRows states the tally of them |
| RollingForecast.ArchiveMonths | crime-chart/predictions.js:13-28 | the accepted months of every CSV file, file after file; CountMonths states the tally of them |
| RollingForecast.CountMonths | crime-chart/predictions.js:13-29 | the counts have exactly the months of the accepted rows of the CSV files, each its number of rows, at least 1 |
| RollingForecast.Positives | crime-chart/predictions.js:33-35 | the filter keeps only positive counts and adds none |
| RollingForecast.PositivesKeepsPositive | crime-chart/predictions.js:33-35 | the filter drops nothing from positive counts |
| RollingForecast.KeptTargets | crime-chart/predictions.js:53-62 | the kept targets lie in [12, len), each passes the check, ascending, at most len - 12 of them |
| RollingForecast.KeptTargetsComplete | crime-chart/predictions.js:58 | no target whose window passes the check is left out |
| RollingForecast.KeptTargetsAllPositive | crime-chart/predictions.js:53-62 | with all counts positive the targets are exactly 12 .. len-1 |
| RollingForecast.SliceCheck | crime-chart/predictions.js:54-58 | `inputSlice.every(val => val > 0)` iff the twelve counts before i are positive |
| RollingForecast.TrainingStep | crime-chart/predictions.js:53-62 | one round of the window loop adds the pair for target i exactly when its twelve counts and its target are positive |
| RollingForecast.TrainingData | crime-chart/predictions.js:53-62 | `xs`/`ys` hold the window and target of exactly the kept targets, in order |
| RollingForecast.TrainingWindows | crime-chart/predictions.js:53-62 | at most len - 12 pairs, none below 13 counts, each 12 positive inputs and a positive target |
| RollingForecast.TrainingWindowsAllPositive | crime-chart/predictions.js:53-62 | with all counts positive there are exactly len - 12 pairs, pair j being counts j .. j+11 and count j+12 |
| RollingForecast.MeanBounds | crime-chart/predictions.js:110 | the window mean lies between any bounds of the window's values |
| RollingForecast.Mean | crime-chart/predictions.js:110 | the mean of the window; MeanBounds states that it lies between any bounds of its values |
| RollingForecast.StabilisePositive | crime-chart/predictions.js:108-111 | from a positive window the stabilised prediction is positive whatever the model says, and a positive prediction is kept |
| RollingForecast.Stabilise | crime-chart/predictions.js:108-111 | the mean replaces a NaN or non-positive prediction; StabilisePositive states the result |
| RollingForecast.LastWindow | crime-chart/predictions.js:99 | `slice(-12)` has min(12, len) values |
| RollingForecast.WindowAfter | crime-chart/predictions.js:116 | the window keeps its length |
| RollingForecast.WindowIsLatest | crime-chart/predictions.js:99-116 | after any number of steps the window is the latest stretch of counts followed by predictions |
| RollingForecast.Forecast | crime-chart/predictions.js:102-119 | k steps give k predictions |
| RollingForecast.ForecastPositive | crime-chart/predictions.js:102-119 | from a positive window every prediction is positive |
| RollingForecast.RollingForecast | crime-chart/predictions.js:95-119 | as many predictions as counts, each stabilised from the current window; all positive when the counts are |
| RollingForecast.ChartOf | crime-chart/predictions.js:123-127 | labels 1 .. len + predictions; the historical series is the counts, and the extended series is the counts followed by the predictions |
| RollingForecast.MonthlyCounts | crime-chart/predictions.js:13-35 | sorted months of the accepted rows, with count k the number of rows of month k, positive |
| RollingForecast.TrainAndPredict | crime-chart/predictions.js:38-40 | on more than 12 positive counts: len - 12 windows, len positive predictions and the chart |
| RollingForecast.HandleFileUpload | crime-chart/predictions.js:6-44 | sorted months and counts; training happens iff there are more than 12 counts, with all the training and forecast properties |
| FileTree.RootNameDropsExtension | filestructure/script.js:12 | only the last extension goes; inner dots stay |
| FileTree.RootNameWithoutDot | filestructure/script.js:12 | a name without a dot gives the empty name |
| FileTree.RootName | filestructure/script.js:12 | the archive name without its last extension; RootNameDropsExtension and RootNameWithoutDot state it |
| FileTree.Find | filestructure/script.js:20 | the first entry with the name, or none when no entry has it |
| FileTree.GetPut | filestructure/script.js:17-21 | setting a name behaves like a dictionary update: the name holds the new value and others keep theirs |
| FileTree.PutNames | filestructure/script.js:17-21 | an existing name stays in place, a new one goes last, and names stay distinct |
| FileTree.AddFileFails | filestructure/script.js:15-25 | insertion fails exactly when a file stands where the path still has to go through a folder |
| FileTree.AddFileReaches | filestructure/script.js:15-25 | with no file in the way, insertion succeeds and the path then leads to a file |
| FileTree.AddFileKeepsOthers | filestructure/script.js:19-23 | every path that branches off the inserted one is unchanged: existing folders are reused |
| FileTree.AddFile | filestructure/script.js:15-25 | `addFileToStructure` on the tree as a value; AddFileFails, AddFileReaches and AddFileKeepsOthers state when it fails and what it changes |
| FileTree.BuildFailureSticks | filestructure/script.js:28-31 | once an insertion fails the whole build fails |
| FileTree.Build | filestructure/script.js:28-31 | the tree after inserting each path split on "/", in order; BuildFailureSticks and PrintZipStructure state its outcome |
| FileTree.Indent | filestructure/script.js:40 | four characters of indentation per folder above |
| FileTree.EntryLinesOutline | filestructure/script.js:34-50 | one line per node in pre-order, each the indentation for the folders above, the connector, and the name |
| FileTree.EntryLines | filestructure/script.js:34-50 | the lines drawn for a folder's entries; EntryLinesOutline and EntryText state their shape |
| FileTree.ItemLineIndent | filestructure/script.js:39-45 | each line is the prefix, 4 characters per level and a 4-character connector, then the name |
| FileTree.EntryText | filestructure/script.js:37-47 | the text of the entries from one on is that entry's line, then its contents one level deeper, then the entries after it |
| FileTree.BuildAsciiTree | filestructure/script.js:34-50 | the text is the drawn lines of the folder, each ended by a line break |
| FileTree.PrintZipStructure | filestructure/script.js:5-61 | the drawing is shown iff every insertion succeeds, and is then the root name line followed by the tree |
| FileTree.EmptyArchive | filestructure/script.js:53-54 | an archive without entries shows just its name |

## Left out

- TensorFlow, JSZip, Papa Parse, Chart.js, tfjs-vis, the OpenAI request, `marked`, the DOM and the clipboard are outside the model. The networks are a parameter, and the archive is given as decoded files or parsed records.
- Floating point: values are reals. `NaN` is `None` where a script tests for it or a division by zero would produce it.
- `new Date`: only the "YYYY-MM" labels the counts produce are modelled. Other strings the browser's date parser might accept are treated as invalid. Time zones are not modelled.
- `Object.keys` order: insertion order is modelled. The rule that integer-like keys come first is not.
- Sort order: `sort` compares UTF-16 code units; the model compares Dafny characters. The two agree below U+10000.
- Object prototype keys: a key such as "constructor", or an index into the string "file" such as "0", is not modelled as present.
- The annotation label text, colours and radii are not modelled. Neither are the recommendation prompt text and the console messages.
- crime-5/crime-6 rescaling of the feature tensor is not modelled. It uses one global minimum and maximum over all three feature columns (crime-6/script.js:159-172, 234-244). That calls for two-dimensional tensors, which the features do not need for the properties proved.
- crime/script.js is not part of this model. Nor are the `extractDataFromZip` functions of crime-4/5/6, whose parsed records are the input.
- LinearForecast.PredictFuture: requires one input per month, as its only caller guarantees. The `NaN` inputs that an empty index list would give are not modelled.
- RollingForecast.TrainAndPredict: requires more than twelve positive counts. That is what the guard in `handleFileUpload` and the count filter guarantee.
- FileTree.AddFile: the nested object is updated in place in the script, but it is modelled as a value. No two folders ever share an object, so aliasing cannot be observed.
- FileTree.PrintZipStructure: the error notice carries no message text.
- FileTree.BuildAsciiTree: the `depth` parameter is passed down as in the script, and no result depends on it.
- The scripts' `async` steps are modelled as running in program order.

## Findings

| source | as written | input that shows it | evidently intended | confidence | as-written member | corrected member |
|---|---|---|---|---|---|---|
| crime-3/script.js:82-85 | the key `${month}-${crimeType}` is split on every "-" and the first two pieces kept | month "2023-01", type "Burglary": read back as month "2023", type "01" | keep the month and type of each counted pair | high, not executed | CrimeSequences.KeyPartsMisread | CrimeSequences.AggregatePairs |
| crime-6/script.js:47-50 | the historical summary takes its values from `trendData[index].predictedCrimes` | months ["2023-01"], trend [("2023-02", 7)]: the history reports 7 for 2023-01, a forecast value | each observed month with its observed count | high, not executed | SeasonalForecast.HistoricalSummaryRepeatsForecast | SeasonalForecast.RecommendationRequestCorrected |
| crime-6/script.js:221-222 | future index `features.length + i` for i = 1 .. 24 | 12 months (indices 0 .. 11): the month after the last gets index 13, and index 12 is never used | index n + i - 1, continuing the observed indices (crime-4 uses `lastInput + i`) | medium, not executed | SeasonalForecast.FutureIndexRunsAhead | SeasonalForecast.AlignedFutureMatchesLabels |
