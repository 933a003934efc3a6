/** The seasonal forecast of crime-5 and crime-6: index and season features,
    the 24-month forecast horizon, the peak and trough annotations of the
    forecast, and (crime-6) the trend data and the summaries sent for
    recommendations. */
module SeasonalForecast {
  import opened Wrappers
  import opened Calendar
  import opened Ordering

  /** `[x, Math.sin(2πm/12), Math.cos(2πm/12)]` for `m = x % 12`. The two
      waves are functions of the residue `m` given by the caller. */
  datatype Feature = Feature(index: int, sinMonth: real, cosMonth: real)

  function SeasonalFeature(x: int, sin: int -> real, cos: int -> real): Feature {
    Feature(x, sin(x % 12), cos(x % 12))
  }

  /** `generateSeasonalFeatures`: one feature vector per input index. */
  function GenerateSeasonalFeatures(inputs: seq<int>, sin: int -> real, cos: int -> real): (r: seq<Feature>)
    ensures |r| == |inputs|
    ensures forall k :: 0 <= k < |r| ==> r[k].index == inputs[k]
  {
    seq(|inputs|, k requires 0 <= k < |inputs| => SeasonalFeature(inputs[k], sin, cos))
  }

  /** The season components depend only on the index modulo 12: indices a
      whole number of years apart share them. */
  lemma SeasonalPeriodic(inputs: seq<int>, sin: int -> real, cos: int -> real, i: int, j: int)
    requires 0 <= i < |inputs| && 0 <= j < |inputs|
    requires (inputs[i] - inputs[j]) % 12 == 0
    ensures GenerateSeasonalFeatures(inputs, sin, cos)[i].sinMonth == GenerateSeasonalFeatures(inputs, sin, cos)[j].sinMonth
    ensures GenerateSeasonalFeatures(inputs, sin, cos)[i].cosMonth == GenerateSeasonalFeatures(inputs, sin, cos)[j].cosMonth
  {
    var x, y := inputs[i], inputs[j];
    var q := (x - y) / 12;
    assert x == y + 12 * q;
    ShiftResidue(y, q);
  }

  lemma ShiftResidue(y: int, q: int)
    ensures (y + 12 * q) % 12 == y % 12
  {
    var r := y % 12;
    assert y + 12 * q == 12 * (y / 12 + q) + r;
  }

  /** `new Date(months[months.length - 1] + "-01")` reads the last label; with
      no months it reads the text "undefined". */
  function LastLabel(months: seq<string>): string {
    if months == [] then "undefined" else months[|months| - 1]
  }

  /** The date `new Date` cannot read, which makes `toISOString` throw. */
  datatype DateError = InvalidDate

  /** The future feature rows and their month labels. */
  datatype Horizon = Horizon(features: seq<Feature>, months: seq<string>)

  const MonthsToPredict: nat := 24

  /** The loop of `predictFutureWithSeasonality`: for i = 1 .. 24 the feature
      row of index `featureCount + i` and the label of the last month moved on
      by i months. A last label that does not read as a month throws. */
  method PredictFutureHorizon(featureCount: nat, months: seq<string>, sin: int -> real, cos: int -> real)
    returns (r: Result<Horizon, DateError>)
    ensures r.Ok? <==> ParseMonth(LastLabel(months)).Some?
    ensures r.Ok? ==> |r.value.features| == MonthsToPredict && |r.value.months| == MonthsToPredict
    ensures r.Ok? ==> forall k :: 0 <= k < MonthsToPredict ==>
      r.value.features[k] == SeasonalFeature(featureCount + k + 1, sin, cos)
    ensures r.Ok? ==> r.value.months == MonthsAfter(ParseMonth(LastLabel(months)).value, MonthsToPredict)
  {
    var futureFeatures: seq<Feature> := [];
    var futureMonths: seq<string> := [];
    var i := 1;
    while i <= MonthsToPredict
      invariant 1 <= i <= MonthsToPredict + 1
      invariant |futureFeatures| == i - 1 && |futureMonths| == i - 1
      invariant forall k :: 0 <= k < i - 1 ==> futureFeatures[k] == SeasonalFeature(featureCount + k + 1, sin, cos)
      invariant i > 1 ==> ParseMonth(LastLabel(months)).Some?
      invariant i > 1 ==> forall k :: 0 <= k < i - 1 ==>
        futureMonths[k] == Format(AddMonths(ParseMonth(LastLabel(months)).value, k + 1))
    {
      var nextIndex := featureCount + i;
      futureFeatures := futureFeatures + [SeasonalFeature(nextIndex, sin, cos)];
      var lastMonth := ParseMonth(LastLabel(months));
      if lastMonth.None? {
        return Err(InvalidDate);
      }
      futureMonths := futureMonths + [Format(AddMonths(lastMonth.value, i))];
      i := i + 1;
    }
    r := Ok(Horizon(futureFeatures, futureMonths));
  }

  /** The forecast horizon's indices run from n + 1 to n + 24 without gaps,
      and its labels are ascending and all after the last observed month. */
  lemma HorizonOrdered(featureCount: nat, months: seq<string>, sin: int -> real, cos: int -> real, h: Horizon)
    requires ParseMonth(LastLabel(months)).Some?
    requires ParseMonth(LastLabel(months)).value.year <= 9997
    requires |h.features| == MonthsToPredict
    requires forall k :: 0 <= k < MonthsToPredict ==> h.features[k] == SeasonalFeature(featureCount + k + 1, sin, cos)
    requires h.months == MonthsAfter(ParseMonth(LastLabel(months)).value, MonthsToPredict)
    ensures h.features[0].index == featureCount + 1
    ensures h.features[MonthsToPredict - 1].index == featureCount + MonthsToPredict
    ensures forall a, b :: 0 <= a < b < MonthsToPredict ==> h.features[a].index < h.features[b].index
    ensures Sorted(h.months)
    ensures forall k :: 0 <= k < MonthsToPredict ==> Less(LastLabel(months), h.months[k])
  {
    var last := ParseMonth(LastLabel(months)).value;
    MonthsAfterSorted(last, MonthsToPredict);
    FormatParse(LastLabel(months));
  }

  // ---- peaks and troughs ----

  datatype Kind = Peak | Trough

  /** A point annotation: its kind, `xValue = months[i]` (absent when the
      label list is shorter) and `yValue = predictions[i]`. */
  datatype Annotation = Annotation(kind: Kind, xValue: Option<string>, yValue: real)

  /** The annotation, if any, of interior index `i`: a peak when the value is
      strictly above both neighbours, else a trough when strictly below both. */
  function ExtremumAt(p: seq<real>, i: int): Option<Kind>
    requires 1 <= i < |p| - 1
  {
    if p[i] > p[i - 1] && p[i] > p[i + 1] then Some(Peak)
    else if p[i] < p[i - 1] && p[i] < p[i + 1] then Some(Trough)
    else None
  }

  /** The end of the scanned range `1 <= i < predictions.length - 1`. */
  function ScanEnd(p: seq<real>): nat {
    if |p| >= 2 then |p| - 1 else 1
  }

  /** The annotated indices below `hi`, ascending. */
  function ExtremeIndices(p: seq<real>, hi: nat): (r: seq<nat>)
    requires 1 <= hi <= ScanEnd(p)
    ensures forall i :: i in r <==> 1 <= i < hi && ExtremumAt(p, i).Some?
    ensures forall a :: 0 <= a < |r| ==> 1 <= r[a] < hi && ExtremumAt(p, r[a]).Some?
    ensures forall a, b :: 0 <= a < b < |r| ==> r[a] < r[b]
    decreases hi
  {
    if hi == 1 then []
    else
      var r := ExtremeIndices(p, hi - 1);
      if ExtremumAt(p, hi - 1).Some? then r + [hi - 1] else r
  }

  function LabelAt(months: seq<string>, i: nat): Option<string> {
    if i < |months| then Some(months[i]) else None
  }

  function AnnotationAt(p: seq<real>, months: seq<string>, i: nat): Annotation
    requires 1 <= i < |p| - 1 && ExtremumAt(p, i).Some?
  {
    Annotation(ExtremumAt(p, i).value, LabelAt(months, i), p[i])
  }

  /** `annotations` holds the annotation of each extremum below `hi`, in
      index order. */
  predicate AnnotatesBelow(p: seq<real>, months: seq<string>, annotations: seq<Annotation>, hi: nat)
    requires 1 <= hi <= ScanEnd(p)
  {
    var idx := ExtremeIndices(p, hi);
    |annotations| == |idx| &&
    forall j :: 0 <= j < |idx| ==> annotations[j] == AnnotationAt(p, months, idx[j])
  }

  /** One round of the scan: an extremum at `i` adds its annotation, any
      other index adds nothing. */
  lemma AnnotationStep(p: seq<real>, months: seq<string>, annotations: seq<Annotation>, i: nat)
    requires 1 <= i < |p| - 1
    requires AnnotatesBelow(p, months, annotations, i)
    ensures ExtremumAt(p, i).Some? ==> AnnotatesBelow(p, months, annotations + [AnnotationAt(p, months, i)], i + 1)
    ensures ExtremumAt(p, i).None? ==> AnnotatesBelow(p, months, annotations, i + 1)
  {
  }

  /** `generatePointAnnotations`: one annotation per strict local extremum of
      the interior, in index order. */
  method GeneratePointAnnotations(predictions: seq<real>, months: seq<string>) returns (annotations: seq<Annotation>)
    ensures var idx := ExtremeIndices(predictions, ScanEnd(predictions));
      |annotations| == |idx| &&
      forall j :: 0 <= j < |idx| ==> annotations[j] == AnnotationAt(predictions, months, idx[j])
  {
    annotations := [];
    var i := 1;
    while i < |predictions| - 1
      invariant 1 <= i <= ScanEnd(predictions)
      invariant AnnotatesBelow(predictions, months, annotations, i)
    {
      AnnotationStep(predictions, months, annotations, i);
      var xValue := if i < |months| then Some(months[i]) else None;
      if predictions[i] > predictions[i - 1] && predictions[i] > predictions[i + 1] {
        assert Annotation(Peak, xValue, predictions[i]) == AnnotationAt(predictions, months, i);
        annotations := annotations + [Annotation(Peak, xValue, predictions[i])];
      } else if predictions[i] < predictions[i - 1] && predictions[i] < predictions[i + 1] {
        assert Annotation(Trough, xValue, predictions[i]) == AnnotationAt(predictions, months, i);
        annotations := annotations + [Annotation(Trough, xValue, predictions[i])];
      } else {
        assert ExtremumAt(predictions, i).None?;
      }
      i := i + 1;
    }
    assert i == ScanEnd(predictions);
  }

  /** An index is annotated exactly when it is interior and its value is
      strictly above both neighbours or strictly below both. */
  lemma AnnotatedIndices(p: seq<real>, i: int)
    ensures i in ExtremeIndices(p, ScanEnd(p)) <==>
      1 <= i < |p| - 1 && ((p[i] > p[i - 1] && p[i] > p[i + 1]) || (p[i] < p[i - 1] && p[i] < p[i + 1]))
  {
    var idx := ExtremeIndices(p, ScanEnd(p));
    if 1 <= i < |p| - 1 {
      assert i in idx <==> ExtremumAt(p, i).Some?;
    } else {
      assert i !in idx;
    }
  }

  /** A peak exactly when strictly above both neighbours, a trough exactly
      when strictly below both, so never both. */
  lemma ExtremumKinds(p: seq<real>, i: int)
    requires 1 <= i < |p| - 1
    ensures ExtremumAt(p, i) == Some(Peak) <==> p[i] > p[i - 1] && p[i] > p[i + 1]
    ensures ExtremumAt(p, i) == Some(Trough) <==> p[i] < p[i - 1] && p[i] < p[i + 1]
  {
  }

  /** The two ends and any value equal to a neighbour (a plateau) are never
      annotated. */
  lemma EndsAndPlateausSkipped(p: seq<real>, i: int)
    requires 0 <= i < |p|
    requires i == 0 || i == |p| - 1 || p[i] == p[i - 1] || p[i] == p[i + 1]
    ensures i !in ExtremeIndices(p, ScanEnd(p))
  {
    AnnotatedIndices(p, i);
  }

  /** A valley, a hill and a ramp. */
  lemma AnnotationExamples()
    ensures ExtremeIndices([5.0, 1.0, 5.0], 2) == [1] && ExtremumAt([5.0, 1.0, 5.0], 1) == Some(Trough)
    ensures ExtremeIndices([1.0, 5.0, 1.0], 2) == [1] && ExtremumAt([1.0, 5.0, 1.0], 1) == Some(Peak)
    ensures ExtremeIndices([1.0, 2.0, 3.0], 2) == []
    ensures ExtremeIndices([1.0, 2.0, 2.0, 1.0], 3) == []
  {
    assert ExtremeIndices([5.0, 1.0, 5.0], 1) == [];
    assert ExtremeIndices([1.0, 5.0, 1.0], 1) == [];
    assert ExtremeIndices([1.0, 2.0, 3.0], 1) == [];
    assert ExtremeIndices([1.0, 2.0, 2.0, 1.0], 1) == [];
    assert ExtremeIndices([1.0, 2.0, 2.0, 1.0], 2) == [];
  }

  // ---- the future index against the future label ----

  /** Row k of the horizon (from 0) as written: index `featureCount + k + 1`
      for the label k + 1 months after the last month `last`, whose own index
      is `featureCount - 1`. The index runs one ahead of the label: the first
      forecast month is given index n + 1, and index n is never used. */
  lemma FutureIndexRunsAhead(featureCount: nat, last: YearMonth, sin: int -> real, cos: int -> real, h: Horizon, k: nat)
    requires ValidMonth(last)
    requires k < MonthsToPredict && |h.features| == MonthsToPredict
    requires forall j :: 0 <= j < MonthsToPredict ==> h.features[j] == SeasonalFeature(featureCount + j + 1, sin, cos)
    requires h.months == MonthsAfter(last, MonthsToPredict)
    ensures h.features[k].index - (featureCount - 1) == (Ordinal(AddMonths(last, k + 1)) - Ordinal(last)) + 1
    ensures forall j :: 0 <= j < MonthsToPredict ==> h.features[j].index != featureCount
  {
    AddMonthsOrdinal(last, k + 1, 0);
  }

  /** The future feature rows with the index the label calls for: the month
      k + 1 months after the last observed month (index n - 1) gets index
      n + k, continuing the observed indices without a gap. */
  function AlignedFutureFeatures(featureCount: nat, sin: int -> real, cos: int -> real): (r: seq<Feature>)
    ensures |r| == MonthsToPredict
  {
    seq(MonthsToPredict, k requires 0 <= k < MonthsToPredict => SeasonalFeature(featureCount + k, sin, cos))
  }

  /** In the aligned rows, how far a row's index lies past the last observed
      index is exactly how many months its label lies past the last observed
      month `last`, and the rows continue the observed indices 0 .. n-1 from n. */
  lemma AlignedFutureMatchesLabels(featureCount: nat, last: YearMonth, sin: int -> real, cos: int -> real, k: nat)
    requires ValidMonth(last)
    requires k < MonthsToPredict
    ensures AlignedFutureFeatures(featureCount, sin, cos)[k].index - (featureCount - 1)
      == Ordinal(AddMonths(last, k + 1)) - Ordinal(last)
    ensures AlignedFutureFeatures(featureCount, sin, cos)[0].index == featureCount
  {
    var f := AlignedFutureFeatures(featureCount, sin, cos);
    assert f[k] == SeasonalFeature(featureCount + k, sin, cos);
    assert f[0] == SeasonalFeature(featureCount, sin, cos);
    AddMonthsOrdinal(last, k + 1, 0);
  }

  // ---- crime-6: trend data and the recommendation summaries ----

  /** `{ month, predictedCrimes }`; the prediction is absent when the
      prediction list is shorter than the label list. */
  datatype TrendPoint = TrendPoint(month: string, predictedCrimes: Option<real>)

  function ValueAt(s: seq<real>, k: nat): Option<real> {
    if k < |s| then Some(s[k]) else None
  }

  /** `futureMonths.map((month, index) => ({ month, predictedCrimes: futurePredictions[index] }))`. */
  function TrendData(futureMonths: seq<string>, futurePredictions: seq<real>): (t: seq<TrendPoint>)
    ensures |t| == |futureMonths|
  {
    seq(|futureMonths|, k requires 0 <= k < |futureMonths| => TrendPoint(futureMonths[k], ValueAt(futurePredictions, k)))
  }

  function TrendMonths(t: seq<TrendPoint>): seq<string> {
    seq(|t|, k requires 0 <= k < |t| => t[k].month)
  }

  /** The trend data pairs the labels and predictions index by index: it
      unzips back into the two arrays. */
  lemma TrendDataUnzips(futureMonths: seq<string>, futurePredictions: seq<real>)
    requires |futurePredictions| == |futureMonths|
    ensures TrendMonths(TrendData(futureMonths, futurePredictions)) == futureMonths
    ensures forall k :: 0 <= k < |futureMonths| ==>
      TrendData(futureMonths, futurePredictions)[k].predictedCrimes == Some(futurePredictions[k])
  {
  }

  /** `{ date, crimes }`, `null` crimes being `None`. */
  datatype DataPoint = DataPoint(date: string, crimes: Option<real>)

  /** `futureDataSummary`: the trend data as date and value pairs. */
  function FutureDataSummary(trendData: seq<TrendPoint>): (s: seq<DataPoint>)
    ensures |s| == |trendData|
  {
    seq(|trendData|, k requires 0 <= k < |trendData| => DataPoint(trendData[k].month, trendData[k].predictedCrimes))
  }

  /** `actualDataSummary` as written: one entry per observed month, whose
      value is the forecast value at the same position of the trend data
      (or `null` past its end), not that month's observed count. */
  function ActualDataSummaryAsWritten(months: seq<string>, trendData: seq<TrendPoint>): (s: seq<DataPoint>)
    ensures |s| == |months|
  {
    seq(|months|, k requires 0 <= k < |months| =>
      DataPoint(months[k], if k < |trendData| then trendData[k].predictedCrimes else None))
  }

  /** What the written summary labels as historical is the forecast: its
      values repeat the future summary's, and a single month with three
      records is reported with the forecast value 7. */
  lemma HistoricalSummaryRepeatsForecast(months: seq<string>, trendData: seq<TrendPoint>)
    ensures forall k :: 0 <= k < |months| && k < |trendData| ==>
      ActualDataSummaryAsWritten(months, trendData)[k].crimes == FutureDataSummary(trendData)[k].crimes
    ensures forall k :: |trendData| <= k < |months| ==> ActualDataSummaryAsWritten(months, trendData)[k].crimes.None?
    ensures ActualDataSummaryAsWritten(["2023-01"], [TrendPoint("2023-02", Some(7.0))])
      == [DataPoint("2023-01", Some(7.0))]
  {
    var s := ActualDataSummaryAsWritten(["2023-01"], [TrendPoint("2023-02", Some(7.0))]);
    assert s[0] == DataPoint("2023-01", Some(7.0));
  }

  /** The historical summary the prompt describes: each observed month with
      its observed count. */
  function ActualDataSummary(months: seq<string>, counts: seq<nat>): (s: seq<DataPoint>)
    ensures |s| == |months|
  {
    seq(|months|, k requires 0 <= k < |months| =>
      DataPoint(months[k], if k < |counts| then Some(counts[k] as real) else None))
  }

  /** What `generateRecommendations` sends, or the placeholder it writes when
      there is no trend data. */
  datatype Recommendation = NoTrendData | Summaries(actual: seq<DataPoint>, future: seq<DataPoint>)

  /** The main handler's `trendData.length > 0` test and the summaries
      `generateRecommendations` builds for the prompt, as written: each
      observed month is sent with the forecast value at its position, so the
      "historical" values repeat the forecast ones. */
  function RecommendationRequest(months: seq<string>, trendData: seq<TrendPoint>): (r: Recommendation)
    ensures r.NoTrendData? <==> trendData == []
    ensures r.Summaries? ==> |r.actual| == |months| && |r.future| == |trendData|
    ensures r.Summaries? ==> forall k :: 0 <= k < |months| ==>
      r.actual[k] == DataPoint(months[k], if k < |trendData| then trendData[k].predictedCrimes else None)
    ensures r.Summaries? ==> forall k :: 0 <= k < |trendData| ==>
      r.future[k] == DataPoint(trendData[k].month, trendData[k].predictedCrimes)
    ensures r.Summaries? ==> forall k :: 0 <= k < |months| && k < |trendData| ==>
      r.actual[k].crimes == r.future[k].crimes
  {
    if trendData == [] then NoTrendData
    else Summaries(ActualDataSummaryAsWritten(months, trendData), FutureDataSummary(trendData))
  }

  /** The request with the historical summary carrying the observed counts,
      as the prompt describes it. */
  function RecommendationRequestCorrected(months: seq<string>, counts: seq<nat>, trendData: seq<TrendPoint>): (r: Recommendation)
    ensures r.NoTrendData? <==> trendData == []
    ensures r.Summaries? ==> |r.actual| == |months| && |r.future| == |trendData|
    ensures r.Summaries? ==> forall k :: 0 <= k < |months| && k < |counts| ==>
      r.actual[k] == DataPoint(months[k], Some(counts[k] as real))
    ensures r.Summaries? ==> r.future == RecommendationRequest(months, trendData).future
  {
    if trendData == [] then NoTrendData
    else Summaries(ActualDataSummary(months, counts), FutureDataSummary(trendData))
  }

  /** With one count per month and trend data built from the forecast, the
      request's historical points are exactly the observed (month, count)
      pairs and its predicted points exactly the forecast (month, value)
      pairs. */
  lemma RecommendationCarriesBothSeries(months: seq<string>, counts: seq<nat>, futureMonths: seq<string>, futurePredictions: seq<real>)
    requires |counts| == |months|
    requires |futurePredictions| == |futureMonths| && futureMonths != []
    ensures var r := RecommendationRequestCorrected(months, counts, TrendData(futureMonths, futurePredictions));
      && r.Summaries?
      && (forall k :: 0 <= k < |months| ==> r.actual[k] == DataPoint(months[k], Some(counts[k] as real)))
      && (forall k :: 0 <= k < |futureMonths| ==> r.future[k] == DataPoint(futureMonths[k], Some(futurePredictions[k])))
  {
  }
}
