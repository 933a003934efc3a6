/** The crime forecast of crime-chart/predictions.js: crimes counted per
    month over the CSV files of an archive, twelve-month lookback windows for
    training, and a rolling forecast that feeds each prediction back into a
    twelve-month window. The trained network is a parameter: a function from
    a window to a prediction, `None` standing for NaN. */
module RollingForecast {
  import opened Wrappers
  import opened Seqs
  import opened Text
  import opened Ordering
  import opened Archive
  import opened Normalization

  // ---- counting crimes per month ----

  /** `const [, month] = row.split(",")`: the untrimmed second field, or
      nothing when it is missing or blank and the row is skipped. */
  function RowMonth(row: string): (r: Option<string>)
    ensures r.Some? <==> |Split(row, ',')| >= 2 && !AllSpace(Split(row, ',')[1])
    ensures r.Some? ==> r.value == Split(row, ',')[1]
  {
    var cols := Split(row, ',');
    if |cols| < 2 then None
    else
      TrimEmpty(cols[1]);
      if Trim(cols[1]) == "" then None else Some(cols[1])
  }

  /** The months of the accepted rows, in row order. */
  function RowMonths(rows: seq<string>): seq<string> {
    if rows == [] then []
    else
      var m := RowMonth(rows[|rows| - 1]);
      RowMonths(rows[..|rows| - 1]) + (if m.Some? then [m.value] else [])
  }

  /** The months of the accepted rows of every CSV file, file after file,
      each file's header line dropped. */
  function ArchiveMonths(files: seq<ZipFile>): seq<string> {
    if files == [] then []
    else
      var f := files[|files| - 1];
      ArchiveMonths(files[..|files| - 1]) + (if IsCsv(f) then RowMonths(DataLines(f.content)) else [])
  }

  lemma TallySnoc(seen: seq<string>, m: string)
    ensures Tally(seen + [m]) == Counted1(Tally(seen), m)
  {
    assert (seen + [m])[..|seen + [m]| - 1] == seen;
  }

  lemma RowMonthsSnoc(rows: seq<string>, i: nat)
    requires i < |rows|
    ensures RowMonths(rows[..i + 1]) ==
      RowMonths(rows[..i]) + (if RowMonth(rows[i]).Some? then [RowMonth(rows[i]).value] else [])
  {
    assert rows[..i + 1][..i] == rows[..i];
  }

  lemma ArchiveMonthsSnoc(files: seq<ZipFile>, f: nat)
    requires f < |files|
    ensures ArchiveMonths(files[..f + 1]) ==
      ArchiveMonths(files[..f]) + (if IsCsv(files[f]) then RowMonths(DataLines(files[f].content)) else [])
  {
    assert files[..f + 1][..f] == files[..f];
  }

  /** `if (!crimeData[month]) crimeData[month] = 0; crimeData[month]++` adds
      one occurrence of the month. */
  lemma CountStep(before: map<string, nat>, after: map<string, nat>, m: string)
    requires m in after && after == before[m := after[m]]
    requires after[m] == (if m !in before || before[m] == 0 then 0 else before[m]) + 1
    ensures after == Counted1(before, m)
  {
  }

  /** Counting the rows of one file on top of the counts so far. */
  method CountRows(crimeData: map<string, nat>, rows: seq<string>, ghost done: seq<string>) returns (data: map<string, nat>)
    requires crimeData == Tally(done)
    ensures data == Tally(done + RowMonths(rows))
  {
    data := crimeData;
    ghost var seen := done;
    var i := 0;
    assert done + RowMonths(rows[..0]) == done;
    while i < |rows|
      invariant 0 <= i <= |rows|
      invariant seen == done + RowMonths(rows[..i])
      invariant data == Tally(seen)
    {
      RowMonthsSnoc(rows, i);
      var month := RowMonth(rows[i]);
      if month.Some? {
        var m := month.value;
        TallySnoc(seen, m);
        ghost var before := data;
        if m !in data || data[m] == 0 {
          data := data[m := 0];
        }
        data := data[m := data[m] + 1];
        CountStep(before, data, m);
        assert done + (RowMonths(rows[..i]) + [m]) == seen + [m];
        seen := seen + [m];
      } else {
        assert RowMonths(rows[..i + 1]) == RowMonths(rows[..i]) + [];
      }
      i := i + 1;
    }
    assert rows[..|rows|] == rows;
  }

  /** The `crimeData` loop of `handleFileUpload`: a count for exactly the
      months of the accepted rows, each the number of rows of that month. */
  method CountMonths(files: seq<ZipFile>) returns (crimeData: map<string, nat>)
    ensures forall m :: m in crimeData <==> m in ArchiveMonths(files)
    ensures forall m :: m in crimeData ==> crimeData[m] == Occurrences(ArchiveMonths(files), m)
    ensures forall m :: m in crimeData ==> crimeData[m] >= 1
  {
    crimeData := map[];
    var f := 0;
    while f < |files|
      invariant 0 <= f <= |files|
      invariant crimeData == Tally(ArchiveMonths(files[..f]))
    {
      ArchiveMonthsSnoc(files, f);
      if IsCsv(files[f]) {
        crimeData := CountRows(crimeData, DataLines(files[f].content), ArchiveMonths(files[..f]));
      } else {
        assert ArchiveMonths(files[..f + 1]) == ArchiveMonths(files[..f]);
      }
      f := f + 1;
    }
    assert files[..|files|] == files;
    TallyCounts(ArchiveMonths(files));
    forall m | m in crimeData ensures crimeData[m] >= 1 {
      OccurrencesPositive(ArchiveMonths(files), m);
    }
  }

  /** `.filter((count) => count !== undefined && count > 0)`. */
  function Positives(counts: seq<nat>): (r: seq<nat>)
    ensures |r| <= |counts|
    ensures forall k :: 0 <= k < |r| ==> r[k] > 0
  {
    if counts == [] then []
    else
      var last := counts[|counts| - 1];
      Positives(counts[..|counts| - 1]) + (if last > 0 then [last] else [])
  }

  /** `values.every(val => val > 0)`. */
  predicate AllPositive(values: seq<nat>) {
    forall k :: 0 <= k < |values| ==> values[k] > 0
  }

  /** The filter drops nothing from counts that are all positive. */
  lemma {:induction false} PositivesKeepsPositive(counts: seq<nat>)
    requires forall k :: 0 <= k < |counts| ==> counts[k] > 0
    ensures Positives(counts) == counts
  {
    if counts != [] {
      PositivesKeepsPositive(counts[..|counts| - 1]);
      assert counts == counts[..|counts| - 1] + [counts[|counts| - 1]];
    }
  }

  // ---- training windows ----

  /** `lookBack`. */
  const LookBack: nat := 12

  /** The window ending before `i` and the target at `i` are all positive. */
  predicate WindowValid(counts: seq<nat>, i: nat)
    requires LookBack <= i < |counts|
  {
    (forall k :: i - LookBack <= k < i ==> counts[k] > 0) && counts[i] > 0
  }

  /** The targets `i` below `n`, from 12 on, whose window and target pass the
      check, in ascending order. */
  function KeptTargets(counts: seq<nat>, n: nat): (r: seq<nat>)
    requires n <= |counts|
    ensures n <= LookBack ==> r == []
    ensures LookBack <= n ==> |r| <= n - LookBack
    ensures forall j :: 0 <= j < |r| ==> LookBack <= r[j] < n && WindowValid(counts, r[j])
    ensures forall j1, j2 :: 0 <= j1 < j2 < |r| ==> r[j1] < r[j2]
  {
    if n <= LookBack then []
    else KeptTargets(counts, n - 1) + (if WindowValid(counts, n - 1) then [n - 1] else [])
  }

  /** No passing window is left out. */
  lemma {:induction false} KeptTargetsComplete(counts: seq<nat>, n: nat, i: nat)
    requires n <= |counts|
    requires LookBack <= i < n && WindowValid(counts, i)
    ensures i in KeptTargets(counts, n)
  {
    if i < n - 1 {
      KeptTargetsComplete(counts, n - 1, i);
    }
  }

  /** With all counts positive every window is kept: the targets are exactly
      12, 13, ..., n - 1. */
  lemma {:induction false} KeptTargetsAllPositive(counts: seq<nat>, n: nat)
    requires n <= |counts|
    requires AllPositive(counts)
    ensures LookBack <= n ==> |KeptTargets(counts, n)| == n - LookBack
    ensures forall j :: 0 <= j < |KeptTargets(counts, n)| ==> KeptTargets(counts, n)[j] == j + LookBack
  {
    if n > LookBack {
      KeptTargetsAllPositive(counts, n - 1);
      assert WindowValid(counts, n - 1);
    }
  }

  /** `xs` and `ys` hold the window and the target of each of `kept`. */
  predicate Matches(counts: seq<nat>, xs: seq<seq<nat>>, ys: seq<nat>, kept: seq<nat>)
    requires forall j :: 0 <= j < |kept| ==> LookBack <= kept[j] < |counts|
  {
    |xs| == |ys| == |kept|
    && forall j :: 0 <= j < |kept| ==> xs[j] == counts[kept[j] - LookBack..kept[j]] && ys[j] == counts[kept[j]]
  }

  lemma MatchesSnoc(counts: seq<nat>, xs: seq<seq<nat>>, ys: seq<nat>, kept: seq<nat>, i: nat)
    requires forall j :: 0 <= j < |kept| ==> LookBack <= kept[j] < |counts|
    requires LookBack <= i < |counts|
    requires Matches(counts, xs, ys, kept)
    ensures Matches(counts, xs + [counts[i - LookBack..i]], ys + [counts[i]], kept + [i])
  {
  }

  /** The check of `trainModel` on one window: every value of the input
      slice positive, as `WindowValid` asks of the counts before `i`. */
  lemma SliceCheck(counts: seq<nat>, i: nat, inputSlice: seq<nat>)
    requires LookBack <= i < |counts|
    requires inputSlice == counts[i - LookBack..i]
    ensures AllPositive(inputSlice) <==> (forall k :: i - LookBack <= k < i ==> counts[k] > 0)
  {
    if AllPositive(inputSlice) {
      forall k | i - LookBack <= k < i ensures counts[k] > 0 {
        assert inputSlice[k - (i - LookBack)] == counts[k];
      }
    }
  }

  /** One round of the window loop: the pair for target `i` is added exactly
      when its slice and target pass the check. */
  lemma TrainingStep(counts: seq<nat>, xs: seq<seq<nat>>, ys: seq<nat>, i: nat, inputSlice: seq<nat>)
    requires LookBack <= i < |counts|
    requires inputSlice == counts[i - LookBack..i]
    requires Matches(counts, xs, ys, KeptTargets(counts, i))
    ensures AllPositive(inputSlice) && counts[i] > 0 ==>
      Matches(counts, xs + [inputSlice], ys + [counts[i]], KeptTargets(counts, i + 1))
    ensures !(AllPositive(inputSlice) && counts[i] > 0) ==>
      Matches(counts, xs, ys, KeptTargets(counts, i + 1))
  {
    SliceCheck(counts, i, inputSlice);
    if WindowValid(counts, i) {
      MatchesSnoc(counts, xs, ys, KeptTargets(counts, i), i);
    }
  }

  /** The window loop of `trainModel`: for each `i` from 12 up to the number
      of counts, the twelve counts before `i` and the count at `i`, kept only
      when all of them are positive. */
  method TrainingData(counts: seq<nat>) returns (xs: seq<seq<nat>>, ys: seq<nat>)
    ensures Matches(counts, xs, ys, KeptTargets(counts, |counts|))
  {
    var lookBack := LookBack;
    xs, ys := [], [];
    var i := lookBack;
    while i < |counts|
      invariant LookBack <= i && (i <= |counts| || i == LookBack)
      invariant Matches(counts, xs, ys, KeptTargets(counts, if i <= |counts| then i else |counts|))
    {
      var inputSlice := counts[i - lookBack..i];
      var targetValue := counts[i];
      TrainingStep(counts, xs, ys, i, inputSlice);
      assert (if i + 1 <= |counts| then i + 1 else |counts|) == i + 1;
      if AllPositive(inputSlice) && targetValue > 0 {
        xs := xs + [inputSlice];
        ys := ys + [targetValue];
      }
      i := i + 1;
    }
  }

  /** The training set has at most `len - 12` pairs, none with fewer than
      thirteen counts, each an input of twelve positive counts and a positive
      target. */
  lemma TrainingWindows(counts: seq<nat>, xs: seq<seq<nat>>, ys: seq<nat>)
    requires Matches(counts, xs, ys, KeptTargets(counts, |counts|))
    ensures LookBack <= |counts| ==> |xs| <= |counts| - LookBack
    ensures |counts| <= LookBack ==> xs == []
    ensures forall j :: 0 <= j < |xs| ==> |xs[j]| == LookBack && ys[j] > 0
    ensures forall j, k :: 0 <= j < |xs| && 0 <= k < |xs[j]| ==> xs[j][k] > 0
  {
    forall j | 0 <= j < |xs| ensures |xs[j]| == LookBack && ys[j] > 0 && AllPositive(xs[j]) {
      PairPositive(counts, xs, ys, j);
    }
  }

  /** The `j`-th pair of the training set: twelve positive counts and a
      positive target. */
  lemma PairPositive(counts: seq<nat>, xs: seq<seq<nat>>, ys: seq<nat>, j: nat)
    requires Matches(counts, xs, ys, KeptTargets(counts, |counts|)) && j < |xs|
    ensures |xs[j]| == LookBack && ys[j] > 0 && AllPositive(xs[j])
  {
    var kept := KeptTargets(counts, |counts|);
    MatchAt(counts, xs, ys, kept, j);
    KeptWindowPositive(counts, kept[j], xs[j]);
  }

  lemma KeptWindowPositive(counts: seq<nat>, i: nat, x: seq<nat>)
    requires LookBack <= i < |counts| && WindowValid(counts, i)
    requires x == counts[i - LookBack..i]
    ensures |x| == LookBack && counts[i] > 0
    ensures AllPositive(x)
  {
    forall k | 0 <= k < |x| ensures x[k] > 0 {
      assert x[k] == counts[i - LookBack + k];
    }
  }

  /** With all counts positive the training set has exactly `len - 12`
      pairs, the j-th being the twelve counts from j and the count right
      after them. */
  lemma TrainingWindowsAllPositive(counts: seq<nat>, xs: seq<seq<nat>>, ys: seq<nat>)
    requires Matches(counts, xs, ys, KeptTargets(counts, |counts|))
    requires AllPositive(counts)
    requires LookBack <= |counts|
    ensures |xs| == |counts| - LookBack
    ensures forall j :: 0 <= j < |xs| ==> xs[j] == counts[j..j + LookBack] && ys[j] == counts[j + LookBack]
  {
    KeptTargetsAllPositive(counts, |counts|);
    PairsFrom(counts, xs, ys, KeptTargets(counts, |counts|));
  }

  /** When the kept targets are exactly 12, 13, ..., pair `j` is the window
      starting at `j` and the count right after it. */
  lemma PairsFrom(counts: seq<nat>, xs: seq<seq<nat>>, ys: seq<nat>, kept: seq<nat>)
    requires forall i :: 0 <= i < |kept| ==> LookBack <= kept[i] < |counts|
    requires Matches(counts, xs, ys, kept) && |xs| + LookBack <= |counts|
    requires forall i :: 0 <= i < |kept| ==> kept[i] == i + LookBack
    ensures forall j :: 0 <= j < |xs| ==> xs[j] == counts[j..j + LookBack] && ys[j] == counts[j + LookBack]
  {
    forall j | 0 <= j < |xs| ensures xs[j] == counts[j..j + LookBack] && ys[j] == counts[j + LookBack] {
      PairAt(counts, xs, ys, kept, j);
    }
  }

  /** The `j`-th pair when the `j`-th kept target is `j + 12`: the window
      starting at `j` and the count right after it. */
  lemma PairAt(counts: seq<nat>, xs: seq<seq<nat>>, ys: seq<nat>, kept: seq<nat>, j: nat)
    requires forall i :: 0 <= i < |kept| ==> LookBack <= kept[i] < |counts|
    requires Matches(counts, xs, ys, kept) && j < |xs| && kept[j] == j + LookBack
    ensures xs[j] == counts[j..j + LookBack] && ys[j] == counts[j + LookBack]
  {
    MatchAt(counts, xs, ys, kept, j);
  }

  /** The `j`-th pair of a match. */
  lemma MatchAt(counts: seq<nat>, xs: seq<seq<nat>>, ys: seq<nat>, kept: seq<nat>, j: nat)
    requires forall i :: 0 <= i < |kept| ==> LookBack <= kept[i] < |counts|
    requires Matches(counts, xs, ys, kept) && j < |kept|
    ensures xs[j] == counts[kept[j] - LookBack..kept[j]] && ys[j] == counts[kept[j]]
  {
  }

  // ---- the rolling forecast ----

  /** The trained model: the prediction for a window, `None` for NaN. */
  type Predictor = seq<real> -> Option<real>

  function SumReal(s: seq<real>): real {
    if s == [] then 0.0 else SumReal(s[..|s| - 1]) + s[|s| - 1]
  }

  /** `inputSequence.reduce((a, b) => a + b) / inputSequence.length`. */
  function Mean(w: seq<real>): real
    requires |w| > 0
  {
    SumReal(w) / |w| as real
  }

  lemma {:induction false} SumRealBounds(s: seq<real>, lo: real, hi: real)
    requires forall k :: 0 <= k < |s| ==> lo <= s[k] <= hi
    ensures |s| as real * lo <= SumReal(s) <= |s| as real * hi
  {
    if s != [] {
      SumRealBounds(s[..|s| - 1], lo, hi);
    }
  }

  /** The mean lies between any bounds of the window's values. */
  lemma MeanBounds(w: seq<real>, lo: real, hi: real)
    requires |w| > 0
    requires forall k :: 0 <= k < |w| ==> lo <= w[k] <= hi
    ensures lo <= Mean(w) <= hi
  {
    SumRealBounds(w, lo, hi);
    var n := |w| as real;
    assert n * lo <= SumReal(w) <= n * hi;
    assert Mean(w) * n == SumReal(w);
  }

  /** A NaN or non-positive prediction is replaced by the window's mean. */
  function Stabilise(p: Option<real>, w: seq<real>): real
    requires |w| > 0
  {
    if p.None? || p.value <= 0.0 then Mean(w) else p.value
  }

  /** A window of positive values always yields a positive prediction,
      whatever the model says. */
  lemma StabilisePositive(p: Option<real>, w: seq<real>)
    requires |w| > 0
    requires forall k :: 0 <= k < |w| ==> w[k] > 0.0
    ensures Stabilise(p, w) > 0.0
    ensures p.Some? && p.value > 0.0 ==> Stabilise(p, w) == p.value
  {
    if p.None? || p.value <= 0.0 {
      MeanBounds(w, MinOf(w), MaxOf(w));
    }
  }

  /** The smallest value of a non-empty window. */
  function MinOf(w: seq<real>): (m: real)
    requires |w| > 0
    ensures m in w && forall k :: 0 <= k < |w| ==> m <= w[k]
  {
    if |w| == 1 then w[0]
    else
      var m := MinOf(w[..|w| - 1]);
      assert forall k :: 0 <= k < |w| - 1 ==> w[..|w| - 1][k] == w[k];
      if w[|w| - 1] < m then w[|w| - 1] else m
  }

  /** The largest value of a non-empty window. */
  function MaxOf(w: seq<real>): (m: real)
    requires |w| > 0
    ensures m in w && forall k :: 0 <= k < |w| ==> w[k] <= m
  {
    if |w| == 1 then w[0]
    else
      var m := MaxOf(w[..|w| - 1]);
      assert forall k :: 0 <= k < |w| - 1 ==> w[..|w| - 1][k] == w[k];
      if w[|w| - 1] > m then w[|w| - 1] else m
  }

  /** `crimeCounts.slice(-lookBack)`: the last twelve values, or all of them
      when there are fewer. */
  function LastWindow(s: seq<real>): (w: seq<real>)
    ensures |w| == if |s| <= LookBack then |s| else LookBack
  {
    if |s| <= LookBack then s else s[|s| - LookBack..]
  }

  /** The window after the predictions `preds`: the start window with one
      oldest value dropped and one prediction appended per prediction. */
  function WindowAfter(w0: seq<real>, preds: seq<real>): (w: seq<real>)
    ensures |w| == |w0|
  {
    (w0 + preds)[|preds|..]
  }

  /** One more prediction drops the oldest value of the window and appends
      the prediction. */
  lemma WindowStep(w0: seq<real>, preds: seq<real>, value: real)
    requires |w0| > 0
    ensures WindowAfter(w0, preds + [value]) == WindowAfter(w0, preds)[1..] + [value]
  {
    assert w0 + (preds + [value]) == (w0 + preds) + [value];
  }

  /** The window the model sees after any number of steps is the latest
      stretch, of the start window's length, of the counts followed by the
      predictions so far. */
  lemma WindowIsLatest(counts: seq<real>, preds: seq<real>)
    ensures WindowAfter(LastWindow(counts), preds)
      == (counts + preds)[|counts| + |preds| - |LastWindow(counts)|..]
  {
    var w0 := LastWindow(counts);
    var start := |counts| - |w0|;
    assert counts[start..] == w0;
    assert (counts + preds)[start..] == w0 + preds;
  }

  /** The first `k` predictions of the rolling forecast from window `w0`. */
  function Forecast(w0: seq<real>, predict: Predictor, k: nat): (r: seq<real>)
    requires |w0| > 0 || k == 0
    ensures |r| == k
  {
    if k == 0 then []
    else
      var before := Forecast(w0, predict, k - 1);
      var w := WindowAfter(w0, before);
      before + [Stabilise(predict(w), w)]
  }

  /** From a window of positive values every prediction is positive. */
  lemma {:induction false} ForecastPositive(w0: seq<real>, predict: Predictor, k: nat)
    requires |w0| > 0
    requires forall i :: 0 <= i < |w0| ==> w0[i] > 0.0
    ensures forall i :: 0 <= i < k ==> Forecast(w0, predict, k)[i] > 0.0
  {
    if k > 0 {
      var before := Forecast(w0, predict, k - 1);
      ForecastPositive(w0, predict, k - 1);
      var w := WindowAfter(w0, before);
      forall i | 0 <= i < |w| ensures w[i] > 0.0 {
        assert w[i] == (w0 + before)[k - 1 + i];
      }
      StabilisePositive(predict(w), w);
    }
  }

  /** The prediction loop of `renderPredictionChart`: as many predictions as
      there are counts, each computed from the current window and then
      appended to it while its oldest value is dropped. */
  method RollingForecast(crimeCounts: seq<nat>, predict: Predictor) returns (predictions: seq<real>)
    ensures |predictions| == |crimeCounts|
    ensures predictions == Forecast(LastWindow(AsReals(crimeCounts)), predict, |crimeCounts|)
    ensures (forall k :: 0 <= k < |crimeCounts| ==> crimeCounts[k] > 0) ==>
      forall k :: 0 <= k < |predictions| ==> predictions[k] > 0.0
  {
    var predictionPeriod := |crimeCounts|;
    var w0 := LastWindow(AsReals(crimeCounts));
    var inputSequence := w0;
    predictions := [];
    var i := 0;
    while i < predictionPeriod
      invariant 0 <= i <= predictionPeriod
      invariant predictions == Forecast(w0, predict, i)
      invariant inputSequence == WindowAfter(w0, predictions)
    {
      var predictedValue := predict(inputSequence);
      var value: real;
      if predictedValue.None? || predictedValue.value <= 0.0 {
        value := Mean(inputSequence);
      } else {
        value := predictedValue.value;
      }
      WindowStep(w0, predictions, value);
      predictions := predictions + [value];
      inputSequence := inputSequence[1..] + [value];
      i := i + 1;
    }
    if forall k :: 0 <= k < |crimeCounts| ==> crimeCounts[k] > 0 {
      if predictionPeriod > 0 {
        ForecastPositive(w0, predict, predictionPeriod);
      }
    }
  }

  // ---- the chart ----

  /** The prediction chart: x labels and the two series. */
  datatype PredictionChart = PredictionChart(labels: seq<nat>, historical: seq<real>, extended: seq<real>)

  /** Labels 1 to `len + predictions`, the historical counts, and the counts
      followed by the predictions. */
  function ChartOf(counts: seq<real>, predictions: seq<real>): (c: PredictionChart)
    ensures |c.labels| == |c.extended| == |counts| + |predictions|
    ensures forall i :: 0 <= i < |c.labels| ==> c.labels[i] == i + 1
    ensures c.historical == counts && c.extended[..|counts|] == counts
    ensures c.extended[|counts|..] == predictions
  {
    var n := |counts| + |predictions|;
    PredictionChart(seq(n, i requires 0 <= i < n => i + 1), counts, counts + predictions)
  }

  // ---- handleFileUpload ----

  /** What training and prediction produce. */
  datatype Training = Training(xs: seq<seq<nat>>, ys: seq<nat>, predictions: seq<real>, chart: PredictionChart)

  /** The sorted months, their counts, and the forecast when there was
      enough data. */
  datatype Upload = Upload(months: seq<string>, crimeCounts: seq<nat>, training: Option<Training>)

  /** Months and counts of `handleFileUpload`: the sorted months and their
      counts, with the non-positive counts filtered out. */
  method MonthlyCounts(files: seq<ZipFile>) returns (months: seq<string>, crimeCounts: seq<nat>)
    ensures Sorted(months) && forall m :: m in months <==> m in ArchiveMonths(files)
    ensures |crimeCounts| == |months|
    ensures forall k :: 0 <= k < |months| ==> crimeCounts[k] == Occurrences(ArchiveMonths(files), months[k]) > 0
  {
    var crimeData := CountMonths(files);
    months := SortedKeys(crimeData);
    var counts := seq(|months|, k requires 0 <= k < |months| => crimeData[months[k]]);
    PositivesKeepsPositive(counts);
    crimeCounts := Positives(counts);
  }

  /** `trainModel` followed by `renderPredictionChart`, on more than twelve
      positive counts: every window is kept, and there are as many positive
      predictions as counts. */
  method TrainAndPredict(crimeCounts: seq<nat>, predict: Predictor) returns (t: Training)
    requires forall k :: 0 <= k < |crimeCounts| ==> crimeCounts[k] > 0
    requires |crimeCounts| > LookBack
    ensures |t.xs| == |t.ys| == |crimeCounts| - LookBack
    ensures forall j :: 0 <= j < |t.xs| ==> t.xs[j] == crimeCounts[j..j + LookBack] && t.ys[j] == crimeCounts[j + LookBack]
    ensures |t.predictions| == |crimeCounts|
    ensures t.predictions == Forecast(LastWindow(AsReals(crimeCounts)), predict, |crimeCounts|)
    ensures forall k :: 0 <= k < |crimeCounts| ==> t.predictions[k] > 0.0
    ensures t.chart == ChartOf(AsReals(crimeCounts), t.predictions)
  {
    var xs, ys := TrainingData(crimeCounts);
    TrainingWindowsAllPositive(crimeCounts, xs, ys);
    var predictions := RollingForecast(crimeCounts, predict);
    var chart := ChartOf(AsReals(crimeCounts), predictions);
    t := Training(xs, ys, predictions, chart);
  }

  /** `handleFileUpload`: count the crimes per month, line the counts up with
      the sorted months, and train and forecast only with more than twelve
      of them. */
  method HandleFileUpload(files: seq<ZipFile>, predict: Predictor) returns (r: Upload)
    ensures Sorted(r.months) && forall m :: m in r.months <==> m in ArchiveMonths(files)
    ensures |r.crimeCounts| == |r.months|
    ensures forall k :: 0 <= k < |r.months| ==> r.crimeCounts[k] == Occurrences(ArchiveMonths(files), r.months[k]) > 0
    ensures r.training.Some? <==> |r.crimeCounts| > LookBack
    ensures r.training.Some? ==>
      var t, n := r.training.value, |r.crimeCounts|;
      && |t.xs| == |t.ys| == n - LookBack
      && (forall j :: 0 <= j < |t.xs| ==> t.xs[j] == r.crimeCounts[j..j + LookBack] && t.ys[j] == r.crimeCounts[j + LookBack])
      && t.predictions == Forecast(LastWindow(AsReals(r.crimeCounts)), predict, n)
      && (forall k :: 0 <= k < n ==> t.predictions[k] > 0.0)
      && t.chart == ChartOf(AsReals(r.crimeCounts), t.predictions)
  {
    var months, crimeCounts := MonthlyCounts(files);
    if |crimeCounts| > LookBack {
      var t := TrainAndPredict(crimeCounts, predict);
      r := Upload(months, crimeCounts, Some(t));
    } else {
      r := Upload(months, crimeCounts, None);
    }
  }
}
