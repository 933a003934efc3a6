/** The crime-4 forecast: the min/max rescale of the month indices and the
    counts, the 12 future indices and month labels of `predictFuture`, and the
    rescale undone on the predictions. */
module LinearForecast {
  import opened Wrappers
  import opened Calendar
  import opened Normalization
  import SeasonalForecast

  /** What `normalizeData` returns: both tensors rescaled, with their bounds. */
  datatype Normalized = Normalized(
    inputs: seq<Option<real>>, labels: seq<Option<real>>,
    inputBounds: Bounds, labelBounds: Bounds)

  /** `normalizeData`: each tensor rescaled by its own minimum and maximum.
      Empty tensors have no bounds. */
  function NormalizeData(inputs: seq<int>, labels: seq<int>): (r: Option<Normalized>)
    ensures r.Some? <==> inputs != [] && labels != []
    ensures r.Some? ==> |r.value.inputs| == |inputs| && |r.value.labels| == |labels|
  {
    var ib := BoundsOf(AsReals(inputs));
    var lb := BoundsOf(AsReals(labels));
    if ib.None? || lb.None? then None
    else Some(Normalized(NormalizeAll(AsReals(inputs), ib.value), NormalizeAll(AsReals(labels), lb.value), ib.value, lb.value))
  }

  /** The month indices 0 .. n-1 are rescaled to k / (n - 1); with a single
      month there is no guard and the rescale is undefined. */
  lemma NormalizedIndices(n: nat, labels: seq<int>)
    requires n >= 1 && labels != []
    ensures var r := NormalizeData(MonthIndices(n), labels).value;
      && (n == 1 <==> forall k :: 0 <= k < n ==> r.inputs[k].None?)
      && (n > 1 ==> forall k :: 0 <= k < n ==> r.inputs[k] == Some(k as real / (n - 1) as real))
  {
    var r := NormalizeData(MonthIndices(n), labels).value;
    assert AsReals(MonthIndices(n)) == Indices(n);
    IndicesBounds(n);
    assert r.inputs[0] == Normalize(0.0, r.inputBounds);
    if n > 1 {
      forall k | 0 <= k < n ensures r.inputs[k] == Some(k as real / (n - 1) as real) {
        assert r.inputs[k] == Normalize(k as real, r.inputBounds);
      }
    }
  }

  /** The rescaled counts are undefined exactly when every month has the same
      count; otherwise undoing the rescale gives each count back. */
  lemma NormalizedCounts(inputs: seq<int>, counts: seq<int>)
    requires inputs != [] && counts != []
    ensures var r := NormalizeData(inputs, counts).value;
      && ((forall k :: 0 <= k < |counts| ==> counts[k] == counts[0]) <==> (forall k :: 0 <= k < |counts| ==> r.labels[k].None?))
      && ((exists k :: 0 <= k < |counts| && counts[k] != counts[0]) ==>
            forall k :: 0 <= k < |counts| ==> Denormalize(r.labels[k].value, r.labelBounds) == counts[k] as real)
  {
    var r := NormalizeData(inputs, counts).value;
    var s := AsReals(counts);
    BoundsDegenerate(s);
    assert r.labels[0] == Normalize(s[0], r.labelBounds);
    if exists k :: 0 <= k < |counts| && counts[k] != counts[0] {
      forall k | 0 <= k < |counts| ensures Denormalize(r.labels[k].value, r.labelBounds) == counts[k] as real {
        assert r.labels[k] == Normalize(s[k], r.labelBounds);
        DenormalizeNormalize(s[k], r.labelBounds);
      }
    }
  }

  /** The month indices 0 .. n-1. */
  function MonthIndices(n: nat): (s: seq<int>)
    ensures |s| == n && forall k :: 0 <= k < n ==> s[k] == k
  {
    seq(n, k requires 0 <= k < n => k)
  }

  const MonthsToPredict: nat := 12

  /** The future inputs and their month labels. */
  datatype Future = Future(inputs: seq<int>, months: seq<string>)

  /** The two loops of `predictFuture`: `lastInput + i` and the last month
      moved on by i months, for i = 1 .. 12. A last label that does not read
      as a month (including no months at all, whose last label is
      "undefined") throws. */
  method PredictFuture(inputs: seq<int>, months: seq<string>) returns (r: Result<Future, SeasonalForecast.DateError>)
    requires |inputs| == |months|
    ensures r.Ok? <==> ParseMonth(SeasonalForecast.LastLabel(months)).Some?
    ensures r.Ok? ==> |r.value.inputs| == MonthsToPredict && |r.value.months| == MonthsToPredict
    ensures r.Ok? ==> forall k :: 0 <= k < MonthsToPredict ==> r.value.inputs[k] == inputs[|inputs| - 1] + k + 1
    ensures r.Ok? ==> r.value.months == MonthsAfter(ParseMonth(SeasonalForecast.LastLabel(months)).value, MonthsToPredict)
  {
    if inputs == [] {
      // `lastInput` is undefined, and the label loop below then reads the
      // date "undefined-01" and throws; nothing of the index loop survives.
      return Err(SeasonalForecast.InvalidDate);
    }
    var lastInput := inputs[|inputs| - 1];
    var futureInputs: seq<int> := [];
    var i := 1;
    while i <= MonthsToPredict
      invariant 1 <= i <= MonthsToPredict + 1
      invariant |futureInputs| == i - 1
      invariant forall k :: 0 <= k < i - 1 ==> futureInputs[k] == lastInput + k + 1
    {
      futureInputs := futureInputs + [lastInput + i];
      i := i + 1;
    }
    var futureMonths: seq<string> := [];
    i := 1;
    while i <= MonthsToPredict
      invariant 1 <= i <= MonthsToPredict + 1
      invariant |futureMonths| == i - 1
      invariant i > 1 ==> ParseMonth(SeasonalForecast.LastLabel(months)).Some?
      invariant i > 1 ==> forall k :: 0 <= k < i - 1 ==>
        futureMonths[k] == Format(AddMonths(ParseMonth(SeasonalForecast.LastLabel(months)).value, k + 1))
    {
      var lastMonth := ParseMonth(SeasonalForecast.LastLabel(months));
      if lastMonth.None? {
        return Err(SeasonalForecast.InvalidDate);
      }
      futureMonths := futureMonths + [Format(AddMonths(lastMonth.value, i))];
      i := i + 1;
    }
    r := Ok(Future(futureInputs, futureMonths));
  }

  /** From the month indices 0 .. n-1 the future inputs are the contiguous
      continuation n .. n+11. */
  lemma FutureInputsContinue(inputs: seq<int>, future: seq<int>)
    requires inputs != [] && forall k :: 0 <= k < |inputs| ==> inputs[k] == k
    requires |future| == MonthsToPredict
    requires forall k :: 0 <= k < MonthsToPredict ==> future[k] == inputs[|inputs| - 1] + k + 1
    ensures future == seq(MonthsToPredict, k requires 0 <= k < MonthsToPredict => |inputs| + k)
  {
  }

  /** `unnormalizedPredictions`: the rescale undone on every prediction. */
  function Unnormalize(predictions: seq<real>, labelBounds: Bounds): (r: seq<real>)
    ensures |r| == |predictions|
  {
    seq(|predictions|, k requires 0 <= k < |predictions| => Denormalize(predictions[k], labelBounds))
  }

  /** Undoing the rescale and rescaling again gives the model's outputs back. */
  lemma UnnormalizeInverts(predictions: seq<real>, labelBounds: Bounds)
    requires labelBounds.min != labelBounds.max
    ensures forall k :: 0 <= k < |predictions| ==>
      Normalize(Unnormalize(predictions, labelBounds)[k], labelBounds) == Some(predictions[k])
  {
    forall k | 0 <= k < |predictions|
      ensures Normalize(Unnormalize(predictions, labelBounds)[k], labelBounds) == Some(predictions[k])
    {
      NormalizeDenormalize(predictions[k], labelBounds);
    }
  }
}
