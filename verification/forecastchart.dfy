/** The chart arrays the crime-4, crime-5 and crime-6 forecasts draw: the
    observed months followed by the forecast months on the x axis, the
    observed counts as one series, and the forecast as a second series that
    is empty (`null`) under the observed months. */
module ForecastChart {
  import opened Wrappers

  datatype ChartArrays = ChartArrays(
    labels: seq<string>,
    actual: seq<nat>,
    predicted: seq<Option<real>>)

  /** `months.concat(futureMonths)`, the counts, and
      `new Array(counts.length).fill(null).concat(futurePredictions)`. */
  function ChartSeries(months: seq<string>, counts: seq<nat>, futureMonths: seq<string>, predictions: seq<real>): (c: ChartArrays)
    ensures |c.labels| == |months| + |futureMonths|
    ensures c.labels[..|months|] == months && c.labels[|months|..] == futureMonths
    ensures c.actual == counts
    ensures |c.predicted| == |counts| + |predictions|
    ensures forall i :: 0 <= i < |counts| ==> c.predicted[i].None?
    ensures forall k :: 0 <= k < |predictions| ==> c.predicted[|counts| + k] == Some(predictions[k])
  {
    ChartArrays(
      months + futureMonths,
      counts,
      seq(|counts|, _ => None) + seq(|predictions|, k requires 0 <= k < |predictions| => Some(predictions[k])))
  }

  /** With one count per month and one prediction per forecast month, the
      forecast series is as long as the x axis, is empty under every observed
      month and holds prediction k under forecast month k; the observed months
      come first, unchanged. */
  lemma ChartAligned(months: seq<string>, counts: seq<nat>, futureMonths: seq<string>, predictions: seq<real>)
    requires |counts| == |months| && |predictions| == |futureMonths|
    ensures var c := ChartSeries(months, counts, futureMonths, predictions);
      && |c.predicted| == |c.labels|
      && c.labels[..|months|] == months
      && (forall i :: 0 <= i < |months| ==> c.predicted[i].None?)
      && (forall k :: 0 <= k < |futureMonths| ==>
            c.labels[|months| + k] == futureMonths[k] && c.predicted[|months| + k] == Some(predictions[k]))
  {
    var c := ChartSeries(months, counts, futureMonths, predictions);
    assert c.labels[..|months|] == months;
  }
}
