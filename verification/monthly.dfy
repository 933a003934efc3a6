/** The per-month aggregation shared by crime-4, crime-5 and crime-6
    (`preprocessAndTrain`): parsed records are filtered on a truthy "Month" and
    "Crime type", counted per month in a dictionary, and turned into aligned
    sorted `months`, `counts` and month indices. */
module MonthlyCounts {
  import opened Seqs
  import opened Ordering

  /** A parsed CSV record: column name to field text. A column the row did
      not reach is absent. */
  type Record = map<string, string>

  /** `record[field]` is truthy: present and not the empty string. */
  predicate Truthy(r: Record, field: string) {
    field in r && r[field] != ""
  }

  /** The records `preprocessAndTrain` keeps. */
  predicate Counted(r: Record) {
    Truthy(r, "Month") && Truthy(r, "Crime type")
  }

  /** `data.filter(record => record["Month"] && record["Crime type"])`: the
      kept records in their input order. */
  function Cleaned(data: seq<Record>): (r: seq<Record>)
    ensures |r| <= |data|
    ensures forall k :: 0 <= k < |r| ==> Counted(r[k])
  {
    if data == [] then []
    else
      var last := data[|data| - 1];
      assert data == data[..|data| - 1] + [last];
      Cleaned(data[..|data| - 1]) + (if Counted(last) then [last] else [])
  }

  /** A record is kept exactly when it is one of the input records and both
      its fields are truthy. */
  lemma {:induction false} CleanedMembers(data: seq<Record>)
    ensures forall x :: x in Cleaned(data) <==> x in data && Counted(x)
  {
    if data != [] {
      var init, last := data[..|data| - 1], data[|data| - 1];
      CleanedMembers(init);
      assert data == init + [last];
    }
  }

  /** The "Month" field of every kept record, in order. */
  function CountedMonths(data: seq<Record>): (ms: seq<string>)
    ensures |ms| == |Cleaned(data)|
    ensures forall k :: 0 <= k < |ms| ==> ms[k] == Cleaned(data)[k]["Month"] && ms[k] != ""
  {
    if data == [] then []
    else
      var last := data[|data| - 1];
      CountedMonths(data[..|data| - 1]) + (if Counted(last) then [last["Month"]] else [])
  }

  /** The `crimeCounts` dictionary: one key per month that occurs among the
      kept records, mapped to the number of kept records of that month. */
  method CountPerMonth(data: seq<Record>) returns (crimeCounts: map<string, nat>)
    ensures forall m :: m in crimeCounts <==> m in CountedMonths(data)
    ensures forall m :: m in crimeCounts ==> crimeCounts[m] == Occurrences(CountedMonths(data), m)
  {
    var cleaned := Cleaned(data);
    ghost var ms := CountedMonths(data);
    crimeCounts := map[];
    var i := 0;
    while i < |cleaned|
      invariant 0 <= i <= |cleaned|
      invariant crimeCounts == Tally(ms[..i])
    {
      var month := cleaned[i]["Month"];
      if month !in crimeCounts {
        crimeCounts := crimeCounts[month := 0];
      }
      crimeCounts := crimeCounts[month := crimeCounts[month] + 1];
      assert ms[..i + 1][..i] == ms[..i];
      i := i + 1;
    }
    assert ms[..i] == ms;
    TallyCounts(ms);
  }

  /** The aggregation step of `preprocessAndTrain`: the distinct months in
      ascending order, each month's number of kept records (at least one),
      adding up to the number of kept records, and the indices 0 .. n-1. */
  method Aggregate(data: seq<Record>) returns (months: seq<string>, counts: seq<nat>, monthIndices: seq<nat>)
    ensures Sorted(months) && Distinct(months)
    ensures forall m :: m in months <==> m in CountedMonths(data)
    ensures counts == CountsOf(months, CountedMonths(data))
    ensures forall k :: 0 <= k < |counts| ==> counts[k] >= 1
    ensures Sum(counts) == |Cleaned(data)|
    ensures |monthIndices| == |months|
    ensures forall k :: 0 <= k < |monthIndices| ==> monthIndices[k] == k
  {
    var crimeCounts := CountPerMonth(data);
    months := SortedKeys(crimeCounts);
    counts := seq(|months|, k requires 0 <= k < |months| => crimeCounts[months[k]]);
    monthIndices := seq(|months|, k requires 0 <= k < |months| => k);
    SortedDistinct(months);
    forall k | 0 <= k < |counts| ensures counts[k] >= 1 {
      OccurrencesPositive(CountedMonths(data), months[k]);
    }
    CountsOfCover(months, CountedMonths(data));
  }
}
