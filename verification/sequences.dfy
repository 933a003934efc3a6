/** crime-3: a positional CSV reader, counts per month and crime type, and
    the 12-month windows of per-type counts a sequence model is trained on. */
module CrimeSequences {
  import opened Wrappers
  import opened Seqs
  import opened Text
  import opened Ordering
  import opened Archive

  // ---- parseCSV ----

  /** A parsed row: the trimmed month and crime type. */
  datatype Entry = Entry(month: string, crimeType: string)

  /** One line: at least 12 comma-separated fields, field 1 the month and
      field 9 the crime type, both trimmed and both non-empty. There is no
      quoting: every comma separates. */
  function ParseRow(row: string): Option<Entry> {
    var columns := Split(row, ',');
    if |columns| < 12 then None
    else
      var month := Trim(columns[1]);
      var crimeType := Trim(columns[9]);
      if month == "" || crimeType == "" then None else Some(Entry(month, crimeType))
  }

  /** A line is kept exactly when it has at least 12 fields and neither
      field 1 nor field 9 is all white space; what is kept is each field
      stripped of the white space around it. */
  lemma ParseRowMeaning(row: string)
    ensures var columns := Split(row, ',');
      ParseRow(row).Some? <==> |columns| >= 12 && !AllSpace(columns[1]) && !AllSpace(columns[9])
    ensures var columns := Split(row, ',');
      ParseRow(row).Some? ==>
        && IsSliceBetweenSpace(columns[1], ParseRow(row).value.month, LeadingSpace(columns[1]))
        && IsSliceBetweenSpace(columns[9], ParseRow(row).value.crimeType, LeadingSpace(columns[9]))
        && !IsSpace(ParseRow(row).value.month[0])
        && !IsSpace(ParseRow(row).value.crimeType[0])
  {
    var columns := Split(row, ',');
    if |columns| >= 12 {
      TrimEmpty(columns[1]);
      TrimEmpty(columns[9]);
      TrimSlice(columns[1]);
      TrimSlice(columns[9]);
      TrimEnds(columns[1]);
      TrimEnds(columns[9]);
    }
  }

  /** The kept rows of `rows`, in order. */
  function ParseRows(rows: seq<string>): (r: seq<Entry>)
    ensures |r| <= |rows|
  {
    if rows == [] then []
    else
      var last := ParseRow(rows[|rows| - 1]);
      ParseRows(rows[..|rows| - 1]) + (if last.Some? then [last.value] else [])
  }

  /** Parsing a concatenation of lines parses each part in turn. */
  lemma {:induction false} ParseRowsAppend(a: seq<string>, b: seq<string>)
    ensures ParseRows(a + b) == ParseRows(a) + ParseRows(b)
    decreases |b|
  {
    if b == [] {
      assert a + b == a;
    } else {
      assert (a + b)[..|a + b| - 1] == a + b[..|b| - 1];
      ParseRowsAppend(a, b[..|b| - 1]);
    }
  }

  /** Every parsed entry comes from one of the lines. */
  lemma {:induction false} ParseRowsFrom(rows: seq<string>)
    ensures forall e :: e in ParseRows(rows) ==> exists k :: 0 <= k < |rows| && ParseRow(rows[k]) == Some(e)
  {
    if rows != [] {
      var init := rows[..|rows| - 1];
      ParseRowsFrom(init);
      forall e | e in ParseRows(rows)
        ensures exists k :: 0 <= k < |rows| && ParseRow(rows[k]) == Some(e)
      {
        if e in ParseRows(init) {
          var k :| 0 <= k < |init| && ParseRow(init[k]) == Some(e);
          assert rows[k] == init[k];
        } else {
          assert ParseRow(rows[|rows| - 1]) == Some(e);
        }
      }
    }
  }

  /** `parseCSV`: split into lines on "\n", drop the first line whatever it
      holds, and parse the rest. */
  function ParseCsv(text: string): seq<Entry> {
    ParseRows(DataLines(text))
  }

  /** The first line is dropped as a header and the lines after it are
      parsed. */
  lemma ParseCsvDropsHeader(header: string, body: string)
    requires '\n' !in header
    ensures ParseCsv(header + "\n" + body) == ParseRows(Split(body, '\n'))
  {
    DataLinesAfterHeader(header, body);
  }

  /** The loop of `processFile`: the entries of every "-street.csv" file,
      file after file. */
  function ParseArchive(files: seq<ZipFile>): seq<Entry> {
    if files == [] then []
    else
      var last := files[|files| - 1];
      ParseArchive(files[..|files| - 1]) + (if EndsWith(last.name, "-street.csv") then ParseCsv(last.content) else [])
  }

  /** Files with other names contribute nothing. */
  lemma {:induction false} ParseArchiveSkips(files: seq<ZipFile>, other: ZipFile)
    requires !EndsWith(other.name, "-street.csv")
    ensures ParseArchive(files + [other]) == ParseArchive(files)
  {
    assert (files + [other])[..|files|] == files;
  }

  // ---- aggregateData ----

  /** The loop that counts into a dictionary; the dictionary's keys come in
      the order they were first added, as `Object.keys` lists string keys. */
  method CountInInsertionOrder<T(==,!new)>(keys: seq<T>) returns (order: seq<T>, counts: map<T, nat>)
    ensures order == Dedup(keys)
    ensures forall x :: x in counts <==> x in keys
    ensures forall x :: x in counts ==> counts[x] == Occurrences(keys, x)
  {
    order := [];
    counts := map[];
    var i := 0;
    while i < |keys|
      invariant 0 <= i <= |keys|
      invariant counts == Tally(keys[..i])
      invariant order == Dedup(keys[..i])
    {
      var key := keys[i];
      CountStep(keys, i);
      if key !in counts {
        order := order + [key];
      }
      counts := counts[key := (if key in counts then counts[key] else 0) + 1];
      i := i + 1;
    }
    assert keys[..i] == keys;
    TallyCounts(keys);
  }

  /** One round of the counting loop: a key not counted yet is new in the
      order, and its count goes up by one. */
  lemma CountStep<T(!new)>(keys: seq<T>, i: nat)
    requires i < |keys|
    ensures keys[i] in Tally(keys[..i]) <==> keys[i] in Dedup(keys[..i])
    ensures Tally(keys[..i + 1]) == Counted1(Tally(keys[..i]), keys[i])
    ensures Dedup(keys[..i + 1]) == if keys[i] in Dedup(keys[..i]) then Dedup(keys[..i]) else Dedup(keys[..i]) + [keys[i]]
  {
    TallyCounts(keys[..i]);
    assert keys[..i + 1][..i] == keys[..i];
  }

  /** An aggregated count. */
  datatype Aggregated = Aggregated(month: string, crimeType: string, count: nat)

  /** The dictionary key `${month}-${crimeType}`. */
  function Key(e: Entry): string {
    e.month + "-" + e.crimeType
  }

  function Keys(data: seq<Entry>): (r: seq<string>)
    ensures |r| == |data|
    ensures forall k :: 0 <= k < |r| ==> '-' in r[k]
  {
    seq(|data|, k requires 0 <= k < |data| => assert Key(data[k])[|data[k].month|] == '-'; Key(data[k]))
  }

  /** `const [month, crimeType] = key.split("-")`: the first two pieces. */
  function KeyParts(key: string): (string, string)
    requires '-' in key
  {
    SplitHasTwo(key, '-');
    var pieces := Split(key, '-');
    (pieces[0], pieces[1])
  }

  /** `aggregateData` as written: one entry per distinct key in first-seen
      order, counting that key's rows, with month and type read back by
      splitting the key on every "-". */
  method AggregateData(data: seq<Entry>) returns (result: seq<Aggregated>)
    ensures var keys := Dedup(Keys(data));
      |result| == |keys| &&
      forall k :: 0 <= k < |keys| ==>
        '-' in keys[k] &&
        result[k] == Aggregated(KeyParts(keys[k]).0, KeyParts(keys[k]).1, Occurrences(Keys(data), keys[k]))
    ensures Sum(CountColumn(result)) == |data|
  {
    var order, counts := CountInInsertionOrder(Keys(data));
    assert forall k :: 0 <= k < |order| ==> order[k] in Keys(data);
    result := seq(|order|, k requires 0 <= k < |order| =>
      Aggregated(KeyParts(order[k]).0, KeyParts(order[k]).1, counts[order[k]]));
    assert CountColumn(result) == CountsOf(order, Keys(data));
    CountsOfCover(order, Keys(data));
  }

  /** The `count` of each aggregated entry, in order. */
  function CountColumn(result: seq<Aggregated>): (r: seq<nat>)
    ensures |r| == |result|
  {
    seq(|result|, k requires 0 <= k < |result| => result[k].count)
  }

  /** Reading the key back recovers month and type when neither holds a
      "-". */
  lemma KeyPartsExact(e: Entry)
    requires '-' !in e.month && '-' !in e.crimeType
    ensures KeyParts(Key(e)) == (e.month, e.crimeType)
  {
    SplitAfter(e.month, '-', e.crimeType);
    SplitNoSeparator(e.crimeType, '-');
    assert Key(e) == e.month + ['-'] + e.crimeType;
  }

  /** A month "YYYY-MM" is read back as the year, with the month number in
      place of the crime type: "2023-01" with "Burglary" comes back as "2023"
      and "01". */
  lemma KeyPartsMisread(year: string, mm: string, crimeType: string)
    requires '-' !in year && '-' !in mm
    ensures KeyParts(Key(Entry(year + "-" + mm, crimeType))) == (year, mm)
    ensures KeyParts(Key(Entry("2023-01", "Burglary"))) == ("2023", "01")
  {
    MisreadAt(year, mm, crimeType);
    MisreadAt("2023", "01", "Burglary");
    assert "2023" + "-" + "01" == "2023-01";
  }

  lemma MisreadAt(year: string, mm: string, crimeType: string)
    requires '-' !in year && '-' !in mm
    ensures KeyParts(Key(Entry(year + "-" + mm, crimeType))) == (year, mm)
  {
    var key := Key(Entry(year + "-" + mm, crimeType));
    assert key == year + ['-'] + (mm + ['-'] + crimeType);
    SplitAfter(year, '-', mm + ['-'] + crimeType);
    SplitAfter(mm, '-', crimeType);
  }

  /** The counting keyed by the (month, crime type) pair itself, which keeps
      both fields whatever they hold. */
  method AggregatePairs(data: seq<Entry>) returns (result: seq<Aggregated>)
    ensures var pairs := Dedup(data);
      |result| == |pairs| &&
      forall k :: 0 <= k < |pairs| ==>
        result[k] == Aggregated(pairs[k].month, pairs[k].crimeType, Occurrences(data, pairs[k]))
  {
    var order, counts := CountInInsertionOrder(data);
    assert forall k :: 0 <= k < |order| ==> order[k] in data;
    result := seq(|order|, k requires 0 <= k < |order| =>
      Aggregated(order[k].month, order[k].crimeType, counts[order[k]]));
  }

  /** The pair counts list each (month, type) once, and add up to the number
      of rows. */
  lemma AggregatePairsTotal(data: seq<Entry>)
    ensures Sum(CountsOf(Dedup(data), data)) == |data|
  {
    CountsOfCover(Dedup(data), data);
  }

  // ---- prepareDataForModel ----

  const SequenceLength: nat := 12

  /** `monthlyData`: month to crime type to count. */
  type Table = map<string, map<string, nat>>

  /** `monthlyData[month] = monthlyData[month] || {}` followed by
      `monthlyData[month][crimeType] = count`. */
  function Fill(table: Table, a: Aggregated): Table {
    var row := if a.month in table then table[a.month] else map[];
    table[a.month := row[a.crimeType := a.count]]
  }

  /** The table that filling in `data` in order builds. */
  function MonthlyTable(data: seq<Aggregated>): Table {
    if data == [] then map[] else Fill(MonthlyTable(data[..|data| - 1]), data[|data| - 1])
  }

  /** The count of the last entry of `data` for this month and type. */
  function LastCount(data: seq<Aggregated>, month: string, crimeType: string): Option<nat> {
    if data == [] then None
    else
      var a := data[|data| - 1];
      if a.month == month && a.crimeType == crimeType then Some(a.count)
      else LastCount(data[..|data| - 1], month, crimeType)
  }

  /** `monthlyData[month][type] || 0`. */
  function Cell(table: Table, month: string, crimeType: string): nat {
    if month in table && crimeType in table[month] then table[month][crimeType] else 0
  }

  function Months(data: seq<Aggregated>): seq<string> {
    seq(|data|, k requires 0 <= k < |data| => data[k].month)
  }

  function CrimeTypes(data: seq<Aggregated>): seq<string> {
    seq(|data|, k requires 0 <= k < |data| => data[k].crimeType)
  }

  /** Each cell of the table holds the
      count of the last entry for that month and type: a later entry
      overwrites an earlier one. */
  lemma {:induction false} MonthlyTableCells(data: seq<Aggregated>)
    ensures forall m, t :: m in MonthlyTable(data) && t in MonthlyTable(data)[m] <==> LastCount(data, m, t).Some?
    ensures forall m, t :: LastCount(data, m, t).Some? ==> MonthlyTable(data)[m][t] == LastCount(data, m, t).value
  {
    if data != [] {
      var init := data[..|data| - 1];
      MonthlyTableCells(init);
    }
  }

  lemma {:induction false} MonthlyTableMonths(data: seq<Aggregated>)
    ensures forall m :: m in MonthlyTable(data) <==> m in Months(data)
  {
    if data != [] {
      var init := data[..|data| - 1];
      MonthlyTableMonths(init);
      assert Months(data) == Months(init) + [data[|data| - 1].month];
    }
  }

  /** One month's row: a count per crime type, 0 where the month has none. */
  function Row(table: Table, month: string, crimeTypes: seq<string>): (r: seq<nat>)
    ensures |r| == |crimeTypes|
  {
    seq(|crimeTypes|, k requires 0 <= k < |crimeTypes| => Cell(table, month, crimeTypes[k]))
  }

  /** The sequence starting at month i: the rows of months i .. i+11. */
  function Window(table: Table, months: seq<string>, crimeTypes: seq<string>, i: nat): (w: seq<seq<nat>>)
    requires i + SequenceLength <= |months|
    ensures |w| == SequenceLength
  {
    seq(SequenceLength, j requires 0 <= j < SequenceLength => Row(table, months[i + j], crimeTypes))
  }

  /** What `prepareDataForModel` returns. */
  datatype Prepared = Prepared(sequences: seq<seq<seq<nat>>>, crimeTypes: seq<string>)

  /** The table filled in entry by entry. */
  method FillMonthlyData(data: seq<Aggregated>) returns (table: Table)
    ensures table == MonthlyTable(data)
  {
    table := map[];
    var i := 0;
    while i < |data|
      invariant 0 <= i <= |data|
      invariant table == MonthlyTable(data[..i])
    {
      var item := data[i];
      var row := if item.month in table then table[item.month] else map[];
      table := table[item.month := row];
      var filled: map<string, nat> := table[item.month][item.crimeType := item.count];
      table := table[item.month := filled];
      assert data[..i + 1][..i] == data[..i];
      i := i + 1;
    }
    assert data[..i] == data;
  }

  /** The inner loop: the rows of the twelve months from month i on. */
  method BuildSequence(table: Table, months: seq<string>, crimeTypes: seq<string>, i: nat) returns (sequence: seq<seq<nat>>)
    requires i + SequenceLength <= |months|
    ensures sequence == Window(table, months, crimeTypes, i)
  {
    sequence := [];
    var j := 0;
    while j < SequenceLength
      invariant 0 <= j <= SequenceLength
      invariant |sequence| == j
      invariant forall l :: 0 <= l < j ==> sequence[l] == Row(table, months[i + l], crimeTypes)
    {
      var monthData := months[i + j];
      var crimeCounts := seq(|crimeTypes|, k requires 0 <= k < |crimeTypes| => Cell(table, monthData, crimeTypes[k]));
      sequence := sequence + [crimeCounts];
      j := j + 1;
    }
  }

  /** `prepareDataForModel`: the crime types in first-seen order, the months
      in ascending order (returned alongside), and one sequence for every run
      of 12 consecutive months. */
  method PrepareDataForModel(data: seq<Aggregated>) returns (prepared: Prepared, months: seq<string>)
    ensures prepared.crimeTypes == Dedup(CrimeTypes(data))
    ensures Sorted(months) && forall m :: m in months <==> m in Months(data)
    ensures |prepared.sequences| == if |months| >= SequenceLength then |months| - SequenceLength + 1 else 0
    ensures forall i :: 0 <= i < |prepared.sequences| ==>
      i + SequenceLength <= |months| && prepared.sequences[i] == Window(MonthlyTable(data), months, prepared.crimeTypes, i)
  {
    var crimeTypes := Dedup(CrimeTypes(data));
    var monthlyData := FillMonthlyData(data);
    MonthlyTableMonths(data);
    months := SortedKeys(monthlyData);
    var sequences: seq<seq<seq<nat>>> := [];
    var i := 0;
    while i <= |months| - SequenceLength
      invariant 0 <= i
      invariant |months| >= SequenceLength ==> i <= |months| - SequenceLength + 1
      invariant |months| < SequenceLength ==> i == 0
      invariant |sequences| == i
      invariant forall k :: 0 <= k < i ==>
        k + SequenceLength <= |months| && sequences[k] == Window(monthlyData, months, crimeTypes, k)
    {
      var sequence := BuildSequence(monthlyData, months, crimeTypes, i);
      sequences := sequences + [sequence];
      i := i + 1;
    }
    prepared := Prepared(sequences, crimeTypes);
  }

  /** Sequence i, row j, type column k holds the count the data gives the
      month `months[i + j]` and that type, or 0 when it gives none. */
  lemma WindowCells(data: seq<Aggregated>, months: seq<string>, crimeTypes: seq<string>, i: nat, j: nat, k: nat)
    requires i + SequenceLength <= |months| && j < SequenceLength && k < |crimeTypes|
    ensures |Window(MonthlyTable(data), months, crimeTypes, i)[j]| == |crimeTypes|
    ensures Window(MonthlyTable(data), months, crimeTypes, i)[j][k] ==
      match LastCount(data, months[i + j], crimeTypes[k]) case None => 0 case Some(c) => c
  {
    MonthlyTableCells(data);
    var w := Window(MonthlyTable(data), months, crimeTypes, i);
    assert w[j] == Row(MonthlyTable(data), months[i + j], crimeTypes);
  }

  // ---- the sufficiency check and the training pairs ----

  /** Fewer than two sequences stop `processFile` before training. */
  datatype Insufficient = NotEnoughSequences

  /** `xs = sequences.slice(0, -1)` and `ys = sequences.slice(1)`. */
  datatype TrainingSet<T> = TrainingSet(xs: seq<T>, ys: seq<T>)

  function TrainingPairs<T>(sequences: seq<T>): (r: Result<TrainingSet<T>, Insufficient>)
    ensures r.Ok? <==> |sequences| >= 2
    ensures r.Ok? ==> |r.value.xs| == |r.value.ys| == |sequences| - 1
    ensures r.Ok? ==> forall k :: 0 <= k < |sequences| - 1 ==>
      r.value.xs[k] == sequences[k] && r.value.ys[k] == sequences[k + 1]
  {
    if |sequences| < 2 then Err(NotEnoughSequences)
    else Ok(TrainingSet(sequences[..|sequences| - 1], sequences[1..]))
  }

  /** Training goes ahead exactly when there are at least 13 months. */
  lemma TrainingNeedsThirteenMonths(monthCount: nat, sequenceCount: nat)
    requires sequenceCount == if monthCount >= SequenceLength then monthCount - SequenceLength + 1 else 0
    ensures sequenceCount >= 2 <==> monthCount >= 13
  {
  }

  // ---- makePredictions ----

  /** `sequences.slice(-12)`: the last twelve sequences, or all of them when
      there are fewer. */
  function LastSequences<T>(sequences: seq<T>): (r: seq<T>)
    ensures |r| == if |sequences| < 12 then |sequences| else 12
    ensures forall k :: 0 <= k < |r| ==> r[k] == sequences[|sequences| - |r| + k]
  {
    if |sequences| < 12 then sequences else sequences[|sequences| - 12..]
  }

  /** `{ crimeType: crimeTypes[i], prediction }`; the type is absent past the
      end of the type list. */
  datatype Prediction = Prediction(crimeType: Option<string>, prediction: real)

  function LabelPredictions(predictions: seq<real>, crimeTypes: seq<string>): (r: seq<Prediction>)
    ensures |r| == |predictions|
  {
    seq(|predictions|, k requires 0 <= k < |predictions| =>
      Prediction(if k < |crimeTypes| then Some(crimeTypes[k]) else None, predictions[k]))
  }

  /** With one prediction per crime type every type gets its prediction, in
      the order of the type list, and each type is named once. */
  lemma LabelPredictionsPerType(predictions: seq<real>, crimeTypes: seq<string>)
    requires |predictions| == |crimeTypes| && Distinct(crimeTypes)
    ensures forall k :: 0 <= k < |crimeTypes| ==>
      LabelPredictions(predictions, crimeTypes)[k] == Prediction(Some(crimeTypes[k]), predictions[k])
    ensures forall a, b :: 0 <= a < b < |predictions| ==>
      LabelPredictions(predictions, crimeTypes)[a].crimeType != LabelPredictions(predictions, crimeTypes)[b].crimeType
  {
  }
}
