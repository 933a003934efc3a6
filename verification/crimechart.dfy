/** crime-chart/script.js: the rows of every CSV file of the archive are
    filtered and counted per month and per crime type, then drawn as a total
    series and one series per type, with legend hover greying the other
    series out. */
module CrimeChart {
  import opened Wrappers
  import opened Seqs
  import opened Text
  import opened Ordering
  import opened Archive

  // ---- rows ----

  /** What a row keeps for the tooltip: `{ longitude, latitude, reportedBy: cols[2] }`. */
  datatype Detail = Detail(longitude: string, latitude: string, reportedBy: Option<string>)

  /** An accepted row. */
  datatype Row = Row(month: string, crimeType: string, detail: Detail)

  /** `cols[k]`, absent past the end. */
  function Field(cols: seq<string>, k: nat): Option<string> {
    if k < |cols| then Some(cols[k]) else None
  }

  /** The row filter: month (field 1) and crime type (field 9) present and
      non-empty, untrimmed; longitude (field 4) and latitude (field 5)
      present and numeric. `isNumber(s)` stands for `!isNaN(Number(s))`; a
      missing field is `undefined`, whose `Number` is NaN. */
  function AcceptRow(line: string, isNumber: string -> bool): (r: Option<Row>)
    ensures r.Some? ==> r.value.month != "" && r.value.crimeType != ""
  {
    var cols := Split(line, ',');
    var month, longitude, latitude, crimeType := Field(cols, 1), Field(cols, 4), Field(cols, 5), Field(cols, 9);
    if month.None? || month.value == ""
       || longitude.None? || !isNumber(longitude.value)
       || latitude.None? || !isNumber(latitude.value)
       || crimeType.None? || crimeType.value == ""
    then None
    else Some(Row(month.value, crimeType.value, Detail(longitude.value, latitude.value, Field(cols, 2))))
  }

  /** A row is accepted exactly when it has at least ten fields, fields 1 and
      9 are non-empty and fields 4 and 5 are numeric; it then carries those
      fields as they are. */
  lemma AcceptRowMeaning(line: string, isNumber: string -> bool)
    ensures var cols := Split(line, ',');
      AcceptRow(line, isNumber).Some? <==>
        |cols| >= 10 && cols[1] != "" && cols[9] != "" && isNumber(cols[4]) && isNumber(cols[5])
    ensures var cols := Split(line, ',');
      AcceptRow(line, isNumber).Some? ==>
        AcceptRow(line, isNumber).value == Row(cols[1], cols[9], Detail(cols[4], cols[5], Some(cols[2])))
  {
  }

  /** The accepted rows of some lines, in order. */
  function AcceptedLines(lines: seq<string>, isNumber: string -> bool): seq<Row> {
    if lines == [] then []
    else
      var r := AcceptRow(lines[|lines| - 1], isNumber);
      AcceptedLines(lines[..|lines| - 1], isNumber) + (if r.Some? then [r.value] else [])
  }

  /** The accepted rows of one file: none unless it is a CSV file, whose
      first line is dropped. */
  function FileRows(f: ZipFile, isNumber: string -> bool): seq<Row> {
    if IsCsv(f) then AcceptedLines(DataLines(f.content), isNumber) else []
  }

  /** The accepted rows of all files, file after file. */
  function AcceptedRows(files: seq<ZipFile>, isNumber: string -> bool): seq<Row> {
    if files == [] then []
    else AcceptedRows(files[..|files| - 1], isNumber) + FileRows(files[|files| - 1], isNumber)
  }

  // ---- the counting table ----

  datatype TypeTally = TypeTally(count: nat, details: seq<Detail>)

  datatype MonthTally = MonthTally(total: nat, types: map<string, TypeTally>)

  /** `crimeData`: month to its tally. */
  type CrimeData = map<string, MonthTally>

  /** The updates one accepted row makes. */
  function AddRow(data: CrimeData, row: Row): CrimeData {
    var mt := if row.month in data then data[row.month] else MonthTally(0, map[]);
    var tt := if row.crimeType in mt.types then mt.types[row.crimeType] else TypeTally(0, []);
    data[row.month := MonthTally(mt.total + 1, mt.types[row.crimeType := TypeTally(tt.count + 1, tt.details + [row.detail])])]
  }

  /** The table after counting `rows` in order. */
  function Tabulate(rows: seq<Row>): CrimeData {
    if rows == [] then map[] else AddRow(Tabulate(rows[..|rows| - 1]), rows[|rows| - 1])
  }

  function TypesOf(rows: seq<Row>): (r: seq<string>)
    ensures |r| == |rows|
  {
    seq(|rows|, k requires 0 <= k < |rows| => rows[k].crimeType)
  }

  function MonthsOf(rows: seq<Row>): (r: seq<string>)
    ensures |r| == |rows|
  {
    seq(|rows|, k requires 0 <= k < |rows| => rows[k].month)
  }

  /** The crime types of the rows of one month, in order. */
  function TypesInMonth(rows: seq<Row>, month: string): seq<string> {
    if rows == [] then []
    else
      var last := rows[|rows| - 1];
      TypesInMonth(rows[..|rows| - 1], month) + (if last.month == month then [last.crimeType] else [])
  }

  lemma {:induction false} TypesInMonthWithin(rows: seq<Row>, month: string)
    ensures forall t :: t in TypesInMonth(rows, month) ==> t in TypesOf(rows)
    ensures TypesInMonth(rows, month) != [] <==> month in MonthsOf(rows)
  {
    if rows != [] {
      var init := rows[..|rows| - 1];
      TypesInMonthWithin(init, month);
      assert TypesOf(rows) == TypesOf(init) + [rows[|rows| - 1].crimeType];
      assert MonthsOf(rows) == MonthsOf(init) + [rows[|rows| - 1].month];
    }
  }

  /** What the table holds: a tally for exactly the months of the rows; a
      month's total is its number of rows; a type's count is the number of
      that month's rows of that type, with one detail per row. */
  ghost predicate TallyOf(data: CrimeData, rows: seq<Row>) {
    && (forall m :: m in data <==> m in MonthsOf(rows))
    && (forall m :: m in data ==> data[m].total == |TypesInMonth(rows, m)|)
    && (forall m, t :: m in data ==> (t in data[m].types <==> t in TypesInMonth(rows, m)))
    && (forall m, t :: m in data && t in data[m].types ==>
          data[m].types[t].count == Occurrences(TypesInMonth(rows, m), t)
          && |data[m].types[t].details| == data[m].types[t].count)
  }

  /** One more row keeps the table equal to the tally of the rows so far. */
  lemma AddRowStep(data: CrimeData, rows: seq<Row>, row: Row)
    requires TallyOf(data, rows)
    ensures TallyOf(AddRow(data, row), rows + [row])
  {
    var rows' := rows + [row];
    assert rows'[..|rows'| - 1] == rows;
    assert MonthsOf(rows') == MonthsOf(rows) + [row.month];
    var next := AddRow(data, row);
    forall m | m in next
      ensures next[m].total == |TypesInMonth(rows', m)|
      ensures forall t :: t in next[m].types <==> t in TypesInMonth(rows', m)
      ensures forall t :: t in next[m].types ==>
        next[m].types[t].count == Occurrences(TypesInMonth(rows', m), t)
        && |next[m].types[t].details| == next[m].types[t].count
    {
      var before := TypesInMonth(rows, m);
      TypesInMonthWithin(rows, m);
      if m == row.month {
        assert TypesInMonth(rows', m) == before + [row.crimeType];
        forall t | t in next[m].types
          ensures next[m].types[t].count == Occurrences(before + [row.crimeType], t)
        {
          OccurrencesAppend(before, [row.crimeType], t);
          assert [row.crimeType][..0] == [];
          OccurrencesPositive(before, t);
        }
      } else {
        assert TypesInMonth(rows', m) == before;
      }
    }
  }

  lemma {:induction false} TabulateTally(rows: seq<Row>)
    ensures TallyOf(Tabulate(rows), rows)
  {
    if rows != [] {
      var init := rows[..|rows| - 1];
      TabulateTally(init);
      AddRowStep(Tabulate(init), init, rows[|rows| - 1]);
      assert init + [rows[|rows| - 1]] == rows;
    }
  }

  /** For every month the total equals the sum of the type counts over all
      crime types (a type missing from the month counting 0). */
  lemma TotalIsSumOfTypes(rows: seq<Row>, month: string)
    requires month in Tabulate(rows)
    ensures Tabulate(rows)[month].total == Sum(CountsOf(Dedup(TypesOf(rows)), TypesInMonth(rows, month)))
  {
    TabulateTally(rows);
    TypesInMonthWithin(rows, month);
    CountsOfCover(Dedup(TypesOf(rows)), TypesInMonth(rows, month));
  }

  // ---- handleFileUpload ----

  /** Counting one more row extends the table and the type list as
      `Tabulate` and `Dedup` say. */
  lemma AppendRow(done: seq<Row>, row: Row)
    ensures Tabulate(done + [row]) == AddRow(Tabulate(done), row)
    ensures Dedup(TypesOf(done + [row])) ==
      if row.crimeType in Dedup(TypesOf(done)) then Dedup(TypesOf(done)) else Dedup(TypesOf(done)) + [row.crimeType]
  {
    assert (done + [row])[..|done|] == done;
    assert TypesOf(done + [row])[..|done|] == TypesOf(done);
  }

  /** The inner loop over the lines of one CSV file. */
  method CountLines(crimeData: CrimeData, crimeTypes: seq<string>, lines: seq<string>, isNumber: string -> bool, ghost done: seq<Row>)
    returns (data: CrimeData, types: seq<string>)
    requires crimeData == Tabulate(done) && crimeTypes == Dedup(TypesOf(done))
    ensures data == Tabulate(done + AcceptedLines(lines, isNumber))
    ensures types == Dedup(TypesOf(done + AcceptedLines(lines, isNumber)))
  {
    data, types := crimeData, crimeTypes;
    var j := 0;
    assert done + AcceptedLines(lines[..0], isNumber) == done;
    while j < |lines|
      invariant 0 <= j <= |lines|
      invariant data == Tabulate(done + AcceptedLines(lines[..j], isNumber))
      invariant types == Dedup(TypesOf(done + AcceptedLines(lines[..j], isNumber)))
    {
      ghost var sofar := done + AcceptedLines(lines[..j], isNumber);
      assert lines[..j + 1][..j] == lines[..j];
      var accepted := AcceptRow(lines[j], isNumber);
      if accepted.Some? {
        var row := accepted.value;
        data := CountRow(data, row);
        if row.crimeType !in types {
          types := types + [row.crimeType];
        }
        AppendRow(sofar, row);
        assert done + AcceptedLines(lines[..j + 1], isNumber) == sofar + [row];
      } else {
        assert done + AcceptedLines(lines[..j + 1], isNumber) == sofar;
      }
      j := j + 1;
    }
    assert lines[..j] == lines;
  }

  /** The loops of `handleFileUpload`: every accepted row of every CSV file
      counted into `crimeData`, and its type added to the `crimeTypes` set
      (listed in the order of first addition). */
  method HandleFileUpload(files: seq<ZipFile>, isNumber: string -> bool) returns (crimeData: CrimeData, crimeTypes: seq<string>)
    ensures crimeData == Tabulate(AcceptedRows(files, isNumber))
    ensures crimeTypes == Dedup(TypesOf(AcceptedRows(files, isNumber)))
  {
    crimeData := map[];
    crimeTypes := [];
    var f := 0;
    while f < |files|
      invariant 0 <= f <= |files|
      invariant crimeData == Tabulate(AcceptedRows(files[..f], isNumber))
      invariant crimeTypes == Dedup(TypesOf(AcceptedRows(files[..f], isNumber)))
    {
      ghost var done := AcceptedRows(files[..f], isNumber);
      assert files[..f + 1][..f] == files[..f];
      assert AcceptedRows(files[..f + 1], isNumber) == done + FileRows(files[f], isNumber);
      if IsCsv(files[f]) {
        crimeData, crimeTypes := CountLines(crimeData, crimeTypes, DataLines(files[f].content), isNumber, done);
      } else {
        assert done + FileRows(files[f], isNumber) == done;
      }
      f := f + 1;
    }
    assert files[..f] == files;
  }

  /** The updates of one accepted row, step by step as the script makes them. */
  method CountRow(crimeData: CrimeData, row: Row) returns (data: CrimeData)
    ensures data == AddRow(crimeData, row)
  {
    ghost var mt := if row.month in crimeData then crimeData[row.month] else MonthTally(0, map[]);
    ghost var tt0 := if row.crimeType in mt.types then mt.types[row.crimeType] else TypeTally(0, []);
    data := crimeData;
    var month, crimeType := row.month, row.crimeType;
    if month !in data {
      data := data[month := MonthTally(0, map[])];
    }
    assert data[month] == mt;
    data := data[month := data[month].(total := data[month].total + 1)];
    if crimeType !in data[month].types {
      data := data[month := data[month].(types := data[month].types[crimeType := TypeTally(0, [])])];
    }
    assert data[month] == MonthTally(mt.total + 1, mt.types[crimeType := tt0]);
    var tt := data[month].types[crimeType];
    tt := tt.(count := tt.count + 1);
    tt := tt.(details := tt.details + [row.detail]);
    assert data == crimeData[month := data[month]];
    data := data[month := data[month].(types := data[month].types[crimeType := tt])];
    assert data[month] == AddRow(crimeData, row)[month];
  }

  // ---- renderChart ----

  /** The twelve series colours, used by type index modulo 12. */
  const Colors: seq<string> := [
    "#FF6384", "#36A2EB", "#FFCE56", "#4BC0C0", "#9966FF", "#FF9F40",
    "#FFCD56", "#36A2EB", "#4BC0C0", "#FF6384", "#FFCE56", "#9966FF"]

  const GreyColor: string := "lightgrey"

  const TotalColor: string := "blue"

  /** A chart series: its label, values and colours. */
  datatype Dataset = Dataset(name: string, data: seq<nat>, borderColor: string, backgroundColor: string, originalColor: string)

  /** `labels.map(month => crimeData[month].total)`. */
  function Totals(crimeData: CrimeData, labels: seq<string>): (r: seq<nat>)
    requires forall k :: 0 <= k < |labels| ==> labels[k] in crimeData
    ensures |r| == |labels|
  {
    seq(|labels|, k requires 0 <= k < |labels| => crimeData[labels[k]].total)
  }

  /** `crimeData[month].types[type]?.count || 0`. */
  function CountOf(crimeData: CrimeData, month: string, crimeType: string): nat
    requires month in crimeData
  {
    var types := crimeData[month].types;
    if crimeType in types then types[crimeType].count else 0
  }

  /** One crime type's count for each month of `labels`. */
  function TypeSeries(crimeData: CrimeData, labels: seq<string>, crimeType: string): (r: seq<nat>)
    requires forall k :: 0 <= k < |labels| ==> labels[k] in crimeData
    ensures |r| == |labels|
  {
    seq(|labels|, k requires 0 <= k < |labels| => CountOf(crimeData, labels[k], crimeType))
  }

  /** The counts of each of `crimeTypes` in one month. */
  function MonthColumn(crimeData: CrimeData, month: string, crimeTypes: seq<string>): seq<nat>
    requires month in crimeData
  {
    seq(|crimeTypes|, i requires 0 <= i < |crimeTypes| => CountOf(crimeData, month, crimeTypes[i]))
  }

  /** The colour of type `index`'s series. */
  function ColorOf(index: nat): string {
    Colors[index % |Colors|]
  }

  /** Every series is drawn in its own original colour. */
  predicate InitialColouring(datasets: seq<Dataset>) {
    forall i :: 0 <= i < |datasets| ==>
      datasets[i].borderColor == datasets[i].originalColor && datasets[i].backgroundColor == datasets[i].originalColor
  }

  /** `renderChart`: the sorted months as labels, the total series in blue,
      then one series per crime type, pushed in the order of the type list,
      coloured by its index modulo 12. */
  method RenderChart(crimeData: CrimeData, crimeTypes: seq<string>) returns (labels: seq<string>, datasets: seq<Dataset>)
    ensures Sorted(labels) && forall m :: m in labels <==> m in crimeData
    ensures |datasets| == 1 + |crimeTypes|
    ensures datasets[0] == Dataset("Total Crimes", Totals(crimeData, labels), TotalColor, TotalColor, TotalColor)
    ensures forall i :: 0 <= i < |crimeTypes| ==>
      datasets[i + 1] == Dataset(crimeTypes[i], TypeSeries(crimeData, labels, crimeTypes[i]), ColorOf(i), ColorOf(i), ColorOf(i))
    ensures InitialColouring(datasets)
  {
    labels := SortedKeys(crimeData);
    assert forall k :: 0 <= k < |labels| ==> labels[k] in labels;
    var totalCrimes := Totals(crimeData, labels);
    datasets := [Dataset("Total Crimes", totalCrimes, TotalColor, TotalColor, TotalColor)];
    var index := 0;
    while index < |crimeTypes|
      invariant 0 <= index <= |crimeTypes|
      invariant |datasets| == 1 + index
      invariant datasets[0] == Dataset("Total Crimes", totalCrimes, TotalColor, TotalColor, TotalColor)
      invariant forall i :: 0 <= i < index ==>
        datasets[i + 1] == Dataset(crimeTypes[i], TypeSeries(crimeData, labels, crimeTypes[i]), ColorOf(i), ColorOf(i), ColorOf(i))
      invariant InitialColouring(datasets)
    {
      var typeData := TypeSeries(crimeData, labels, crimeTypes[index]);
      var color := Colors[index % |Colors|];
      datasets := datasets + [Dataset(crimeTypes[index], typeData, color, color, color)];
      index := index + 1;
    }
  }

  /** Drawn from the uploaded rows, a type's count in a month is the
      number of that month's rows of the type, 0 when there are none. */
  lemma CountOfOccurrences(rows: seq<Row>, month: string, crimeType: string)
    requires month in Tabulate(rows)
    ensures CountOf(Tabulate(rows), month, crimeType) == Occurrences(TypesInMonth(rows, month), crimeType)
  {
    TabulateTally(rows);
    OccurrencesPositive(TypesInMonth(rows, month), crimeType);
  }

  /** Drawn from the uploaded rows, the total series is at every month the
      sum of the per-type series over all crime types. */
  lemma TotalSeriesIsSumOfTypeSeries(rows: seq<Row>, labels: seq<string>, k: nat)
    requires forall m :: m in labels <==> m in Tabulate(rows)
    requires k < |labels|
    ensures labels[k] in Tabulate(rows)
    ensures Totals(Tabulate(rows), labels)[k] == Sum(MonthColumn(Tabulate(rows), labels[k], Dedup(TypesOf(rows))))
  {
    assert labels[k] in labels;
    var month, types := labels[k], Dedup(TypesOf(rows));
    forall i | 0 <= i < |types|
      ensures MonthColumn(Tabulate(rows), month, types)[i] == CountsOf(types, TypesInMonth(rows, month))[i]
    {
      CountOfOccurrences(rows, month, types[i]);
    }
    assert MonthColumn(Tabulate(rows), month, types) == CountsOf(types, TypesInMonth(rows, month));
    TotalIsSumOfTypes(rows, month);
  }

  // ---- legend hover ----

  /** `onHover` on the legend item of series `hovered`: every other series
      greyed, the hovered one unchanged. */
  function Greyed(datasets: seq<Dataset>, hovered: int): (r: seq<Dataset>)
    ensures |r| == |datasets|
  {
    seq(|datasets|, i requires 0 <= i < |datasets| =>
      if i != hovered then datasets[i].(borderColor := GreyColor, backgroundColor := GreyColor) else datasets[i])
  }

  /** `onLeave`: every series back in its original colour. */
  function Restored(datasets: seq<Dataset>): (r: seq<Dataset>)
    ensures |r| == |datasets|
  {
    seq(|datasets|, i requires 0 <= i < |datasets| =>
      datasets[i].(borderColor := datasets[i].originalColor, backgroundColor := datasets[i].originalColor))
  }

  /** Two lists of series that differ at most in their drawn colours. */
  predicate SameSeries(a: seq<Dataset>, b: seq<Dataset>) {
    |a| == |b| &&
    forall i :: 0 <= i < |a| ==> a[i].name == b[i].name && a[i].data == b[i].data && a[i].originalColor == b[i].originalColor
  }

  /** Hovering changes colours only: the hovered series is untouched, every
      other one is grey, and labels, values and original colours stay. */
  lemma GreyedMeaning(datasets: seq<Dataset>, hovered: int)
    ensures SameSeries(Greyed(datasets, hovered), datasets)
    ensures 0 <= hovered < |datasets| ==> Greyed(datasets, hovered)[hovered] == datasets[hovered]
    ensures forall i :: 0 <= i < |datasets| && i != hovered ==>
      Greyed(datasets, hovered)[i].borderColor == GreyColor && Greyed(datasets, hovered)[i].backgroundColor == GreyColor
  {
  }

  /** Restoring depends only on the series, not on the colours drawn: after
      any hovering it gives the same as restoring the original, restoring
      twice is restoring once, and it leaves an initial colouring as it is. */
  lemma RestoredMeaning(a: seq<Dataset>, b: seq<Dataset>)
    requires SameSeries(a, b)
    ensures Restored(a) == Restored(b)
    ensures Restored(Restored(a)) == Restored(a)
    ensures InitialColouring(Restored(a))
    ensures InitialColouring(a) ==> Restored(a) == a
  {
  }

  datatype LegendEvent = Hover(datasetIndex: int) | Leave

  /** The series after a run of legend events. */
  function Apply(datasets: seq<Dataset>, events: seq<LegendEvent>): seq<Dataset> {
    if events == [] then datasets
    else
      var before := Apply(datasets, events[..|events| - 1]);
      match events[|events| - 1]
      case Hover(i) => Greyed(before, i)
      case Leave => Restored(before)
  }

  lemma {:induction false} ApplySameSeries(datasets: seq<Dataset>, events: seq<LegendEvent>)
    ensures SameSeries(Apply(datasets, events), datasets)
  {
    if events != [] {
      ApplySameSeries(datasets, events[..|events| - 1]);
      GreyedMeaning(Apply(datasets, events[..|events| - 1]), 0);
    }
  }

  /** Whatever hovering came before, leaving the legend brings back exactly
      the colouring the chart was drawn with. */
  lemma LeaveRestoresInitial(datasets: seq<Dataset>, events: seq<LegendEvent>)
    requires InitialColouring(datasets)
    requires events != [] && events[|events| - 1] == Leave
    ensures Apply(datasets, events) == datasets
  {
    ApplySameSeries(datasets, events[..|events| - 1]);
    RestoredMeaning(Apply(datasets, events[..|events| - 1]), datasets);
  }

  /** The chart's legend and the series it colours. */
  class Legend {
    var datasets: seq<Dataset>

    constructor (datasets: seq<Dataset>)
      ensures this.datasets == datasets
    {
      this.datasets := datasets;
    }

    /** `onHover`: grey every series but the hovered one, in place. */
    method OnHover(hovered: int)
      modifies this
      ensures datasets == Greyed(old(datasets), hovered)
    {
      var index := 0;
      while index < |datasets|
        invariant 0 <= index <= |datasets|
        invariant |datasets| == |old(datasets)|
        invariant forall i :: 0 <= i < index ==> datasets[i] == Greyed(old(datasets), hovered)[i]
        invariant forall i :: index <= i < |datasets| ==> datasets[i] == old(datasets)[i]
      {
        if index != hovered {
          datasets := datasets[index := datasets[index].(borderColor := GreyColor, backgroundColor := GreyColor)];
        }
        index := index + 1;
      }
    }

    /** `onLeave`: every series back in its original colour, in place. */
    method OnLeave()
      modifies this
      ensures datasets == Restored(old(datasets))
    {
      var index := 0;
      while index < |datasets|
        invariant 0 <= index <= |datasets|
        invariant |datasets| == |old(datasets)|
        invariant forall i :: 0 <= i < index ==> datasets[i] == Restored(old(datasets))[i]
        invariant forall i :: index <= i < |datasets| ==> datasets[i] == old(datasets)[i]
      {
        var original := datasets[index].originalColor;
        datasets := datasets[index := datasets[index].(borderColor := original, backgroundColor := original)];
        index := index + 1;
      }
    }
  }
}
