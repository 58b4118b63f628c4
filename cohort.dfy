/** run_flexible_cohort_analysis: tag each source table with its name, concatenate the
    tables, sort the rows by (Acquisition Week, OS), number the acquisition dates
    globally as "Week 1", "Week 2", ..., keep a fixed allow-list of columns, and melt the
    checkpoint columns Week 8 ... Week 40 into long records for the box-plot chart. */
module CohortAnalysis {
  import opened Frame
  import opened Ordering
  import opened WeekIndex

  const AcquisitionWeek := "Acquisition Week"
  const OS := "OS"
  const WeekNumber := "Week Number"

  /** The checkpoint columns, in chart order. */
  const WeeksOfInterest: seq<string> :=
    ["Week 8", "Week 12", "Week 16", "Week 20", "Week 24", "Week 28", "Week 32", "Week 36", "Week 40"]

  /** The allow-list of the projection, in output order. */
  const TargetColumns: seq<string> :=
    [AcquisitionWeek, WeekNumber, OS,
     "Total Subscriptions", "Total Unsubscriptions", "Subs Remaining",
     "Payout Total (€)", "Total Gross (€)", "Margin"] + WeeksOfInterest

  const CohortPeriod := "Cohort_Period"
  const ValueColumn := "Value (€)"
  const EmptyInputMessage := "Error: No dataframes provided."

  datatype Option<T> = None | Some(value: T)

  /** One entry of the input dictionary, in the dictionary's iteration order. */
  datatype Source = Source(name: string, frame: Table)

  /** What a call ends with: the error string returned for an empty dictionary, the
      KeyError that sorting raises when no table has an Acquisition Week column, or the
      projected table. */
  datatype Outcome = ErrorText(text: string) | KeyError(key: string) | Returned(final: Table)

  // ---------------------------------------------------------------------------
  // Step 1: tagging

  /** A copy of `t` whose every row has `OS` set to `name`, overwriting any `OS` value
      the table already had. */
  function Tag(t: Table, name: string): (r: Table)
    ensures r.columns == WithColumn(t.columns, OS) && |r.rows| == |t.rows|
    ensures forall i :: 0 <= i < |r.rows| ==>
              OS in r.rows[i] && r.rows[i][OS] == Str(name) && r.rows[i] - {OS} == t.rows[i] - {OS}
    ensures WellFormed(t) ==> WellFormed(r)
  {
    Assign(t, OS, seq(|t.rows|, _ => Str(name)))
  }

  /** The loop over the dictionary: one tagged copy per entry, in iteration order. */
  method TagSources(sources: seq<Source>) returns (processed: seq<Table>)
    ensures |processed| == |sources|
    ensures forall k :: 0 <= k < |sources| ==> processed[k] == Tag(sources[k].frame, sources[k].name)
  {
    processed := [];
    for k := 0 to |sources|
      invariant |processed| == k
      invariant forall j :: 0 <= j < k ==> processed[j] == Tag(sources[j].frame, sources[j].name)
    {
      var temp := sources[k].frame;  // tables are values: this is the copy
      temp := Tag(temp, sources[k].name);
      processed := processed + [temp];
    }
  }

  ghost function Frames(sources: seq<Source>): seq<Table> {
    seq(|sources|, k requires 0 <= k < |sources| => sources[k].frame)
  }

  ghost function SourceColumns(sources: seq<Source>): set<string> {
    set k, c | 0 <= k < |sources| && c in sources[k].frame.columns :: c
  }

  ghost function Tagged(sources: seq<Source>): seq<Table> {
    seq(|sources|, k requires 0 <= k < |sources| => Tag(sources[k].frame, sources[k].name))
  }

  /** The tagged tables concatenated: the table the pipeline goes on to sort. */
  ghost function Combined(sources: seq<Source>): Table {
    Concat(Tagged(sources))
  }

  ghost predicate AllWellFormed(sources: seq<Source>) {
    forall k :: 0 <= k < |sources| ==> WellFormed(sources[k].frame)
  }

  /** What the model asks of the input: well-formed tables and, whenever some table has
      the Acquisition Week column, a date in every row. */
  ghost predicate ValidInput(sources: seq<Source>) {
    AllWellFormed(sources) &&
    (AcquisitionWeek in SourceColumns(sources) ==>
       forall k :: 0 <= k < |sources| ==> AllDated(sources[k].frame.rows))
  }

  // ---------------------------------------------------------------------------
  // Rows, dates and the sort key

  predicate Dated(r: Row) {
    AcquisitionWeek in r && r[AcquisitionWeek].Date?
  }

  function DateOf(r: Row): int
    requires Dated(r)
  {
    r[AcquisitionWeek].day
  }

  predicate AllDated(rows: seq<Row>) {
    forall i :: 0 <= i < |rows| ==> Dated(rows[i])
  }

  /** The Acquisition Week column as a list of dates. */
  function DatesOf(rows: seq<Row>): (ds: seq<int>)
    requires AllDated(rows)
    ensures |ds| == |rows| && forall i :: 0 <= i < |rows| ==> ds[i] == DateOf(rows[i])
  {
    seq(|rows|, i requires 0 <= i < |rows| => DateOf(rows[i]))
  }

  predicate Keyed(r: Row) {
    Dated(r) && OS in r && r[OS].Str?
  }

  predicate AllKeyed(rows: seq<Row>) {
    forall i :: 0 <= i < |rows| ==> Keyed(rows[i])
  }

  /** The sort order of the combined table: by acquisition date, then by source label. */
  predicate KeyLe(a: Row, b: Row)
    requires Keyed(a) && Keyed(b)
  {
    DateOf(a) < DateOf(b) || (DateOf(a) == DateOf(b) && StrLe(a[OS].text, b[OS].text))
  }

  lemma KeyLeTotal(a: Row, b: Row)
    requires Keyed(a) && Keyed(b)
    ensures KeyLe(a, b) || KeyLe(b, a)
  {
    StrLeTotal(a[OS].text, b[OS].text);
  }

  lemma KeyLeTransitive(a: Row, b: Row, c: Row)
    requires Keyed(a) && Keyed(b) && Keyed(c)
    requires KeyLe(a, b) && KeyLe(b, c)
    ensures KeyLe(a, c)
  {
    if DateOf(a) == DateOf(b) == DateOf(c) {
      StrLeTransitive(a[OS].text, b[OS].text, c[OS].text);
    }
  }

  ghost predicate SortedByKey(rows: seq<Row>) {
    AllKeyed(rows) && forall i, j :: 0 <= i < j < |rows| ==> KeyLe(rows[i], rows[j])
  }

  // ---------------------------------------------------------------------------
  // Step 3: sorting

  /** A row at or below `x` and every row of `s` is at or below every row of any
      arrangement of `s` and `x`. */
  lemma LowerBoundKept(y: Row, x: Row, s: seq<Row>, rest: seq<Row>)
    requires Keyed(y) && Keyed(x) && AllKeyed(s) && AllKeyed(rest)
    requires KeyLe(y, x) && forall j :: 0 <= j < |s| ==> KeyLe(y, s[j])
    requires multiset(rest) == multiset(s) + multiset{x}
    ensures forall j :: 0 <= j < |rest| ==> KeyLe(y, rest[j])
  {
    forall j | 0 <= j < |rest| ensures KeyLe(y, rest[j]) {
      assert rest[j] in multiset(rest);
      if rest[j] != x {
        assert rest[j] in multiset(s);
        var m :| 0 <= m < |s| && s[m] == rest[j];
      }
    }
  }

  /** A row at or below the head of a sorted list is at or below all of it. */
  lemma BelowHead(x: Row, s: seq<Row>)
    requires Keyed(x) && SortedByKey(s) && s != [] && KeyLe(x, s[0])
    ensures forall j :: 0 <= j < |s| ==> KeyLe(x, s[j])
  {
    forall j | 0 < j < |s| ensures KeyLe(x, s[j]) {
      KeyLeTransitive(x, s[0], s[j]);
    }
  }

  /** A row at or below every row of a sorted list can go in front of it. */
  lemma ConsSorted(x: Row, s: seq<Row>)
    requires Keyed(x) && SortedByKey(s)
    requires forall j :: 0 <= j < |s| ==> KeyLe(x, s[j])
    ensures SortedByKey([x] + s)
  {
    var r := [x] + s;
    forall i, j | 0 <= i < j < |r| ensures KeyLe(r[i], r[j]) {
      if i > 0 {
        assert r[i] == s[i - 1] && r[j] == s[j - 1];
      }
    }
  }

  /** Puts `x` into the sorted `s`, after every row whose key is not above its own. */
  function InsertByKey(x: Row, s: seq<Row>): (r: seq<Row>)
    requires Keyed(x) && SortedByKey(s)
    ensures SortedByKey(r)
    ensures multiset(r) == multiset(s) + multiset{x}
  {
    if s == [] then [x]
    else if KeyLe(s[0], x) then
      var rest := InsertByKey(x, s[1..]);
      assert s == [s[0]] + s[1..];
      LowerBoundKept(s[0], x, s[1..], rest);
      ConsSorted(s[0], rest);
      [s[0]] + rest
    else
      KeyLeTotal(x, s[0]);
      BelowHead(x, s);
      ConsSorted(x, s);
      [x] + s
  }

  /** Sorting the combined table: the same rows, ordered by date and
      then by source label. */
  function SortByKey(rows: seq<Row>): (r: seq<Row>)
    requires AllKeyed(rows)
    ensures SortedByKey(r)
    ensures multiset(r) == multiset(rows)
  {
    if rows == [] then []
    else
      var n := |rows| - 1;
      assert rows == rows[..n] + [rows[n]];
      InsertByKey(rows[n], SortByKey(rows[..n]))
  }

  // ---------------------------------------------------------------------------
  // Step 2: the combined table

  /** The concatenation has one row per input row. */
  lemma CombinedSize(sources: seq<Source>)
    ensures |Combined(sources).rows| == TotalRows(Frames(sources))
  {
    TotalRowsSameShape(Tagged(sources), Frames(sources));
  }

  lemma TaggedColumn(sources: seq<Source>, k: nat, c: string)
    requires k < |sources|
    ensures c in Tagged(sources)[k].columns <==> c == OS || c in sources[k].frame.columns
  {
    assert c in Tagged(sources)[k].columns <==> c in Elems(Tagged(sources)[k].columns);
    assert c in sources[k].frame.columns <==> c in Elems(sources[k].frame.columns);
  }

  /** The combined columns are the union of the input columns, plus OS when there is
      at least one input. */
  lemma CombinedColumns(sources: seq<Source>, c: string)
    ensures c in Combined(sources).columns <==> (c == OS && |sources| > 0) || c in SourceColumns(sources)
  {
    var ts := Tagged(sources);
    UnionColumnsMember(ts, c);
    if c in Combined(sources).columns {
      var k :| 0 <= k < |ts| && c in ts[k].columns;
      TaggedColumn(sources, k, c);
    }
    if c == OS && |sources| > 0 {
      TaggedColumn(sources, 0, c);
    }
    if c in SourceColumns(sources) {
      var k :| 0 <= k < |sources| && c in sources[k].frame.columns;
      TaggedColumn(sources, k, c);
    }
  }

  /** Every combined row comes from one row of one input table: its OS cell is that
      table's dictionary key whatever the table held there, and each of its other cells
      is that row's cell, or missing where the table lacks the column. */
  lemma CombinedRowOrigin(sources: seq<Source>, j: nat) returns (k: nat, i: nat)
    requires AllWellFormed(sources)
    requires j < |Combined(sources).rows|
    ensures k < |sources| && i < |sources[k].frame.rows|
    ensures var r := Combined(sources).rows[j];
            && OS in r && r[OS] == Str(sources[k].name)
            && forall c :: c in Combined(sources).columns && c != OS ==>
                 c in r && r[c] == (if c in sources[k].frame.columns then sources[k].frame.rows[i][c] else Missing)
  {
    var ts := Tagged(sources);
    var cols := UnionColumns(ts);
    k, i := ConcatOrigin(ts, j);
    ConcatBlock(ts, cols, k, i);
    var src := sources[k].frame.rows[i];
    var tagged := ts[k].rows[i];
    assert tagged[OS] == Str(sources[k].name);
    assert tagged - {OS} == src - {OS};
    CombinedColumns(sources, OS);
    forall c | c in cols && c != OS
      ensures Cell(tagged, c) == (if c in sources[k].frame.columns then src[c] else Missing)
    {
      assert c in tagged <==> c in tagged - {OS};
      assert c in src <==> c in src - {OS};
      assert src.Keys == Elems(sources[k].frame.columns);
      if c in tagged {
        assert tagged[c] == (tagged - {OS})[c];
        assert src[c] == (src - {OS})[c];
      }
    }
  }

  /** Given dated input rows, every combined row carries a date and a label. */
  lemma CombinedKeyed(sources: seq<Source>)
    requires ValidInput(sources) && AcquisitionWeek in SourceColumns(sources)
    ensures AllKeyed(Combined(sources).rows)
  {
    var t := Combined(sources);
    forall j | 0 <= j < |t.rows| ensures Keyed(t.rows[j]) {
      var k, i := CombinedRowOrigin(sources, j);
      var src := sources[k].frame.rows[i];
      assert Dated(src);
      assert AcquisitionWeek in Elems(sources[k].frame.columns);
      CombinedColumns(sources, AcquisitionWeek);
    }
  }

  // ---------------------------------------------------------------------------
  // Step 4: week numbers

  /** The week map's label for the row's date; mapping gives a missing value for a date
      the map lacks. */
  function WeekCell(r: Row, weekOf: map<int, string>): Value {
    if Dated(r) && DateOf(r) in weekOf then Str(weekOf[DateOf(r)]) else Missing
  }

  /** Writing the Week Number column from the week map: each row gets its date's
      label, so rows with the same date get the same Week Number whatever their OS. */
  method AssignWeekNumbers(t: Table, weekOf: map<int, string>) returns (r: Table)
    ensures r.columns == WithColumn(t.columns, WeekNumber) && |r.rows| == |t.rows|
    ensures forall i :: 0 <= i < |r.rows| ==> r.rows[i] == t.rows[i][WeekNumber := WeekCell(t.rows[i], weekOf)]
    ensures forall i, j ::
              0 <= i < |r.rows| && 0 <= j < |r.rows| && Dated(t.rows[i]) && Dated(t.rows[j]) &&
              DateOf(t.rows[i]) == DateOf(t.rows[j])
              ==> r.rows[i][WeekNumber] == r.rows[j][WeekNumber]
  {
    var rows := t.rows;
    var i := 0;
    while i < |rows|
      invariant 0 <= i <= |rows| == |t.rows|
      invariant forall k :: 0 <= k < i ==> rows[k] == t.rows[k][WeekNumber := WeekCell(t.rows[k], weekOf)]
      invariant forall k :: i <= k < |rows| ==> rows[k] == t.rows[k]
    {
      rows := rows[i := rows[i][WeekNumber := WeekCell(rows[i], weekOf)]];
      i := i + 1;
    }
    r := Table(WithColumn(t.columns, WeekNumber), rows);
  }

  // ---------------------------------------------------------------------------
  // Step 5: the projection

  lemma TargetColumnsDistinct()
    ensures Distinct(TargetColumns)
  {
  }

  /** The projection's columns: the allow-list entries present in the table, in allow-list order;
      Acquisition Week, Week Number and OS lead whenever they are present, and no
      column outside the allow-list survives. */
  lemma FinalColumns(present: set<string>)
    ensures forall c :: c in Filter(TargetColumns, present) <==> c in TargetColumns && c in present
    ensures Distinct(Filter(TargetColumns, present))
    ensures AcquisitionWeek in present && WeekNumber in present && OS in present ==>
              |Filter(TargetColumns, present)| >= 3 && Filter(TargetColumns, present)[0] == AcquisitionWeek &&
              Filter(TargetColumns, present)[1] == WeekNumber && Filter(TargetColumns, present)[2] == OS
  {
    TargetColumnsDistinct();
    FilterMembers(TargetColumns, present);
    var t := TargetColumns;
    if AcquisitionWeek in present && WeekNumber in present && OS in present {
      assert t[0] == AcquisitionWeek && t[1] == WeekNumber && t[2] == OS;
      assert Filter(t, present) == [t[0]] + Filter(t[1..], present);
      assert Filter(t[1..], present) == [t[1]] + Filter(t[2..], present);
      assert Filter(t[2..], present) == [t[2]] + Filter(t[3..], present);
    }
  }

  // ---------------------------------------------------------------------------
  // The specification of the finished rows

  /** The row the pipeline outputs for combined row `r`, given the set `ds` of all
      acquisition dates and the output columns. */
  ghost function Finalized(r: Row, ds: set<int>, cols: seq<string>): Row {
    var week := if Dated(r) then Str(WeekLabel(Rank(ds, DateOf(r)))) else Missing;
    Pad(r[WeekNumber := week], cols)
  }

  /** Every row finished. */
  ghost function Finished(rows: seq<Row>, ds: set<int>, cols: seq<string>): seq<Row> {
    MapRows(r => Finalized(r, ds, cols), rows)
  }

  /** Each row's Week Number names the rank of its date among the dates of all the rows. */
  ghost predicate WeeksByRank(rows: seq<Row>) {
    AllDated(rows) &&
    forall i :: 0 <= i < |rows| ==>
      Cell(rows[i], WeekNumber) == Str(WeekLabel(Rank(Elems(DatesOf(rows)), DateOf(rows[i]))))
  }

  /** Each row's OS cell holds the name of one of the sources. */
  ghost predicate LabelledBySources(rows: seq<Row>, sources: seq<Source>) {
    forall i :: 0 <= i < |rows| ==>
      exists k :: 0 <= k < |sources| && Cell(rows[i], OS) == Str(sources[k].name)
  }

  /** Rows that are a permutation of each other have the same acquisition dates. */
  lemma DatesOfPermutation(a: seq<Row>, b: seq<Row>)
    requires AllDated(a) && AllDated(b) && multiset(a) == multiset(b)
    ensures Elems(DatesOf(a)) == Elems(DatesOf(b))
  {
    forall d | d in Elems(DatesOf(a)) ensures d in Elems(DatesOf(b)) {
      var i :| 0 <= i < |a| && DatesOf(a)[i] == d;
      assert a[i] in multiset(b);
      var j :| 0 <= j < |b| && b[j] == a[i];
      assert DatesOf(b)[j] == d;
    }
    forall d | d in Elems(DatesOf(b)) ensures d in Elems(DatesOf(a)) {
      var j :| 0 <= j < |b| && DatesOf(b)[j] == d;
      assert b[j] in multiset(a);
      var i :| 0 <= i < |a| && a[i] == b[j];
      assert DatesOf(a)[i] == d;
    }
  }

  /** Finishing a keyed row keeps its date and its label when both columns are kept. */
  lemma FinalizedKeys(r: Row, ds: set<int>, cols: seq<string>)
    requires Keyed(r) && AcquisitionWeek in cols && OS in cols
    ensures var f := Finalized(r, ds, cols);
            Keyed(f) && DateOf(f) == DateOf(r) && f[OS] == r[OS]
  {
  }

  /** The week map built from the sorted rows gives every row the label of its date's
      rank among all the dates of the combined table. */
  lemma SortedWeekCells(rows: seq<Row>, sorted: seq<Row>)
    requires AllKeyed(rows) && AllKeyed(sorted) && multiset(sorted) == multiset(rows)
    ensures AllDated(rows) && AllDated(sorted)
    ensures forall i :: 0 <= i < |sorted| ==>
              WeekCell(sorted[i], DateToWeekMap(DatesOf(sorted)))
              == Str(WeekLabel(Rank(Elems(DatesOf(rows)), DateOf(sorted[i]))))
  {
    var weekOf := DateToWeekMap(DatesOf(sorted));
    DateToWeekMapRanks(DatesOf(sorted));
    DatesOfPermutation(sorted, rows);
    forall i | 0 <= i < |sorted|
      ensures WeekCell(sorted[i], weekOf) == Str(WeekLabel(Rank(Elems(DatesOf(rows)), DateOf(sorted[i]))))
    {
      assert DatesOf(sorted)[i] == DateOf(sorted[i]);
      assert DateOf(sorted[i]) in Elems(DatesOf(sorted));
    }
  }

  /** Numbering the sorted rows and projecting them onto `cols` finishes each row. */
  lemma ProjectedRows(rows: seq<Row>, sorted: seq<Row>, numbered: seq<Row>, cols: seq<string>)
    requires AllKeyed(rows) && AllKeyed(sorted) && multiset(sorted) == multiset(rows)
    requires |numbered| == |sorted|
    requires forall i :: 0 <= i < |sorted| ==>
               numbered[i] == sorted[i][WeekNumber := WeekCell(sorted[i], DateToWeekMap(DatesOf(sorted)))]
    ensures AllDated(rows)
    ensures PadRows(numbered, cols) == Finished(sorted, Elems(DatesOf(rows)), cols)
  {
    SortedWeekCells(rows, sorted);
  }

  /** Finishing the rows keeps them in key order. */
  lemma FinishedSorted(sorted: seq<Row>, ds: set<int>, cols: seq<string>)
    requires SortedByKey(sorted) && AcquisitionWeek in cols && OS in cols
    ensures SortedByKey(Finished(sorted, ds, cols))
  {
    var out := Finished(sorted, ds, cols);
    forall i | 0 <= i < |out| ensures Keyed(out[i]) && DateOf(out[i]) == DateOf(sorted[i]) && out[i][OS] == sorted[i][OS] {
      FinalizedKeys(sorted[i], ds, cols);
    }
  }

  /** In the finished rows, each Week Number names the rank of the row's date among the
      dates of those same rows. */
  lemma FinishedWeeks(sorted: seq<Row>, ds: set<int>, cols: seq<string>)
    requires AllKeyed(sorted) && AcquisitionWeek in cols && OS in cols && WeekNumber in cols
    requires AllDated(sorted) && ds == Elems(DatesOf(sorted))
    ensures WeeksByRank(Finished(sorted, ds, cols))
  {
    var out := Finished(sorted, ds, cols);
    forall i | 0 <= i < |out| ensures Keyed(out[i]) && DateOf(out[i]) == DateOf(sorted[i]) {
      FinalizedKeys(sorted[i], ds, cols);
    }
    assert DatesOf(out) == DatesOf(sorted);
  }

  /** Every combined row carries the name of one of the sources in its OS cell. */
  lemma CombinedLabel(sources: seq<Source>, row: Row)
    requires AllWellFormed(sources) && row in multiset(Combined(sources).rows)
    ensures exists k :: 0 <= k < |sources| && OS in row && row[OS] == Str(sources[k].name)
  {
    var j :| 0 <= j < |Combined(sources).rows| && Combined(sources).rows[j] == row;
    var k, _ := CombinedRowOrigin(sources, j);
  }

  /** Every finished row carries the name of one of the sources in its OS cell. */
  lemma FinishedLabels(sources: seq<Source>, sorted: seq<Row>, ds: set<int>, cols: seq<string>)
    requires AllWellFormed(sources)
    requires AllKeyed(sorted) && multiset(sorted) == multiset(Combined(sources).rows)
    requires AcquisitionWeek in cols && OS in cols
    ensures LabelledBySources(Finished(sorted, ds, cols), sources)
  {
    var out := Finished(sorted, ds, cols);
    forall i | 0 <= i < |sorted|
      ensures exists k :: 0 <= k < |sources| && Cell(out[i], OS) == Str(sources[k].name)
    {
      FinalizedKeys(sorted[i], ds, cols);
      assert sorted[i] in multiset(sorted);
      CombinedLabel(sources, sorted[i]);
    }
  }

  /** The checkpoint columns kept by the projection are exactly the checkpoint columns
      present before it. */
  lemma CheckpointsKept(present: set<string>)
    ensures Filter(WeeksOfInterest, Elems(Filter(TargetColumns, present))) == Filter(WeeksOfInterest, present)
  {
    FilterMembers(TargetColumns, present);
    forall k | 0 <= k < |WeeksOfInterest|
      ensures WeeksOfInterest[k] in Elems(Filter(TargetColumns, present)) <==> WeeksOfInterest[k] in present
    {
      assert WeeksOfInterest[k] == TargetColumns[9 + k];
    }
    FilterSameOn(WeeksOfInterest, Elems(Filter(TargetColumns, present)), present);
  }

  /** The week columns are none of the columns the pipeline adds itself. */
  lemma CheckpointsFromSources(cols: set<string>)
    ensures Filter(WeeksOfInterest, {OS, WeekNumber} + cols) == Filter(WeeksOfInterest, cols)
  {
    FilterSameOn(WeeksOfInterest, {OS, WeekNumber} + cols, cols);
  }

  /** The columns of the returned table: the allow-list entries that are OS, Week Number
      or an input column, in allow-list order, led by Acquisition Week, Week Number and
      OS; and the checkpoint columns among them are those of the inputs. */
  lemma ReturnedColumns(sources: seq<Source>, numbered: seq<string>)
    requires |sources| > 0 && AcquisitionWeek in SourceColumns(sources)
    requires numbered == WithColumn(Combined(sources).columns, WeekNumber)
    ensures var present := {OS, WeekNumber} + SourceColumns(sources);
            var cols := Filter(TargetColumns, Elems(numbered));
            cols == Filter(TargetColumns, present) && Distinct(cols) &&
            |cols| >= 3 && cols[0] == AcquisitionWeek && cols[1] == WeekNumber && cols[2] == OS &&
            Filter(WeeksOfInterest, Elems(cols)) == Filter(WeeksOfInterest, SourceColumns(sources))
  {
    var present := {OS, WeekNumber} + SourceColumns(sources);
    assert Elems(numbered) == present by {
      forall c ensures c in Elems(numbered) <==> c in present {
        CombinedColumns(sources, c);
      }
    }
    FinalColumns(present);
    CheckpointsKept(present);
    CheckpointsFromSources(SourceColumns(sources));
  }

  /** The rows of the returned table: the combined rows, sorted by key, each numbered
      and projected onto `cols`. */
  lemma ReturnedRows(sources: seq<Source>, sorted: seq<Row>, numbered: seq<Row>, cols: seq<string>)
    requires ValidInput(sources) && AllKeyed(Combined(sources).rows)
    requires sorted == SortByKey(Combined(sources).rows)
    requires |numbered| == |sorted|
    requires forall i :: 0 <= i < |sorted| ==>
               numbered[i] == sorted[i][WeekNumber := WeekCell(sorted[i], DateToWeekMap(DatesOf(sorted)))]
    requires AcquisitionWeek in cols && WeekNumber in cols && OS in cols
    ensures var rows := PadRows(numbered, cols);
            |rows| == TotalRows(Frames(sources)) &&
            SortedByKey(rows) &&
            AllDated(Combined(sources).rows) &&
            multiset(rows) == multiset(Finished(Combined(sources).rows, Elems(DatesOf(Combined(sources).rows)), cols)) &&
            WeeksByRank(rows) && LabelledBySources(rows, sources)
  {
    var combined := Combined(sources).rows;
    assert AllDated(combined);
    var ds := Elems(DatesOf(combined));
    CombinedSize(sources);
    ProjectedRows(combined, sorted, numbered, cols);
    FinishedSorted(sorted, ds, cols);
    DatesOfPermutation(sorted, combined);
    FinishedWeeks(sorted, ds, cols);
    MapRowsPermutation(r => Finalized(r, ds, cols), sorted, combined);
    FinishedLabels(sources, sorted, ds, cols);
  }

  // ---------------------------------------------------------------------------
  // The whole pipeline

  /** The whole analysis over the sources in dictionary order. The box-plot figure is not
      modelled; `chart` is the long table it would be drawn from, or None where the
      source prints its warning instead. */
  method RunFlexibleCohortAnalysis(sources: seq<Source>) returns (result: Outcome, chart: Option<Table>)
    requires ValidInput(sources)
    ensures result.ErrorText? <==> |sources| == 0
    ensures result.ErrorText? ==> result.text == EmptyInputMessage
    ensures result.KeyError? <==> |sources| > 0 && AcquisitionWeek !in SourceColumns(sources)
    ensures result.KeyError? ==> result.key == AcquisitionWeek
    ensures !result.Returned? ==> chart == None
    ensures result.Returned? ==>
              result.final.columns == Filter(TargetColumns, {OS, WeekNumber} + SourceColumns(sources)) &&
              |result.final.columns| >= 3 && result.final.columns[0] == AcquisitionWeek &&
              result.final.columns[1] == WeekNumber && result.final.columns[2] == OS &&
              WellFormed(result.final)
    ensures result.Returned? ==> AllKeyed(Combined(sources).rows)
    ensures result.Returned? ==>
              |result.final.rows| == TotalRows(Frames(sources)) &&
              SortedByKey(result.final.rows) &&
              multiset(result.final.rows)
              == multiset(Finished(Combined(sources).rows, Elems(DatesOf(Combined(sources).rows)), result.final.columns))
    ensures result.Returned? ==> WeeksByRank(result.final.rows) && LabelledBySources(result.final.rows, sources)
    ensures result.Returned? ==>
              var weeks := Filter(WeeksOfInterest, SourceColumns(sources));
              chart == if weeks == [] then None else Some(Melt(result.final, OS, weeks, CohortPeriod, ValueColumn))
  {
    var processed := TagSources(sources);
    if |processed| == 0 {
      return ErrorText(EmptyInputMessage), None;
    }
    assert processed == Tagged(sources);
    var combined := Concat(processed);
    CombinedColumns(sources, AcquisitionWeek);
    if AcquisitionWeek !in combined.columns {
      return KeyError(AcquisitionWeek), None;
    }
    CombinedKeyed(sources);
    var sorted := SortByKey(combined.rows);
    var weekOf := DateToWeekMap(DatesOf(sorted));
    var numbered := AssignWeekNumbers(Table(combined.columns, sorted), weekOf);
    var finalCols := Filter(TargetColumns, Elems(numbered.columns));
    var final := Select(numbered, finalCols);
    var toMelt := Filter(WeeksOfInterest, Elems(final.columns));
    if toMelt != [] {
      chart := Some(Melt(final, OS, toMelt, CohortPeriod, ValueColumn));
    } else {
      chart := None;
    }
    result := Returned(final);
    ReturnedColumns(sources, numbered.columns);
    assert combined == Combined(sources);
    ReturnedRows(sources, sorted, numbered.rows, finalCols);
    assert final == Table(finalCols, PadRows(numbered.rows, finalCols));
  }
}
