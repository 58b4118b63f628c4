/** The tables the cohort pipeline works on, and the handful of table operations it
    uses: assigning a column, concatenating tables, selecting columns, keeping the
    present entries of an allow-list, and reshaping wide columns into long records.

    A table is schema-flexible: a list of column names and a list of rows, each row a
    map from column name to a tagged cell value. */
module Frame {

  /** A cell: a date (days since some epoch), an opaque metric number, a string, or
      the marker a table gets for a column one of its inputs did not have. */
  datatype Value = Date(day: int) | Num(amount: real) | Str(text: string) | Missing

  type Row = map<string, Value>

  datatype Table = Table(columns: seq<string>, rows: seq<Row>)

  /** The elements of a sequence, as a set. */
  function Elems<T>(s: seq<T>): set<T> {
    set x | x in s
  }

  predicate Distinct(s: seq<string>) {
    forall i, j :: 0 <= i < j < |s| ==> s[i] != s[j]
  }

  /** Every table the pipeline is given has distinct column names, and every row has a
      cell for exactly those columns. */
  predicate WellFormed(t: Table) {
    && Distinct(t.columns)
    && forall i :: 0 <= i < |t.rows| ==> t.rows[i].Keys == Elems(t.columns)
  }

  /** The cell of row `r` in column `c`; a row without the column reads as missing. */
  function Cell(r: Row, c: string): Value {
    if c in r then r[c] else Missing
  }

  // ---------------------------------------------------------------------------
  // Assigning a whole column

  /** Column list after assigning column `c`: an existing column keeps its place, a new one
      goes last. */
  function WithColumn(cols: seq<string>, c: string): (r: seq<string>)
    ensures Elems(r) == Elems(cols) + {c}
    ensures c in cols ==> r == cols
    ensures |cols| <= |r| <= |cols| + 1 && r[..|cols|] == cols
    ensures Distinct(cols) ==> Distinct(r)
  {
    if c in cols then cols else cols + [c]
  }

  /** Assigning column `c`: every row gets `values[i]` in column `c`, overwriting what was
      there; no other cell of any row changes. */
  function Assign(t: Table, c: string, values: seq<Value>): (r: Table)
    requires |values| == |t.rows|
    ensures r.columns == WithColumn(t.columns, c) && |r.rows| == |t.rows|
    ensures forall i :: 0 <= i < |r.rows| ==>
              c in r.rows[i] && r.rows[i][c] == values[i] && r.rows[i] - {c} == t.rows[i] - {c}
    ensures WellFormed(t) ==> WellFormed(r)
  {
    Table(WithColumn(t.columns, c),
          seq(|t.rows|, i requires 0 <= i < |t.rows| => t.rows[i][c := values[i]]))
  }

  // ---------------------------------------------------------------------------
  // Concatenation of tables, one after another

  /** Appends the columns of `cols` that `acc` does not have yet, in their order. */
  function AppendNew(acc: seq<string>, cols: seq<string>): (r: seq<string>)
    ensures Elems(r) == Elems(acc) + Elems(cols)
    ensures Distinct(acc) ==> Distinct(r)
    ensures |acc| <= |r| && r[..|acc|] == acc
    decreases |cols|
  {
    if cols == [] then acc else AppendNew(WithColumn(acc, cols[0]), cols[1..])
  }

  /** The column set of an outer concatenation, in order of first appearance. */
  function UnionColumns(ts: seq<Table>): (r: seq<string>)
    ensures Distinct(r)
  {
    if ts == [] then [] else AppendNew(UnionColumns(ts[..|ts| - 1]), ts[|ts| - 1].columns)
  }

  /** The last table's columns join those of the tables before it. */
  lemma UnionColumnsStep(ts: seq<Table>, c: string)
    requires ts != []
    ensures c in UnionColumns(ts) <==> c in UnionColumns(ts[..|ts| - 1]) || c in ts[|ts| - 1].columns
  {
    var n := |ts| - 1;
    assert c in UnionColumns(ts) <==> c in Elems(UnionColumns(ts));
    assert c in UnionColumns(ts[..n]) <==> c in Elems(UnionColumns(ts[..n]));
    assert c in ts[n].columns <==> c in Elems(ts[n].columns);
  }

  /** Every column of every input is in the concatenation. */
  lemma {:induction false} UnionColumnsCovers(ts: seq<Table>, k: nat, c: string)
    requires k < |ts| && c in ts[k].columns
    ensures c in UnionColumns(ts)
    decreases |ts|
  {
    var n := |ts| - 1;
    if k < n {
      var init := ts[..n];
      assert init[k] == ts[k];
      UnionColumnsCovers(init, k, c);
    }
    UnionColumnsStep(ts, c);
  }

  /** Every column of the concatenation comes from some input. */
  lemma {:induction false} UnionColumnsOrigin(ts: seq<Table>, c: string) returns (k: nat)
    requires c in UnionColumns(ts)
    ensures k < |ts| && c in ts[k].columns
    decreases |ts|
  {
    var n := |ts| - 1;
    UnionColumnsStep(ts, c);
    if c in ts[n].columns {
      k := n;
    } else {
      k := UnionColumnsOrigin(ts[..n], c);
      assert ts[..n][k] == ts[k];
    }
  }

  /** A column is in the concatenation exactly when some input has it. */
  lemma UnionColumnsMember(ts: seq<Table>, c: string)
    ensures c in UnionColumns(ts) <==> exists k :: 0 <= k < |ts| && c in ts[k].columns
  {
    if c in UnionColumns(ts) {
      var k := UnionColumnsOrigin(ts, c);
    }
    if exists k :: 0 <= k < |ts| && c in ts[k].columns {
      var k :| 0 <= k < |ts| && c in ts[k].columns;
      UnionColumnsCovers(ts, k, c);
    }
  }

  function TotalRows(ts: seq<Table>): nat {
    if ts == [] then 0 else TotalRows(ts[..|ts| - 1]) + |ts[|ts| - 1].rows|
  }

  /** Tables with the same row counts, position by position, have the same total. */
  lemma {:induction false} TotalRowsSameShape(ts: seq<Table>, us: seq<Table>)
    requires |ts| == |us| && forall k :: 0 <= k < |ts| ==> |ts[k].rows| == |us[k].rows|
    ensures TotalRows(ts) == TotalRows(us)
    decreases |ts|
  {
    if ts != [] {
      var n := |ts| - 1;
      TotalRowsSameShape(ts[..n], us[..n]);
    }
  }

  /** Row `r` laid out over `cols`: a cell for each of them, missing where `r` has none,
      and nothing else. */
  function Pad(r: Row, cols: seq<string>): (p: Row)
    ensures p.Keys == Elems(cols)
    ensures forall c :: c in cols ==> c in p && p[c] == Cell(r, c)
  {
    map c | c in cols :: Cell(r, c)
  }

  function PadRows(rows: seq<Row>, cols: seq<string>): (out: seq<Row>)
    ensures |out| == |rows| && forall i :: 0 <= i < |rows| ==> out[i] == Pad(rows[i], cols)
  {
    seq(|rows|, i requires 0 <= i < |rows| => Pad(rows[i], cols))
  }

  function ConcatRows(ts: seq<Table>, cols: seq<string>): (rows: seq<Row>)
    ensures |rows| == TotalRows(ts)
  {
    if ts == [] then [] else ConcatRows(ts[..|ts| - 1], cols) + PadRows(ts[|ts| - 1].rows, cols)
  }

  function Concat(ts: seq<Table>): (r: Table)
    ensures Distinct(r.columns) && |r.rows| == TotalRows(ts)
  {
    var cols := UnionColumns(ts);
    Table(cols, ConcatRows(ts, cols))
  }

  /** Row `i` of input `k` sits at position TotalRows(ts[..k]) + i of the
      concatenation, laid out over its columns. */
  lemma {:induction false} ConcatBlock(ts: seq<Table>, cols: seq<string>, k: nat, i: nat)
    requires k < |ts| && i < |ts[k].rows|
    ensures TotalRows(ts[..k]) + i < TotalRows(ts)
    ensures ConcatRows(ts, cols)[TotalRows(ts[..k]) + i] == Pad(ts[k].rows[i], cols)
    decreases |ts|
  {
    var n := |ts| - 1;
    var init := ts[..n];
    if k == n {
      assert ts[..k] == init;
    } else {
      assert init[..k] == ts[..k] && init[k] == ts[k];
      ConcatBlock(init, cols, k, i);
    }
  }

  /** Every position of the concatenation comes from exactly such a block. */
  lemma {:induction false} ConcatOrigin(ts: seq<Table>, j: nat) returns (k: nat, i: nat)
    requires j < TotalRows(ts)
    ensures k < |ts| && i < |ts[k].rows| && j == TotalRows(ts[..k]) + i
    decreases |ts|
  {
    var n := |ts| - 1;
    var init := ts[..n];
    if j < TotalRows(init) {
      k, i := ConcatOrigin(init, j);
      assert init[..k] == ts[..k] && init[k] == ts[k];
    } else {
      k, i := n, j - TotalRows(init);
      assert ts[..k] == init;
    }
  }

  /** Concatenation keeps every row, takes the union of the columns, and marks as missing
      the cells of columns that a row's own table lacks. */
  lemma ConcatLayout(ts: seq<Table>, k: nat, i: nat)
    requires forall m :: 0 <= m < |ts| ==> WellFormed(ts[m])
    requires k < |ts| && i < |ts[k].rows|
    ensures WellFormed(Concat(ts)) && |Concat(ts).rows| == TotalRows(ts)
    ensures forall c :: c in Concat(ts).columns <==> exists m :: 0 <= m < |ts| && c in ts[m].columns
    ensures var j := TotalRows(ts[..k]) + i;
            j < |Concat(ts).rows| &&
            forall c :: c in Concat(ts).columns ==>
              Concat(ts).rows[j][c] == (if c in ts[k].columns then Cell(ts[k].rows[i], c) else Missing)
  {
    var t := Concat(ts);
    forall c ensures c in t.columns <==> exists m :: 0 <= m < |ts| && c in ts[m].columns {
      UnionColumnsMember(ts, c);
    }
    forall j | 0 <= j < |t.rows| ensures t.rows[j].Keys == Elems(t.columns) {
      var k', i' := ConcatOrigin(ts, j);
      ConcatBlock(ts, t.columns, k', i');
    }
    ConcatBlock(ts, t.columns, k, i);
  }

  // ---------------------------------------------------------------------------
  // Column filtering and selection

  /** The entries of `wanted` that are in `present`, in `wanted`'s order. */
  function Filter(wanted: seq<string>, present: set<string>): (r: seq<string>)
    ensures |r| <= |wanted| && forall k :: 0 <= k < |r| ==> r[k] in present
  {
    if wanted == [] then []
    else (if wanted[0] in present then [wanted[0]] else []) + Filter(wanted[1..], present)
  }

  /** Filter keeps exactly the entries of `wanted` that are present, and repeats none
      when `wanted` has no repeats. */
  lemma {:induction false} FilterMembers(wanted: seq<string>, present: set<string>)
    ensures forall c :: c in Filter(wanted, present) <==> c in wanted && c in present
    ensures Distinct(wanted) ==> Distinct(Filter(wanted, present))
  {
    if wanted != [] {
      FilterMembers(wanted[1..], present);
      var tail := Filter(wanted[1..], present);
      if wanted[0] in present {
        assert Filter(wanted, present) == [wanted[0]] + tail;
        if Distinct(wanted) {
          assert wanted[0] !in wanted[1..];
        }
      } else {
        assert Filter(wanted, present) == tail;
      }
    }
  }

  /** Filter reads `present` only at the entries of `wanted`. */
  lemma {:induction false} FilterSameOn(wanted: seq<string>, p: set<string>, q: set<string>)
    requires forall k :: 0 <= k < |wanted| ==> (wanted[k] in p <==> wanted[k] in q)
    ensures Filter(wanted, p) == Filter(wanted, q)
  {
    if wanted != [] {
      FilterSameOn(wanted[1..], p, q);
      assert wanted[0] in p <==> wanted[0] in q;
    }
  }

  /** `picked` is `wanted` read at the strictly increasing positions `pos`. */
  ghost predicate PickedAt(wanted: seq<string>, picked: seq<string>, pos: seq<nat>) {
    |pos| == |picked| &&
    (forall k :: 0 <= k < |pos| ==> pos[k] < |wanted| && picked[k] == wanted[pos[k]]) &&
    forall k, l :: 0 <= k < l < |pos| ==> pos[k] < pos[l]
  }

  /** Positions in the tail of `wanted` are one further on in `wanted` itself. */
  lemma ShiftPositions(wanted: seq<string>, picked: seq<string>, pos: seq<nat>) returns (shifted: seq<nat>)
    requires wanted != [] && PickedAt(wanted[1..], picked, pos)
    ensures PickedAt(wanted, picked, shifted) && forall k :: 0 <= k < |shifted| ==> 0 < shifted[k]
  {
    shifted := seq(|pos|, k requires 0 <= k < |pos| => pos[k] + 1);
    forall k | 0 <= k < |shifted| ensures shifted[k] < |wanted| && picked[k] == wanted[shifted[k]] {
      assert picked[k] == wanted[1..][pos[k]];
    }
  }

  /** Picking the head of `wanted` in front of picks from further on. */
  lemma PickHead(wanted: seq<string>, picked: seq<string>, pos: seq<nat>)
    requires wanted != [] && PickedAt(wanted, picked, pos) && forall k :: 0 <= k < |pos| ==> 0 < pos[k]
    ensures PickedAt(wanted, [wanted[0]] + picked, [0] + pos)
  {
    var p := [0] + pos;
    var q := [wanted[0]] + picked;
    forall k | 0 < k < |p| ensures p[k] == pos[k - 1] && q[k] == picked[k - 1] {
    }
  }

  /** Filter keeps `wanted`'s order: its result is `wanted` at strictly increasing
      positions. */
  lemma {:induction false} FilterKeepsOrder(wanted: seq<string>, present: set<string>)
    returns (pos: seq<nat>)
    ensures PickedAt(wanted, Filter(wanted, present), pos)
  {
    if wanted == [] {
      pos := [];
    } else {
      var rest := FilterKeepsOrder(wanted[1..], present);
      var tail := Filter(wanted[1..], present);
      var shifted := ShiftPositions(wanted, tail, rest);
      if wanted[0] in present {
        PickHead(wanted, tail, shifted);
        pos := [0] + shifted;
      } else {
        pos := shifted;
      }
    }
  }

  /** Selecting columns: the rows restricted to `cols`, in that column order. */
  function Select(t: Table, cols: seq<string>): (r: Table)
    ensures r.columns == cols && |r.rows| == |t.rows|
    ensures forall i :: 0 <= i < |r.rows| ==> r.rows[i].Keys == Elems(cols)
    ensures forall i, c :: 0 <= i < |r.rows| && c in cols ==> Cell(r.rows[i], c) == Cell(t.rows[i], c)
  {
    Table(cols, PadRows(t.rows, cols))
  }

  // ---------------------------------------------------------------------------
  // Reshaping to long form (melt): one record per row and value column

  /** The long record for one row and one value column. */
  function LongRecord(r: Row, idVar: string, v: string, varName: string, valueName: string): Row {
    map[idVar := Cell(r, idVar), varName := Str(v), valueName := Cell(r, v)]
  }

  function MeltColumn(rows: seq<Row>, idVar: string, v: string, varName: string, valueName: string): seq<Row> {
    seq(|rows|, i requires 0 <= i < |rows| => LongRecord(rows[i], idVar, v, varName, valueName))
  }

  function MeltRows(rows: seq<Row>, idVar: string, valueVars: seq<string>, varName: string, valueName: string)
    : (m: seq<Row>)
    ensures |m| == |rows| * |valueVars|
  {
    if valueVars == [] then []
    else
      var m := MeltColumn(rows, idVar, valueVars[0], varName, valueName)
               + MeltRows(rows, idVar, valueVars[1..], varName, valueName);
      assert |rows| * |valueVars| == |rows| + |rows| * |valueVars[1..]|;
      m
  }

  function Melt(t: Table, idVar: string, valueVars: seq<string>, varName: string, valueName: string): (m: Table)
    ensures m.columns == [idVar, varName, valueName] && |m.rows| == |t.rows| * |valueVars|
  {
    Table([idVar, varName, valueName], MeltRows(t.rows, idVar, valueVars, varName, valueName))
  }

  /** The melted table has one record per (value column, row) pair, grouped column by
      column: all rows for the first value column, then all rows for the next. */
  lemma {:induction false} MeltLayout(t: Table, idVar: string, valueVars: seq<string>, varName: string,
                                      valueName: string, j: nat, i: nat)
    requires j < |valueVars| && i < |t.rows|
    ensures var m := Melt(t, idVar, valueVars, varName, valueName);
            m.columns == [idVar, varName, valueName] &&
            |m.rows| == |t.rows| * |valueVars| &&
            j * |t.rows| + i < |m.rows| &&
            m.rows[j * |t.rows| + i] == LongRecord(t.rows[i], idVar, valueVars[j], varName, valueName)
    decreases j
  {
    var n := |t.rows|;
    if j > 0 {
      MeltLayout(t, idVar, valueVars[1..], varName, valueName, j - 1, i);
      assert j * n + i == n + ((j - 1) * n + i);
    }
  }

  // ---------------------------------------------------------------------------
  // Row-wise maps

  function MapRows(f: Row -> Row, rows: seq<Row>): (out: seq<Row>)
    ensures |out| == |rows| && forall i :: 0 <= i < |rows| ==> out[i] == f(rows[i])
  {
    seq(|rows|, i requires 0 <= i < |rows| => f(rows[i]))
  }

  lemma MapRowsAppend(f: Row -> Row, p: seq<Row>, q: seq<Row>)
    ensures MapRows(f, p + q) == MapRows(f, p) + MapRows(f, q)
  {
    assert |MapRows(f, p + q)| == |MapRows(f, p) + MapRows(f, q)|;
    forall i | 0 <= i < |p + q| ensures MapRows(f, p + q)[i] == (MapRows(f, p) + MapRows(f, q))[i] {
      if i < |p| {
        assert (p + q)[i] == p[i];
      } else {
        assert (p + q)[i] == q[i - |p|];
      }
    }
  }

  lemma RemoveMatched(a: seq<Row>, b: seq<Row>, k: nat)
    requires multiset(a) == multiset(b) && a != [] && k < |b| && b[k] == a[0]
    ensures multiset(a[1..]) == multiset(b[..k] + b[k + 1..])
  {
    var x := a[0];
    assert a == [x] + a[1..];
    assert b == b[..k] + [x] + b[k + 1..];
    assert multiset(b[..k] + b[k + 1..]) == multiset(b[..k]) + multiset(b[k + 1..]);
    calc {
      multiset(a[1..]);
      multiset(a) - multiset{x};
      multiset(b) - multiset{x};
      multiset(b[..k]) + multiset(b[k + 1..]);
    }
  }

  /** A row-wise map sends two orderings of the same rows to two orderings of the same
      results. */
  lemma {:induction false} MapRowsPermutation(f: Row -> Row, a: seq<Row>, b: seq<Row>)
    requires multiset(a) == multiset(b)
    ensures multiset(MapRows(f, a)) == multiset(MapRows(f, b))
    decreases |a|
  {
    if a == [] {
      assert |b| == |multiset(b)| == 0;
    } else {
      var x := a[0];
      assert x in multiset(b);
      var k :| 0 <= k < |b| && b[k] == x;
      var left, right := b[..k], b[k + 1..];
      RemoveMatched(a, b, k);
      MapRowsPermutation(f, a[1..], left + right);
      assert a == [x] + a[1..];
      assert b == left + [x] + right;
      MapRowsAppend(f, [x], a[1..]);
      MapRowsAppend(f, left + [x], right);
      MapRowsAppend(f, left, [x]);
      MapRowsAppend(f, left, right);
    }
  }
}
