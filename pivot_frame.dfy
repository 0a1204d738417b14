/** The table steps of `generate_pivot` in backend.py around the pivot itself: null and
    blank cells are replaced by sentinels, calculated fields are translated, filters are
    applied, the aggregation state is merged and the aggregation dictionary built, a total
    row is appended to the aggregated table, and the sentinels are turned into readable
    labels. The pivot (`pd.pivot_table` and `reset_index`) is not modelled: its result is
    an input. */
module PivotFrame {
  import opened Text
  import opened CalcFields
  import opened Aggregation

  /** A cell of a data frame: Python's `None`, the NaN that `pd.read_csv` puts in an empty
      field, a text, or a number (integers in this model). */
  datatype Cell = Null | NaN | Str(s: string) | Num(n: int)

  type Row = map<string, Cell>

  /** A data frame: its column names in order and its rows. */
  datatype Table = Table(columns: seq<string>, rows: seq<Row>)

  const NullSentinel := "__NULL__"
  const EmptySentinel := "__EMPTY__"

  // ---------------------------------------------------------------------------------
  // Step 1: null and blank cells.

  /** The lambda applied to every cell: `None` and whitespace-only strings become sentinels.
      NaN is neither `None` nor a string, so it passes unchanged. */
  function CanonCell(c: Cell): Cell
  {
    match c
    case Null => Str(NullSentinel)
    case NaN => c
    case Str(s) => if Strip(s) == [] then Str(EmptySentinel) else c
    case Num(_) => c
  }

  /** A cell the step leaves as it is. */
  predicate IsCanonical(c: Cell)
  {
    !c.Null? && !(c.Str? && Strip(c.s) == [])
  }

  /** The step leaves no null and no blank cell, touches nothing else, and running it again
      changes nothing. */
  lemma CanonCellSpec(c: Cell)
    ensures IsCanonical(CanonCell(c))
    ensures IsCanonical(c) ==> CanonCell(c) == c
    ensures CanonCell(CanonCell(c)) == CanonCell(c)
    ensures c.NaN? ==> CanonCell(c) == NaN
  {
    assert Strip(NullSentinel) == NullSentinel by {
      assert LStrip(NullSentinel) == NullSentinel;
      assert RStrip(NullSentinel) == NullSentinel;
    }
    assert Strip(EmptySentinel) == EmptySentinel by {
      assert LStrip(EmptySentinel) == EmptySentinel;
      assert RStrip(EmptySentinel) == EmptySentinel;
    }
  }

  /** The names listed in `cols`. */
  function ColumnSet(cols: seq<string>): set<string>
  {
    set c | c in cols
  }

  /** A row after the columns in `done` have been processed. */
  function CanonRowOn(row: Row, done: set<string>): Row
  {
    map k | k in row :: if k in done then CanonCell(row[k]) else row[k]
  }

  /** The whole frame after step 1. */
  function CanonTable(t: Table): Table
  {
    var cols := ColumnSet(t.columns);
    Table(t.columns, seq(|t.rows|, k requires 0 <= k < |t.rows| => CanonRowOn(t.rows[k], cols)))
  }

  /** `df[col] = df[col].apply(...)` on one row. */
  function ApplyAt(row: Row, col: string): Row
  {
    if col in row then row[col := CanonCell(row[col])] else row
  }

  lemma ApplyAtExtends(row: Row, done: set<string>, col: string)
    ensures ApplyAt(CanonRowOn(row, done), col) == CanonRowOn(row, done + {col})
  {
    if col in row {
      CanonCellSpec(row[col]);
    }
  }

  /** The column loop of step 1. */
  method Canonicalize(t: Table) returns (r: Table)
    ensures r == CanonTable(t)
  {
    var rows := t.rows;
    for i := 0 to |t.columns|
      invariant |rows| == |t.rows|
      invariant forall k :: 0 <= k < |rows| ==> rows[k] == CanonRowOn(t.rows[k], ColumnSet(t.columns[..i]))
    {
      var col := t.columns[i];
      forall k | 0 <= k < |rows|
        ensures ApplyAt(rows[k], col) == CanonRowOn(t.rows[k], ColumnSet(t.columns[..i + 1]))
      {
        ApplyAtExtends(t.rows[k], ColumnSet(t.columns[..i]), col);
        assert (ColumnSet(t.columns[..i + 1])) == ColumnSet(t.columns[..i]) + {col} by {
          assert t.columns[..i + 1] == t.columns[..i] + [col];
        }
      }
      rows := seq(|rows|, k requires 0 <= k < |rows| => ApplyAt(rows[k], col));
    }
    assert t.columns[..|t.columns|] == t.columns;
    r := Table(t.columns, rows);
  }

  /** After step 1 no cell of a listed column is null or blank, and a second pass would
      change nothing. */
  lemma CanonTableSpec(t: Table)
    ensures var r := CanonTable(t);
      forall k, c :: 0 <= k < |r.rows| && c in r.rows[k] && c in t.columns ==> IsCanonical(r.rows[k][c])
    ensures CanonTable(CanonTable(t)) == CanonTable(t)
  {
    var r := CanonTable(t);
    forall k, c | 0 <= k < |r.rows| && c in r.rows[k] && c in t.columns
      ensures IsCanonical(r.rows[k][c])
    {
      CanonCellSpec(t.rows[k][c]);
    }
    var rr := CanonTable(r);
    forall k | 0 <= k < |r.rows| ensures rr.rows[k] == r.rows[k] {
      forall c | c in r.rows[k] ensures rr.rows[k][c] == r.rows[k][c] {
        CanonCellSpec(t.rows[k][c]);
      }
    }
  }

  // ---------------------------------------------------------------------------------
  // Step 3: filters.

  /** A filter as the request model declares it: a column and nothing else. */
  datatype FilterItem = FilterItem(column: string)

  /** One filter of the loop as written: the comparison reads `f.value`, which the request
      model does not declare, so it raises and the `except` moves on to the next filter,
      whether or not the column exists. */
  function FilterStepAsWritten(t: Table, f: FilterItem): Table
  {
    if f.column in t.columns then t   // `f.value` raises: skipped
    else t
  }

  function FiltersAsWritten(t: Table, fs: seq<FilterItem>): Table
    decreases |fs|
  {
    if fs == [] then t else FiltersAsWritten(FilterStepAsWritten(t, fs[0]), fs[1..])
  }

  /** As written, no filter ever removes a row. */
  lemma {:induction false} FiltersAsWrittenKeepAll(t: Table, fs: seq<FilterItem>)
    ensures FiltersAsWritten(t, fs) == t
    decreases |fs|
  {
    if fs != [] {
      FiltersAsWrittenKeepAll(t, fs[1..]);
    }
  }

  /** The filter the front end sends and the loop evidently means: a column and the value
      to keep. */
  datatype EqualityFilter = EqualityFilter(column: string, value: Cell)

  /** pandas' `df[col] == value` on one row: NaN and `None` equal nothing. */
  predicate Matches(row: Row, col: string, v: Cell)
  {
    col in row && row[col] == v && !v.NaN? && !v.Null?
  }

  /** `df[df[col] == value]`: the rows whose cell equals the value, in order. */
  function KeepEqual(rows: seq<Row>, col: string, v: Cell): (r: seq<Row>)
    ensures |r| <= |rows|
    ensures forall row :: row in r ==> row in rows && Matches(row, col, v)
    ensures forall row :: row in rows && Matches(row, col, v) ==> row in r
  {
    if rows == [] then []
    else
      (if Matches(rows[0], col, v) then [rows[0]] else []) + KeepEqual(rows[1..], col, v)
  }

  /** A matching row is kept as often as it occurs, any other row not at all. */
  lemma {:induction false} KeepEqualCounts(rows: seq<Row>, col: string, v: Cell)
    ensures forall x :: multiset(KeepEqual(rows, col, v))[x] == if Matches(x, col, v) then multiset(rows)[x] else 0
  {
    if rows != [] {
      KeepEqualCounts(rows[1..], col, v);
      assert rows == [rows[0]] + rows[1..];
      assert multiset(rows) == multiset([rows[0]]) + multiset(rows[1..]);
    }
  }

  /** `a` is `b` at the increasing positions `idx`. */
  predicate PicksFrom(a: seq<Row>, b: seq<Row>, idx: seq<nat>)
  {
    |idx| == |a|
    && (forall k :: 0 <= k < |idx| ==> idx[k] < |b| && a[k] == b[idx[k]])
    && (forall k, l :: 0 <= k < l < |idx| ==> idx[k] < idx[l])
  }

  /** Every position one further on. */
  function Shift(idx: seq<nat>): (r: seq<nat>)
    ensures |r| == |idx| && forall k :: 0 <= k < |idx| ==> r[k] == idx[k] + 1
  {
    seq(|idx|, k requires 0 <= k < |idx| => idx[k] + 1)
  }

  lemma PicksShift(a: seq<Row>, rows: seq<Row>, idx: seq<nat>)
    requires rows != [] && PicksFrom(a, rows[1..], idx)
    ensures PicksFrom(a, rows, Shift(idx))
    ensures PicksFrom([rows[0]] + a, rows, [0] + Shift(idx))
  {
    var sh := Shift(idx);
    forall k | 0 <= k < |sh| ensures sh[k] < |rows| && a[k] == rows[sh[k]] {
      assert rows[1..][idx[k]] == rows[idx[k] + 1];
    }
    var all := [0] + sh;
    var b := [rows[0]] + a;
    forall k | 0 <= k < |all| ensures all[k] < |rows| && b[k] == rows[all[k]] {
      if k > 0 {
        assert all[k] == sh[k - 1] && b[k] == a[k - 1];
      }
    }
  }

  /** The kept rows keep their order. */
  lemma {:induction false} KeepEqualInOrder(rows: seq<Row>, col: string, v: Cell)
    ensures exists idx :: PicksFrom(KeepEqual(rows, col, v), rows, idx)
  {
    if rows == [] {
      assert KeepEqual(rows, col, v) == [];
      assert PicksFrom(KeepEqual(rows, col, v), rows, []);
    } else {
      KeepEqualInOrder(rows[1..], col, v);
      var rest := KeepEqual(rows[1..], col, v);
      var idx :| PicksFrom(rest, rows[1..], idx);
      PicksShift(rest, rows, idx);
      if Matches(rows[0], col, v) {
        assert KeepEqual(rows, col, v) == [rows[0]] + rest;
        assert PicksFrom(KeepEqual(rows, col, v), rows, [0] + Shift(idx));
      } else {
        assert KeepEqual(rows, col, v) == rest;
        assert PicksFrom(KeepEqual(rows, col, v), rows, Shift(idx));
      }
    }
  }

  /** Positions compose: picking from a pick is a pick. */
  lemma PicksCompose(a: seq<Row>, b: seq<Row>, c: seq<Row>, i1: seq<nat>, i2: seq<nat>)
    requires PicksFrom(a, b, i1) && PicksFrom(b, c, i2)
    ensures PicksFrom(a, c, seq(|i1|, k requires 0 <= k < |i1| => i2[i1[k]]))
  {
  }

  function FilterStep(t: Table, f: EqualityFilter): Table
  {
    if f.column in t.columns then Table(t.columns, KeepEqual(t.rows, f.column, f.value)) else t
  }

  function Filtered(t: Table, fs: seq<EqualityFilter>): Table
    decreases |fs|
  {
    if fs == [] then t else Filtered(FilterStep(t, fs[0]), fs[1..])
  }

  /** The filter loop with the value present. */
  method ApplyFilters(t: Table, fs: seq<EqualityFilter>) returns (r: Table)
    ensures r == Filtered(t, fs)
  {
    r := t;
    var i := 0;
    assert fs[0..] == fs;
    while i < |fs|
      invariant 0 <= i <= |fs|
      invariant Filtered(r, fs[i..]) == Filtered(t, fs)
    {
      assert fs[i..][0] == fs[i] && fs[i..][1..] == fs[i + 1..];
      var f := fs[i];
      if f.column in r.columns {
        r := Table(r.columns, KeepEqual(r.rows, f.column, f.value));
      }
      i := i + 1;
    }
    assert fs[i..] == [];
  }

  /** A row meets every filter whose column the frame has. */
  predicate Passes(row: Row, columns: seq<string>, fs: seq<EqualityFilter>)
  {
    forall j :: 0 <= j < |fs| && fs[j].column in columns ==> Matches(row, fs[j].column, fs[j].value)
  }

  lemma PassesCons(row: Row, columns: seq<string>, fs: seq<EqualityFilter>)
    requires fs != []
    ensures Passes(row, columns, fs) <==>
      (fs[0].column in columns ==> Matches(row, fs[0].column, fs[0].value)) && Passes(row, columns, fs[1..])
  {
    if (fs[0].column in columns ==> Matches(row, fs[0].column, fs[0].value)) && Passes(row, columns, fs[1..]) {
      forall j | 0 < j < |fs| && fs[j].column in columns ensures Matches(row, fs[j].column, fs[j].value) {
        assert fs[1..][j - 1] == fs[j];
      }
    }
    if Passes(row, columns, fs) {
      forall j | 0 <= j < |fs[1..]| && fs[1..][j].column in columns
        ensures Matches(row, fs[1..][j].column, fs[1..][j].value)
      {
        assert fs[1..][j] == fs[j + 1];
      }
    }
  }

  /** Filtering keeps the frame's columns; a row survives exactly when it came from the
      frame and matches each filter whose column the frame has. */
  lemma {:induction false} FilteredSpec(t: Table, fs: seq<EqualityFilter>)
    ensures Filtered(t, fs).columns == t.columns
    ensures forall row :: row in Filtered(t, fs).rows ==> row in t.rows && Passes(row, t.columns, fs)
    ensures forall row :: row in t.rows && Passes(row, t.columns, fs) ==> row in Filtered(t, fs).rows
    decreases |fs|
  {
    if fs != [] {
      var t1 := FilterStep(t, fs[0]);
      FilteredSpec(t1, fs[1..]);
      forall row | row in Filtered(t, fs).rows ensures Passes(row, t.columns, fs) {
        PassesCons(row, t.columns, fs);
      }
      forall row | row in t.rows && Passes(row, t.columns, fs)
        ensures row in Filtered(t, fs).rows
      {
        PassesCons(row, t.columns, fs);
      }
    }
  }

  /** Each surviving row is kept as often as it occurs in the frame, so no aggregate sees a
      duplicate dropped. */
  lemma {:induction false} FilteredCounts(t: Table, fs: seq<EqualityFilter>)
    ensures forall x :: multiset(Filtered(t, fs).rows)[x] == if Passes(x, t.columns, fs) then multiset(t.rows)[x] else 0
    decreases |fs|
  {
    if fs != [] {
      var t1 := FilterStep(t, fs[0]);
      FilteredCounts(t1, fs[1..]);
      if fs[0].column in t.columns {
        KeepEqualCounts(t.rows, fs[0].column, fs[0].value);
      }
      forall x ensures multiset(Filtered(t, fs).rows)[x] == if Passes(x, t.columns, fs) then multiset(t.rows)[x] else 0 {
        PassesCons(x, t.columns, fs);
      }
    } else {
      forall x ensures Passes(x, t.columns, fs) {
      }
    }
  }

  /** The surviving rows keep the frame's order. */
  lemma {:induction false} FilteredInOrder(t: Table, fs: seq<EqualityFilter>)
    ensures exists idx :: PicksFrom(Filtered(t, fs).rows, t.rows, idx)
    decreases |fs|
  {
    if fs == [] {
      var idx := seq(|t.rows|, k requires 0 <= k < |t.rows| => k);
      assert Filtered(t, fs) == t;
      assert PicksFrom(Filtered(t, fs).rows, t.rows, idx);
    } else {
      var t1 := FilterStep(t, fs[0]);
      FilteredInOrder(t1, fs[1..]);
      var out := Filtered(t1, fs[1..]).rows;
      assert Filtered(t, fs).rows == out;
      var i1 :| PicksFrom(out, t1.rows, i1);
      if fs[0].column in t.columns {
        KeepEqualInOrder(t.rows, fs[0].column, fs[0].value);
        var i2 :| PicksFrom(t1.rows, t.rows, i2);
        PicksCompose(out, t1.rows, t.rows, i1, i2);
        assert PicksFrom(out, t.rows, seq(|i1|, k requires 0 <= k < |i1| => i2[i1[k]]));
      } else {
        assert t1 == t;
        assert PicksFrom(out, t.rows, i1);
      }
    }
  }

  /** The two disagree: a filter on `Region = "East"` keeps a `West` row as written. */
  lemma FilterFindingWitness()
    ensures var row := map["Region" := Str("West")];
      var t := Table(["Region"], [row]);
      FiltersAsWritten(t, [FilterItem("Region")]) == t
      && Filtered(t, [EqualityFilter("Region", Str("East"))]) == Table(["Region"], [])
  {
    var row := map["Region" := Str("West")];
    var t := Table(["Region"], [row]);
    FiltersAsWrittenKeepAll(t, [FilterItem("Region")]);
    assert !Matches(row, "Region", Str("East"));
    assert KeepEqual([row], "Region", Str("East")) == [];
  }

  // ---------------------------------------------------------------------------------
  // Step 7: the total row.

  /** The cells of a column, a missing cell read as null. */
  function Column(rows: seq<Row>, c: string): (r: seq<Cell>)
    ensures |r| == |rows|
  {
    seq(|rows|, k requires 0 <= k < |rows| => if c in rows[k] then rows[k][c] else Null)
  }

  predicate NoText(cells: seq<Cell>) { forall i :: 0 <= i < |cells| ==> !cells[i].Str? }

  predicate AllText(cells: seq<Cell>) { cells != [] && forall i :: 0 <= i < |cells| ==> cells[i].Str? }

  /** The sum of the numbers of a column; `None` and NaN add nothing (`skipna`). */
  function SumNums(cells: seq<Cell>): int
  {
    if cells == [] then 0
    else SumNums(cells[..|cells| - 1]) + (match cells[|cells| - 1] case Num(n) => n case _ => 0)
  }

  function ConcatText(cells: seq<Cell>): string
    requires forall i :: 0 <= i < |cells| ==> cells[i].Str?
  {
    if cells == [] then [] else ConcatText(cells[..|cells| - 1]) + cells[|cells| - 1].s
  }

  /** `pivot[col].sum()`: numbers add up with `None` and NaN skipped, texts are concatenated
      in row order, and a mixture (a missing value among texts included) raises, which the
      source turns into a null total. */
  function ColumnSum(cells: seq<Cell>): Cell
  {
    if NoText(cells) then Num(SumNums(cells))
    else if AllText(cells) then Str(ConcatText(cells))
    else Null
  }

  /** Sums split over a concatenation. */
  lemma {:induction false} SumNumsAppend(a: seq<Cell>, b: seq<Cell>)
    ensures SumNums(a + b) == SumNums(a) + SumNums(b)
    decreases |b|
  {
    if b == [] {
      assert a + b == a;
    } else {
      var init := b[..|b| - 1];
      assert (a + b)[..|a + b| - 1] == a + init;
      assert (a + b)[|a + b| - 1] == b[|b| - 1];
      SumNumsAppend(a, init);
    }
  }

  /** The row `generate_pivot` appends: each row dimension labelled `Total`, every other
      column of the aggregated table summed. */
  function TotalRow(columns: seq<string>, dims: seq<string>, rows: seq<Row>): Row
  {
    map c | c in (set d | d in dims) + (set x | x in columns) ::
      if c in dims then Str("Total") else ColumnSum(Column(rows, c))
  }

  /** The total row's keys are the row dimensions and the table's columns; the dimensions
      read `Total`, and with no row dimension every cell is a column total. */
  lemma TotalRowSpec(columns: seq<string>, dims: seq<string>, rows: seq<Row>)
    ensures var tr := TotalRow(columns, dims, rows);
      (forall c :: c in tr <==> c in dims || c in columns)
      && (forall c :: c in dims ==> tr[c] == Str("Total"))
      && (forall c :: c in columns && c !in dims ==> tr[c] == ColumnSum(Column(rows, c)))
  {
  }

  /** The two loops that build `total_row`. */
  method BuildTotalRow(columns: seq<string>, dims: seq<string>, rows: seq<Row>) returns (total: Row)
    ensures total == TotalRow(columns, dims, rows)
  {
    total := map[];
    for i := 0 to |dims|
      invariant total.Keys == set d | d in dims[..i]
      invariant forall c :: c in total ==> total[c] == Str("Total")
    {
      total := total[dims[i] := Str("Total")];
      assert dims[..i + 1] == dims[..i] + [dims[i]];
    }
    assert dims[..|dims|] == dims;
    for j := 0 to |columns|
      invariant total.Keys == (set d | d in dims) + (set x | x in columns[..j])
      invariant forall c :: c in total ==> total[c] == if c in dims then Str("Total") else ColumnSum(Column(rows, c))
    {
      var col := columns[j];
      if col !in dims {
        total := total[col := ColumnSum(Column(rows, col))];
      }
      assert columns[..j + 1] == columns[..j] + [col];
    }
    assert columns[..|columns|] == columns;
  }

  /** The columns after `pd.concat`: the table's own, then any key of the new row that the
      table lacks, in the order of the row dimensions. */
  function ExtendColumns(columns: seq<string>, dims: seq<string>): seq<string>
    decreases |dims|
  {
    if dims == [] then columns
    else ExtendColumns(if dims[0] in columns then columns else columns + [dims[0]], dims[1..])
  }

  /** Step 7 as a whole: exactly one row is added, at the end. */
  method AppendTotalRow(t: Table, dims: seq<string>) returns (r: Table)
    ensures r.rows == t.rows + [TotalRow(t.columns, dims, t.rows)]
    ensures r.columns == ExtendColumns(t.columns, dims)
  {
    var total := BuildTotalRow(t.columns, dims, t.rows);
    r := Table(ExtendColumns(t.columns, dims), t.rows + [total]);
  }

  // ---------------------------------------------------------------------------------
  // Step 8: readable labels.

  /** `pivot.replace({"__NULL__": "null", "__EMPTY__": "empty"})` on one cell: only a cell
      that is exactly a sentinel changes. */
  function RestoreCell(c: Cell): Cell
  {
    if c == Str(NullSentinel) then Str("null")
    else if c == Str(EmptySentinel) then Str("empty")
    else c
  }

  function RestoreRow(row: Row): Row
  {
    map k | k in row :: RestoreCell(row[k])
  }

  function RestoreTable(t: Table): Table
  {
    Table(t.columns, seq(|t.rows|, k requires 0 <= k < |t.rows| => RestoreRow(t.rows[k])))
  }

  /** Read back after step 1, a null reads `null`, a blank `empty`, and a number or
      non-blank text is as it was unless it was itself a sentinel. No sentinel is left. */
  lemma RestoreAfterCanon(c: Cell)
    ensures c.Null? ==> RestoreCell(CanonCell(c)) == Str("null")
    ensures c.Str? && Strip(c.s) == [] ==> RestoreCell(CanonCell(c)) == Str("empty")
    ensures IsCanonical(c) && c != Str(NullSentinel) && c != Str(EmptySentinel) ==> RestoreCell(CanonCell(c)) == c
    ensures c.NaN? ==> RestoreCell(CanonCell(c)) == NaN
    ensures RestoreCell(c) != Str(NullSentinel) && RestoreCell(c) != Str(EmptySentinel)
  {
  }

  /** Restoring twice is restoring once. */
  lemma RestoreTableIdempotent(t: Table)
    ensures RestoreTable(RestoreTable(t)) == RestoreTable(t)
  {
    var r := RestoreTable(t);
    forall k | 0 <= k < |r.rows| ensures RestoreRow(r.rows[k]) == r.rows[k] {
    }
  }

  // ---------------------------------------------------------------------------------
  // `generate_pivot`.

  /** The request as the endpoint declares it; its filters carry only a column. */
  datatype PivotRequest = PivotRequest(
    rows: seq<string>,
    columns: seq<string>,
    values: seq<string>,
    aggfunc: AggRequest,
    calculatedFields: seq<CalculatedField>,
    filters: seq<FilterItem>)

  datatype PivotError =
    | NoActiveDataset
    | CalculatedFieldError(field: FieldError)
    | AggregationError(agg: AggError)
    | PivotFailed(message: string)  // `pd.pivot_table` raised

  /** Whether step 2 rejects the request's calculated fields over these columns, in their
      translation or in their evaluation. */
  predicate CalcFails(columns: seq<string>, fields: seq<CalculatedField>, evaluates: Evaluates)
  {
    fields != [] && Evaluated(evaluates, fields, ColumnSet(columns)).Err?
  }

  /** The columns of the frame after step 2: the data set's own and one per calculated field. */
  function FrameColumns(t: Table, fields: seq<CalculatedField>): set<string>
  {
    ColumnSet(t.columns) + Names(fields)
  }

  /** The table the endpoint returns from the pivot result: the total row appended, then the
      sentinels restored. */
  function Finished(aggregated: Table, dims: seq<string>): Table
  {
    RestoreTable(Table(ExtendColumns(aggregated.columns, dims),
                       aggregated.rows + [TotalRow(aggregated.columns, dims, aggregated.rows)]))
  }

  /** Steps 1 and 2: the active data set, canonicalised, once its calculated fields translate
      and evaluate. */
  method PrepareFrame(active: string, datasets: map<string, Table>, fields: seq<CalculatedField>,
                      evaluates: Evaluates)
    returns (r: Result<Table, PivotError>)
    ensures active !in datasets ==> r == Err(NoActiveDataset)
    ensures active in datasets && CalcFails(datasets[active].columns, fields, evaluates) ==>
      r == Err(CalculatedFieldError(Evaluated(evaluates, fields, ColumnSet(datasets[active].columns)).error))
    ensures active in datasets && !CalcFails(datasets[active].columns, fields, evaluates) ==>
      r == Ok(CanonTable(datasets[active]))
  {
    if active !in datasets {
      return Err(NoActiveDataset);
    }
    var df := Canonicalize(datasets[active]);
    if fields != [] {
      var exprs := ApplyCalculatedFields(df.columns, fields, evaluates);
      if exprs.Err? {
        return Err(CalculatedFieldError(exprs.error));
      }
    }
    r := Ok(df);
  }

  /** Steps 4 to 8: the aggregation state is merged first, so it keeps the merge even when
      a value column is missing and building the aggregation dictionary fails, or when
      `pd.pivot_table` raises. `aggregated` is what the pivot gives: the table
      `pd.pivot_table(...).reset_index()` returns, or the message of the exception it raises. */
  method AggregateAndTotal(state: AggregationState, active: string, req: PivotRequest,
                           kinds: map<string, ColumnKind>, aggregated: Result<Table, string>)
    returns (r: Result<Table, PivotError>)
    modifies state
    ensures state.byDataset == old(state.byDataset)[active := Merged(old(state.Entry(active)), req.aggfunc, req.values)]
    ensures r.Err? && r.error.AggregationError? <==> exists c :: c in req.values && c !in kinds
    ensures r.Err? && r.error.AggregationError? ==> r.error.agg.column in req.values && r.error.agg.column !in kinds
    ensures (forall c :: c in req.values ==> c in kinds) && aggregated.Err? ==> r == Err(PivotFailed(aggregated.error))
    ensures r.Ok? <==> (forall c :: c in req.values ==> c in kinds) && aggregated.Ok?
    ensures r.Ok? ==> r.value == Finished(aggregated.value, req.rows)
  {
    state.Merge(active, req.aggfunc, req.values);
    var aggDict := state.BuildAggDict(active, req.values, kinds);
    if aggDict.Err? {
      return Err(AggregationError(aggDict.error));
    }
    if aggregated.Err? {
      return Err(PivotFailed(aggregated.error));
    }
    var withTotal := AppendTotalRow(aggregated.value, req.rows);
    r := Ok(RestoreTable(withTotal));
  }

  /** `generate_pivot` as written. `evaluates` says which translated formulas evaluate,
      `kinds` gives the data type of each column of the frame after step 2 (the data set's
      columns and the calculated fields), and `aggregated` what `pd.pivot_table` gives;
      `frame` is the frame handed to the pivot, which every filter leaves as it is. */
  method GeneratePivot(state: AggregationState, active: string, datasets: map<string, Table>,
                       req: PivotRequest, evaluates: Evaluates, kinds: map<string, ColumnKind>,
                       aggregated: Result<Table, string>)
    returns (r: Result<Table, PivotError>, frame: Table)
    requires active in datasets ==> kinds.Keys == FrameColumns(datasets[active], req.calculatedFields)
    modifies state
    ensures active !in datasets ==> r == Err(NoActiveDataset) && state.byDataset == old(state.byDataset)
    ensures active in datasets && CalcFails(datasets[active].columns, req.calculatedFields, evaluates) ==>
      r == Err(CalculatedFieldError(Evaluated(evaluates, req.calculatedFields, ColumnSet(datasets[active].columns)).error))
      && state.byDataset == old(state.byDataset)
    ensures active in datasets && !CalcFails(datasets[active].columns, req.calculatedFields, evaluates) ==>
      frame == FiltersAsWritten(CanonTable(datasets[active]), req.filters)
      && frame == CanonTable(datasets[active])
      && state.byDataset == old(state.byDataset)[active := Merged(old(state.Entry(active)), req.aggfunc, req.values)]
      && (r.Err? && r.error.AggregationError? <==>
            exists c :: c in req.values && c !in FrameColumns(datasets[active], req.calculatedFields))
      && (aggregated.Err? && (forall c :: c in req.values ==> c in FrameColumns(datasets[active], req.calculatedFields)) ==>
            r == Err(PivotFailed(aggregated.error)))
      && (r.Ok? <==> (forall c :: c in req.values ==> c in FrameColumns(datasets[active], req.calculatedFields)) && aggregated.Ok?)
      && (r.Ok? ==> r.value == Finished(aggregated.value, req.rows))
  {
    frame := Table([], []);
    var df := PrepareFrame(active, datasets, req.calculatedFields, evaluates);
    if df.Err? {
      return df.PropagateFailure(), frame;
    }
    frame := FiltersAsWritten(df.value, req.filters);
    FiltersAsWrittenKeepAll(df.value, req.filters);
    r := AggregateAndTotal(state, active, req, kinds, aggregated);
  }

  /** `generate_pivot` with the filter loop as evidently meant: `filters` are the column and
      value pairs the front end sends, and `frame` keeps the rows matching them. Everything
      else is as in `GeneratePivot`. */
  method GeneratePivotIntended(state: AggregationState, active: string, datasets: map<string, Table>,
                               req: PivotRequest, filters: seq<EqualityFilter>, evaluates: Evaluates,
                               kinds: map<string, ColumnKind>, aggregated: Result<Table, string>)
    returns (r: Result<Table, PivotError>, frame: Table)
    requires active in datasets ==> kinds.Keys == FrameColumns(datasets[active], req.calculatedFields)
    modifies state
    ensures active !in datasets ==> r == Err(NoActiveDataset) && state.byDataset == old(state.byDataset)
    ensures active in datasets && CalcFails(datasets[active].columns, req.calculatedFields, evaluates) ==>
      r == Err(CalculatedFieldError(Evaluated(evaluates, req.calculatedFields, ColumnSet(datasets[active].columns)).error))
      && state.byDataset == old(state.byDataset)
    ensures active in datasets && !CalcFails(datasets[active].columns, req.calculatedFields, evaluates) ==>
      frame == Filtered(CanonTable(datasets[active]), filters)
      && state.byDataset == old(state.byDataset)[active := Merged(old(state.Entry(active)), req.aggfunc, req.values)]
      && (r.Err? && r.error.AggregationError? <==>
            exists c :: c in req.values && c !in FrameColumns(datasets[active], req.calculatedFields))
      && (aggregated.Err? && (forall c :: c in req.values ==> c in FrameColumns(datasets[active], req.calculatedFields)) ==>
            r == Err(PivotFailed(aggregated.error)))
      && (r.Ok? <==> (forall c :: c in req.values ==> c in FrameColumns(datasets[active], req.calculatedFields)) && aggregated.Ok?)
      && (r.Ok? ==> r.value == Finished(aggregated.value, req.rows))
  {
    frame := Table([], []);
    var df := PrepareFrame(active, datasets, req.calculatedFields, evaluates);
    if df.Err? {
      return df.PropagateFailure(), frame;
    }
    frame := ApplyFilters(df.value, filters);
    r := AggregateAndTotal(state, active, req, kinds, aggregated);
  }
}
