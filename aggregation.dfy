/** The aggregation policy of backend.py: how a user's aggregation keyword becomes the
    aggregator handed to the pivot (`_get_pandas_aggfunc`), and the per-data-set,
    per-column memory of chosen keywords that `generate_pivot` keeps between requests
    (`ACTIVE_PIVOT_AGG`). */
module Aggregation {
  import opened Text

  /** What the policy needs to know of a column's data type. */
  datatype ColumnKind = IntegerColumn | FloatColumn | BooleanColumn | DatetimeColumn | ObjectColumn

  /** numpy's `issubdtype(dtype, np.number)`: integers and floats only. */
  predicate IsNumeric(k: ColumnKind)
  {
    k == IntegerColumn || k == FloatColumn
  }

  /** An aggregator as pandas receives it: a method name, or the function
      `pd.Series.nunique`. */
  datatype AggFunc = Named(name: string) | SeriesNUnique

  predicate IsDistinctKeyword(agg: string)
  {
    agg == "count_distinct" || agg == "distinct" || agg == "nunique"
  }

  predicate IsMeanKeyword(agg: string)
  {
    agg == "avg" || agg == "mean"
  }

  /** `user_agg or "sum"`, lower-cased. */
  function Keyword(userAgg: string): string
  {
    Lower(if userAgg == [] then "sum" else userAgg)
  }

  /** `_get_pandas_aggfunc`. */
  function GetPandasAggfunc(kind: ColumnKind, userAgg: string): AggFunc
  {
    var agg := Keyword(userAgg);
    if IsNumeric(kind) then
      if IsMeanKeyword(agg) then Named("mean")
      else if IsDistinctKeyword(agg) then SeriesNUnique
      else Named(agg)
    else
      if agg == "count" || IsDistinctKeyword(agg) then
        if IsDistinctKeyword(agg) then SeriesNUnique else Named("count")
      else Named("count")
  }

  /** The distinct-count keywords map to `nunique` on every column; otherwise a numeric
      column gets `mean` for `avg`/`mean` and the keyword itself, and any other column is
      counted. */
  lemma AggfuncSpec(kind: ColumnKind, userAgg: string)
    ensures var r := GetPandasAggfunc(kind, userAgg);
      (r == SeriesNUnique <==> IsDistinctKeyword(Keyword(userAgg)))
      && (!IsNumeric(kind) ==> r == SeriesNUnique || r == Named("count"))
      && (IsNumeric(kind) && IsMeanKeyword(Keyword(userAgg)) ==> r == Named("mean"))
      && (IsNumeric(kind) && !IsMeanKeyword(Keyword(userAgg)) && !IsDistinctKeyword(Keyword(userAgg))
        ==> r == Named(Keyword(userAgg)))
  {
  }

  /** The keyword is compared without regard to case. */
  lemma AggfuncIgnoresCase(kind: ColumnKind, userAgg: string)
    ensures GetPandasAggfunc(kind, Lower(userAgg)) == GetPandasAggfunc(kind, userAgg)
  {
    LowerIdempotent(userAgg);
    assert Lower(userAgg) == [] <==> userAgg == [];
  }

  /** No keyword means `sum`. */
  lemma AggfuncDefaultsToSum(kind: ColumnKind)
    ensures GetPandasAggfunc(kind, "") == GetPandasAggfunc(kind, "sum")
    ensures IsNumeric(kind) ==> GetPandasAggfunc(kind, "") == Named("sum")
    ensures !IsNumeric(kind) ==> GetPandasAggfunc(kind, "") == Named("count")
  {
    assert Lower("sum") == "sum";
  }

  /** A request's aggregation: a keyword per column, or one keyword for every value column. */
  datatype AggRequest = PerColumn(byColumn: map<string, string>) | Global(keyword: string)

  /** The keywords a data set remembers after the bare keyword `kw` is applied to `values`
      one column at a time: a column that already has one keeps it. */
  function FillMissing(entry: map<string, string>, values: seq<string>, kw: string): map<string, string>
    decreases |values|
  {
    if values == [] then entry
    else FillMissing(if values[0] in entry then entry else entry[values[0] := kw], values[1..], kw)
  }

  /** The remembered keywords after one request. */
  function Merged(entry: map<string, string>, req: AggRequest, values: seq<string>): map<string, string>
  {
    match req
    case PerColumn(m) => entry + m
    case Global(kw) => FillMissing(entry, values, kw)
  }

  /** A per-column request overwrites exactly the columns it names. */
  lemma PerColumnOverwrites(entry: map<string, string>, m: map<string, string>, values: seq<string>)
    ensures var r := Merged(entry, PerColumn(m), values);
      r.Keys == entry.Keys + m.Keys
      && (forall c :: c in m ==> r[c] == m[c])
      && (forall c :: c in entry && c !in m ==> r[c] == entry[c])
  {
  }

  /** A bare keyword is stored only for value columns that have none yet: the first
      keyword written for a column wins. */
  lemma {:induction false} GlobalFillsOnlyMissing(entry: map<string, string>, values: seq<string>, kw: string)
    ensures var r := FillMissing(entry, values, kw);
      r.Keys == entry.Keys + (set c | c in values)
      && (forall c :: c in entry ==> r[c] == entry[c])
      && (forall c :: c in values && c !in entry ==> r[c] == kw)
    decreases |values|
  {
    if values != [] {
      var e1 := if values[0] in entry then entry else entry[values[0] := kw];
      GlobalFillsOnlyMissing(e1, values[1..], kw);
      assert forall c :: c in values <==> c == values[0] || c in values[1..];
    }
  }

  /** Once stored, a column's keyword survives every later bare-keyword request. */
  lemma GlobalKeepsStored(entry: map<string, string>, values: seq<string>, kw: string, c: string)
    requires c in entry
    ensures c in Merged(entry, Global(kw), values) && Merged(entry, Global(kw), values)[c] == entry[c]
  {
    GlobalFillsOnlyMissing(entry, values, kw);
  }

  /** Why the aggregation dictionary cannot be built: a value column the data has not got. */
  datatype AggError = MissingColumn(column: string)

  /** The keyword remembered for a column, `sum` when there is none. */
  function StoredOrSum(entry: map<string, string>, c: string): string
  {
    if c in entry then entry[c] else "sum"
  }

  /** The aggregator of each of `cols`, from its remembered keyword or `sum`. */
  function AggMap(cols: seq<string>, kinds: map<string, ColumnKind>, entry: map<string, string>): map<string, AggFunc>
    requires forall j :: 0 <= j < |cols| ==> cols[j] in kinds
  {
    if cols == [] then map[]
    else
      var c := cols[|cols| - 1];
      AggMap(cols[..|cols| - 1], kinds, entry)[c := GetPandasAggfunc(kinds[c], StoredOrSum(entry, c))]
  }

  lemma AggMapSnoc(cols: seq<string>, kinds: map<string, ColumnKind>, entry: map<string, string>, i: nat)
    requires i < |cols| && forall j :: 0 <= j <= i ==> cols[j] in kinds
    ensures AggMap(cols[..i + 1], kinds, entry) ==
      AggMap(cols[..i], kinds, entry)[cols[i] := GetPandasAggfunc(kinds[cols[i]], StoredOrSum(entry, cols[i]))]
  {
    assert cols[..i + 1][..i] == cols[..i];
  }

  /** One aggregator for exactly the listed columns, each chosen by the policy. */
  lemma {:induction false} AggMapSpec(cols: seq<string>, kinds: map<string, ColumnKind>, entry: map<string, string>)
    requires forall j :: 0 <= j < |cols| ==> cols[j] in kinds
    ensures AggMap(cols, kinds, entry).Keys == set c | c in cols
    ensures forall c :: c in cols ==> AggMap(cols, kinds, entry)[c] == GetPandasAggfunc(kinds[c], StoredOrSum(entry, c))
  {
    if cols != [] {
      var init := cols[..|cols| - 1];
      AggMapSpec(init, kinds, entry);
      assert cols == init + [cols[|cols| - 1]];
      assert forall c :: c in cols <==> c in init || c == cols[|cols| - 1];
    }
  }

  /** `ACTIVE_PIVOT_AGG`: for each data set, the keyword remembered for each column. */
  class AggregationState {
    var byDataset: map<string, map<string, string>>

    constructor()
      ensures byDataset == map[]
    {
      byDataset := map[];
    }

    /** The remembered keywords of a data set, empty when it has none yet. */
    function Entry(ds: string): map<string, string>
      reads this
    {
      if ds in byDataset then byDataset[ds] else map[]
    }

    /** Step 4 of `generate_pivot`: create the data set's map if it is missing, then merge
        the request into it. No other data set is touched. */
    method Merge(ds: string, req: AggRequest, values: seq<string>)
      modifies this
      ensures byDataset == old(byDataset)[ds := Merged(old(Entry(ds)), req, values)]
    {
      if ds !in byDataset {
        byDataset := byDataset[ds := map[]];
      }
      match req {
        case PerColumn(m) =>
          byDataset := byDataset[ds := byDataset[ds] + m];
        case Global(kw) =>
          ghost var target := FillMissing(byDataset[ds], values, kw);
          var i := 0;
          assert values[0..] == values;
          while i < |values|
            invariant 0 <= i <= |values|
            invariant ds in byDataset
            invariant byDataset == old(byDataset)[ds := byDataset[ds]]
            invariant FillMissing(byDataset[ds], values[i..], kw) == target
          {
            assert values[i..][0] == values[i] && values[i..][1..] == values[i + 1..];
            var col := values[i];
            if col !in byDataset[ds] {
              byDataset := byDataset[ds := byDataset[ds][col := kw]];
            }
            i := i + 1;
          }
          assert values[i..] == [];
      }
    }

    /** The `agg_dict` loop: one aggregator per value column, from the remembered keyword
        or `sum`. A value column missing from the data stops it (the source's `df[col]`
        raises). */
    method BuildAggDict(ds: string, values: seq<string>, kinds: map<string, ColumnKind>)
      returns (r: Result<map<string, AggFunc>, AggError>)
      ensures r.Ok? <==> forall c :: c in values ==> c in kinds
      ensures r.Ok? ==> r.value.Keys == (set c | c in values)
      ensures r.Ok? ==> forall c :: c in values ==> r.value[c] == GetPandasAggfunc(kinds[c], StoredOrSum(Entry(ds), c))
      ensures r.Err? ==> exists i :: 0 <= i < |values| && values[i] == r.error.column && values[i] !in kinds
    {
      var entry := Entry(ds);
      var agg: map<string, AggFunc> := map[];
      var i := 0;
      assert values[..0] == [];
      while i < |values|
        invariant 0 <= i <= |values|
        invariant forall j :: 0 <= j < i ==> values[j] in kinds
        invariant agg == AggMap(values[..i], kinds, entry)
      {
        var col := values[i];
        if col !in kinds {
          r := Err(MissingColumn(col));
          assert values[i] == r.error.column;
          return;
        }
        var user := if col in entry then entry[col] else "sum";
        assert user == StoredOrSum(entry, col);
        AggMapSnoc(values, kinds, entry, i);
        agg := agg[col := GetPandasAggfunc(kinds[col], user)];
        i := i + 1;
      }
      assert values[..i] == values;
      AggMapSpec(values, kinds, entry);
      r := Ok(agg);
    }
  }
}
