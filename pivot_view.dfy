/** The pivot table view of frontend/callbacks/pivot_callback.py (`generate_table`): the
    early returns, the request it sends, and the rows it displays from the reply. The
    request itself is a parameter (`post`), since the network is not part of this model. */
module PivotView {
  import opened Text
  import opened CalcFields
  import opened Hierarchy

  /** One `{"column": c, "value": v}` entry of the request's filters. */
  datatype FilterPair = FilterPair(column: string, value: string)

  /** The request body. */
  datatype Payload = Payload(
    datasetId: string, rows: seq<string>, columns: seq<string>, values: seq<string>,
    aggfunc: Option<string>, calculatedFields: seq<CalculatedField>, filters: seq<FilterPair>)

  /** What the request returns: an error text, or the table of the reply. */
  datatype Reply = Failed(error: string) | Frame(columns: seq<string>, records: seq<Record>)

  /** The callback's outcome: a notice (with empty data and configuration), the displayed
      table with the data and the request it came from, or the failure raised when a row has
      fewer cells than there are row dimensions. */
  datatype View =
    | Notice(text: string)
    | Rendered(records: seq<Record>, config: Payload, placed: seq<PlacedRow>)
    | RowTooShort(row: nat)

  const SelectMessage := "Select a dataset and click Generate Table."
  const NoDataPrefix := "No data found. "

  function Min(a: nat, b: nat): nat
  {
    if a <= b then a else b
  }

  /** The filters from the first `n` positions of the two lists, in order. */
  function KeptUpTo(cols: seq<Option<string>>, vals: seq<Option<string>>, n: nat): (r: seq<FilterPair>)
    requires n <= |cols| && n <= |vals|
    ensures |r| <= n
  {
    if n == 0 then []
    else
      KeptUpTo(cols, vals, n - 1)
        + (if Truthy(cols[n - 1]) && Truthy(vals[n - 1]) then [FilterPair(cols[n - 1].value, vals[n - 1].value)] else [])
  }

  /** `zip(filter_cols, filter_vals)` keeping the pairs whose column and value are both set. */
  function KeptPairs(cols: seq<Option<string>>, vals: seq<Option<string>>): seq<FilterPair>
  {
    KeptUpTo(cols, vals, Min(|cols|, |vals|))
  }

  /** Every kept filter has a column and a value, taken from one position within the
      shorter list; every position within it where both are set gives a filter. */
  lemma {:induction false} KeptUpToSpec(cols: seq<Option<string>>, vals: seq<Option<string>>, n: nat)
    requires n <= |cols| && n <= |vals|
    ensures forall f :: f in KeptUpTo(cols, vals, n) ==>
      f.column != "" && f.value != ""
      && exists j :: 0 <= j < n && cols[j] == Some(f.column) && vals[j] == Some(f.value)
    ensures forall j :: 0 <= j < n && Truthy(cols[j]) && Truthy(vals[j]) ==>
      FilterPair(cols[j].value, vals[j].value) in KeptUpTo(cols, vals, n)
  {
    if n > 0 {
      KeptUpToSpec(cols, vals, n - 1);
    }
  }

  /** The filter loop of `generate_table`. */
  method BuildFilters(filterCols: Option<seq<Option<string>>>, filterVals: Option<seq<Option<string>>>)
    returns (filters: seq<FilterPair>)
    ensures filters == KeptPairs(OrEmpty(filterCols), OrEmpty(filterVals))
  {
    filters := [];
    var cols := OrEmpty(filterCols);
    var vals := OrEmpty(filterVals);
    if cols != [] && vals != [] {
      for i := 0 to Min(|cols|, |vals|)
        invariant filters == KeptUpTo(cols, vals, i)
      {
        var c, v := cols[i], vals[i];
        if Truthy(c) && Truthy(v) {
          filters := filters + [FilterPair(c.value, v.value)];
        }
      }
    }
  }

  /** The request `generate_table` sends once a data set is chosen. */
  function PayloadOf(ds: string, rows: Option<seq<string>>, cols: Option<seq<string>>, vals: Option<seq<string>>,
                     aggfunc: Option<string>, calcStore: Option<seq<CalculatedField>>,
                     filterCols: Option<seq<Option<string>>>, filterVals: Option<seq<Option<string>>>): Payload
  {
    Payload(ds, OrEmpty(rows), OrEmpty(cols), OrEmpty(vals), aggfunc, OrEmpty(calcStore),
            KeptPairs(OrEmpty(filterCols), OrEmpty(filterVals)))
  }

  /** `df.empty`: no rows or no columns. */
  predicate EmptyFrame(columns: seq<string>, records: seq<Record>)
  {
    columns == [] || records == []
  }

  /** The rows as displayed, given the reply's rows and the number of row dimensions. */
  function Display(records: seq<Record>, n: nat): seq<PlacedRow>
    requires Wide(records, n)
  {
    var keys := RowKeys(records, n);
    PlacedAll(records, n, keys, ChildrenMap(keys), Placement(TotalFlags(records, n)))
  }

  /** `generate_table` of pivot_callback.py up to the HTML it builds. */
  method GenerateTable(ds: Option<string>, rows: Option<seq<string>>, cols: Option<seq<string>>,
                       vals: Option<seq<string>>, aggfunc: Option<string>, calcStore: Option<seq<CalculatedField>>,
                       filterCols: Option<seq<Option<string>>>, filterVals: Option<seq<Option<string>>>,
                       post: Payload -> Reply)
    returns (v: View)
    ensures !Truthy(ds) ==> v == Notice(SelectMessage)
    ensures Truthy(ds) ==>
      var p := PayloadOf(ds.value, rows, cols, vals, aggfunc, calcStore, filterCols, filterVals);
      match post(p)
      case Failed(e) => v == Notice(NoDataPrefix + e)
      case Frame(c, recs) =>
        if EmptyFrame(c, recs) then v == Notice(NoDataPrefix)
        else if Wide(recs, |OrEmpty(rows)|) then v == Rendered(recs, p, Display(recs, |OrEmpty(rows)|))
        else v.RowTooShort? && v.row < |recs| && |recs[v.row]| < |OrEmpty(rows)| && Wide(recs[..v.row], |OrEmpty(rows)|)
    ensures v.Rendered? ==>
      (v.config.rows == OrEmpty(rows) && v.config.columns == OrEmpty(cols)
       && v.config.values == OrEmpty(vals) && v.config.calculatedFields == OrEmpty(calcStore))
  {
    if !Truthy(ds) {
      return Notice(SelectMessage);
    }
    var filters := BuildFilters(filterCols, filterVals);
    var payload := Payload(ds.value, OrEmpty(rows), OrEmpty(cols), OrEmpty(vals), aggfunc, OrEmpty(calcStore), filters);
    var reply := post(payload);
    if reply.Failed? {
      return Notice(NoDataPrefix + reply.error);
    }
    if EmptyFrame(reply.columns, reply.records) {
      return Notice(NoDataPrefix);
    }
    var n := |OrEmpty(rows)|;
    var records := reply.records;
    var keys := DeriveKeys(records, n);
    if keys.Err? {
      return RowTooShort(keys.error);
    }
    var children := BuildChildrenMap(keys.value);
    var placed := PlaceRows(records, n, keys.value, children);
    v := Rendered(records, payload, placed);
  }
}
