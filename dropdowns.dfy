/** The option lists of the row, column and value pickers (`populate_dropdowns` and its
    `make_options` in frontend/callbacks/dropdowns.py and dashboard.py): the data set's
    columns followed by the calculated field names, each once. */
module Dropdowns {
  import opened Text
  import opened CalcFields
  import opened CalcStore

  /** One entry of a picker: its label (`display`) and its value. */
  datatype DropdownOption = DropdownOption(display: string, value: string)

  /** The options for a list of values, each labelled with itself. */
  function OptionsOf(values: seq<string>): (r: seq<DropdownOption>)
    ensures |r| == |values|
    ensures forall j :: 0 <= j < |r| ==> r[j] == DropdownOption(values[j], values[j])
  {
    seq(|values|, j requires 0 <= j < |values| => DropdownOption(values[j], values[j]))
  }

  /** `make_options`: one loop over the columns and then the extra names, with the values
      already emitted in a set. */
  method MakeOptions(base: Option<seq<string>>, extra: seq<string>) returns (opts: seq<DropdownOption>)
    ensures opts == OptionsOf(Dedup(OrEmpty(base) + extra))
  {
    var all := OrEmpty(base) + extra;
    var seen: set<string> := {};
    opts := [];
    ghost var d: seq<string> := [];
    assert all[..0] == [];
    for i := 0 to |all|
      invariant d == Dedup(all[..i])
      invariant forall x :: x in seen <==> x in all[..i]
      invariant opts == OptionsOf(d)
    {
      var c := all[i];
      DedupStep(all, i);
      if c !in seen {
        seen := seen + {c};
        OptionsOfSnoc(d, c);
        opts := opts + [DropdownOption(c, c)];
        d := d + [c];
      }
    }
    assert all[..|all|] == all;
  }

  /** One more value: `Dedup` keeps it exactly when it has not been seen. */
  lemma DedupStep(all: seq<string>, i: nat)
    requires i < |all|
    ensures forall x :: x in all[..i + 1] <==> x in all[..i] || x == all[i]
    ensures Dedup(all[..i + 1]) == if all[i] in all[..i] then Dedup(all[..i]) else Dedup(all[..i]) + [all[i]]
  {
    assert all[..i + 1][..i] == all[..i] && all[..i + 1][i] == all[i];
  }

  /** Options of one more value. */
  lemma OptionsOfSnoc(vs: seq<string>, x: string)
    ensures OptionsOf(vs + [x]) == OptionsOf(vs) + [DropdownOption(x, x)]
  {
  }

  /** Each option's label is its value, no value appears twice, and every column and extra
      name is offered. */
  lemma OptionsSpec(base: seq<string>, extra: seq<string>)
    ensures var opts := OptionsOf(Dedup(base + extra));
      (forall j :: 0 <= j < |opts| ==> opts[j].display == opts[j].value)
      && (forall i, j :: 0 <= i < j < |opts| ==> opts[i].value != opts[j].value)
      && (forall x :: x in base + extra <==> exists j :: 0 <= j < |opts| && opts[j].value == x)
  {
    var d := Dedup(base + extra);
    var opts := OptionsOf(d);
    forall x | x in base + extra ensures exists j :: 0 <= j < |opts| && opts[j].value == x {
      var j :| 0 <= j < |d| && d[j] == x;
      assert opts[j].value == x;
    }
  }

  /** Options follow the first occurrences of their values; in particular every column of
      the data set comes before every calculated name that is not also a column. */
  lemma ColumnsBeforeCalculated(base: seq<string>, extra: seq<string>, i: nat, j: nat)
    requires i < |Dedup(base + extra)| && j < |Dedup(base + extra)|
    requires Dedup(base + extra)[i] in base && Dedup(base + extra)[j] !in base
    ensures i < j
  {
    var all := base + extra;
    var d := Dedup(all);
    FirstIndexAppend(base, extra, d[i]);
    var kj := FirstIndex(all, d[j]);
    assert forall k :: 0 <= k < |base| ==> all[k] != d[j] by {
      assert forall k :: 0 <= k < |base| ==> all[k] == base[k];
    }
    assert |base| <= kj;
    if j < i {
      DedupFirstOccurrenceOrder(all, j, i);
    }
  }

  /** The five option lists: the three table pickers share one, the two chart pickers the
      other. */
  datatype PickerOptions = PickerOptions(
    tableRows: seq<DropdownOption>, tableCols: seq<DropdownOption>, tableVals: seq<DropdownOption>,
    chartRows: seq<DropdownOption>, chartVals: seq<DropdownOption>)

  /** `populate_dropdowns`: a `None` store counts as empty. */
  method PopulateDropdowns(columns: Option<seq<string>>, calcStore: Option<seq<CalculatedField>>,
                           chartStore: Option<seq<CalculatedField>>)
    returns (r: PickerOptions)
    ensures r.tableRows == r.tableCols == r.tableVals == OptionsOf(Dedup(OrEmpty(columns) + NameList(calcStore)))
    ensures r.chartRows == r.chartVals == OptionsOf(Dedup(OrEmpty(columns) + NameList(chartStore)))
  {
    var tableOpts := MakeOptions(columns, NameList(calcStore));
    var chartOpts := MakeOptions(columns, NameList(chartStore));
    r := PickerOptions(tableOpts, tableOpts, tableOpts, chartOpts, chartOpts);
  }
}
