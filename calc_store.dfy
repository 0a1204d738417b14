/** The client-side store of calculated fields: the rows the user adds to enter a field,
    the Save callbacks of dashboard.py and frontend/callbacks/calculatedf.py that append a
    field to the store, and the selection of value columns that follows the store. */
module CalcStore {
  import opened Text
  import opened CalcFields

  /** The names in a store that may be `None`, in store order. */
  function NameList(store: Option<seq<CalculatedField>>): (r: seq<string>)
    ensures |r| == |OrEmpty(store)|
    ensures forall j :: 0 <= j < |r| ==> r[j] == OrEmpty(store)[j].name
  {
    seq(|OrEmpty(store)|, j requires 0 <= j < |OrEmpty(store)| => OrEmpty(store)[j].name)
  }

  predicate NameTaken(store: seq<CalculatedField>, name: string)
  {
    exists f :: f in store && f.name == name
  }

  predicate UniqueNames(store: seq<CalculatedField>)
  {
    forall i, j :: 0 <= i < j < |store| ==> store[i].name != store[j].name
  }

  /** The end of both Save callbacks: a field with a non-empty name and formula is
      appended unless its name is already stored. */
  function AddIfNew(store: seq<CalculatedField>, name: string, formula: string): seq<CalculatedField>
  {
    if name != "" && formula != "" && !NameTaken(store, name) then store + [CalculatedField(name, formula)]
    else store
  }

  /** At most one field is added, at the end; existing fields are kept; names stay unique. */
  lemma AddIfNewSpec(store: seq<CalculatedField>, name: string, formula: string)
    ensures var r := AddIfNew(store, name, formula);
      (r == store || r == store + [CalculatedField(name, formula)])
      && (|r| == |store| + 1 <==> name != "" && formula != "" && !NameTaken(store, name))
      && (UniqueNames(store) ==> UniqueNames(r))
  {
    var r := AddIfNew(store, name, formula);
    if UniqueNames(store) && r != store {
      forall i, j | 0 <= i < j < |r| ensures r[i].name != r[j].name {
        if j == |store| {
          assert store[i] in store;
        }
      }
    }
  }

  /** `any(f["name"] == name for f in store)` followed by the append. */
  method AppendIfNew(store: seq<CalculatedField>, name: string, formula: string) returns (r: seq<CalculatedField>)
    ensures r == AddIfNew(store, name, formula)
  {
    if name == "" || formula == "" {
      return store;
    }
    var taken := false;
    for i := 0 to |store|
      invariant taken <==> exists j :: 0 <= j < i && store[j].name == name
    {
      if store[i].name == name {
        taken := true;
      }
    }
    assert taken <==> NameTaken(store, name) by {
      if NameTaken(store, name) {
        var f :| f in store && f.name == name;
        var j :| 0 <= j < |store| && store[j] == f;
      }
    }
    r := if taken then store else store + [CalculatedField(name, formula)];
  }

  /** Some Save button has been clicked. */
  predicate AnyClicked(clicks: seq<nat>)
  {
    exists j :: 0 <= j < |clicks| && clicks[j] > 0
  }

  /** `clicks.index(max(clicks))`: the first position holding the largest count. */
  function IndexOfMax(clicks: seq<nat>): (k: nat)
    requires clicks != []
    ensures k < |clicks|
    ensures forall j :: 0 <= j < |clicks| ==> clicks[j] <= clicks[k]
    ensures forall j :: 0 <= j < k ==> clicks[j] < clicks[k]
  {
    if |clicks| == 1 then 0
    else
      var k := IndexOfMax(clicks[..|clicks| - 1]);
      if clicks[|clicks| - 1] > clicks[k] then |clicks| - 1 else k
  }

  /** The row `save_calc_field` of dashboard.py reads: the row whose name input shares the
      index of the most clicked Save button, else the row at that button's position when
      there is one. */
  function DashboardRow(clicks: seq<nat>, saveIds: seq<string>, nameIds: seq<string>, names: seq<string>): (r: Option<nat>)
    requires clicks != [] && |saveIds| == |clicks|
    ensures r.Some? ==> r.value < |nameIds| || r.value < |names|
  {
    var idx := IndexOfMax(clicks);
    var t := saveIds[idx];
    if t in nameIds then Some(FirstIndex(nameIds, t))
    else if idx < |names| then Some(idx)
    else None
  }

  /** The search loop of `save_calc_field` over the name inputs' ids. */
  method FindRow(nameIds: seq<string>, t: string) returns (pos: Option<nat>)
    ensures pos.Some? <==> t in nameIds
    ensures pos.Some? ==> pos.value == FirstIndex(nameIds, t)
  {
    for i := 0 to |nameIds|
      invariant t !in nameIds[..i]
    {
      if nameIds[i] == t {
        FirstIndexUnique(nameIds, t, i);
        return Some(i);
      }
      assert nameIds[..i + 1] == nameIds[..i] + [nameIds[i]];
    }
    assert nameIds[..|nameIds|] == nameIds;
    return None;
  }

  /** `save_calc_field` of dashboard.py. Nothing is clicked: the store as it is. Otherwise
      the chosen row's name and formula are appended if new. The three input lists come
      from the same rows, so they are equally long. */
  method SaveCalcFieldDashboard(clicks: seq<nat>, saveIds: seq<string>, nameIds: seq<string>,
                                names: seq<string>, formulas: seq<string>, store: Option<seq<CalculatedField>>)
    returns (r: seq<CalculatedField>)
    requires |saveIds| == |clicks| && |names| == |nameIds| && |formulas| == |names|
    ensures !AnyClicked(clicks) ==> r == OrEmpty(store)
    ensures AnyClicked(clicks) ==> r == match DashboardRow(clicks, saveIds, nameIds, names)
      case None => OrEmpty(store)
      case Some(p) => AddIfNew(OrEmpty(store), names[p], formulas[p])
    ensures UniqueNames(OrEmpty(store)) ==> UniqueNames(r)
    ensures r[..|OrEmpty(store)|] == OrEmpty(store) && |OrEmpty(store)| <= |r| <= |OrEmpty(store)| + 1
  {
    var s := OrEmpty(store);
    var anyClicked := false;
    for j := 0 to |clicks|
      invariant anyClicked <==> exists m :: 0 <= m < j && clicks[m] > 0
    {
      if clicks[j] > 0 {
        anyClicked := true;
      }
    }
    if !anyClicked {
      assert s[..|s|] == s;
      return s;
    }
    var idx := IndexOfMax(clicks);
    var pos := FindRow(nameIds, saveIds[idx]);
    if pos.None? {
      pos := if idx < |names| then Some(idx) else None;
    }
    if pos.None? {
      assert s[..|s|] == s;
      return s;
    }
    r := AppendIfNew(s, names[pos.value], formulas[pos.value]);
    AddIfNewSpec(s, names[pos.value], formulas[pos.value]);
    assert r[..|s|] == s;
  }

  /** The first row whose Save button was clicked at least once and carries the triggering
      index (the `next(...)` of calculatedf.py). */
  function ClickedRow(clicks: seq<nat>, buttonIds: seq<string>, t: string): (r: Option<nat>)
    requires |buttonIds| == |clicks|
    ensures r.Some? ==>
      (r.value < |clicks| && clicks[r.value] > 0 && buttonIds[r.value] == t
       && forall j :: 0 <= j < r.value ==> !(clicks[j] > 0 && buttonIds[j] == t))
    ensures r.None? ==> forall j :: 0 <= j < |clicks| ==> !(clicks[j] > 0 && buttonIds[j] == t)
  {
    if clicks == [] then None
    else if clicks[0] > 0 && buttonIds[0] == t then Some(0)
    else match ClickedRow(clicks[1..], buttonIds[1..], t)
      case None => None
      case Some(j) => Some(j + 1)
  }

  /** `save_calc_field` of calculatedf.py. No trigger, or no clicked button with the
      triggering index: the store as it is. Otherwise the clicked row's name and formula
      are appended if new. */
  method SaveCalcField(trigger: Option<string>, clicks: seq<nat>, buttonIds: seq<string>,
                       names: seq<string>, formulas: seq<string>, store: Option<seq<CalculatedField>>)
    returns (r: seq<CalculatedField>)
    requires |buttonIds| == |clicks| && |names| == |clicks| && |formulas| == |clicks|
    ensures trigger.None? ==> r == OrEmpty(store)
    ensures trigger.Some? ==> r == match ClickedRow(clicks, buttonIds, trigger.value)
      case None => OrEmpty(store)
      case Some(i) => AddIfNew(OrEmpty(store), names[i], formulas[i])
    ensures UniqueNames(OrEmpty(store)) ==> UniqueNames(r)
    ensures r[..|OrEmpty(store)|] == OrEmpty(store) && |OrEmpty(store)| <= |r| <= |OrEmpty(store)| + 1
  {
    var s := OrEmpty(store);
    assert s[..|s|] == s;
    if trigger.None? {
      return s;
    }
    var t := trigger.value;
    var idx: Option<nat> := None;
    for i := 0 to |clicks|
      invariant forall j :: 0 <= j < i ==> !(clicks[j] > 0 && buttonIds[j] == t)
    {
      if clicks[i] > 0 && buttonIds[i] == t {
        idx := Some(i);
        break;
      }
    }
    assert idx == ClickedRow(clicks, buttonIds, t);
    if idx.None? {
      return s;
    }
    r := AppendIfNew(s, names[idx.value], formulas[idx.value]);
    AddIfNewSpec(s, names[idx.value], formulas[idx.value]);
    assert r[..|s|] == s;
  }

  /** One row of inputs for a new calculated field, known by the index its three inputs
      share, with the name the name input starts with. */
  datatype CalcRow = CalcRow(index: string, defaultName: string)

  const AddTableTrigger := "add-calc-field-table"

  /** Python's `s[-k:]`. */
  function LastChars(s: string, k: nat): (r: string)
    ensures |r| == if |s| <= k then |s| else k
    ensures s == s[..|s| - |r|] + r
  {
    if |s| <= k then s else s[|s| - k..]
  }

  /** `update_calc_fields` of calculatedf.py; `ts` is the time stamp text (the clock is not
      part of this model). */
  method UpdateCalcFields(children: Option<seq<CalcRow>>, trigger: Option<string>, ts: string)
    returns (r: seq<CalcRow>)
    ensures trigger == Some(AddTableTrigger) ==> r == OrEmpty(children) + [CalcRow(ts, "calc_" + LastChars(ts, 8))]
    ensures trigger != Some(AddTableTrigger) ==> r == OrEmpty(children)
  {
    r := OrEmpty(children);
    if trigger == Some(AddTableTrigger) {
      r := r + [CalcRow(ts, "calc_" + LastChars(ts, 8))];
    }
  }

  predicate UniqueIndices(rows: seq<CalcRow>)
  {
    forall i, j :: 0 <= i < j < |rows| ==> rows[i].index != rows[j].index
  }

  /** With a time stamp no row has used yet, the rows' indices stay distinct, and the new
      row's default name ends with the last eight characters of the stamp. */
  lemma AddedRowIsFresh(children: Option<seq<CalcRow>>, ts: string)
    requires UniqueIndices(OrEmpty(children))
    requires forall j :: 0 <= j < |OrEmpty(children)| ==> OrEmpty(children)[j].index != ts
    ensures var r := OrEmpty(children) + [CalcRow(ts, "calc_" + LastChars(ts, 8))];
      UniqueIndices(r) && |r| == |OrEmpty(children)| + 1
      && r[|r| - 1].defaultName[..5] == "calc_" && |r[|r| - 1].defaultName| == 5 + (if |ts| <= 8 then |ts| else 8)
  {
  }

  /** The selected value columns after each calculated name not yet among them is appended. */
  function Extend(current: seq<string>, names: seq<string>): seq<string>
    decreases |names|
  {
    if names == [] then current
    else Extend(if names[0] in current then current else current + [names[0]], names[1..])
  }

  /** Earlier selections keep their places, every name ends up selected, nothing else is
      added, and no column is selected twice that was not already. */
  lemma {:induction false} ExtendSpec(current: seq<string>, names: seq<string>)
    ensures var r := Extend(current, names);
      |current| <= |r| && r[..|current|] == current
      && (forall x :: x in r <==> x in current || x in names)
      && ((forall i, j :: 0 <= i < j < |current| ==> current[i] != current[j]) ==>
          forall i, j :: 0 <= i < j < |r| ==> r[i] != r[j])
    decreases |names|
  {
    if names != [] {
      var c1 := if names[0] in current then current else current + [names[0]];
      ExtendSpec(c1, names[1..]);
      var r := Extend(current, names);
      assert r[..|current|] == r[..|c1|][..|current|];
      assert c1[..|current|] == current;
      assert forall x :: x in names <==> x == names[0] || x in names[1..];
    }
  }

  /** `auto_select_calc_fields` of dashboard.py. */
  method AutoSelectCalcFields(store: Option<seq<CalculatedField>>, current: Option<seq<string>>)
    returns (r: seq<string>)
    ensures r == Extend(OrEmpty(current), NameList(store))
  {
    var names := NameList(store);
    r := OrEmpty(current);
    for i := 0 to |names|
      invariant Extend(r, names[i..]) == Extend(OrEmpty(current), names)
    {
      assert names[i..][0] == names[i] && names[i..][1..] == names[i + 1..];
      if names[i] !in r {
        r := r + [names[i]];
      }
    }
    assert names[|names|..] == [];
  }
}
