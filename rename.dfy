/** The column rename dialog (`handle_rename`, in dashboard.py and in
    frontend/callbacks/rename_callbacks.py): a header's rename button opens the dialog
    with the column's current display name, Save stores the new name for the target
    column, Cancel closes the dialog. */
module Rename {
  import opened Text

  /** What fired the callback: a rename button (its id's `type` and `col`), a component
      with a plain id, or nothing. */
  datatype Trigger = ButtonTrigger(kind: string, col: string) | NamedTrigger(id: string) | NoTrigger

  /** The four outputs: dialog open, header name map, rename target, text in the input;
      or `no_update` for all of them. */
  datatype RenameOutput =
    | NoUpdate
    | Update(isOpen: bool, headerMap: map<string, string>, target: Option<string>, input: string)

  const RenameButton := "rename-btn"
  const SaveId := "rename-save"
  const CancelId := "rename-cancel"

  /** `header_map.get(col, col)`. */
  function DisplayName(m: map<string, string>, col: string): string
  {
    if col in m then m[col] else col
  }

  /** The dashboard.py variant: only a trigger whose type is the rename button opens the
      dialog, and Save ignores an input that is blank after stripping. */
  function HandleRenameDashboard(t: Trigger, headerMap: Option<map<string, string>>, target: Option<string>,
                                 input: Option<string>): RenameOutput
  {
    var m := if headerMap.Some? then headerMap.value else map[];
    match t
    case ButtonTrigger(kind, col) =>
      if kind == RenameButton then Update(true, m, Some(col), DisplayName(m, col)) else NoUpdate
    case NamedTrigger(id) =>
      if id == SaveId then
        var m' := if Truthy(target) && Truthy(input) && Strip(input.value) != [] then m[target.value := Strip(input.value)] else m;
        Update(false, m', None, "")
      else if id == CancelId then Update(false, m, None, "")
      else NoUpdate
    case NoTrigger => NoUpdate
  }

  /** The rename_callbacks.py variant: any trigger with a structured id opens the dialog,
      and Save stores the stripped input whenever target and input are non-empty. */
  function HandleRename(t: Trigger, headerMap: Option<map<string, string>>, target: Option<string>,
                        input: Option<string>): RenameOutput
  {
    var m := if headerMap.Some? then headerMap.value else map[];
    match t
    case ButtonTrigger(_, col) => Update(true, m, Some(col), DisplayName(m, col))
    case NamedTrigger(id) =>
      if id == SaveId then
        var m' := if Truthy(target) && Truthy(input) then m[target.value := Strip(input.value)] else m;
        Update(false, m', None, "")
      else if id == CancelId then Update(false, m, None, "")
      else NoUpdate
    case NoTrigger => NoUpdate
  }

  function MapOf(headerMap: Option<map<string, string>>): map<string, string>
  {
    if headerMap.Some? then headerMap.value else map[]
  }

  /** `b` agrees with `a` on every key except `k`. */
  predicate SameExcept(a: map<string, string>, b: map<string, string>, k: string)
  {
    a.Keys - {k} == b.Keys - {k} && forall x :: x in a && x in b && x != k ==> b[x] == a[x]
  }

  /** A rename button opens the dialog on its column, showing the column's current display
      name; the map is unchanged. */
  lemma ButtonOpensDialog(kind: string, col: string, headerMap: Option<map<string, string>>,
                          target: Option<string>, input: Option<string>)
    ensures var r := HandleRename(ButtonTrigger(kind, col), headerMap, target, input);
      r.Update? && r.isOpen && r.target == Some(col) && r.headerMap == MapOf(headerMap)
      && r.input == (if col in MapOf(headerMap) then MapOf(headerMap)[col] else col)
    ensures kind == RenameButton ==>
      HandleRenameDashboard(ButtonTrigger(kind, col), headerMap, target, input)
        == HandleRename(ButtonTrigger(kind, col), headerMap, target, input)
    ensures kind != RenameButton ==> HandleRenameDashboard(ButtonTrigger(kind, col), headerMap, target, input) == NoUpdate
  {
  }

  /** Save closes the dialog and clears target and input; it changes at most the target's
      entry, and sets it to the stripped input exactly when target and input are non-empty. */
  lemma SaveChangesOnlyTarget(headerMap: Option<map<string, string>>, target: Option<string>, input: Option<string>)
    requires Truthy(target)
    ensures var r := HandleRename(NamedTrigger(SaveId), headerMap, target, input);
      r.Update? && !r.isOpen && r.target.None? && r.input == ""
      && SameExcept(MapOf(headerMap), r.headerMap, target.value)
      && (Truthy(input) ==> target.value in r.headerMap && r.headerMap[target.value] == Strip(input.value))
      && (!Truthy(input) ==> r.headerMap == MapOf(headerMap))
  {
  }

  /** The dashboard.py Save leaves the map alone unless the stripped input is non-empty. */
  lemma DashboardSaveNeedsText(headerMap: Option<map<string, string>>, target: Option<string>, input: Option<string>)
    ensures var r := HandleRenameDashboard(NamedTrigger(SaveId), headerMap, target, input);
      r.Update? && !r.isOpen && r.target.None? && r.input == ""
      && (Truthy(target) ==> SameExcept(MapOf(headerMap), r.headerMap, target.value))
      && (Truthy(target) && Truthy(input) && Strip(input.value) != [] ==>
            target.value in r.headerMap && r.headerMap[target.value] == Strip(input.value))
      && (!(Truthy(target) && Truthy(input) && Strip(input.value) != []) ==> r.headerMap == MapOf(headerMap))
  {
  }

  /** Save without a target, or without input, and Cancel both close the dialog with the map
      unchanged; any other trigger updates nothing. */
  lemma CancelAndOthers(t: Trigger, headerMap: Option<map<string, string>>, target: Option<string>, input: Option<string>)
    ensures t == NamedTrigger(CancelId) ==> HandleRename(t, headerMap, target, input) == Update(false, MapOf(headerMap), None, "")
    ensures t == NamedTrigger(SaveId) && !(Truthy(target) && Truthy(input)) ==>
      HandleRename(t, headerMap, target, input) == Update(false, MapOf(headerMap), None, "")
    ensures (t.NoTrigger? || (t.NamedTrigger? && t.id != SaveId && t.id != CancelId)) ==>
      HandleRename(t, headerMap, target, input) == NoUpdate && HandleRenameDashboard(t, headerMap, target, input) == NoUpdate
  {
  }

  /** The two variants differ in exactly two situations: a structured trigger that is not a
      rename button, and a Save whose input is nothing but white space, which
      rename_callbacks.py stores as an empty name and dashboard.py ignores. */
  lemma VariantsAgreeOtherwise(t: Trigger, headerMap: Option<map<string, string>>, target: Option<string>, input: Option<string>)
    requires t.ButtonTrigger? ==> t.kind == RenameButton
    requires Truthy(input) ==> Strip(input.value) != []
    ensures HandleRenameDashboard(t, headerMap, target, input) == HandleRename(t, headerMap, target, input)
  {
  }

  /** The white-space case: a blank display name is stored by one variant only. */
  lemma BlankInputDiffers(headerMap: Option<map<string, string>>, col: string)
    requires col != "" && col !in MapOf(headerMap)
    ensures HandleRename(NamedTrigger(SaveId), headerMap, Some(col), Some(" ")).headerMap == MapOf(headerMap)[col := ""]
    ensures HandleRenameDashboard(NamedTrigger(SaveId), headerMap, Some(col), Some(" ")).headerMap == MapOf(headerMap)
  {
    assert IsSpace(' ');
    assert Strip(" ") == [] by {
      StripEmptyIffAllSpace(" ");
    }
  }
}
