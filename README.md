# Pivot engine and pivot views of Fastapi-dash, modelled in Dafny

The system is a QuickSight-style pivot tool. A FastAPI backend (`backend.py`) holds data
sets and answers `POST /api/pivot`. Handling that request takes these steps:

- canonicalise null and blank cells to sentinels;
- translate the user's calculated-field formulas into pandas expressions;
- apply the filters;
- remember the aggregation keyword of each column per data set;
- pivot;
- append a `Total` row;
- restore the sentinels to readable labels.

Two Dash front ends (`dashboard.py` and the callbacks under `frontend/callbacks/`) send
that request and lay out the reply as a hierarchy. Each row gets a key and a parent key,
the children are grouped under their parent, and the total row moves to the end. They
also keep small client-side stores: the picker options, the saved calculated fields and
the header renames.

The model has these modules:

- `Text`: Python string behaviour used throughout.
  - `strip`, `lower`, `join` and `in`.
  - Order-preserving de-duplication.
  - `xs or []` and string truthiness.
- `ArgSplit`: `_split_args`, the quote- and parenthesis-aware argument splitter.
  - An imperative scan, proved against a functional segmentation.
  - A round trip: joining the segments gives back the input.
- `Rewrite`: the `re.sub` passes of `_translate_functions`, as explicit matchers over the
  text.
  - Keyword renames.
  - `coalesce`, the string helpers and `concat`.
  - `AND`/`OR`/`NOT`.
- `RewriteProps`: when the whole sequence of passes fails, and what the string-method
  passes make of a call.
- `RewriteWords`: the `AND`/`OR`/`NOT` passes leave none of the three words behind.
- `FieldRefs`: `_replace_field_tokens` and the identifier loop of
  `apply_calculated_fields`. Tokens are found, de-duplicated and sorted longest first,
  and known fields are wrapped.
- `CalcFields`: `apply_calculated_fields` over a list of fields: the translation, and
  the evaluation, whose outcome per field is given.
- `Aggregation`: `_get_pandas_aggfunc` and the `ACTIVE_PIVOT_AGG` store.
  - The store is a class with a map of maps, updated in place.
  - Also the aggregation dictionary.
- `PivotFrame`: the table steps of `generate_pivot`. They are composed in
  `GeneratePivot`, the endpoint as written, and in `GeneratePivotIntended`, the same
  endpoint with the filter comparison it evidently means:
  - canonicalisation;
  - filters;
  - total row;
  - restore.
- `Hierarchy`: the key derivation, children map and total-row placement shared by both
  `generate_table` callbacks.
- `PivotView`: the rest of `generate_table` in pivot_callback.py.
  - Early returns.
  - The filter payload.
  - The request, given as a function parameter.
- `CalcStore`: the Save and Add callbacks of calculated fields (both variants), and
  auto-selection.
- `Dropdowns`: `populate_dropdowns` / `make_options`.
- `Rename`: both `handle_rename` state machines.

Where the code and its written description disagree, the model follows the code. Five
cases:

- As written, filters never apply, because `FilterItem` has no `value`. `GeneratePivot`
  models exactly that; `GeneratePivotIntended` uses the intended comparison (see
  Findings).
- Calculated fields run before filters.
- The dashboard.py Save of a rename requires non-blank stripped text; the frontend one
  does not.
- The carry-forward of blank labels is effective only at depth 0, because deeper levels
  are reset after every depth.
- `df.empty` in `generate_table` of pivot_callback.py leads to the "No data found. "
  notice.

## Model

| member | source | states |
|---|---|---|
| Text.StripEmptyIffAllSpace | backend.py:199-200 | a formula is blank after `strip()` exactly when all its characters are whitespace |
| Text.StripIsTrimmedInfix | backend.py:199 | `strip()` returns a contiguous piece of the input, with only whitespace removed around it and none left at its ends |
| Text.StripIdempotent | backend.py:158 | stripping an already stripped argument changes nothing |
| Text.Dedup | frontend/callbacks/dropdowns.py:22-25 | de-duplication keeps exactly the input's elements, each once |
| Text.DedupFirstOccurrenceOrder | dashboard.py:389-393 | de-duplicated elements appear in the order of their first occurrences |
| Text.LowerIdempotent | backend.py:221 | lower-casing twice is lower-casing once |
| ArgSplit.SplitArgs | backend.py:112-148 | the character loop returns exactly `Parts(s)`; every part is non-empty and stripped |
| ArgSplit.RoundTrip | backend.py:112-148 | joining the raw segments with `,` gives back the input: splitting loses nothing |
| ArgSplit.TopLevelCommaSplits | backend.py:137-141 | a comma at depth 0 outside quotes ends the argument before it |
| ArgSplit.NestedCommaKept | backend.py:121-143 | a comma inside parentheses or inside a quote stays in the argument |
| ArgSplit.RunKeepsQuote | backend.py:121-129 | only the two quote characters can open a literal, and only the matching one closes it |
| ArgSplit.PartsWellFormed | backend.py:138-147 | blank segments are dropped and kept ones are stripped |
| Rewrite.SubFromSucceeds | backend.py:152-192 | every pass other than `coalesce` always produces a text |
| Rewrite.SubFromUnchanged | backend.py:152-192 | a pass whose pattern matches nowhere leaves the text unchanged |
| Rewrite.NoMatchInInert | backend.py:152-192 | no pattern of the translator matches at a character that cannot start an identifier or `{` |
| Rewrite.TranslateInert | backend.py:150-194 | a formula made only of operators, digits and spaces comes out of `_translate_functions` unchanged |
| Rewrite.FunctionRulesWellFormed | backend.py:152-192 | every pattern of the translator begins with a letter |
| Rewrite.RuleGroupsFacts | backend.py:152-192 | every pattern begins with a letter, and the passes before and after `coalesce` never raise |
| Rewrite.ApplyAllFailsOnlyInCoalesce | backend.py:152-192 | a sequence of passes without the `coalesce` pass always produces a text |
| RewriteProps.ApplyAllAppend | backend.py:150-194 | running two lists of passes one after the other is running their concatenation; a failure stops the rest |
| RewriteProps.SubFromFails | backend.py:163 | one pass fails iff, at one of the positions the left-to-right scan tries, the pattern matches and its replacement raises |
| RewriteProps.ApplyAllAroundCoalesce | backend.py:150-194 | passes that never raise, around the `coalesce` pass, fail iff the `coalesce` pass fails on the text the earlier passes give |
| RewriteProps.TranslateFailsIffEmptyCoalesce | backend.py:150-194 | `_translate_functions` fails iff the text reaching the `coalesce` pass has a scanned `coalesce(...)` match with no argument inside |
| RewriteProps.StrMethodNoArgument | backend.py:173-176 | for every name and column, `name(df[c])` becomes `df[c].str.accessor()` |
| RewriteProps.StrMethodOneArgument | backend.py:177-179 | for every name, column and argument the `([^,\)]+)` group takes whole, `name(df[c], a)` becomes `df[c].str.accessor(a)` |
| RewriteWords.WholeWordOrigin | backend.py:190-192 | every whole word in the output of a word pass was a whole word of its input, and is not the pass's word |
| RewriteWords.WordPassRemovesWord | backend.py:190-192 | after a word pass, its word occurs nowhere as a whole word, in any letter case |
| RewriteWords.WordPassKeepsAbsent | backend.py:190-192 | a word pass creates no whole word that its input lacked |
| RewriteWords.KeywordPassesClean | backend.py:190-192 | the three keyword passes, in order, leave no whole-word `AND`, `OR` or `NOT` |
| RewriteWords.TranslateLeavesNoKeyword | backend.py:150-194 | whenever `_translate_functions` succeeds, no whole-word `AND`, `OR` or `NOT` is left, in any letter case |
| Rewrite.CoalesceRepl | backend.py:156-162 | `_coalesce_repl` gives the left-nested `fillna` fold of the split arguments, or fails on no argument |
| Rewrite.CoalescedSingle | backend.py:159-162 | `coalesce(a)` becomes `a` |
| Rewrite.CoalescedThree | backend.py:159-161 | `coalesce(a,b,c)` becomes `((a).fillna(b)).fillna(c)` |
| Rewrite.ConcatenatedTwo | backend.py:182-186 | `concat(a,b)` becomes `(a).astype(str) + (b).astype(str)` |
| Rewrite.ConcatenatedSnoc | backend.py:185-186 | each further `concat` argument appends one ` + (arg).astype(str)` term, in order |
| Rewrite.ConcatenatedEmpty | backend.py:184-186 | `concat()` becomes the empty text |
| Rewrite.UpperExample | backend.py:173 | `upper(df["a"])` matches whole, with `df["a"]` as its group |
| Rewrite.UpperReplacement | backend.py:173 | that match becomes `df["a"].str.upper()` |
| Rewrite.ContainsExample | backend.py:177 | `contains(df["a"], "x")` matches to its `)`, the second group without the space after the comma |
| Rewrite.ContainsReplacement | backend.py:177 | that match becomes `df["a"].str.contains("x")` |
| Rewrite.SkipSpaces | backend.py:152 | `\s*` stops at the first non-whitespace character |
| Rewrite.FindClose | backend.py:163 | the lazy `(.*?)\)` group ends at the first `)` |
| Rewrite.FindBrace | backend.py:103 | the lazy `\{(.*?)\}` group ends at the first `}`, with no line break before it |
| Rewrite.ArgEnd | backend.py:177-180 | `[^,\)]*` runs to the first `,` or `)` |
| Rewrite.ExtraArgs | backend.py:177-180 | the `\s*,\s*([^,\)]+)` groups: as many as asked for, inside the text |
| FieldRefs.NoBraceUnchanged | backend.py:109-110 | a formula without `{` is left as it is |
| FieldRefs.ReplaceOneBrace | backend.py:109-110 | `{n}` after brace-free text becomes `df["n"]`, and the rest is rewritten on its own |
| FieldRefs.IdentifierTokens | backend.py:203 | an identifier is its own only token |
| FieldRefs.SortByLength | backend.py:204 | the sort is a permutation, longest first |
| FieldRefs.InsertByLengthSorted | backend.py:204 | inserting one token into a longest-first list keeps it longest first |
| FieldRefs.Candidates | backend.py:203-204 | the candidates are exactly the distinct tokens, identifiers, longest first |
| FieldRefs.NoKnownFieldUnchanged | backend.py:204-206 | when no candidate is a known field, the formula is unchanged |
| FieldRefs.WrapWholeToken | backend.py:206 | a bare identifier becomes `df["tok"]` |
| FieldRefs.BareKnownField | backend.py:202-206 | a formula that is a known field's name becomes that field's column reference |
| FieldRefs.QuotedNotRewrapped | backend.py:206 | a reference `df["tok"]` is not wrapped again (the look-behind), except for a field named `df` |
| CalcFields.TranslateField | backend.py:199-207 | one loop body: strip, refuse blank, braces, known identifiers, function vocabulary; equal to `TranslateFormula` |
| CalcFields.EvaluateField | backend.py:199-214 | the whole loop body: the translated text, or the error naming the field when its evaluation raises; equal to `TranslateAndEvaluate` |
| CalcFields.ApplyCalculatedFields | backend.py:196-216 | the loop over fields, each translated then evaluated, equals `Evaluated` with the data set's columns as the initial known fields |
| CalcFields.EvaluatedUnfold | backend.py:198-216 | one turn of the loop: a field that fails to translate or to evaluate ends the run with its error; otherwise its text is kept and its name becomes known |
| CalcFields.EvaluatedRefines | backend.py:207-214 | evaluation only adds failures: a run that goes through yields exactly the translated texts, and a translation failure still fails the run |
| CalcFields.FirstEvaluationFailureStops | backend.py:208-214 | the first field that translates but whose `eval` and `pd.eval` both raise stops the run with an error naming that field |
| CalcFields.TranslateAllOk | backend.py:197-216 | on success, each field is translated with the columns plus the names of the fields before it |
| CalcFields.NoBlankFormulaAccepted | backend.py:199-201 | a successful run had no blank formula |
| CalcFields.FirstBlankFormulaRejected | backend.py:199-201 | the first blank formula stops the run with an error naming that field |
| CalcFields.FirstFailureStops | backend.py:198-214 | the first failing field decides the outcome |
| CalcFields.EarlierFieldReferenceable | backend.py:215-216 | a later formula naming an earlier field refers to that field's column |
| Aggregation.AggfuncSpec | backend.py:219-230 | nunique iff a distinct keyword; non-numeric gives nunique or count; numeric maps `avg`/`mean` to mean and passes others through |
| Aggregation.AggfuncIgnoresCase | backend.py:221 | the keyword is compared case-insensitively |
| Aggregation.AggfuncDefaultsToSum | backend.py:221 | no keyword means `sum` (count on a non-numeric column) |
| Aggregation.PerColumnOverwrites | backend.py:315-316 | a dict request overwrites exactly its keys and keeps the others |
| Aggregation.GlobalFillsOnlyMissing | backend.py:317-320 | a bare keyword is stored only for value columns without one; existing keywords stay |
| Aggregation.GlobalKeepsStored | backend.py:317-320 | the first keyword stored for a column survives later bare keywords |
| Aggregation.AggregationState.Merge | backend.py:311-320 | the data set's map is created if missing and merged; no other data set changes |
| Aggregation.AggregationState.BuildAggDict | backend.py:322-326 | the loop returns `AggMap` of the value columns; fails iff a value column is missing, naming it |
| Aggregation.AggMapSpec | backend.py:322-326 | `AggMap` has exactly the value columns as keys, each mapped by the stored keyword or `sum` through the policy |
| PivotFrame.CanonCellSpec | backend.py:287-292 | canonicalised cells hold no null and no blank text; other cells, NaN included, are unchanged; canonicalisation is idempotent |
| PivotFrame.Canonicalize | backend.py:287-292 | the column loop equals `CanonTable` |
| PivotFrame.CanonTableSpec | backend.py:287-292 | every cell of the canonical table is canonical, and the step is idempotent |
| PivotFrame.FiltersAsWrittenKeepAll | backend.py:302-308 | as written, every filter is skipped and the table is unchanged |
| PivotFrame.FilterFindingWitness | backend.py:56-57 | a `Region` filter for `East` keeps a `West` row as written, and drops it as intended |
| PivotFrame.KeepEqual | backend.py:306 | keeps exactly the rows whose cell equals the value; NaN and null equal nothing |
| PivotFrame.KeepEqualCounts | backend.py:306 | a matching row is kept as many times as it occurs, any other row never |
| PivotFrame.KeepEqualInOrder | backend.py:306 | the kept rows appear in the frame's order |
| PivotFrame.ApplyFilters | backend.py:302-308 | the intended filter loop equals `Filtered` |
| PivotFrame.FilteredSpec | backend.py:302-308 | filtering keeps the columns; a row survives iff it came from the frame and equals each value on every filtered column the frame has |
| PivotFrame.FilteredCounts | backend.py:302-308 | each surviving row is kept as often as it occurs in the frame; no other row is |
| PivotFrame.FilteredInOrder | backend.py:302-308 | the surviving rows keep the frame's order |
| PivotFrame.SumNumsAppend | backend.py:354 | column sums split over concatenated rows |
| PivotFrame.TotalRowSpec | backend.py:346-356 | the total row covers the row dimensions (labelled `Total`) and the columns (summed) |
| PivotFrame.BuildTotalRow | backend.py:346-356 | the two loops build exactly `TotalRow` |
| PivotFrame.AppendTotalRow | backend.py:358 | exactly one row is appended, last: the total row |
| PivotFrame.RestoreAfterCanon | backend.py:361-364 | null shows as `null`, blank text as `empty`, NaN and other values unchanged; no sentinel survives |
| PivotFrame.RestoreTableIdempotent | backend.py:361-364 | restoring twice is restoring once |
| PivotFrame.PrepareFrame | backend.py:281-299 | no active data set fails; a calculated field that fails to translate or to evaluate fails with that field's error; otherwise the canonicalised data set |
| PivotFrame.AggregateAndTotal | backend.py:310-366 | the aggregation state is merged even when the reply fails; the reply is an aggregation error iff a value column is not a column of the frame, naming it; otherwise a `pd.pivot_table` exception is a pivot error carrying its message; the reply succeeds iff neither happens, and is then the aggregated table with the total row appended and the sentinels restored |
| PivotFrame.GeneratePivot | backend.py:277-366 | as written: no active data set fails with state unchanged; a formula that fails to translate or to evaluate fails before any merge; otherwise every filter is skipped, so the frame handed to the pivot is the canonical data set, the state is merged, the reply is an aggregation error iff a value column is not a frame column, else a pivot error when `pd.pivot_table` raises, and otherwise the restored table with the total row |
| PivotFrame.GeneratePivotIntended | backend.py:277-366 | the same outcomes, with the frame handed to the pivot being the canonical data set filtered by the column and value pairs |
| Hierarchy.LabelOf | dashboard.py:562 | a missing or NaN cell has the empty label, a number a non-empty one |
| Hierarchy.CarryBlank | dashboard.py:558-569 | the carried depth-0 label is empty iff every earlier row's depth-0 label is blank |
| Hierarchy.CarryWitness | dashboard.py:558-569 | a non-empty carried label is the depth-0 label of some row followed only by blank ones |
| Hierarchy.CarrySpec | dashboard.py:558-569 | the carried depth-0 label is empty iff no earlier row has one; otherwise it is the last one |
| Hierarchy.LabelRow | frontend/callbacks/pivot_callback.py:93-102 | the per-depth loop gives `RowLabels` and remembers the last non-blank depth-0 label |
| Hierarchy.DeriveKeys | frontend/callbacks/pivot_callback.py:90-105 | keys of every row when all rows are wide enough, else the first too-short row |
| Hierarchy.PrefixSnoc | frontend/callbacks/pivot_callback.py:93-99 | one more wide row keeps the prefix wide and moves the carried depth-0 label on by that row |
| Hierarchy.RowKeysSnoc | dashboard.py:557-572 | the keys of one more row extend the keys so far |
| Hierarchy.ParentKeyIsPrefix | dashboard.py:570-571 | with n > 1, the full key is the parent key, `||` and the deepest label |
| Hierarchy.TopLevelHasNoParent | frontend/callbacks/pivot_callback.py:103-104 | with at most one row dimension, the parent key is empty |
| Hierarchy.DeeperBlankStaysEmpty | dashboard.py:563-568 | a blank label below depth 0 stays empty |
| Hierarchy.TopBlankTakesCarry | frontend/callbacks/pivot_callback.py:95-99 | a blank depth-0 label takes the last non-blank depth-0 label above it |
| Hierarchy.BuildChildrenMap | dashboard.py:574-577 | parents present iff some row has them; each lists its children in row order |
| Hierarchy.ChildrenMapSnoc | dashboard.py:574-577 | one more row appends its key to its own parent's list and changes no other entry |
| Hierarchy.ListedUnderParent | frontend/callbacks/pivot_callback.py:107-109 | every row's key is listed under its own parent key |
| Hierarchy.NoChildren | frontend/callbacks/pivot_callback.py:107-109 | a key that is no row's parent has no children |
| Hierarchy.ChildrenCountRows | dashboard.py:575-577 | over all parent keys, the children lists hold one entry per row |
| Hierarchy.NonTotal | dashboard.py:613-616 | exactly the non-total rows, in increasing order |
| Hierarchy.LastTotal | dashboard.py:613-614 | the last total row, or none when there is none |
| Hierarchy.PlacementSpec | dashboard.py:612-618 | non-total rows keep their order, each once; only the last total row follows, at the end |
| Hierarchy.PlaceStep | frontend/callbacks/pivot_callback.py:152-155 | one more row either joins the non-total rows or becomes the remembered total |
| Hierarchy.PlaceRows | frontend/callbacks/pivot_callback.py:129-157 | the row loop emits the rows at `Placement` of the total flags, with keys and expander flags |
| PivotView.KeptUpToSpec | frontend/callbacks/pivot_callback.py:35-38 | each kept filter is a pair of set values from one position; every such position gives one |
| PivotView.BuildFilters | frontend/callbacks/pivot_callback.py:33-38 | the loop gives the kept pairs of the two lists, truncated to the shorter |
| PivotView.GenerateTable | frontend/callbacks/pivot_callback.py:26-157 | no data set: the select notice; a request error or empty frame: "No data found."; otherwise the placed rows and the payload echoed with `[]` defaults |
| CalcStore.NameList | frontend/callbacks/dropdowns.py:16-17 | the names of a possibly absent store, in store order |
| CalcStore.AddIfNewSpec | frontend/callbacks/calculatedf.py:60-63 | at most one field is added, at the end, iff name and formula are non-empty and the name is new; names stay unique |
| CalcStore.AppendIfNew | dashboard.py:335-339 | the `any` loop and append equal `AddIfNew` |
| CalcStore.IndexOfMax | dashboard.py:322 | `index(max(...))`: the first position holding the largest count |
| CalcStore.FindRow | dashboard.py:324-328 | found iff the index occurs among the name ids, at its first occurrence |
| CalcStore.SaveCalcFieldDashboard | dashboard.py:318-340 | no click: store unchanged; otherwise the chosen row's field is added if new; the prefix is kept; names stay unique |
| CalcStore.ClickedRow | frontend/callbacks/calculatedf.py:50-54 | the first clicked button carrying the trigger's index, or none |
| CalcStore.SaveCalcField | frontend/callbacks/calculatedf.py:42-63 | no trigger or no matching click: store unchanged; otherwise the row's field is added if new |
| CalcStore.LastChars | frontend/callbacks/calculatedf.py:19 | `s[-8:]` is a suffix of length min(8, len) |
| CalcStore.UpdateCalcFields | frontend/callbacks/calculatedf.py:15-30 | the add trigger appends exactly one row named `calc_<last 8 digits>`; any other trigger changes nothing |
| CalcStore.AddedRowIsFresh | frontend/callbacks/calculatedf.py:18-28 | with a fresh time stamp the rows' indices stay distinct |
| CalcStore.ExtendSpec | dashboard.py:402-408 | existing selections keep their places; every calculated name ends up selected; no duplicates are added |
| CalcStore.AutoSelectCalcFields | dashboard.py:402-408 | the loop gives `Extend` of the current selection by the store's names |
| Dropdowns.OptionsOf | frontend/callbacks/dropdowns.py:25 | every option's label is its value |
| Dropdowns.DedupStep | frontend/callbacks/dropdowns.py:22-25 | one more value is kept exactly when it has not been seen |
| Dropdowns.MakeOptions | frontend/callbacks/dropdowns.py:19-26 | the `seen` loop gives the options of the de-duplicated columns plus names |
| Dropdowns.OptionsSpec | dashboard.py:387-394 | labels equal values, no value repeats, every column and name is represented |
| Dropdowns.ColumnsBeforeCalculated | frontend/callbacks/dropdowns.py:22 | every base column comes before every calculated name |
| Dropdowns.PopulateDropdowns | frontend/callbacks/dropdowns.py:28-31 | the three table pickers share one list, and the two chart pickers share another |
| Rename.ButtonOpensDialog | dashboard.py:437-440 | a rename button opens the dialog on its column with its current display name; another structured trigger does nothing in dashboard.py |
| Rename.SaveChangesOnlyTarget | frontend/callbacks/rename_callbacks.py:27-29 | Save with target and input closes, clears, and changes only the target's name, to the stripped input |
| Rename.DashboardSaveNeedsText | dashboard.py:442-446 | the dashboard.py Save stores only non-blank stripped text |
| Rename.CancelAndOthers | frontend/callbacks/rename_callbacks.py:27-35 | Cancel, or Save without target or input, closes with the map unchanged; any other trigger is no update |
| Rename.VariantsAgreeOtherwise | dashboard.py:433-450 | the two variants agree except on other structured triggers and blank input |
| Rename.BlankInputDiffers | frontend/callbacks/rename_callbacks.py:27-29 | whitespace input stores `""` in the frontend and nothing in dashboard.py |

## Left out

- Evaluation of the translated formula (`eval` and `pd.eval`, backend.py:208-214). It is a
  call into Python and pandas. Whether it raises is the parameter `evaluates`, given per
  field and translated text; the model keeps the expression text, not the computed column.
- `pd.pivot_table` and `reset_index` (backend.py:329-343). They are library code.
  `GeneratePivot` takes their outcome as a parameter, either the aggregated table or the
  message of the exception `pd.pivot_table` raises (for instance with neither row nor
  column dimensions on a non-empty frame), together with the column kinds (numpy dtype
  inspection).
- Floating point.
  - Numbers are integers, so sums are exact.
  - The total of a column mixing numbers and texts is null; that is where pandas raises
    for a mixture.
  - pandas' `sum` of a column of `Total` labels and numbers is not modelled beyond that
    rule.
- `PivotFrame.ColumnSum`: does not model pandas' numeric coercion of booleans or dates;
  only numbers, texts and nulls exist.
- Filters on a calculated field in `GeneratePivotIntended`. The field's column is not
  computed (its formula is not evaluated), so in the model such a filter finds no column
  and is skipped.
- Data set loading, registry and activation endpoints, and report publishing
  (backend.py:78-97, 239-272, 369-395). These are I/O.
  - The data sets are a map parameter.
  - The active data set is a parameter.
- The network request of the views. It is the parameter `post`, so its behaviour is
  arbitrary.
- The clock of `update_calc_fields`. The time stamp is the parameter `ts`.
- The HTML, styles and the embedded expand/collapse script of both `generate_table`
  callbacks. Rows are modelled as `PlacedRow` values: row index, keys and expander flag.
  - The header row, display names and the `str(msg)` outputs are not modelled.
- `Hierarchy.IsTotalRow`: assumes the reply has at least one column, as any non-empty
  frame does. The source's `min(n_row_dims, len(df.columns))` therefore reduces to
  `n_row_dims`.
- The front part of dashboard.py's `generate_table` (dashboard.py:509-527). It is the
  same as pivot_callback.py except for the text "No rows returned." for an empty frame.
  That text is not modelled.
- The chart variants: dashboard.py's `update_calc_fields` for the chart container,
  `save_calc_field_chart` and `auto_select_calc_fields_chart`. They repeat the table
  logic on other stores.
- `CalcStore.SaveCalcFieldDashboard`, `CalcStore.SaveCalcField`:
  - click counts that are `None` are modelled as 0;
  - `None` names or formulas are modelled as empty text;
  - the id lists are taken to have the lengths Dash gives them (one entry per row).
- `PivotView.BuildFilters`: filter values are text; a numeric value `0`, which is falsy in
  Python, is not modelled.
- Concurrency. `ACTIVE_PIVOT_AGG` has no locking, and concurrent requests are not
  modelled.
- `RewriteProps.StrMethodNoArgument`, `RewriteProps.StrMethodOneArgument`: cover the call
  spelled without spaces inside its parentheses (one space after the comma), with a
  column reference free of `]`. The matcher itself handles the `\s*` gaps; these lemmas
  do not state them. The two-argument `replace` pass has no general lemma.
- Unicode. Case folding, `\w`, `\b` and digits are ASCII only. Whitespace is the set of
  `str.isspace()`.
- `FieldRefs.Candidates`: tokens of equal length keep their first-occurrence order. In
  the source this order comes from a Python `set`, which is hash-dependent.
- The `AggFunc` values are names. What pandas computes with them is not modelled.
- admin.py's "no values means count" rule (admin.py:66-68). It belongs to another
  program.

## Findings

The row below is modelled twice. `FiltersAsWritten` is the loop as the code has it, and
`FiltersAsWrittenKeepAll` proves that it never removes a row; `GeneratePivot`, the
endpoint as written, hands the pivot the unfiltered canonical frame. `Filtered` and
`ApplyFilters` are the comparison the loop evidently means, characterised by
`FilteredSpec`, `FilteredCounts` and `FilteredInOrder`. `GeneratePivotIntended` is the
endpoint with that comparison, its filters carrying the value the front ends send.
`FilterFindingWitness` shows the two on one input.

| source | as written | input that shows it | evidently intended | confidence | as-written member | corrected member |
|---|---|---|---|---|---|---|
| backend.py:56-57, 302-308 | `FilterItem` declares only `column`, so `f.value` raises `AttributeError`. The `except` then skips every filter, and no filter ever narrows the data | a filter `{"column": "Region", "value": "East"}` over a row with `Region = "West"`: the row is kept | keep only rows whose filtered column equals the value | not executed | PivotFrame.FiltersAsWrittenKeepAll | PivotFrame.FilteredSpec |
