/** The row hierarchy the pivot table view builds from the pivot result (`generate_table`
    in dashboard.py, and its near copy in frontend/callbacks/pivot_callback.py): a key and
    a parent key per row from the row-dimension labels, the list of child keys under each
    parent key, and the display order that withholds "total" rows and puts the last of
    them at the end. */
module Hierarchy {
  import opened Text
  import opened PivotFrame

  // ---------------------------------------------------------------------------------
  // Labels.

  function DigitChar(d: nat): char
    requires d < 10
  {
    ('0' as int + d) as char
  }

  function NatToString(n: nat): (r: string)
    ensures r != []
    decreases n
  {
    if n < 10 then [DigitChar(n)] else NatToString(n / 10) + [DigitChar(n % 10)]
  }

  /** Python's `str` of an integer. */
  function IntToString(i: int): (r: string)
    ensures r != []
  {
    if i < 0 then "-" + NatToString(-i) else NatToString(i)
  }

  /** `"" if pd.isna(v) else str(v)`: a missing cell has the empty label and a number
      never does. */
  function LabelOf(c: Cell): (r: string)
    ensures c.Null? || c.NaN? ==> r == []
    ensures c.Num? ==> r != []
  {
    match c
    case Null => ""
    case NaN => ""
    case Str(s) => s
    case Num(n) => IntToString(n)
  }

  /** A row of the pivot result by position; the row dimensions come first. */
  type Record = seq<Cell>

  /** The depth-0 label remembered after `rows`: the last non-empty one, or empty. */
  function Carry(rows: seq<Record>): string
  {
    if rows == [] then ""
    else
      var last := rows[|rows| - 1];
      if |last| > 0 && LabelOf(last[0]) != "" then LabelOf(last[0]) else Carry(rows[..|rows| - 1])
  }

  predicate BlankAtTop(row: Record)
  {
    |row| == 0 || LabelOf(row[0]) == ""
  }

  /** The carried label is empty exactly when every depth-0 label so far is blank. */
  lemma {:induction false} CarryBlank(rows: seq<Record>)
    ensures Carry(rows) == "" <==> forall j :: 0 <= j < |rows| ==> BlankAtTop(rows[j])
  {
    if rows != [] {
      var init := rows[..|rows| - 1];
      var last := rows[|rows| - 1];
      CarryBlank(init);
      if BlankAtTop(last) {
        assert Carry(rows) == Carry(init);
        forall j | 0 <= j < |init| ensures init[j] == rows[j] {
        }
      } else {
        assert Carry(rows) == LabelOf(last[0]) != "";
      }
    }
  }

  /** A non-empty carried label is the depth-0 label of some row with only blank ones after
      it. */
  lemma {:induction false} CarryWitness(rows: seq<Record>)
    requires Carry(rows) != ""
    ensures exists j :: (0 <= j < |rows| && |rows[j]| > 0 && LabelOf(rows[j][0]) == Carry(rows)
      && forall m :: j < m < |rows| ==> BlankAtTop(rows[m]))
  {
    var init := rows[..|rows| - 1];
    var last := rows[|rows| - 1];
    if BlankAtTop(last) {
      assert Carry(rows) == Carry(init);
      CarryWitness(init);
      var j :| 0 <= j < |init| && |init[j]| > 0 && LabelOf(init[j][0]) == Carry(init)
        && forall m :: j < m < |init| ==> BlankAtTop(init[m]);
      LiftWitness(rows, init, j);
    } else {
      var j := |rows| - 1;
      assert |rows[j]| > 0 && LabelOf(rows[j][0]) == Carry(rows);
    }
  }

  /** A row followed only by blank depth-0 labels stays so when one more blank row comes. */
  lemma LiftWitness(rows: seq<Record>, init: seq<Record>, j: nat)
    requires rows != [] && init == rows[..|rows| - 1] && BlankAtTop(rows[|rows| - 1])
    requires j < |init| && forall m :: j < m < |init| ==> BlankAtTop(init[m])
    ensures rows[j] == init[j]
    ensures forall m :: j < m < |rows| ==> BlankAtTop(rows[m])
  {
    forall m | j < m < |rows| ensures BlankAtTop(rows[m]) {
      if m < |init| {
        assert rows[m] == init[m];
      }
    }
  }

  /** The carried label is the depth-0 label of some row with only blank ones after it,
      and it is empty exactly when every depth-0 label so far is blank. */
  lemma CarrySpec(rows: seq<Record>)
    ensures Carry(rows) == "" <==> forall j :: 0 <= j < |rows| ==> BlankAtTop(rows[j])
    ensures Carry(rows) != "" ==>
      exists j :: (0 <= j < |rows| && |rows[j]| > 0 && LabelOf(rows[j][0]) == Carry(rows)
        && forall m :: j < m < |rows| ==> BlankAtTop(rows[m]))
  {
    CarryBlank(rows);
    if Carry(rows) != "" {
      CarryWitness(rows);
    }
  }

  /** Every row has at least `n` cells. */
  predicate Wide(rows: seq<Record>, n: nat)
  {
    forall i :: 0 <= i < |rows| ==> n <= |rows[i]|
  }

  /** The `n` labels of a row: a blank depth-0 label is replaced by the carried one; a blank
      deeper label stays empty, because every deeper memory was reset by the depth before
      it in the same row. */
  function RowLabels(row: Record, n: nat, carry: string): (r: seq<string>)
    requires n <= |row|
    ensures |r| == n
  {
    seq(n, k requires 0 <= k < n => if k == 0 && LabelOf(row[0]) == "" then carry else LabelOf(row[k]))
  }

  datatype KeyPair = KeyPair(full: string, parent: string)

  /** `full_key` and `parent_key`. */
  function KeysOf(labels: seq<string>, n: nat): KeyPair
    requires |labels| == n
  {
    KeyPair(Join(labels, "||"), if n > 1 then Join(labels[..n - 1], "||") else "")
  }

  /** The key pair of every row. */
  function RowKeys(rows: seq<Record>, n: nat): (r: seq<KeyPair>)
    requires Wide(rows, n)
    ensures |r| == |rows|
  {
    seq(|rows|, i requires 0 <= i < |rows| => KeysOf(RowLabels(rows[i], n, Carry(rows[..i])), n))
  }

  lemma RowKeysSnoc(rows: seq<Record>, n: nat, i: nat)
    requires i < |rows| && Wide(rows[..i + 1], n)
    ensures Wide(rows[..i], n)
    ensures RowKeys(rows[..i + 1], n) == RowKeys(rows[..i], n) + [KeysOf(RowLabels(rows[i], n, Carry(rows[..i])), n)]
  {
    var a := rows[..i + 1];
    assert Wide(rows[..i], n) by {
      forall j | 0 <= j < i ensures n <= |rows[..i][j]| {
        assert rows[..i][j] == a[j];
      }
    }
    var lhs := RowKeys(a, n);
    var rhs := RowKeys(rows[..i], n) + [KeysOf(RowLabels(rows[i], n, Carry(rows[..i])), n)];
    forall j | 0 <= j <= i ensures lhs[j] == rhs[j] {
      assert a[..j] == rows[..j];
      if j < i {
        assert rows[..i][..j] == rows[..j];
        assert a[j] == rows[..i][j];
      }
    }
  }

  /** The labels of one row with one remembered label per depth (the inner loop of the
      key loop of `generate_table`). A depth that has a label remembers it and forgets
      every deeper one; a blank depth takes what is remembered. `None` when the row has
      fewer cells than row dimensions (`r.iloc[k]` raises). */
  method LabelRow(row: Record, n: nat, seen: seq<string>) returns (r: Option<seq<string>>, seen': seq<string>)
    requires |seen| == n
    ensures r.Some? <==> n <= |row|
    ensures r.Some? ==> r.value == RowLabels(row, n, if n > 0 then seen[0] else "")
    ensures r.Some? ==> |seen'| == n && (n > 0 ==> seen'[0] == if LabelOf(row[0]) != "" then LabelOf(row[0]) else seen[0])
  {
    seen' := seen;
    var labels: seq<string> := [];
    for k := 0 to n
      invariant |seen'| == n && |labels| == k && k <= |row|
      invariant forall d :: 0 <= d < k ==>
        labels[d] == if d == 0 && LabelOf(row[0]) == "" then seen[0] else LabelOf(row[d])
      invariant k == 0 < n ==> seen'[0] == seen[0]
      invariant k > 0 ==> seen'[0] == if LabelOf(row[0]) != "" then LabelOf(row[0]) else seen[0]
      invariant k > 0 ==> forall d :: k <= d < n ==> seen'[d] == ""
    {
      if k >= |row| {
        return None, seen';
      }
      var val := LabelOf(row[k]);
      if val == "" {
        val := seen'[k];
      } else {
        seen' := seen'[k := val];
      }
      ghost var before := seen';
      for deeper := k + 1 to n
        invariant |seen'| == n
        invariant forall d :: 0 <= d <= k ==> seen'[d] == before[d]
        invariant forall d :: k + 1 <= d < deeper ==> seen'[d] == ""
      {
        seen' := seen'[deeper := ""];
      }
      labels := labels + [val];
    }
    r := Some(labels);
  }

  /** The key loop of `generate_table`. A row with fewer cells than row dimensions stops
      it; the result then names the first such row. */
  method DeriveKeys(rows: seq<Record>, n: nat) returns (r: Result<seq<KeyPair>, nat>)
    ensures Wide(rows, n) ==> r == Ok(RowKeys(rows, n))
    ensures !Wide(rows, n) ==> r.Err? && r.error < |rows| && |rows[r.error]| < n && Wide(rows[..r.error], n)
  {
    var keys: seq<KeyPair> := [];
    var seen: seq<string> := seq(n, _ => "");
    for i := 0 to |rows|
      invariant |seen| == n
      invariant Wide(rows[..i], n)
      invariant n > 0 ==> seen[0] == Carry(rows[..i])
      invariant keys == RowKeys(rows[..i], n)
    {
      var row := rows[i];
      var labels;
      labels, seen := LabelRow(row, n, seen);
      if labels.None? {
        r := Err(i);
        return;
      }
      PrefixSnoc(rows, n, i);
      RowKeysSnoc(rows, n, i);
      keys := keys + [KeysOf(labels.value, n)];
    }
    assert rows[..|rows|] == rows;
    r := Ok(keys);
  }

  /** One more row that is wide enough: the prefix stays wide and the carried label moves
      on by that row. */
  lemma PrefixSnoc(rows: seq<Record>, n: nat, i: nat)
    requires i < |rows| && Wide(rows[..i], n) && n <= |rows[i]|
    ensures Wide(rows[..i + 1], n)
    ensures n > 0 ==> Carry(rows[..i + 1]) == if LabelOf(rows[i][0]) != "" then LabelOf(rows[i][0]) else Carry(rows[..i])
  {
    var a := rows[..i + 1];
    assert a[..i] == rows[..i] && a[i] == rows[i];
    forall j | 0 <= j < i + 1 ensures n <= |a[j]| {
      if j < i {
        assert a[j] == rows[..i][j];
      }
    }
  }

  /** The full key is the parent key, the separator, and the row's own deepest label. */
  lemma ParentKeyIsPrefix(labels: seq<string>, n: nat)
    requires |labels| == n && n > 1
    ensures KeysOf(labels, n).full == KeysOf(labels, n).parent + "||" + labels[n - 1]
  {
    assert labels == labels[..n - 1] + [labels[n - 1]];
    JoinSnoc(labels[..n - 1], labels[n - 1], "||");
  }

  /** With at most one row dimension a row has no parent. */
  lemma TopLevelHasNoParent(labels: seq<string>, n: nat)
    requires |labels| == n && n <= 1
    ensures KeysOf(labels, n).parent == ""
    ensures KeysOf(labels, n).full == if n == 0 then "" else labels[0]
  {
  }

  /** A blank label below the top level is never filled in from an earlier row. */
  lemma DeeperBlankStaysEmpty(rows: seq<Record>, n: nat, i: nat, k: nat)
    requires Wide(rows, n) && i < |rows| && 0 < k < n && LabelOf(rows[i][k]) == ""
    ensures RowLabels(rows[i], n, Carry(rows[..i]))[k] == ""
  {
  }

  /** A blank top-level label takes the last non-blank top-level label of the rows above. */
  lemma TopBlankTakesCarry(rows: seq<Record>, n: nat, i: nat)
    requires Wide(rows, n) && i < |rows| && n > 0 && LabelOf(rows[i][0]) == ""
    ensures var top := RowLabels(rows[i], n, Carry(rows[..i]))[0];
      (top == "" <==> forall j :: 0 <= j < i ==> BlankAtTop(rows[j]))
      && (top != "" ==> exists j :: 0 <= j < i && LabelOf(rows[j][0]) == top)
  {
    CarrySpec(rows[..i]);
    assert forall j :: 0 <= j < i ==> rows[..i][j] == rows[j];
  }

  // ---------------------------------------------------------------------------------
  // Children.

  /** The keys of the rows whose parent key is `p`, in row order. */
  function ChildrenOf(keys: seq<KeyPair>, p: string): (r: seq<string>)
    ensures |r| <= |keys|
  {
    if keys == [] then []
    else
      var last := keys[|keys| - 1];
      ChildrenOf(keys[..|keys| - 1], p) + (if last.parent == p then [last.full] else [])
  }

  /** The parent keys that occur. */
  function ParentSet(keys: seq<KeyPair>): set<string>
  {
    set i | 0 <= i < |keys| :: keys[i].parent
  }

  /** Each occurring parent key with its children in row order. */
  function ChildrenMap(keys: seq<KeyPair>): map<string, seq<string>>
  {
    map p | p in ParentSet(keys) :: ChildrenOf(keys, p)
  }

  /** `children_map.setdefault(p, []).append(k)` for every row. */
  method BuildChildrenMap(keys: seq<KeyPair>) returns (m: map<string, seq<string>>)
    ensures forall p :: p in m <==> exists i :: 0 <= i < |keys| && keys[i].parent == p
    ensures forall p :: p in m ==> m[p] == ChildrenOf(keys, p)
    ensures m == ChildrenMap(keys)
  {
    m := map[];
    assert keys[..0] == [];
    for i := 0 to |keys|
      invariant m == ChildrenMap(keys[..i])
    {
      var kp := keys[i];
      var existing := if kp.parent in m then m[kp.parent] else [];
      if kp.parent !in m {
        NoChildren(keys[..i], kp.parent);
      }
      ChildrenMapSnoc(keys, i);
      m := m[kp.parent := existing + [kp.full]];
    }
    assert keys[..|keys|] == keys;
  }

  /** One more row adds its key to its own parent's children and changes no other list. */
  lemma ChildrenMapSnoc(keys: seq<KeyPair>, i: nat)
    requires i < |keys|
    ensures ChildrenMap(keys[..i + 1]) ==
      ChildrenMap(keys[..i])[keys[i].parent := ChildrenOf(keys[..i], keys[i].parent) + [keys[i].full]]
  {
    var a, b := keys[..i], keys[..i + 1];
    assert b[..i] == a && b[i] == keys[i];
    assert ParentSet(b) == ParentSet(a) + {keys[i].parent} by {
      forall j | 0 <= j < |b| ensures b[j].parent in ParentSet(a) + {keys[i].parent} {
        if j < i {
          assert b[j] == a[j];
        }
      }
      forall p | p in ParentSet(a) ensures p in ParentSet(b) {
        var j :| 0 <= j < |a| && a[j].parent == p;
        assert b[j] == a[j];
      }
    }
    var lhs := ChildrenMap(b);
    var rhs := ChildrenMap(a)[keys[i].parent := ChildrenOf(a, keys[i].parent) + [keys[i].full]];
    assert lhs.Keys == rhs.Keys;
    forall p | p in lhs ensures lhs[p] == rhs[p] {
      assert lhs[p] == ChildrenOf(b, p);
      ChildrenOfLast(b, p);
    }
  }

  /** `ChildrenOf` taken apart at its last row. */
  lemma ChildrenOfLast(b: seq<KeyPair>, p: string)
    requires b != []
    ensures ChildrenOf(b, p) ==
      ChildrenOf(b[..|b| - 1], p) + (if b[|b| - 1].parent == p then [b[|b| - 1].full] else [])
  {
  }

  /** A parent key no row has gets no children. */
  lemma {:induction false} NoChildren(keys: seq<KeyPair>, p: string)
    requires forall j :: 0 <= j < |keys| ==> keys[j].parent != p
    ensures ChildrenOf(keys, p) == []
  {
    if keys != [] {
      NoChildren(keys[..|keys| - 1], p);
    }
  }

  /** Every row's key is listed under its own parent key. */
  lemma {:induction false} ListedUnderParent(keys: seq<KeyPair>, i: nat)
    requires i < |keys|
    ensures keys[i].full in ChildrenOf(keys, keys[i].parent)
  {
    var init := keys[..|keys| - 1];
    if i < |init| {
      ListedUnderParent(init, i);
    }
  }

  /** The number of children listed under the keys of `ps`. */
  function SumLens(keys: seq<KeyPair>, ps: seq<string>): nat
  {
    if ps == [] then 0 else |ChildrenOf(keys, ps[0])| + SumLens(keys, ps[1..])
  }

  function Occurrences(ps: seq<string>, q: string): nat
  {
    if ps == [] then 0 else (if ps[0] == q then 1 else 0) + Occurrences(ps[1..], q)
  }

  lemma {:induction false} SumLensSnoc(keys: seq<KeyPair>, x: KeyPair, ps: seq<string>)
    ensures SumLens(keys + [x], ps) == SumLens(keys, ps) + Occurrences(ps, x.parent)
  {
    if ps != [] {
      assert (keys + [x])[..|keys|] == keys;
      SumLensSnoc(keys, x, ps[1..]);
    }
  }

  lemma {:induction false} OccursOnce(ps: seq<string>, q: string)
    requires forall i, j :: 0 <= i < j < |ps| ==> ps[i] != ps[j]
    requires q in ps
    ensures Occurrences(ps, q) == 1
  {
    if ps[0] == q {
      OccursNever(ps[1..], q);
    } else {
      OccursOnce(ps[1..], q);
    }
  }

  lemma {:induction false} OccursNever(ps: seq<string>, q: string)
    requires q !in ps
    ensures Occurrences(ps, q) == 0
  {
    if ps != [] {
      OccursNever(ps[1..], q);
    }
  }

  /** Listed over all parent keys once each, the children lists hold exactly one entry per
      row. */
  lemma {:induction false} ChildrenCountRows(keys: seq<KeyPair>, ps: seq<string>)
    requires forall i, j :: 0 <= i < j < |ps| ==> ps[i] != ps[j]
    requires forall i :: 0 <= i < |keys| ==> keys[i].parent in ps
    ensures SumLens(keys, ps) == |keys|
  {
    if keys == [] {
      EmptyKeysSum(ps);
    } else {
      var init := keys[..|keys| - 1];
      var x := keys[|keys| - 1];
      assert keys == init + [x];
      ChildrenCountRows(init, ps);
      SumLensSnoc(init, x, ps);
      OccursOnce(ps, x.parent);
    }
  }

  lemma {:induction false} EmptyKeysSum(ps: seq<string>)
    ensures SumLens([], ps) == 0
  {
    if ps != [] {
      EmptyKeysSum(ps[1..]);
    }
  }

  // ---------------------------------------------------------------------------------
  // Display order.

  /** A row whose first label, lower-cased, contains `total`. */
  predicate IsTotalRow(row: Record, n: nat)
  {
    n > 0 && |row| > 0 && Contains(Lower(LabelOf(row[0])), "total")
  }

  /** The rows that are not total rows, in order. */
  function NonTotal(flags: seq<bool>): (r: seq<nat>)
    ensures forall j :: 0 <= j < |r| ==> r[j] < |flags| && !flags[r[j]]
    ensures forall i :: 0 <= i < |flags| && !flags[i] ==> i in r
    ensures forall a, b :: 0 <= a < b < |r| ==> r[a] < r[b]
  {
    if flags == [] then []
    else
      var init := NonTotal(flags[..|flags| - 1]);
      if flags[|flags| - 1] then init else init + [|flags| - 1]
  }

  /** The last total row, if any. */
  function LastTotal(flags: seq<bool>): (r: Option<nat>)
    ensures r.Some? ==> r.value < |flags| && flags[r.value] && forall i :: r.value < i < |flags| ==> !flags[i]
    ensures r.None? ==> forall i :: 0 <= i < |flags| ==> !flags[i]
  {
    if flags == [] then None
    else if flags[|flags| - 1] then Some(|flags| - 1)
    else LastTotal(flags[..|flags| - 1])
  }

  /** The order rows are displayed in. */
  function Placement(flags: seq<bool>): seq<nat>
  {
    NonTotal(flags) + (match LastTotal(flags) case Some(t) => [t] case None => [])
  }

  /** Non-total rows keep their order and each appears once; of the total rows only the
      last is shown, and it is shown last. */
  lemma PlacementSpec(flags: seq<bool>)
    ensures var p := Placement(flags);
      (forall i :: 0 <= i < |flags| && !flags[i] ==> i in p)
      && (forall i :: 0 <= i < |flags| && flags[i] && i in p ==> LastTotal(flags) == Some(i) && p[|p| - 1] == i)
      && (forall a, b :: 0 <= a < b < |p| ==> p[a] != p[b])
  {
    var p := Placement(flags);
    var nt := NonTotal(flags);
    forall i | 0 <= i < |flags| && flags[i] && i in p
      ensures LastTotal(flags) == Some(i) && p[|p| - 1] == i
    {
      assert i !in nt;
    }
    forall a, b | 0 <= a < b < |p| ensures p[a] != p[b] {
      if b == |nt| {
        assert p[a] == nt[a] && !flags[p[a]];
      }
    }
  }

  /** A displayed row: which row of the result, its keys, and whether it gets an expander. */
  datatype PlacedRow = PlacedRow(index: nat, key: KeyPair, expandable: bool)

  function TotalFlags(rows: seq<Record>, n: nat): (r: seq<bool>)
    ensures |r| == |rows|
  {
    seq(|rows|, i requires 0 <= i < |rows| => IsTotalRow(rows[i], n))
  }

  /** Whether a row gets the expander: not a total row, and some row lists it as parent. */
  predicate Expandable(key: KeyPair, isTotal: bool, children: map<string, seq<string>>)
  {
    !isTotal && key.full in children && |children[key.full]| > 0
  }

  /** The second row loop of `generate_table`: rows that are not total rows are emitted in
      order, the total row is held back (a later one replacing an earlier one) and emitted
      last. */
  method PlaceRows(rows: seq<Record>, n: nat, keys: seq<KeyPair>, children: map<string, seq<string>>)
    returns (out: seq<PlacedRow>)
    requires |keys| == |rows|
    ensures out == PlacedAll(rows, n, keys, children, Placement(TotalFlags(rows, n)))
  {
    ghost var flags := TotalFlags(rows, n);
    ghost var nt: seq<nat> := [];
    var shown: seq<PlacedRow> := [];
    var total: Option<PlacedRow> := None;
    assert flags[..0] == [];
    for i := 0 to |rows|
      invariant nt == NonTotal(flags[..i])
      invariant forall j :: 0 <= j < |nt| ==> nt[j] < i
      invariant shown == PlacedAll(rows, n, keys, children, nt)
      invariant total.None? <==> LastTotal(flags[..i]).None?
      invariant total.Some? ==> total.value == Placed(rows, n, keys, children, LastTotal(flags[..i]).value)
    {
      PlaceStep(flags, i);
      var isTotal := IsTotalRow(rows[i], n);
      var placed := PlacedRow(i, keys[i], Expandable(keys[i], isTotal, children));
      assert flags[i] == isTotal;
      if isTotal {
        total := Some(placed);
      } else {
        PlacedAllSnoc(rows, n, keys, children, nt, i);
        shown := shown + [placed];
        nt := nt + [i];
      }
    }
    assert flags[..|rows|] == flags;
    if total.Some? {
      PlacedAllSnoc(rows, n, keys, children, nt, total.value.index);
      out := shown + [total.value];
    } else {
      assert nt + [] == nt;
      out := shown;
    }
  }

  /** Row `i` as displayed. */
  function Placed(rows: seq<Record>, n: nat, keys: seq<KeyPair>, children: map<string, seq<string>>, i: nat): PlacedRow
    requires |keys| == |rows| && i < |rows|
  {
    PlacedRow(i, keys[i], Expandable(keys[i], IsTotalRow(rows[i], n), children))
  }

  /** The rows at `order`, as displayed. */
  function PlacedAll(rows: seq<Record>, n: nat, keys: seq<KeyPair>, children: map<string, seq<string>>, order: seq<nat>): (r: seq<PlacedRow>)
    requires |keys| == |rows| && forall j :: 0 <= j < |order| ==> order[j] < |rows|
    ensures |r| == |order| && forall j :: 0 <= j < |order| ==> r[j] == Placed(rows, n, keys, children, order[j])
  {
    seq(|order|, j requires 0 <= j < |order| => Placed(rows, n, keys, children, order[j]))
  }

  lemma PlacedAllSnoc(rows: seq<Record>, n: nat, keys: seq<KeyPair>, children: map<string, seq<string>>, order: seq<nat>, i: nat)
    requires |keys| == |rows| && i < |rows| && forall j :: 0 <= j < |order| ==> order[j] < |rows|
    ensures PlacedAll(rows, n, keys, children, order + [i]) == PlacedAll(rows, n, keys, children, order) + [Placed(rows, n, keys, children, i)]
  {
  }

  lemma PlaceStep(flags: seq<bool>, i: nat)
    requires i < |flags|
    ensures NonTotal(flags[..i + 1]) == NonTotal(flags[..i]) + (if flags[i] then [] else [i])
    ensures LastTotal(flags[..i + 1]) == if flags[i] then Some(i) else LastTotal(flags[..i])
  {
    assert flags[..i + 1][..i] == flags[..i];
  }
}
