/** Properties of the whole pass sequence of `_translate_functions` in backend.py: when it
    fails, and what the string-method passes make of a call. */
module RewriteProps {
  import opened Text
  import ArgSplit
  import opened Rewrite

  // ---------------------------------------------------------------------------------
  // Failure.

  /** Running two lists of passes one after the other is running their concatenation. */
  lemma {:induction false} ApplyAllAppend(a: seq<Rule>, b: seq<Rule>, s: string)
    ensures ApplyAll(a + b, s) == match ApplyAll(a, s) case Ok(t) => ApplyAll(b, t) case Err(e) => Err(e)
  {
    if a == [] {
      assert a + b == b;
    } else {
      assert (a + b)[0] == a[0] && (a + b)[1..] == a[1..] + b;
      match Sub(a[0], s)
      case Ok(t) => ApplyAllAppend(a[1..], b, t);
      case Err(_) =>
    }
  }

  /** The positions `re.sub` tries the pattern at from `i` on: every position up to a match,
      then the scan resumes where the match ends. */
  function Tried(rule: Rule, s: string, i: nat): (r: set<nat>)
    ensures forall j :: j in r ==> i <= j < |s|
    decreases |s| - i
  {
    if i >= |s| then {}
    else match MatchAt(rule, s, i)
      case None => {i} + Tried(rule, s, i + 1)
      case Some(h) => {i} + Tried(rule, s, h.end)
  }

  /** The pattern matches at `j` and the match cannot be replaced. */
  predicate FailsAt(rule: Rule, s: string, j: nat)
    requires j < |s|
  {
    match MatchAt(rule, s, j)
    case Some(h) => Replacement(rule, h.inner, h.args).Err?
    case None => false
  }

  /** One step of the scan: whether the pass fails from `i` on, and where it tries. */
  lemma SubFromStep(rule: Rule, s: string, i: nat)
    requires i < |s|
    ensures MatchAt(rule, s, i).None? ==>
      && !FailsAt(rule, s, i)
      && SubFrom(rule, s, i).Err? == SubFrom(rule, s, i + 1).Err?
      && Tried(rule, s, i) == {i} + Tried(rule, s, i + 1)
    ensures MatchAt(rule, s, i).Some? ==>
      var e := MatchAt(rule, s, i).value.end;
      && SubFrom(rule, s, i).Err? == (FailsAt(rule, s, i) || SubFrom(rule, s, e).Err?)
      && Tried(rule, s, i) == {i} + Tried(rule, s, e)
  {
  }

  /** A pass fails exactly when one of the matches it makes cannot be replaced. */
  lemma {:induction false} SubFromFails(rule: Rule, s: string, i: nat)
    ensures SubFrom(rule, s, i).Err? <==> exists j :: j in Tried(rule, s, i) && FailsAt(rule, s, j)
    decreases |s| - i
  {
    if i < |s| {
      SubFromStep(rule, s, i);
      var next := if MatchAt(rule, s, i).None? then i + 1 else MatchAt(rule, s, i).value.end;
      SubFromFails(rule, s, next);
      assert SubFrom(rule, s, i).Err? == (FailsAt(rule, s, i) || SubFrom(rule, s, next).Err?);
      assert Tried(rule, s, i) == {i} + Tried(rule, s, next);
    }
  }

  /** A pass sequence whose only `coalesce` pass stands between `pre` and `post` fails
      exactly when that pass fails on what `pre` makes of the text. */
  lemma ApplyAllAroundCoalesce(pre: seq<Rule>, post: seq<Rule>, s: string)
    requires NeverRaises(pre) && NeverRaises(post)
    ensures ApplyAll(pre, s).Ok?
    ensures ApplyAll(pre + [CoalescePass] + post, s).Err? <==> Sub(CoalescePass, ApplyAll(pre, s).value).Err?
  {
    ApplyAllFailsOnlyInCoalesce(pre, s);
    var t := ApplyAll(pre, s).value;
    ApplyAllAppend(pre + [CoalescePass], post, s);
    ApplyAllAppend(pre, [CoalescePass], s);
    assert [CoalescePass][1..] == [];
    if Sub(CoalescePass, t).Ok? {
      ApplyAllFailsOnlyInCoalesce(post, Sub(CoalescePass, t).value);
    }
  }

  /** The `coalesce` pass cannot replace a match exactly when there is no argument in it. */
  lemma CoalesceFailsAt(t: string, j: nat)
    requires j < |t|
    ensures FailsAt(CoalescePass, t, j) <==>
      MatchAt(CoalescePass, t, j).Some? && ArgSplit.Parts(MatchAt(CoalescePass, t, j).value.inner) == []
  {
  }

  /** `_translate_functions` fails exactly when the text reaching the `coalesce` pass (after
      the three passes before it, which always succeed) has a `coalesce(...)` match, among
      those the scan makes, with no argument between its parentheses. */
  lemma TranslateFailsIffEmptyCoalesce(s: string)
    ensures ApplyAll(LeadingRenames, s).Ok?
    ensures var t := ApplyAll(LeadingRenames, s).value;
      TranslateFunctions(s).Err? <==>
        exists j :: j in Tried(CoalescePass, t, 0) && MatchAt(CoalescePass, t, j).Some?
                    && ArgSplit.Parts(MatchAt(CoalescePass, t, j).value.inner) == []
  {
    RuleGroupsFacts();
    var post := MiddleRules + KeywordRenames;
    assert FunctionRules == LeadingRenames + [CoalescePass] + post;
    ApplyAllAroundCoalesce(LeadingRenames, post, s);
    var t := ApplyAll(LeadingRenames, s).value;
    SubFromFails(CoalescePass, t, 0);
    forall j | j in Tried(CoalescePass, t, 0)
      ensures FailsAt(CoalescePass, t, j) <==>
        MatchAt(CoalescePass, t, j).Some? && ArgSplit.Parts(MatchAt(CoalescePass, t, j).value.inner) == []
    {
      CoalesceFailsAt(t, j);
    }
  }

  // ---------------------------------------------------------------------------------
  // The string-method passes.

  /** `s` begins with the head `name(df[...]` of a string-method call whose column
      reference closes at its first `]`, at `c`. */
  predicate CallHead(name: string, s: string, c: nat)
  {
    && name != [] && |name| + 4 < c < |s|
    && CaseInsensitiveAt(s, 0, name) && s[|name|] == '(' && SkipSpaces(s, |name|) == |name|
    && SkipSpaces(s, |name| + 1) == |name| + 1 && CaseInsensitiveAt(s, |name| + 1, "df[")
    && FindChar(s, |name| + 4, ']') == Some(c)
  }

  /** After the `]` at `c`, the pattern reads `extra` further arguments `args` and then the
      `)` that ends `s`. */
  predicate CallEnd(s: string, c: nat, extra: nat, args: seq<string>)
  {
    && c + 1 < |s| && s[|s| - 1] == ')' && SkipSpaces(s, |s| - 1) == |s| - 1
    && ExtraArgs(s, c + 1, extra) == Some((args, |s| - 1))
  }

  /** The three steps of the pattern: the name and `(`, the column reference, the further
      arguments and `)`. */
  lemma NameStep(name: string, extra: nat, s: string)
    requires name != [] && |name| + 1 < |s|
    requires CaseInsensitiveAt(s, 0, name) && s[|name|] == '(' && SkipSpaces(s, |name|) == |name|
    requires SkipSpaces(s, |name| + 1) == |name| + 1
    ensures StrMethodAt(name, extra, s, 0) == ColumnCallAt(s, |name| + 1, extra)
  {
  }

  lemma ColumnStep(s: string, d: nat, c: nat, extra: nat)
    requires d <= |s| && CaseInsensitiveAt(s, d, "df[")
    requires FindChar(s, d + 3, ']') == Some(c) && c > d + 3
    ensures ColumnCallAt(s, d, extra) == CallTailAt(s, d, c, extra)
  {
  }

  lemma TailStep(s: string, d: nat, c: nat, extra: nat, args: seq<string>, q: nat)
    requires d <= c < |s|
    requires ExtraArgs(s, c + 1, extra) == Some((args, q))
    requires q < |s| && s[q] == ')' && SkipSpaces(s, q) == q
    ensures CallTailAt(s, d, c, extra) == Some(Hit(q + 1, s[d..c + 1], args))
  {
  }

  lemma StrMethodMatches(name: string, accessor: string, extra: nat, s: string, c: nat,
                         args: seq<string>)
    requires name != [] && |name| + 4 < c < |s|
    requires CaseInsensitiveAt(s, 0, name) && s[|name|] == '(' && SkipSpaces(s, |name|) == |name|
    requires SkipSpaces(s, |name| + 1) == |name| + 1 && CaseInsensitiveAt(s, |name| + 1, "df[")
    requires FindChar(s, |name| + 4, ']') == Some(c)
    requires s[|s| - 1] == ')' && SkipSpaces(s, |s| - 1) == |s| - 1
    requires ExtraArgs(s, c + 1, extra) == Some((args, |s| - 1))
    ensures MatchAt(StrMethod(name, accessor, extra), s, 0) == Some(Hit(|s|, s[|name| + 1..c + 1], args))
  {
    NameStep(name, extra, s);
    ColumnStep(s, |name| + 1, c, extra);
    TailStep(s, |name| + 1, c, extra, args, |s| - 1);
  }

  /** Where a string-method pattern matches at the start and runs to the end of the text,
      the pass gives just the replacement. */
  lemma WholeMatch(rule: Rule, s: string, h: Hit)
    requires rule.StrMethod? && s != [] && MatchAt(rule, s, 0) == Some(h) && h.end == |s|
    ensures Sub(rule, s) == Ok(StrCall(h.inner, rule.accessor, h.args))
  {
    assert SubFrom(rule, s, |s|) == Ok([]);
    assert StrCall(h.inner, rule.accessor, h.args) + [] == StrCall(h.inner, rule.accessor, h.args);
  }

  /** A text that is one whole string-method call is replaced by the `.str` call on its
      column reference. */
  lemma StrMethodWhole(name: string, accessor: string, extra: nat, s: string, c: nat,
                       args: seq<string>)
    requires CallHead(name, s, c) && CallEnd(s, c, extra, args)
    ensures Sub(StrMethod(name, accessor, extra), s) == Ok(StrCall(s[|name| + 1..c + 1], accessor, args))
  {
    StrMethodMatches(name, accessor, extra, s, c, args);
    WholeMatch(StrMethod(name, accessor, extra), s, Hit(|s|, s[|name| + 1..c + 1], args));
  }

  /** The text `name(df[c]` followed by `rest`. */
  lemma StrCallHead(name: string, c: string, rest: string, s: string)
    requires name != [] && c != [] && ']' !in c
    requires s == name + "(df[" + c + "]" + rest
    ensures CallHead(name, s, |name| + 4 + |c|)
    ensures s[|name| + 1..|name| + 4 + |c| + 1] == "df[" + c + "]"
    ensures s[|name| + 4 + |c| + 1..] == rest
  {
    HeadName(name, c, rest, s);
    HeadColumn(name, c, rest, s);
  }

  lemma HeadName(name: string, c: string, rest: string, s: string)
    requires name != [] && s == name + "(df[" + c + "]" + rest
    ensures |s| == |name| + 5 + |c| + |rest|
    ensures s[|name|] == '(' && SkipSpaces(s, |name|) == |name| && SkipSpaces(s, |name| + 1) == |name| + 1
    ensures CaseInsensitiveAt(s, 0, name) && CaseInsensitiveAt(s, |name| + 1, "df[")
  {
    var n := |name|;
    assert s[..n] == name;
    assert s[n + 1..n + 4] == "df[";
  }

  lemma HeadColumn(name: string, c: string, rest: string, s: string)
    requires name != [] && c != [] && ']' !in c
    requires s == name + "(df[" + c + "]" + rest
    ensures FindChar(s, |name| + 4, ']') == Some(|name| + 4 + |c|)
    ensures s[|name| + 1..|name| + 4 + |c| + 1] == "df[" + c + "]"
    ensures s[|name| + 4 + |c| + 1..] == rest
  {
    var n := |name|;
    assert s[n + 4..n + 4 + |c|] == c;
    assert s[n + 4 + |c|] == ']';
    forall m | n + 4 <= m < n + 4 + |c| ensures s[m] != ']' {
      assert s[m] == c[m - n - 4];
    }
    var k := FindChar(s, n + 4, ']');
  }

  /** Just `)` after the column reference. */
  lemma NoArgumentEnd(s: string, c: nat)
    requires c + 1 <= |s| && s[c + 1..] == ")"
    ensures CallEnd(s, c, 0, [])
  {
    assert s[|s| - 1] == s[c + 1..][0];
  }

  /** An argument the `([^,\)]+)` group takes whole after `,\s*`: not empty, not starting
      with white space, and holding no `,` or `)`. */
  predicate PlainArgument(a: string)
  {
    a != [] && !IsSpace(a[0]) && ',' !in a && ')' !in a
  }

  /** `, a)` after the column reference: one further argument, the run `a`. */
  lemma OneArgumentEnd(s: string, c: nat, a: string)
    requires PlainArgument(a)
    requires c + 1 <= |s| && s[c + 1..] == ", " + a + ")"
    ensures CallEnd(s, c, 1, [a])
  {
    var p := c + 1;
    assert |s| == p + 3 + |a|;
    assert s[p] == ',' && s[p + 1] == ' ' && s[p + 2] == a[0];
    assert SkipSpaces(s, p) == p && SkipSpaces(s, p + 1) == p + 2;
    var e := p + 2 + |a|;
    assert s[p + 2..e] == a;
    forall m | p + 2 <= m < e ensures s[m] != ',' && s[m] != ')' {
      assert s[m] == a[m - p - 2];
    }
    assert s[e] == ')';
    assert ArgEnd(s, p + 2) == e;
    assert ExtraArgs(s, e, 0) == Some(([], e));
    assert [s[p + 2..e]] + [] == [a];
  }

  lemma NoArgumentWhole(name: string, accessor: string, s: string, c: nat)
    requires CallHead(name, s, c) && c + 1 <= |s| && s[c + 1..] == ")"
    ensures Sub(StrMethod(name, accessor, 0), s) == Ok(StrCall(s[|name| + 1..c + 1], accessor, []))
  {
    NoArgumentEnd(s, c);
    StrMethodWhole(name, accessor, 0, s, c, []);
  }

  lemma OneArgumentWhole(name: string, accessor: string, s: string, c: nat, a: string)
    requires CallHead(name, s, c) && PlainArgument(a) && c + 1 <= |s| && s[c + 1..] == ", " + a + ")"
    ensures Sub(StrMethod(name, accessor, 1), s) == Ok(StrCall(s[|name| + 1..c + 1], accessor, [a]))
  {
    OneArgumentEnd(s, c, a);
    StrMethodWhole(name, accessor, 1, s, c, [a]);
  }

  lemma StrCallNoArgument(column: string, accessor: string)
    ensures StrCall(column, accessor, []) == column + ".str." + accessor + "()"
  {
    assert Join([], ",") == [];
  }

  lemma StrCallOneArgument(column: string, accessor: string, a: string)
    ensures StrCall(column, accessor, [a]) == column + ".str." + accessor + "(" + a + ")"
  {
  }

  /** A one-column string method, `upper(df[c])` say, becomes `df[c].str.upper()`. */
  lemma StrMethodNoArgument(name: string, accessor: string, c: string)
    requires name != [] && c != [] && ']' !in c
    ensures Sub(StrMethod(name, accessor, 0), name + "(df[" + c + "])")
         == Ok("df[" + c + "]" + ".str." + accessor + "()")
  {
    var s := name + "(df[" + c + "])";
    assert s == name + "(df[" + c + "]" + ")";
    StrCallHead(name, c, ")", s);
    NoArgumentWhole(name, accessor, s, |name| + 4 + |c|);
    StrCallNoArgument("df[" + c + "]", accessor);
  }

  lemma OneArgumentText(name: string, c: string, a: string, s: string)
    requires s == name + "(df[" + c + "], " + a + ")"
    ensures s == name + "(df[" + c + "]" + (", " + a + ")")
  {
  }

  /** A string method with one more argument, `contains(df[c], a)` say, becomes
      `df[c].str.contains(a)`; the argument is taken up to the closing parenthesis. */
  lemma StrMethodOneArgument(name: string, accessor: string, c: string, a: string)
    requires name != [] && c != [] && ']' !in c
    requires PlainArgument(a)
    ensures Sub(StrMethod(name, accessor, 1), name + "(df[" + c + "], " + a + ")")
         == Ok("df[" + c + "]" + ".str." + accessor + "(" + a + ")")
  {
    var s := name + "(df[" + c + "], " + a + ")";
    OneArgumentText(name, c, a, s);
    StrCallHead(name, c, ", " + a + ")", s);
    OneArgumentWhole(name, accessor, s, |name| + 4 + |c|, a);
    StrCallOneArgument("df[" + c + "]", accessor, a);
  }
}
