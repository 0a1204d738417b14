/** The regular-expression passes of the formula translator in backend.py, written as one
    left-to-right substitution engine (the behaviour of Python's `re.sub`) over a closed set
    of patterns, plus the `coalesce` and `concat` builders and the fixed sequence of passes
    that `_translate_functions` runs. */
module Rewrite {
  import opened Text
  import ArgSplit

  /** How the text between the parentheses of a matched call is rebuilt. */
  datatype Builder = CoalesceArgs | ConcatArgs

  /** The patterns the translator substitutes. Names are matched case-insensitively except
      in `FieldWord`, whose pattern is the escaped token itself. */
  datatype Rule =
    | BraceField                                // \{(.*?)\}              -> df["..."]
    | CallRename(name: string, repl: string)    // (?i)\bname\s*\(        -> repl
    | WordRename(word: string, repl: string)    // (?i)\bword\b           -> repl
    | CallWithArgs(name: string, builder: Builder) // (?i)\bname\s*\((.*?)\) with DOTALL
    | FieldWord(tok: string)                    // (?<!df\["|df\[')\btok\b -> df["tok"]
    | StrMethod(name: string, accessor: string, extra: nat)
        // (?i)\bname\s*\(\s*(df\[[^\]]+\])\s*(,\s*([^,\)]+)\s*){extra}\)  -> \1.str.accessor(\2,...)

  /** The only failure a pass can raise: `coalesce()` with no argument indexes an empty list. */
  datatype RewriteError = CoalesceWithoutArguments

  /** A column reference as the translator writes it. */
  function FieldRef(name: string): string
  {
    "df[\"" + name + "\"]"
  }

  predicate IsIdentifier(s: string)
  {
    s != [] && (IsLetter(s[0]) || s[0] == '_') && forall k :: 0 <= k < |s| ==> IsWordChar(s[k])
  }

  /** `\b` in front of a word character at position `i`. */
  predicate StartsWord(s: string, i: nat)
    requires i <= |s|
  {
    i == 0 || !IsWordChar(s[i - 1])
  }

  /** `\b` behind a word character that ends at position `j`. */
  predicate EndsWord(s: string, j: nat)
    requires j <= |s|
  {
    j == |s| || !IsWordChar(s[j])
  }

  /** `w` occurs at `i`, letters compared without regard to case. */
  predicate CaseInsensitiveAt(s: string, i: nat, w: string)
  {
    i + |w| <= |s| && Lower(s[i..i + |w|]) == Lower(w)
  }

  /** The position after the run of whitespace (`\s*`) starting at `j`. */
  function SkipSpaces(s: string, j: nat): (k: nat)
    requires j <= |s|
    ensures j <= k <= |s|
    ensures forall m :: j <= m < k ==> IsSpace(s[m])
    ensures k == |s| || !IsSpace(s[k])
    decreases |s| - j
  {
    if j == |s| || !IsSpace(s[j]) then j else SkipSpaces(s, j + 1)
  }

  /** The first `ch` at or after `j`. */
  function FindChar(s: string, j: nat, ch: char): (k: Option<nat>)
    requires j <= |s|
    ensures k.Some? ==> j <= k.value < |s| && s[k.value] == ch
    ensures k.Some? ==> forall m :: j <= m < k.value ==> s[m] != ch
    ensures k.None? ==> forall m :: j <= m < |s| ==> s[m] != ch
    decreases |s| - j
  {
    if j == |s| then None else if s[j] == ch then Some(j) else FindChar(s, j + 1, ch)
  }

  /** The first `)` at or after `j` (the lazy `(.*?)\)` with DOTALL). */
  function FindClose(s: string, j: nat): (k: Option<nat>)
    requires j <= |s|
    ensures k.Some? ==> j <= k.value < |s| && s[k.value] == ')'
    ensures k.Some? ==> forall m :: j <= m < k.value ==> s[m] != ')'
    ensures k.None? ==> forall m :: j <= m < |s| ==> s[m] != ')'
  {
    FindChar(s, j, ')')
  }

  /** The end of the run of characters other than `,` and `)` starting at `j` (`[^,\)]*`). */
  function ArgEnd(s: string, j: nat): (e: nat)
    requires j <= |s|
    ensures j <= e <= |s|
    ensures forall m :: j <= m < e ==> s[m] != ',' && s[m] != ')'
    ensures e == |s| || s[e] == ',' || s[e] == ')'
    decreases |s| - j
  {
    if j == |s| || s[j] == ',' || s[j] == ')' then j else ArgEnd(s, j + 1)
  }

  /** The `\s*,\s*([^,\)]+)` groups after position `p`, `n` of them, and where they end.
      The run of a group is taken whole (trailing white space included); when only white
      space stands before the next `,` or `)`, the leading `\s*` gives back its last
      character and the group is that one character. */
  function ExtraArgs(s: string, p: nat, n: nat): (r: Option<(seq<string>, nat)>)
    requires p <= |s|
    ensures r.Some? ==> |r.value.0| == n && p <= r.value.1 <= |s|
    decreases n
  {
    if n == 0 then Some(([], p))
    else
      var p1 := SkipSpaces(s, p);
      if p1 < |s| && s[p1] == ',' then
        var p2 := SkipSpaces(s, p1 + 1);
        var e := ArgEnd(s, p2);
        var start := if e > p2 then p2 else if p2 > p1 + 1 then p2 - 1 else p2;
        if e > start then
          match ExtraArgs(s, e, n - 1)
          case Some((rest, q)) => Some(([s[start..e]] + rest, q))
          case None => None
        else None
      else None
  }

  /** The first `}` at or after `j` not preceded by a line break (the lazy `(.*?)\}`, whose
      dot does not match a newline). */
  function FindBrace(s: string, j: nat): (k: Option<nat>)
    requires j <= |s|
    ensures k.Some? ==> j <= k.value < |s| && s[k.value] == '}'
    ensures k.Some? ==> forall m :: j <= m < k.value ==> s[m] != '}' && s[m] != '\n'
    decreases |s| - j
  {
    if j == |s| || s[j] == '\n' then None else if s[j] == '}' then Some(j) else FindBrace(s, j + 1)
  }

  /** A match: where it ends, the text of its first capture group (empty when it has
      none), and the text of any further groups. */
  datatype Hit = Hit(end: nat, inner: string, args: seq<string>)

  /** Whether the pattern of `rule` matches at position `i`, and how far. */
  function MatchAt(rule: Rule, s: string, i: nat): (m: Option<Hit>)
    requires i < |s|
    ensures m.Some? ==> i < m.value.end <= |s|
  {
    match rule
    case BraceField =>
      if s[i] != '{' then None
      else (match FindBrace(s, i + 1)
            case Some(k) => Some(Hit(k + 1, s[i + 1..k], []))
            case None => None)
    case CallRename(name, _) =>
      if name != [] && StartsWord(s, i) && CaseInsensitiveAt(s, i, name) then
        var k := SkipSpaces(s, i + |name|);
        if k < |s| && s[k] == '(' then Some(Hit(k + 1, [], [])) else None
      else None
    case WordRename(word, _) =>
      if word != [] && StartsWord(s, i) && CaseInsensitiveAt(s, i, word) && EndsWord(s, i + |word|)
      then Some(Hit(i + |word|, [], []))
      else None
    case CallWithArgs(name, _) =>
      if name != [] && StartsWord(s, i) && CaseInsensitiveAt(s, i, name) then
        var k := SkipSpaces(s, i + |name|);
        if k < |s| && s[k] == '(' then
          (match FindClose(s, k + 1)
           case Some(c) => Some(Hit(c + 1, s[k + 1..c], []))
           case None => None)
        else None
      else None
    case FieldWord(tok) =>
      if tok != [] && i + |tok| <= |s| && s[i..i + |tok|] == tok && StartsWord(s, i) && EndsWord(s, i + |tok|)
         && !(i >= 4 && (s[i - 4..i] == "df[\"" || s[i - 4..i] == "df['"))
      then Some(Hit(i + |tok|, [], []))
      else None
    case StrMethod(name, _, extra) => StrMethodAt(name, extra, s, i)
  }

  /** The string-method pattern: the name, `(`, a `df[...]` reference up to the first `]`,
      `extra` further arguments, then `)`. */
  function StrMethodAt(name: string, extra: nat, s: string, i: nat): (m: Option<Hit>)
    requires i < |s|
    ensures m.Some? ==> i < m.value.end <= |s|
  {
    if name != [] && StartsWord(s, i) && CaseInsensitiveAt(s, i, name) then
      var k := SkipSpaces(s, i + |name|);
      if k < |s| && s[k] == '(' then ColumnCallAt(s, SkipSpaces(s, k + 1), extra) else None
    else None
  }

  /** From the `df[` of the column reference on: the reference runs to the first `]` and
      holds at least one character. */
  function ColumnCallAt(s: string, d: nat, extra: nat): (m: Option<Hit>)
    requires d <= |s|
    ensures m.Some? ==> d < m.value.end <= |s|
  {
    if CaseInsensitiveAt(s, d, "df[") then
      match FindChar(s, d + 3, ']')
      case Some(c) => if c > d + 3 then CallTailAt(s, d, c, extra) else None
      case None => None
    else None
  }

  /** After the column reference `s[d..c + 1]`: the further arguments, then `)`. */
  function CallTailAt(s: string, d: nat, c: nat, extra: nat): (m: Option<Hit>)
    requires d <= c < |s|
    ensures m.Some? ==> c < m.value.end <= |s|
  {
    var rest := ExtraArgs(s, c + 1, extra);
    if rest.None? then None
    else
      var z := SkipSpaces(s, rest.value.1);
      if z < |s| && s[z] == ')' then Some(Hit(z + 1, s[d..c + 1], rest.value.0)) else None
  }

  /** `_coalesce_repl`'s result: the arguments folded into left-nested `fillna` calls. */
  function Coalesced(parts: seq<string>): string
    requires parts != []
  {
    if |parts| == 1 then parts[0]
    else "(" + Coalesced(parts[..|parts| - 1]) + ").fillna(" + parts[|parts| - 1] + ")"
  }

  function AsStrTerm(p: string): string
  {
    "(" + p + ").astype(str)"
  }

  /** `_concat_repl`'s result: every argument stringified, joined by ` + `. */
  function Concatenated(parts: seq<string>): string
  {
    Join(seq(|parts|, k requires 0 <= k < |parts| => AsStrTerm(parts[k])), " + ")
  }

  /** The replacement of the string-method passes: `\1.str.<accessor>(\2,\3)`. */
  function StrCall(column: string, accessor: string, args: seq<string>): string
  {
    column + ".str." + accessor + "(" + Join(args, ",") + ")"
  }

  /** What a match is replaced by. */
  function Replacement(rule: Rule, inner: string, args: seq<string>): Result<string, RewriteError>
  {
    match rule
    case StrMethod(_, accessor, _) => Ok(StrCall(inner, accessor, args))
    case BraceField => Ok(FieldRef(inner))
    case CallRename(_, repl) => Ok(repl)
    case WordRename(_, repl) => Ok(repl)
    case FieldWord(tok) => Ok(FieldRef(tok))
    case CallWithArgs(_, CoalesceArgs) =>
      var parts := ArgSplit.Parts(inner);
      if parts == [] then Err(CoalesceWithoutArguments) else Ok(Coalesced(parts))
    case CallWithArgs(_, ConcatArgs) => Ok(Concatenated(ArgSplit.Parts(inner)))
  }

  /** `re.sub` from position `i` on: matches are tried left to right, a match is replaced and
      the scan resumes after it, the pattern's look-behind sees the original text. */
  function SubFrom(rule: Rule, s: string, i: nat): Result<string, RewriteError>
    decreases |s| - i
  {
    if i >= |s| then Ok([])
    else match MatchAt(rule, s, i)
      case None =>
        var rest :- SubFrom(rule, s, i + 1);
        Ok([s[i]] + rest)
      case Some(h) =>
        var repl :- Replacement(rule, h.inner, h.args);
        var rest :- SubFrom(rule, s, h.end);
        Ok(repl + rest)
  }

  function Sub(rule: Rule, s: string): Result<string, RewriteError>
  {
    SubFrom(rule, s, 0)
  }

  /** Only the `coalesce` pass can raise; every other pass always produces a text. */
  lemma {:induction false} SubFromSucceeds(rule: Rule, s: string, i: nat)
    requires !(rule.CallWithArgs? && rule.builder == CoalesceArgs)
    ensures SubFrom(rule, s, i).Ok?
    decreases |s| - i
  {
    if i < |s| {
      match MatchAt(rule, s, i)
      case None => SubFromSucceeds(rule, s, i + 1);
      case Some(h) => SubFromSucceeds(rule, s, h.end);
    }
  }

  /** Where the pattern matches nowhere, the pass leaves the text exactly as it was. */
  lemma {:induction false} SubFromUnchanged(rule: Rule, s: string, i: nat)
    requires i <= |s|
    requires forall j :: i <= j < |s| ==> MatchAt(rule, s, j).None?
    ensures SubFrom(rule, s, i) == Ok(s[i..])
    decreases |s| - i
  {
    if i < |s| {
      assert MatchAt(rule, s, i).None?;
      SubFromUnchanged(rule, s, i + 1);
      assert SubFrom(rule, s, i) == Ok([s[i]] + s[i + 1..]);
      assert s[i..] == [s[i]] + s[i + 1..];
    } else {
      assert s[i..] == [];
    }
  }

  /** Every pattern of the translator starts with a letter or an underscore, or with `{`. */
  predicate StartsWithIdentifierChar(w: string)
  {
    w != [] && (IsLetter(w[0]) || w[0] == '_')
  }

  predicate WellFormedRule(rule: Rule)
  {
    match rule
    case BraceField => true
    case CallRename(name, _) => StartsWithIdentifierChar(name)
    case WordRename(word, _) => StartsWithIdentifierChar(word)
    case CallWithArgs(name, _) => StartsWithIdentifierChar(name)
    case FieldWord(tok) => StartsWithIdentifierChar(tok)
    case StrMethod(name, _, _) => StartsWithIdentifierChar(name)
  }

  /** No character that could begin an identifier or a `{...}` reference. */
  predicate Inert(s: string)
  {
    forall k :: 0 <= k < |s| ==> !IsLetter(s[k]) && s[k] != '_' && s[k] != '{'
  }

  lemma NoMatchInInert(rule: Rule, s: string, j: nat)
    requires WellFormedRule(rule) && Inert(s) && j < |s|
    ensures MatchAt(rule, s, j).None?
  {
    match rule
    case BraceField =>
    case CallRename(name, _) => FirstCharDiffers(s, j, name);
    case WordRename(word, _) => FirstCharDiffers(s, j, word);
    case CallWithArgs(name, _) => FirstCharDiffers(s, j, name);
    case FieldWord(tok) =>
      if j + |tok| <= |s| {
        assert s[j..j + |tok|][0] == s[j];
      }
    case StrMethod(name, _, _) => FirstCharDiffers(s, j, name);
  }

  lemma FirstCharDiffers(s: string, j: nat, w: string)
    requires j < |s| && !IsLetter(s[j]) && s[j] != '_' && StartsWithIdentifierChar(w)
    ensures !CaseInsensitiveAt(s, j, w)
  {
    assert LowerChar(s[j]) != LowerChar(w[0]);
    if j + |w| <= |s| {
      assert Lower(s[j..j + |w|])[0] == LowerChar(s[j]);
      assert Lower(w)[0] == LowerChar(w[0]);
    }
  }

  // ---------------------------------------------------------------------------------
  // The passes of `_translate_functions`, in the order the source runs them.

  /** The renames that run before `coalesce`. */
  const LeadingRenames: seq<Rule> := [
    CallRename("ifelse", "np.where("),
    CallRename("isnull", "pd.isnull("),
    CallRename("isnotnull", "pd.notnull(")
  ]

  /** The one pass that can raise. */
  const CoalescePass: Rule := CallWithArgs("coalesce", CoalesceArgs)

  const MathRenames: seq<Rule> := [
    CallRename("abs", "np.abs("),
    CallRename("ceil", "np.ceil("),
    CallRename("floor", "np.floor("),
    CallRename("round", "np.round("),
    CallRename("ln", "np.log("),
    CallRename("pow", "np.power(")
  ]

  const StringMethods: seq<Rule> := [
    StrMethod("upper", "upper", 0),
    StrMethod("lower", "lower", 0),
    StrMethod("trim", "strip", 0),
    StrMethod("len", "len", 0),
    StrMethod("contains", "contains", 1),
    StrMethod("startswith", "startswith", 1),
    StrMethod("endswith", "endswith", 1),
    StrMethod("replace", "replace", 2)
  ]

  /** The logical keywords, last of all. */
  const KeywordRenames: seq<Rule> := [
    WordRename("AND", "&"),
    WordRename("OR", "|"),
    WordRename("NOT", "~")
  ]

  /** Everything between `coalesce` and the keywords. */
  const MiddleRules: seq<Rule> :=
    MathRenames + StringMethods + [CallWithArgs("concat", ConcatArgs), CallRename("parseDate", "pd.to_datetime(")]

  const FunctionRules: seq<Rule> := LeadingRenames + [CoalescePass] + MiddleRules + KeywordRenames

  /** Runs the passes one after the other; the first failure stops the translation. */
  function ApplyAll(rules: seq<Rule>, s: string): Result<string, RewriteError>
  {
    if rules == [] then Ok(s)
    else
      var t :- Sub(rules[0], s);
      ApplyAll(rules[1..], t)
  }

  /** `_translate_functions`. */
  function TranslateFunctions(s: string): Result<string, RewriteError>
  {
    ApplyAll(FunctionRules, s)
  }

  /** A text with nothing that could begin a function name or keyword (only operators,
      digits, quotes and spaces) passes through every pass untouched. */
  lemma {:induction false} ApplyAllInert(rules: seq<Rule>, s: string)
    requires forall r :: r in rules ==> WellFormedRule(r)
    requires Inert(s)
    ensures ApplyAll(rules, s) == Ok(s)
  {
    if rules != [] {
      forall j | 0 <= j < |s| ensures MatchAt(rules[0], s, j).None? {
        NoMatchInInert(rules[0], s, j);
      }
      SubFromUnchanged(rules[0], s, 0);
      assert s[0..] == s;
      ApplyAllInert(rules[1..], s);
    }
  }

  lemma TranslateInert(s: string)
    requires Inert(s)
    ensures TranslateFunctions(s) == Ok(s)
  {
    FunctionRulesWellFormed();
    ApplyAllInert(FunctionRules, s);
  }

  /** No pass but `coalesce` can raise. */
  predicate NeverRaises(rules: seq<Rule>)
  {
    forall r :: r in rules ==> !(r.CallWithArgs? && r.builder == CoalesceArgs)
  }

  lemma RuleGroupsFacts()
    ensures forall r :: r in LeadingRenames ==> WellFormedRule(r)
    ensures forall r :: r in MathRenames ==> WellFormedRule(r)
    ensures forall r :: r in StringMethods ==> WellFormedRule(r)
    ensures forall r :: r in MiddleRules ==> WellFormedRule(r)
    ensures forall r :: r in KeywordRenames ==> WellFormedRule(r)
    ensures NeverRaises(LeadingRenames) && NeverRaises(MiddleRules) && NeverRaises(KeywordRenames)
  {
    forall r | r in LeadingRenames + MathRenames ensures r.CallRename? && WellFormedRule(r) {
      assert r.name != [] && IsLetter(r.name[0]);
    }
    forall r | r in StringMethods ensures r.StrMethod? && WellFormedRule(r) {
      assert r.name != [] && IsLetter(r.name[0]);
    }
    forall r | r in KeywordRenames ensures r.WordRename? && WellFormedRule(r) {
      assert r.word != [] && IsLetter(r.word[0]);
    }
    var concat := CallWithArgs("concat", ConcatArgs);
    var parse := CallRename("parseDate", "pd.to_datetime(");
    assert concat.name[0] == 'c' && parse.name[0] == 'p';
    assert MiddleRules == MathRenames + StringMethods + [concat, parse];
  }

  lemma FunctionRulesWellFormed()
    ensures forall r :: r in FunctionRules ==> WellFormedRule(r)
  {
    RuleGroupsFacts();
    assert CoalescePass.name[0] == 'c';
  }

  /** A failing translation is always the `coalesce` pass finding no argument: no other pass
      of the sequence can fail. */
  lemma {:induction false} ApplyAllFailsOnlyInCoalesce(rules: seq<Rule>, s: string)
    requires NeverRaises(rules)
    ensures ApplyAll(rules, s).Ok?
  {
    if rules != [] {
      SubFromSucceeds(rules[0], s, 0);
      ApplyAllFailsOnlyInCoalesce(rules[1..], Sub(rules[0], s).value);
    }
  }

  // ---------------------------------------------------------------------------------
  // The builders.

  /** `_coalesce_repl`: the split arguments, the first kept as is, each later one wrapping
      what was built so far in `(...).fillna(arg)`. With no argument the source's `parts[0]`
      raises. */
  method CoalesceRepl(inside: string) returns (r: Result<string, RewriteError>)
    ensures ArgSplit.Parts(inside) == [] ==> r == Err(CoalesceWithoutArguments)
    ensures ArgSplit.Parts(inside) != [] ==> r == Ok(Coalesced(ArgSplit.Parts(inside)))
  {
    var split := ArgSplit.SplitArgs(inside);
    var parts := seq(|split|, k requires 0 <= k < |split| => Strip(split[k]));
    assert parts == split;
    if parts == [] {
      return Err(CoalesceWithoutArguments);
    }
    var expr := parts[0];
    var i := 1;
    while i < |parts|
      invariant 1 <= i <= |parts|
      invariant expr == Coalesced(parts[..i])
    {
      assert parts[..i + 1][..i] == parts[..i];
      expr := "(" + expr + ").fillna(" + parts[i] + ")";
      i := i + 1;
    }
    assert parts[..|parts|] == parts;
    r := Ok(expr);
  }

  /** A single argument comes back unchanged. */
  lemma CoalescedSingle(a: string)
    ensures Coalesced([a]) == a
  {
  }

  /** Three arguments nest to the left: `((a).fillna(b)).fillna(c)`. */
  lemma CoalescedThree(a: string, b: string, c: string)
    ensures Coalesced([a, b, c]) == "((" + a + ").fillna(" + b + ")).fillna(" + c + ")"
  {
    assert [a, b, c][..2] == [a, b];
    assert [a, b][..1] == [a];
    var inner := "(" + a + ").fillna(" + b + ")";
    assert Coalesced([a]) == a;
    assert Coalesced([a, b]) == inner;
    assert Coalesced([a, b, c]) == "(" + inner + ").fillna(" + c + ")";
    assert "((" == "(" + "(" && ")).fillna(" == ")" + ").fillna(";
  }

  /** Two arguments: `(a).astype(str) + (b).astype(str)`. */
  lemma ConcatenatedTwo(a: string, b: string)
    ensures Concatenated([a, b]) == "(" + a + ").astype(str) + (" + b + ").astype(str)"
  {
    var terms := seq(2, k requires 0 <= k < 2 => AsStrTerm([a, b][k]));
    assert terms == [AsStrTerm(a), AsStrTerm(b)];
    assert terms[..1] == [AsStrTerm(a)];
    assert Join([AsStrTerm(a)], " + ") == AsStrTerm(a);
    assert Join(terms, " + ") == AsStrTerm(a) + " + " + AsStrTerm(b);
    assert ").astype(str) + (" == ").astype(str)" + " + " + "(";
  }

  /** One more argument appends ` + (arg).astype(str)`, so the arguments keep their order. */
  lemma ConcatenatedSnoc(parts: seq<string>, p: string)
    requires parts != []
    ensures Concatenated(parts + [p]) == Concatenated(parts) + " + " + AsStrTerm(p)
  {
    var all := parts + [p];
    var terms := seq(|all|, k requires 0 <= k < |all| => AsStrTerm(all[k]));
    var front := seq(|parts|, k requires 0 <= k < |parts| => AsStrTerm(parts[k]));
    assert terms == front + [AsStrTerm(p)];
    JoinSnoc(front, AsStrTerm(p), " + ");
  }

  /** `concat()` with nothing inside is replaced by the empty text. */
  lemma ConcatenatedEmpty()
    ensures Concatenated([]) == []
  {
  }

  /** The pieces of the match in `UpperExample`. */
  lemma UpperName(s: string)
    requires s == "upper(df[\"a\"])"
    ensures |s| == 14 && StartsWord(s, 0) && CaseInsensitiveAt(s, 0, "upper")
  {
    assert s[0..5] == "upper";
    assert Lower("upper") == "upper";
  }

  lemma UpperColumn(s: string)
    requires s == "upper(df[\"a\"])"
    ensures SkipSpaces(s, 5) == 5 && s[5] == '(' && SkipSpaces(s, 6) == 6
    ensures CaseInsensitiveAt(s, 6, "df[") && FindChar(s, 9, ']') == Some(12)
    ensures SkipSpaces(s, 13) == 13 && s[13] == ')' && s[6..13] == "df[\"a\"]"
  {
    assert s[6..9] == "df[";
    assert Lower("df[") == "df[";
    assert s[9] == '"' && s[10] == 'a' && s[11] == '"' && s[12] == ']';
  }

  /** A string helper with no extra argument: `upper(df["a"])` matches whole. */
  lemma UpperExample()
    ensures var s := "upper(df[\"a\"])";
      MatchAt(StrMethod("upper", "upper", 0), s, 0) == Some(Hit(14, "df[\"a\"]", []))
  {
    var s := "upper(df[\"a\"])";
    UpperName(s);
    UpperColumn(s);
  }

  /** What the match of `UpperExample` is replaced by. */
  lemma UpperReplacement()
    ensures Replacement(StrMethod("upper", "upper", 0), "df[\"a\"]", []) == Ok("df[\"a\"].str.upper()")
  {
    assert Join([], ",") == "";
    assert "df[\"a\"]" + ".str." + "upper" + "(" + "" + ")" == "df[\"a\"].str.upper()";
  }

  /** The pieces of the match in `ContainsExample`. */
  lemma ContainsArgs(s: string)
    requires s == "contains(df[\"a\"], \"x\")"
    ensures ExtraArgs(s, 16, 1) == Some((["\"x\""], 21))
  {
    assert |s| == 22 && s[16] == ',' && s[17] == ' ' && s[18] == '"' && s[19] == 'x' && s[20] == '"' && s[21] == ')';
    assert SkipSpaces(s, 16) == 16;
    assert SkipSpaces(s, 17) == 18;
    assert ArgEnd(s, 18) == 21;
    assert s[18..21] == "\"x\"";
    assert ExtraArgs(s, 21, 0) == Some(([], 21));
    assert [s[18..21]] + [] == ["\"x\""];
  }

  lemma ContainsName(s: string)
    requires s == "contains(df[\"a\"], \"x\")"
    ensures |s| == 22 && StartsWord(s, 0) && CaseInsensitiveAt(s, 0, "contains")
  {
    assert s[0..8] == "contains";
    assert Lower("contains") == "contains";
  }

  lemma ContainsColumn(s: string)
    requires s == "contains(df[\"a\"], \"x\")"
    ensures SkipSpaces(s, 8) == 8 && s[8] == '(' && SkipSpaces(s, 9) == 9
    ensures CaseInsensitiveAt(s, 9, "df[") && FindChar(s, 12, ']') == Some(15)
    ensures SkipSpaces(s, 21) == 21 && s[21] == ')' && s[9..16] == "df[\"a\"]"
  {
    assert s[9..12] == "df[";
    assert Lower("df[") == "df[";
    assert s[12] == '"' && s[13] == 'a' && s[14] == '"' && s[15] == ']';
  }

  /** A string helper with one extra argument: `contains(df["a"], "x")` matches up to its
      closing parenthesis, and the argument loses the space after the comma. */
  lemma ContainsExample()
    ensures var s := "contains(df[\"a\"], \"x\")";
      MatchAt(StrMethod("contains", "contains", 1), s, 0) == Some(Hit(22, "df[\"a\"]", ["\"x\""]))
  {
    var s := "contains(df[\"a\"], \"x\")";
    ContainsName(s);
    ContainsColumn(s);
    ContainsArgs(s);
  }

  /** What the match of `ContainsExample` is replaced by. */
  lemma ContainsReplacement()
    ensures Replacement(StrMethod("contains", "contains", 1), "df[\"a\"]", ["\"x\""]) == Ok("df[\"a\"].str.contains(\"x\")")
  {
    assert Join(["\"x\""], ",") == "\"x\"";
    assert "df[\"a\"]" + ".str." + "contains" + "(" + "\"x\"" + ")" == "df[\"a\"].str.contains(\"x\")";
  }
}
