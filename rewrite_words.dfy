/** The keyword passes at the end of `_translate_functions` in backend.py: a word pass
    replaces every whole word it names and creates no whole word, so that after the
    `AND`, `OR` and `NOT` passes none of the three is left, in any letter case. */
module RewriteWords {
  import opened Text
  import opened Rewrite
  import RewriteProps

  /** A non-empty run of `\w` characters. */
  predicate IsWord(u: string)
  {
    u != [] && forall k :: 0 <= k < |u| ==> IsWordChar(u[k])
  }

  /** No `\w` character at all. */
  predicate NoWordChar(t: string)
  {
    forall k :: 0 <= k < |t| ==> !IsWordChar(t[k])
  }

  /** `(?i)\bu\b` matches at `j` of `t`. */
  predicate WholeWordAt(t: string, j: nat, u: string)
  {
    j + |u| <= |t| && StartsWord(t, j) && CaseInsensitiveAt(t, j, u) && EndsWord(t, j + |u|)
  }

  /** A word pass whose word is a run of `\w` characters and whose replacement holds none. */
  predicate PlainWordPass(rule: Rule)
  {
    rule.WordRename? && IsWord(rule.word) && NoWordChar(rule.repl)
  }

  /** What matches a word, letters compared without regard to case, is made of `\w`
      characters. */
  lemma WordCharsAt(t: string, j: nat, u: string, k: nat)
    requires IsWord(u) && CaseInsensitiveAt(t, j, u) && k < |u|
    ensures IsWordChar(t[j + k])
  {
    assert Lower(t[j..j + |u|])[k] == LowerChar(t[j + k]);
    assert Lower(u)[k] == LowerChar(u[k]);
  }

  /** A whole word of the text equal to the pass's word, letters compared without regard
      to case, is a match of the pass. */
  lemma SameWordMatches(rule: Rule, s: string, i: nat, u: string)
    requires PlainWordPass(rule) && i < |s| && WholeWordAt(s, i, u)
    ensures Lower(u) == Lower(rule.word) ==> MatchAt(rule, s, i).Some?
  {
    var w := rule.word;
    assert |Lower(u)| == |u| && |Lower(w)| == |w|;
    assert Lower(u) == Lower(w) ==> WholeWordAt(s, i, w);
    WordMatch(rule, s, i);
  }

  lemma WordMatch(rule: Rule, s: string, i: nat)
    requires PlainWordPass(rule) && i < |s|
    ensures WholeWordAt(s, i, rule.word) ==> MatchAt(rule, s, i).Some?
  {
  }

  /** A whole word of the text that the pass did not match at is not the pass's word. */
  lemma NotThePassWord(rule: Rule, s: string, i: nat, u: string)
    requires PlainWordPass(rule) && i < |s| && MatchAt(rule, s, i).None?
    requires WholeWordAt(s, i, u)
    ensures Lower(u) != Lower(rule.word)
  {
    SameWordMatches(rule, s, i, u);
  }

  /** One step of the scan that does not match: the character is copied. */
  lemma CopyStep(rule: Rule, s: string, i: nat, r: string)
    requires PlainWordPass(rule) && i < |s| && MatchAt(rule, s, i).None?
    requires SubFrom(rule, s, i) == Ok(r)
    ensures SubFrom(rule, s, i + 1).Ok? && r == [s[i]] + SubFrom(rule, s, i + 1).value
  {
    SubFromSucceeds(rule, s, i + 1);
  }

  /** Where the pass does not match at `i`, a run of `\w` characters at the start of its
      output from `i` on is the text's own. */
  lemma {:induction false} CopyRun(rule: Rule, s: string, i: nat, r: string, k: nat)
    requires PlainWordPass(rule) && i <= |s|
    requires i < |s| ==> MatchAt(rule, s, i).None?
    requires SubFrom(rule, s, i) == Ok(r)
    requires k <= |r| && forall m :: 0 <= m < k ==> IsWordChar(r[m])
    ensures i + k <= |s| && r[..k] == s[i..i + k]
    ensures k < |r| ==> i + k < |s| && r[k] == s[i + k]
    ensures k == |r| ==> i + k == |s|
    decreases k
  {
    if i < |s| {
      CopyStep(rule, s, i, r);
      var rest := SubFrom(rule, s, i + 1).value;
      if k > 0 {
        assert IsWordChar(r[0]) && r[0] == s[i];
        assert !StartsWord(s, i + 1);
        forall m | 0 <= m < k - 1 ensures IsWordChar(rest[m]) {
          assert rest[m] == r[m + 1];
        }
        CopyRun(rule, s, i + 1, rest, k - 1);
        assert r[..k] == [s[i]] + rest[..k - 1];
      }
    }
  }

  /** The output after a match: the replacement, then the scan from the end of the match,
      which begins with the text's own non-`\w` character or is empty. */
  lemma AfterMatch(rule: Rule, s: string, i: nat, r: string, h: Hit)
    requires PlainWordPass(rule) && i < |s| && MatchAt(rule, s, i) == Some(h)
    requires SubFrom(rule, s, i) == Ok(r)
    ensures h.end == i + |rule.word| && SubFrom(rule, s, h.end).Ok?
    ensures r == rule.repl + SubFrom(rule, s, h.end).value
    ensures h.end == |s| ==> SubFrom(rule, s, h.end).value == []
    ensures h.end < |s| ==> SubFrom(rule, s, h.end).value != []
                            && !IsWordChar(SubFrom(rule, s, h.end).value[0])
  {
    var e := h.end;
    SubFromSucceeds(rule, s, e);
    if e < |s| {
      WordCharsAt(s, i, rule.word, |rule.word| - 1);
      assert !StartsWord(s, e);
      CopyStep(rule, s, e, SubFrom(rule, s, e).value);
    }
  }

  /** A whole word at the start of the output, where the pass did not match and the text
      has a word boundary, is the text's own whole word, and not the pass's word. */
  lemma StartCopied(rule: Rule, s: string, i: nat, r: string, u: string)
    requires PlainWordPass(rule) && IsWord(u) && i < |s| && MatchAt(rule, s, i).None?
    requires SubFrom(rule, s, i) == Ok(r) && StartsWord(s, i)
    requires |u| <= |r| && CaseInsensitiveAt(r, 0, u) && EndsWord(r, |u|)
    ensures WholeWordAt(s, i, u) && Lower(u) != Lower(rule.word)
  {
    forall m | 0 <= m < |u| ensures IsWordChar(r[m]) {
      WordCharsAt(r, 0, u, m);
    }
    CopyRun(rule, s, i, r, |u|);
    assert r[0..|u|] == s[i..i + |u|];
    NotThePassWord(rule, s, i, u);
  }

  /** A whole word of `p + rest` past `p` is one of `rest`. */
  lemma ShiftPast(p: string, rest: string, j: nat, u: string)
    requires 0 < |p| <= j && j + |u| <= |p + rest|
    requires CaseInsensitiveAt(p + rest, j, u) && EndsWord(p + rest, j + |u|)
    requires !IsWordChar((p + rest)[j - 1])
    ensures j - |p| + |u| <= |rest| && CaseInsensitiveAt(rest, j - |p|, u)
    ensures EndsWord(rest, j - |p| + |u|)
    ensures j > |p| ==> !IsWordChar(rest[j - |p| - 1])
    ensures j == |p| ==> !IsWordChar(p[|p| - 1])
  {
    var r := p + rest;
    assert r[j..j + |u|] == rest[j - |p|..j - |p| + |u|];
    assert j - |p| + |u| < |rest| ==> rest[j - |p| + |u|] == r[j + |u|];
    assert j > |p| ==> rest[j - |p| - 1] == r[j - 1];
  }

  /** A word in the output after a match lies past the replacement and the character
      after it. */
  lemma PastReplacement(rule: Rule, s: string, i: nat, r: string, h: Hit, j: nat, u: string)
    requires PlainWordPass(rule) && IsWord(u) && i < |s| && MatchAt(rule, s, i) == Some(h)
    requires SubFrom(rule, s, i) == Ok(r)
    requires j + |u| <= |r| && CaseInsensitiveAt(r, j, u)
    ensures j > |rule.repl|
  {
    AfterMatch(rule, s, i, r, h);
    WordCharsAt(r, j, u, 0);
  }

  /** A match of `(?i)\bu\b` at `j` of the output `r` of the scan from `i` on; at the very
      start of `r` the boundary is the text's own at `i`. */
  predicate Occurs(s: string, i: nat, r: string, j: nat, u: string)
    requires i <= |s|
  {
    j + |u| <= |r| && CaseInsensitiveAt(r, j, u) && EndsWord(r, j + |u|)
    && if j == 0 then StartsWord(s, i) else !IsWordChar(r[j - 1])
  }

  /** Past a copied character, the word occurs one place earlier in the rest of the output. */
  lemma CopiedStep(rule: Rule, s: string, i: nat, r: string, j: nat, u: string)
    requires PlainWordPass(rule) && IsWord(u) && i < |s| && MatchAt(rule, s, i).None?
    requires SubFrom(rule, s, i) == Ok(r) && Occurs(s, i, r, j, u) && j > 0
    ensures SubFrom(rule, s, i + 1).Ok? && Occurs(s, i + 1, SubFrom(rule, s, i + 1).value, j - 1, u)
  {
    CopyStep(rule, s, i, r);
    ShiftPast([s[i]], SubFrom(rule, s, i + 1).value, j, u);
  }

  /** A word that begins past the `p` in front of `rest` occurs in `rest`, not at its start. */
  lemma ShiftOccurs(s: string, e: nat, p: string, rest: string, j: nat, u: string)
    requires e <= |s| && |p| < j && j + |u| <= |p + rest|
    requires CaseInsensitiveAt(p + rest, j, u) && EndsWord(p + rest, j + |u|)
    requires !IsWordChar((p + rest)[j - 1])
    ensures Occurs(s, e, rest, j - |p|, u)
  {
    var r := p + rest;
    assert r[j..j + |u|] == rest[j - |p|..j - |p| + |u|];
    assert j - |p| + |u| < |rest| ==> rest[j - |p| + |u|] == r[j + |u|];
    assert rest[j - |p| - 1] == r[j - 1];
  }

  /** Past a replacement, the word occurs, not at the very start, in the rest of the output. */
  lemma ReplacedStep(rule: Rule, s: string, i: nat, r: string, h: Hit, j: nat, u: string)
    requires PlainWordPass(rule) && IsWord(u) && i < |s| && MatchAt(rule, s, i) == Some(h)
    requires SubFrom(rule, s, i) == Ok(r) && Occurs(s, i, r, j, u)
    ensures i < h.end <= |s| && SubFrom(rule, s, h.end).Ok?
    ensures j >= |rule.repl| && Occurs(s, h.end, SubFrom(rule, s, h.end).value, j - |rule.repl|, u)
  {
    PastReplacement(rule, s, i, r, h, j, u);
    AfterMatch(rule, s, i, r, h);
    ShiftOccurs(s, h.end, rule.repl, SubFrom(rule, s, h.end).value, j, u);
  }

  /** The output of the scan from the end of the text is empty. */
  lemma OccursBeforeEnd(rule: Rule, s: string, i: nat, r: string, j: nat, u: string)
    requires IsWord(u) && i <= |s| && SubFrom(rule, s, i) == Ok(r) && Occurs(s, i, r, j, u)
    ensures i < |s|
  {
  }

  /** A whole word `u` in the output of the pass from `i` on is a whole word of the text at
      or after `i`, and is not the pass's word. */
  lemma {:induction false} WholeWordFrom(rule: Rule, s: string, i: nat, r: string, j: nat, u: string)
      returns (j0: nat)
    requires PlainWordPass(rule) && IsWord(u) && i <= |s|
    requires SubFrom(rule, s, i) == Ok(r) && Occurs(s, i, r, j, u)
    ensures i <= j0 && WholeWordAt(s, j0, u) && Lower(u) != Lower(rule.word)
    decreases |s| - i
  {
    OccursBeforeEnd(rule, s, i, r, j, u);
    var m := MatchAt(rule, s, i);
    if m.None? && j == 0 {
      StartCopied(rule, s, i, r, u);
      j0 := i;
    } else if m.None? {
      CopiedStep(rule, s, i, r, j, u);
      j0 := WholeWordFrom(rule, s, i + 1, SubFrom(rule, s, i + 1).value, j - 1, u);
    } else {
      ReplacedStep(rule, s, i, r, m.value, j, u);
      j0 := WholeWordFrom(rule, s, m.value.end, SubFrom(rule, s, m.value.end).value, j - |rule.repl|, u);
    }
  }

  /** Every whole word of the pass's output is a whole word of its input, other than the
      pass's own word. */
  lemma WholeWordOrigin(rule: Rule, s: string, t: string, j: nat, u: string)
    requires PlainWordPass(rule) && IsWord(u) && Sub(rule, s) == Ok(t)
    ensures WholeWordAt(t, j, u) ==>
              Lower(u) != Lower(rule.word) && exists j0 :: WholeWordAt(s, j0, u)
  {
    if WholeWordAt(t, j, u) {
      var j0 := WholeWordFrom(rule, s, 0, t, j, u);
    }
  }

  /** `re.sub(r"(?i)\bword\b", repl, src)` leaves no whole `word`, in any letter case. */
  lemma WordPassRemovesWord(rule: Rule, s: string, t: string)
    requires PlainWordPass(rule) && Sub(rule, s) == Ok(t)
    ensures forall j :: !WholeWordAt(t, j, rule.word)
  {
    forall j ensures !WholeWordAt(t, j, rule.word) {
      WholeWordOrigin(rule, s, t, j, rule.word);
    }
  }

  /** A word pass creates no whole word that was not already there. */
  lemma WordPassKeepsAbsent(rule: Rule, s: string, t: string, u: string)
    requires PlainWordPass(rule) && IsWord(u) && Sub(rule, s) == Ok(t)
    requires forall j :: !WholeWordAt(s, j, u)
    ensures forall j :: !WholeWordAt(t, j, u)
  {
    forall j ensures !WholeWordAt(t, j, u) {
      WholeWordOrigin(rule, s, t, j, u);
    }
  }

  /** No whole word `AND`, `OR` or `NOT`, in any letter case. */
  predicate NoKeyword(t: string)
  {
    forall j :: 0 <= j < |t| ==>
      !WholeWordAt(t, j, "AND") && !WholeWordAt(t, j, "OR") && !WholeWordAt(t, j, "NOT")
  }

  lemma KeywordPassesPlain()
    ensures forall r :: r in KeywordRenames ==> PlainWordPass(r)
  {
    forall r | r in KeywordRenames ensures PlainWordPass(r) {
      assert r.word in {"AND", "OR", "NOT"} && r.repl in {"&", "|", "~"};
    }
  }

  /** The three keyword passes, one after the other, leave no keyword behind. */
  lemma KeywordPassesClean(t: string)
    ensures ApplyAll(KeywordRenames, t).Ok? && NoKeyword(ApplyAll(KeywordRenames, t).value)
  {
    KeywordPassesPlain();
    var and, or, not := KeywordRenames[0], KeywordRenames[1], KeywordRenames[2];
    SubFromSucceeds(and, t, 0);
    var t1 := Sub(and, t).value;
    SubFromSucceeds(or, t1, 0);
    var t2 := Sub(or, t1).value;
    SubFromSucceeds(not, t2, 0);
    var t3 := Sub(not, t2).value;
    assert ApplyAll(KeywordRenames[2..], t2) == Ok(t3) by {
      assert KeywordRenames[2..][1..] == [];
    }
    assert ApplyAll(KeywordRenames[1..], t1) == Ok(t3) by {
      assert KeywordRenames[1..][0] == or && KeywordRenames[1..][1..] == KeywordRenames[2..];
    }
    WordPassRemovesWord(and, t, t1);
    WordPassRemovesWord(or, t1, t2);
    WordPassKeepsAbsent(or, t1, t2, "AND");
    WordPassRemovesWord(not, t2, t3);
    WordPassKeepsAbsent(not, t2, t3, "AND");
    WordPassKeepsAbsent(not, t2, t3, "OR");
  }

  /** Whenever `_translate_functions` succeeds, no whole-word `AND`, `OR` or `NOT` is left,
      in any letter case: all became `&`, `|` and `~`. */
  lemma TranslateLeavesNoKeyword(s: string)
    ensures TranslateFunctions(s).Ok? ==> NoKeyword(TranslateFunctions(s).value)
  {
    var pre := LeadingRenames + [CoalescePass] + MiddleRules;
    assert FunctionRules == pre + KeywordRenames;
    RewriteProps.ApplyAllAppend(pre, KeywordRenames, s);
    match ApplyAll(pre, s)
    case Ok(t) => KeywordPassesClean(t);
    case Err(_) =>
  }
}
