/** The two passes of the formula translator in backend.py that turn column names into
    column references before the function vocabulary is rewritten: `{Name}` becomes
    `df["Name"]` (`_replace_field_tokens`), then every identifier that names a known field
    is wrapped the same way, longest candidate first, whole words only, and never twice. */
module FieldRefs {
  import opened Text
  import opened Rewrite

  // ---------------------------------------------------------------------------------
  // `{Name}` references.

  /** The brace pass from position `i` on; it never fails. */
  function BraceFrom(s: string, i: nat): string
  {
    SubFromSucceeds(BraceField, s, i);
    SubFrom(BraceField, s, i).value
  }

  /** `_replace_field_tokens`. */
  function ReplaceFieldTokens(s: string): string
  {
    BraceFrom(s, 0)
  }

  /** Text without a `{` passes through unchanged. */
  lemma NoBraceUnchanged(s: string)
    requires forall k :: 0 <= k < |s| ==> s[k] != '{'
    ensures ReplaceFieldTokens(s) == s
  {
    SubFromUnchanged(BraceField, s, 0);
    assert s[0..] == s;
  }

  /** A name with no `}` and no line break in it. */
  predicate BraceName(n: string)
  {
    forall k :: 0 <= k < |n| ==> n[k] != '}' && n[k] != '\n'
  }

  /** The brace pattern never looks behind its `{`, so whatever precedes a position has
      no effect on how the text from there on is rewritten. */
  lemma {:induction false} FindBraceShift(p: string, b: string, j: nat)
    requires j <= |b|
    ensures var f := FindBrace(p + b, |p| + j);
      match FindBrace(b, j)
      case None => f.None?
      case Some(k) => f == Some(|p| + k)
    decreases |b| - j
  {
    if j < |b| {
      assert (p + b)[|p| + j] == b[j];
      FindBraceShift(p, b, j + 1);
    }
  }

  lemma MatchBraceShift(p: string, b: string, i: nat)
    requires i < |b|
    ensures var m := MatchAt(BraceField, p + b, |p| + i);
      match MatchAt(BraceField, b, i)
      case None => m.None?
      case Some(h) => m == Some(Hit(|p| + h.end, h.inner, h.args))
  {
    assert (p + b)[|p| + i] == b[i];
    if b[i] == '{' {
      FindBraceShift(p, b, i + 1);
      match FindBrace(b, i + 1)
      case None =>
      case Some(k) =>
        assert (p + b)[|p| + i + 1..|p| + k] == b[i + 1..k];
    }
  }

  lemma {:induction false} SubBraceShift(p: string, b: string, i: nat)
    requires i <= |b|
    ensures SubFrom(BraceField, p + b, |p| + i) == SubFrom(BraceField, b, i)
    decreases |b| - i
  {
    if i < |b| {
      MatchBraceShift(p, b, i);
      assert (p + b)[|p| + i] == b[i];
      match MatchAt(BraceField, b, i)
      case None => SubBraceShift(p, b, i + 1);
      case Some(h) => SubBraceShift(p, b, h.end);
    }
  }

  /** Text before the first `{` is copied as it is. */
  lemma {:induction false} SubBracePrefix(a: string, s: string, i: nat)
    requires i <= |a| <= |s| && s[..|a|] == a
    requires forall k :: 0 <= k < |a| ==> a[k] != '{'
    ensures BraceFrom(s, i) == a[i..] + BraceFrom(s, |a|)
    decreases |a| - i
  {
    if i < |a| {
      assert s[i] == a[i];
      assert MatchAt(BraceField, s, i).None?;
      SubFromSucceeds(BraceField, s, i + 1);
      SubBracePrefix(a, s, i + 1);
      assert a[i..] == [a[i]] + a[i + 1..];
    }
  }

  /** `{n}` after brace-free text becomes `df["n"]`, and the rest is rewritten on its own. */
  lemma ReplaceOneBrace(a: string, n: string, b: string)
    requires forall k :: 0 <= k < |a| ==> a[k] != '{'
    requires BraceName(n)
    ensures ReplaceFieldTokens(a + "{" + n + "}" + b) == a + FieldRef(n) + ReplaceFieldTokens(b)
  {
    var ref := "{" + n + "}";
    var s := a + ref + b;
    assert s[..|a|] == a;
    SubBracePrefix(a, s, 0);
    assert a[0..] == a;
    assert s[|a|] == '{';
    var close := |a| + 1 + |n|;
    assert s[|a| + 1..close] == n;
    forall m | |a| + 1 <= m < close ensures s[m] != '}' && s[m] != '\n' {
      assert s[m] == n[m - |a| - 1];
    }
    assert s[close] == '}';
    FindBraceFirst(s, |a| + 1, close);
    assert MatchAt(BraceField, s, |a|) == Some(Hit(close + 1, n, []));
    assert s == (a + ref) + b && close + 1 == |a + ref|;
    SubBraceShift(a + ref, b, 0);
    SubFromSucceeds(BraceField, b, 0);
    assert BraceFrom(s, |a|) == FieldRef(n) + BraceFrom(b, 0);
    assert s == a + "{" + n + "}" + b;
  }

  lemma {:induction false} FindBraceFirst(s: string, j: nat, k: nat)
    requires j <= k < |s| && s[k] == '}'
    requires forall m :: j <= m < k ==> s[m] != '}' && s[m] != '\n'
    ensures FindBrace(s, j) == Some(k)
    decreases k - j
  {
    if j < k {
      FindBraceFirst(s, j + 1, k);
    }
  }

  // ---------------------------------------------------------------------------------
  // Identifier tokens (`_token_re.findall`).

  predicate IsIdentStart(c: char) { IsLetter(c) || c == '_' }

  /** The end of the run of word characters starting at `j`. */
  function WordEnd(s: string, j: nat): (e: nat)
    requires j <= |s|
    ensures j <= e <= |s|
    ensures forall m :: j <= m < e ==> IsWordChar(s[m])
    ensures e == |s| || !IsWordChar(s[e])
    decreases |s| - j
  {
    if j == |s| || !IsWordChar(s[j]) then j else WordEnd(s, j + 1)
  }

  /** The non-overlapping matches of `[A-Za-z_][A-Za-z0-9_]*`, scanning from `i`. */
  function TokensFrom(s: string, i: nat): (r: seq<string>)
    ensures forall t :: t in r ==> IsIdentifier(t)
    decreases |s| - i
  {
    if i >= |s| then []
    else if IsIdentStart(s[i]) then
      var e := WordEnd(s, i + 1);
      [s[i..e]] + TokensFrom(s, e)
    else TokensFrom(s, i + 1)
  }

  function Tokens(s: string): seq<string>
  {
    TokensFrom(s, 0)
  }

  /** An identifier on its own is its only token. */
  lemma IdentifierTokens(n: string)
    requires IsIdentifier(n)
    ensures Tokens(n) == [n]
  {
    var e := WordEnd(n, 1);
    assert e == |n|;
    assert n[0..e] == n;
    assert IsIdentStart(n[0]);
    assert TokensFrom(n, |n|) == [];
    assert TokensFrom(n, 0) == [n[0..e]] + TokensFrom(n, e);
  }

  // ---------------------------------------------------------------------------------
  // `sorted(set(tokens), key=lambda x: -len(x))`.

  predicate LongestFirst(xs: seq<string>)
  {
    forall i, j :: 0 <= i < j < |xs| ==> |xs[i]| >= |xs[j]|
  }

  /** Places `x` after every element at least as long: `sorted` is stable. */
  function InsertByLength(x: string, xs: seq<string>): seq<string>
  {
    if xs == [] then [x]
    else if |xs[0]| >= |x| then [xs[0]] + InsertByLength(x, xs[1..])
    else [x] + xs
  }

  lemma {:induction false} InsertByLengthMultiset(x: string, xs: seq<string>)
    ensures multiset(InsertByLength(x, xs)) == multiset(xs) + multiset{x}
  {
    if xs != [] {
      assert xs == [xs[0]] + xs[1..];
      if |xs[0]| >= |x| {
        InsertByLengthMultiset(x, xs[1..]);
      }
    }
  }

  lemma InsertByLengthElements(x: string, xs: seq<string>)
    ensures forall y :: y in InsertByLength(x, xs) <==> y in xs || y == x
  {
    InsertByLengthMultiset(x, xs);
    forall y ensures y in InsertByLength(x, xs) <==> y in xs || y == x {
      assert y in InsertByLength(x, xs) <==> y in multiset(InsertByLength(x, xs));
      assert y in xs <==> y in multiset(xs);
    }
  }

  /** An element at least as long as all of a longest-first list can go in front of it. */
  lemma ConsLongestFirst(a: string, rest: seq<string>)
    requires LongestFirst(rest)
    requires forall k :: 0 <= k < |rest| ==> |rest[k]| <= |a|
    ensures LongestFirst([a] + rest)
  {
    var r := [a] + rest;
    forall i, j | 0 <= i < j < |r| ensures |r[i]| >= |r[j]| {
      assert r[j] == rest[j - 1];
      if i > 0 {
        assert r[i] == rest[i - 1];
      }
    }
  }

  lemma {:induction false} InsertByLengthSorted(x: string, xs: seq<string>)
    requires LongestFirst(xs)
    ensures LongestFirst(InsertByLength(x, xs))
  {
    if xs == [] {
      assert InsertByLength(x, xs) == [x];
    } else if |xs[0]| >= |x| {
      var rest := InsertByLength(x, xs[1..]);
      assert LongestFirst(xs[1..]) by {
        forall i, j | 0 <= i < j < |xs[1..]| ensures |xs[1..][i]| >= |xs[1..][j]| {
          assert xs[1..][i] == xs[i + 1] && xs[1..][j] == xs[j + 1];
        }
      }
      InsertByLengthSorted(x, xs[1..]);
      InsertByLengthElements(x, xs[1..]);
      forall k | 0 <= k < |rest| ensures |rest[k]| <= |xs[0]| {
        var y := rest[k];
        assert y in rest;
        if y != x {
          var m :| 0 <= m < |xs[1..]| && xs[1..][m] == y;
          assert xs[m + 1] == y;
        }
      }
      ConsLongestFirst(xs[0], rest);
    } else {
      forall k | 0 <= k < |xs| ensures |xs[k]| <= |x| {
        if k > 0 {
          assert |xs[0]| >= |xs[k]|;
        }
      }
      ConsLongestFirst(x, xs);
    }
  }

  function SortByLength(xs: seq<string>): (r: seq<string>)
    ensures multiset(r) == multiset(xs)
    ensures LongestFirst(r)
  {
    if xs == [] then []
    else
      assert xs == xs[..|xs| - 1] + [xs[|xs| - 1]];
      InsertByLengthMultiset(xs[|xs| - 1], SortByLength(xs[..|xs| - 1]));
      InsertByLengthSorted(xs[|xs| - 1], SortByLength(xs[..|xs| - 1]));
      InsertByLength(xs[|xs| - 1], SortByLength(xs[..|xs| - 1]))
  }

  /** The candidate tokens of an expression: each distinct identifier once, longest first. */
  function Candidates(s: string): (r: seq<string>)
    ensures forall t :: t in r <==> t in Tokens(s)
    ensures LongestFirst(r)
    ensures forall t :: t in r ==> IsIdentifier(t)
  {
    var d := Dedup(Tokens(s));
    var r := SortByLength(d);
    assert forall t :: t in r <==> t in multiset(d);
    r
  }

  // ---------------------------------------------------------------------------------
  // Wrapping known fields.

  /** One `re.sub(r'(?<!df\["|df\[\')\btok\b', 'df["tok"]', expr)`. */
  function WrapField(e: string, tok: string): string
  {
    SubFromSucceeds(FieldWord(tok), e, 0);
    Sub(FieldWord(tok), e).value
  }

  /** The loop over the candidates: each one that is a known field is wrapped, in turn. */
  function SubstituteAll(e: string, cands: seq<string>, valid: set<string>): string
    decreases |cands|
  {
    if cands == [] then e
    else SubstituteAll(if cands[0] in valid then WrapField(e, cands[0]) else e, cands[1..], valid)
  }

  /** When no candidate is a known field the expression is left as it is. */
  lemma {:induction false} NoKnownFieldUnchanged(e: string, cands: seq<string>, valid: set<string>)
    requires forall t :: t in cands ==> t !in valid
    ensures SubstituteAll(e, cands, valid) == e
  {
    if cands != [] {
      assert cands[0] in cands;
      NoKnownFieldUnchanged(e, cands[1..], valid);
    }
  }

  /** A known field written as a bare identifier becomes a column reference. */
  lemma WrapWholeToken(n: string)
    requires IsIdentifier(n)
    ensures WrapField(n, n) == FieldRef(n)
  {
    assert n[0..|n|] == n;
    assert MatchAt(FieldWord(n), n, 0) == Some(Hit(|n|, [], []));
    SubFromSucceeds(FieldWord(n), n, 0);
  }

  lemma BareKnownField(n: string, valid: set<string>)
    requires IsIdentifier(n) && n in valid
    ensures SubstituteAll(n, Candidates(n), valid) == FieldRef(n)
  {
    IdentifierTokens(n);
    assert Dedup([n]) == [n] by {
      assert [n][..0] == [];
    }
    assert SortByLength([n]) == [n] by {
      assert [n][..0] == [];
    }
    WrapWholeToken(n);
  }

  /** An identifier already inside `df["` is not wrapped again. The one exception is a
      field named `df` itself, whose reference begins with that very word. */
  lemma QuotedNotRewrapped(tok: string)
    requires IsIdentifier(tok) && tok != "df"
    ensures WrapField(FieldRef(tok), tok) == FieldRef(tok)
  {
    var s := FieldRef(tok);
    var n := |tok|;
    assert |s| == n + 6;
    assert s[0] == 'd' && s[1] == 'f' && s[2] == '[' && s[3] == '"';
    assert s[n + 4] == '"' && s[n + 5] == ']';
    forall j | 0 <= j < |s| ensures MatchAt(FieldWord(tok), s, j).None? {
      if j == 0 {
        if n == 1 {
          assert !EndsWord(s, 1);
        } else if n == 2 {
          assert s[0..2] == "df";
        } else {
          assert s[0..n][2] == '[';
          assert IsWordChar(tok[2]);
        }
      } else if j == 1 {
        assert !StartsWord(s, 1);
      } else if j == 4 {
        assert s[0..4] == "df[\"";
      } else if 4 < j < n + 4 {
        assert s[j - 1] == tok[j - 5];
        assert !StartsWord(s, j);
      } else {
        assert !IsIdentStart(s[j]);
        if j + n <= |s| {
          assert s[j..j + n][0] == s[j];
        }
      }
    }
    SubFromUnchanged(FieldWord(tok), s, 0);
    assert s[0..] == s;
  }
}
