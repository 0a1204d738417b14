/** The quote- and parenthesis-aware argument splitter `_split_args` of backend.py, used by
    the `coalesce` and `concat` rewrites to cut the text between the call's parentheses into
    arguments. */
module ArgSplit {
  import opened Text

  /** What the splitter remembers between characters: the parenthesis depth (it may go
      negative on an unbalanced `)`) and the quote character of the literal it is inside of,
      if any. The source keeps the flag `in_quote` and `quote_char` apart; they always agree. */
  datatype ScanState = ScanState(depth: int, quote: Option<char>)

  const Start := ScanState(0, None)

  predicate IsQuote(c: char) { c == '\'' || c == '"' }

  /** One character of the scan. Inside a literal only the quote that opened it closes it. */
  function Step(st: ScanState, c: char): ScanState
  {
    match st.quote
    case Some(q) => if c == q then ScanState(st.depth, None) else st
    case None =>
      if IsQuote(c) then ScanState(st.depth, Some(c))
      else if c == '(' then ScanState(st.depth + 1, None)
      else if c == ')' then ScanState(st.depth - 1, None)
      else st
  }

  /** The state after scanning all of `s`. */
  function Run(st: ScanState, s: string): ScanState
    decreases |s|
  {
    if s == [] then st else Run(Step(st, s[0]), s[1..])
  }

  /** The only characters a literal can be opened with are the two quotes. */
  predicate QuoteIsQuote(st: ScanState)
  {
    st.quote.Some? ==> IsQuote(st.quote.value)
  }

  lemma {:induction false} RunKeepsQuote(st: ScanState, s: string)
    requires QuoteIsQuote(st)
    ensures QuoteIsQuote(Run(st, s))
    decreases |s|
  {
    if s != [] {
      RunKeepsQuote(Step(st, s[0]), s[1..]);
    }
  }

  /** A comma separates arguments only at depth 0 and outside any literal. */
  predicate SplitsAt(st: ScanState, c: char)
  {
    c == ',' && st.quote == None && st.depth == 0
  }

  /** The raw segments between separating commas, starting in state `st` with `cur`
      already collected for the current segment. */
  function SegmentsFrom(s: string, st: ScanState, cur: string): (r: seq<string>)
    ensures r != []
    decreases |s|
  {
    if s == [] then [cur]
    else if SplitsAt(st, s[0]) then [cur] + SegmentsFrom(s[1..], st, "")
    else SegmentsFrom(s[1..], Step(st, s[0]), cur + [s[0]])
  }

  function Segments(s: string): seq<string>
  {
    SegmentsFrom(s, Start, "")
  }

  /** Strips every segment and drops those left empty. */
  function KeepNonBlank(segs: seq<string>): seq<string>
  {
    if segs == [] then []
    else (if Strip(segs[0]) == [] then [] else [Strip(segs[0])]) + KeepNonBlank(segs[1..])
  }

  /** The arguments `_split_args` returns. */
  function Parts(s: string): seq<string>
  {
    KeepNonBlank(Segments(s))
  }

  /** `_split_args`: one pass over the characters with a depth counter, the quote state and
      a buffer for the current argument. */
  method SplitArgs(s: string) returns (parts: seq<string>)
    ensures parts == Parts(s)
    ensures forall p :: p in parts ==> p != [] && Strip(p) == p
  {
    ghost var target := Parts(s);
    parts := [];
    var current: string := [];
    var depth := 0;
    var inQuote := false;
    var quoteChar: Option<char> := None;
    var i := 0;
    while i < |s|
      invariant 0 <= i <= |s|
      invariant inQuote <==> quoteChar.Some?
      invariant parts + KeepNonBlank(SegmentsFrom(s[i..], ScanState(depth, quoteChar), current)) == target
    {
      var ch := s[i];
      ghost var st := ScanState(depth, quoteChar);
      ghost var before := current;
      SegmentsUnfold(s, i, st, current);
      if inQuote {
        current := current + [ch];
        if Some(ch) == quoteChar {
          inQuote := false;
          quoteChar := None;
        }
        assert ScanState(depth, quoteChar) == Step(st, ch);
      } else {
        if ch == '\'' || ch == '"' {
          inQuote := true;
          quoteChar := Some(ch);
          current := current + [ch];
          assert ScanState(depth, quoteChar) == Step(st, ch);
        } else if ch == '(' {
          depth := depth + 1;
          current := current + [ch];
          assert ScanState(depth, quoteChar) == Step(st, ch);
        } else if ch == ')' {
          depth := depth - 1;
          current := current + [ch];
          assert ScanState(depth, quoteChar) == Step(st, ch);
        } else if ch == ',' && depth == 0 {
          var part := Strip(current);
          if part != [] {
            parts := parts + [part];
          }
          current := [];
          KeepNonBlankCons(before, SegmentsFrom(s[i + 1..], st, []));
        } else {
          current := current + [ch];
          assert ScanState(depth, quoteChar) == Step(st, ch);
        }
      }
      i := i + 1;
    }
    var last := Strip(current);
    if last != [] {
      parts := parts + [last];
    }
    PartsWellFormed(s);
  }

  lemma SegmentsUnfold(s: string, i: nat, st: ScanState, cur: string)
    requires i < |s|
    ensures SegmentsFrom(s[i..], st, cur) ==
      if SplitsAt(st, s[i]) then [cur] + SegmentsFrom(s[i + 1..], st, [])
      else SegmentsFrom(s[i + 1..], Step(st, s[i]), cur + [s[i]])
  {
    assert s[i..][0] == s[i] && s[i..][1..] == s[i + 1..];
  }

  lemma KeepNonBlankCons(seg: string, rest: seq<string>)
    ensures KeepNonBlank([seg] + rest) == (if Strip(seg) == [] then [] else [Strip(seg)]) + KeepNonBlank(rest)
  {
    assert ([seg] + rest)[1..] == rest;
  }

  /** Every argument is non-empty and already stripped. */
  lemma PartsWellFormed(s: string)
    ensures forall p :: p in Parts(s) ==> p != [] && Strip(p) == p
  {
    KeepNonBlankWellFormed(Segments(s));
  }

  lemma {:induction false} KeepNonBlankWellFormed(segs: seq<string>)
    ensures forall p :: p in KeepNonBlank(segs) ==> p != [] && Strip(p) == p
  {
    if segs != [] {
      StripIdempotent(segs[0]);
      KeepNonBlankWellFormed(segs[1..]);
    }
  }

  /** Splitting loses nothing: joining the raw segments with commas gives back the input. */
  lemma {:induction false} SegmentsJoin(s: string, st: ScanState, cur: string)
    ensures Join(SegmentsFrom(s, st, cur), ",") == cur + s
    decreases |s|
  {
    if s == [] {
    } else if SplitsAt(st, s[0]) {
      SegmentsJoin(s[1..], st, "");
      JoinCons(cur, SegmentsFrom(s[1..], st, ""), ",");
      assert s == [','] + s[1..];
    } else {
      SegmentsJoin(s[1..], Step(st, s[0]), cur + [s[0]]);
      assert s == [s[0]] + s[1..];
    }
  }

  lemma RoundTrip(s: string)
    ensures Join(Segments(s), ",") == s
  {
    SegmentsJoin(s, Start, "");
  }

  /** Scanning `a + b` is scanning `a`, then carrying on with `b` from where `a` left off:
      the last segment of `a` is continued by `b`. */
  lemma {:induction false} SegmentsAppend(a: string, b: string, st: ScanState, cur: string)
    ensures var sa := SegmentsFrom(a, st, cur);
      SegmentsFrom(a + b, st, cur) == sa[..|sa| - 1] + SegmentsFrom(b, Run(st, a), sa[|sa| - 1])
    decreases |a|
  {
    if a == [] {
      assert a + b == b;
    } else {
      assert (a + b)[0] == a[0] && (a + b)[1..] == a[1..] + b;
      if SplitsAt(st, a[0]) {
        assert Step(st, a[0]) == st;
        SegmentsAppend(a[1..], b, st, "");
      } else {
        SegmentsAppend(a[1..], b, Step(st, a[0]), cur + [a[0]]);
      }
    }
  }

  /** A comma reached at depth 0 outside any literal ends the argument before it. */
  lemma TopLevelCommaSplits(a: string, b: string)
    requires SplitsAt(Run(Start, a), ',')
    ensures Segments(a + "," + b) == Segments(a) + SegmentsFrom(b, Run(Start, a), [])
  {
    SegmentsAppend(a, "," + b, Start, []);
    var sa := Segments(a);
    var st := Run(Start, a);
    var last := sa[|sa| - 1];
    assert a + "," + b == a + ("," + b);
    SegmentsUnfold("," + b, 0, st, last);
    assert ("," + b)[1..] == b;
    assert SegmentsFrom("," + b, st, last) == [last] + SegmentsFrom(b, st, []);
    assert sa[..|sa| - 1] + [last] == sa;
  }

  /** Any other comma (nested in parentheses or inside a literal) stays in the argument. */
  lemma NestedCommaKept(a: string, b: string)
    requires !SplitsAt(Run(Start, a), ',')
    ensures var sa := Segments(a);
      Segments(a + "," + b) == sa[..|sa| - 1] + SegmentsFrom(b, Run(Start, a), sa[|sa| - 1] + ",")
  {
    SegmentsAppend(a, "," + b, Start, []);
    var sa := Segments(a);
    var st := Run(Start, a);
    var last := sa[|sa| - 1];
    assert a + "," + b == a + ("," + b);
    RunKeepsQuote(Start, a);
    assert Step(st, ',') == st;
    SegmentsUnfold("," + b, 0, st, last);
    assert ("," + b)[1..] == b;
  }
}
