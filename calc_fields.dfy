/** `apply_calculated_fields` of backend.py: every formula is stripped, refused when blank,
    has its `{Name}` references and bare known field names turned into column references,
    has its function vocabulary rewritten, and is then evaluated. Each field's name becomes
    a known field for the formulas after it. Whether an evaluation succeeds is given, not
    computed. */
module CalcFields {
  import opened Text
  import opened Rewrite
  import opened FieldRefs

  /** A calculated field of the pivot request. */
  datatype CalculatedField = CalculatedField(name: string, formula: string)

  /** Why the translation of a list of calculated fields stops. */
  datatype FieldError =
    | EmptyFormula(field: string)        // the 400 naming the field
    | NoCoalesceArgument(field: string)  // `coalesce()` with nothing inside raises
    | EvaluationFailed(field: string)    // `eval` and its `pd.eval` fallback both raise

  /** The text one formula is translated to, given the names known at that point. */
  function TranslateFormula(f: CalculatedField, valid: set<string>): Result<string, FieldError>
  {
    var expr := Strip(f.formula);
    if expr == [] then Err(EmptyFormula(f.name))
    else
      var braced := ReplaceFieldTokens(expr);
      var wrapped := SubstituteAll(braced, Candidates(braced), valid);
      match TranslateFunctions(wrapped)
      case Ok(t) => Ok(t)
      case Err(_) => Err(NoCoalesceArgument(f.name))
  }

  /** The names of the given fields. */
  function Names(fields: seq<CalculatedField>): set<string>
  {
    if fields == [] then {} else {fields[0].name} + Names(fields[1..])
  }

  lemma {:induction false} NamesContains(f: CalculatedField, fields: seq<CalculatedField>)
    requires f in fields
    ensures f.name in Names(fields)
  {
    if fields[0] != f {
      NamesContains(f, fields[1..]);
    }
  }

  lemma NamesCons(f: CalculatedField, fields: seq<CalculatedField>)
    ensures Names([f] + fields) == {f.name} + Names(fields)
  {
    assert ([f] + fields)[1..] == fields;
  }

  /** How one field is translated given the names known before it. */
  type Step = (CalculatedField, set<string>) -> Result<string, FieldError>

  /** All formulas in order, each field's name joining the known names after its
      translation; the first failure is the result. */
  function TranslateEach(step: Step, fields: seq<CalculatedField>, valid: set<string>): Result<seq<string>, FieldError>
    decreases |fields|
  {
    if fields == [] then Ok([])
    else
      var e :- step(fields[0], valid);
      var rest :- TranslateEach(step, fields[1..], valid + {fields[0].name});
      Ok([e] + rest)
  }

  function TranslateAll(fields: seq<CalculatedField>, valid: set<string>): Result<seq<string>, FieldError>
  {
    TranslateEach(TranslateFormula, fields, valid)
  }

  /** Whether a field's translated text evaluates over the frame it meets, by `eval` or by
      the `pd.eval` fallback. Python's evaluation is not modelled: the outcome is given. */
  type Evaluates = (CalculatedField, string) -> bool

  /** One field as the loop of `apply_calculated_fields` handles it: translated, then
      evaluated; an evaluation that raises stops the run with an error naming the field. */
  function TranslateAndEvaluate(evaluates: Evaluates, f: CalculatedField, valid: set<string>): Result<string, FieldError>
  {
    var t :- TranslateFormula(f, valid);
    if evaluates(f, t) then Ok(t) else Err(EvaluationFailed(f.name))
  }

  function EvaluatingStep(evaluates: Evaluates): Step
  {
    (f, valid) => TranslateAndEvaluate(evaluates, f, valid)
  }

  /** The whole loop of `apply_calculated_fields`, evaluation included. */
  function Evaluated(evaluates: Evaluates, fields: seq<CalculatedField>, valid: set<string>): Result<seq<string>, FieldError>
  {
    TranslateEach(EvaluatingStep(evaluates), fields, valid)
  }

  /** One turn of the loop of `apply_calculated_fields` in terms of `Evaluated`. */
  lemma EvaluatedUnfold(evaluates: Evaluates, done: seq<string>, fs: seq<CalculatedField>, valid: set<string>)
    requires fs != []
    ensures var t := TranslateAndEvaluate(evaluates, fs[0], valid);
      Prepend(done, Evaluated(evaluates, fs, valid)) ==
        if t.Err? then Err(t.error) else Prepend(done + [t.value], Evaluated(evaluates, fs[1..], valid + {fs[0].name}))
  {
    assert EvaluatingStep(evaluates)(fs[0], valid) == TranslateAndEvaluate(evaluates, fs[0], valid);
    PrependUnfold(EvaluatingStep(evaluates), done, fs, valid);
  }

  /** Evaluation only adds failures: a run that goes through yields the translated texts, and
      a translation failure still fails the run (possibly at an earlier failing evaluation). */
  lemma {:induction false} EvaluatedRefines(evaluates: Evaluates, fields: seq<CalculatedField>, valid: set<string>)
    ensures Evaluated(evaluates, fields, valid).Ok? ==> Evaluated(evaluates, fields, valid) == TranslateAll(fields, valid)
    ensures TranslateAll(fields, valid).Err? ==> Evaluated(evaluates, fields, valid).Err?
    decreases |fields|
  {
    if fields != [] {
      var v1 := valid + {fields[0].name};
      EvaluatedRefines(evaluates, fields[1..], v1);
      assert EvaluatingStep(evaluates)(fields[0], valid) == TranslateAndEvaluate(evaluates, fields[0], valid);
    }
  }

  /** The first field that translates but does not evaluate stops the run with an error naming
      that field, provided the fields before it went through. */
  lemma FirstEvaluationFailureStops(evaluates: Evaluates, fields: seq<CalculatedField>, valid: set<string>, k: nat)
    requires k < |fields|
    requires TranslateFormula(fields[k], valid + Names(fields[..k])).Ok?
    requires !evaluates(fields[k], TranslateFormula(fields[k], valid + Names(fields[..k])).value)
    requires forall j :: 0 <= j < k ==> TranslateAndEvaluate(evaluates, fields[j], valid + Names(fields[..j])).Ok?
    ensures Evaluated(evaluates, fields, valid) == Err(EvaluationFailed(fields[k].name))
  {
    var step := EvaluatingStep(evaluates);
    assert step(fields[k], valid + Names(fields[..k])) == Err(EvaluationFailed(fields[k].name));
    forall j | 0 <= j < k ensures step(fields[j], valid + Names(fields[..j])).Ok? {
      assert step(fields[j], valid + Names(fields[..j])) == TranslateAndEvaluate(evaluates, fields[j], valid + Names(fields[..j]));
    }
    FirstFailureStops(step, fields, valid, k);
  }

  /** Puts already translated formulas in front of the outcome of the remaining ones. */
  function Prepend(done: seq<string>, r: Result<seq<string>, FieldError>): Result<seq<string>, FieldError>
  {
    match r
    case Ok(rest) => Ok(done + rest)
    case Err(e) => Err(e)
  }

  /** The body of the loop of `apply_calculated_fields` up to the evaluation: strip, refuse
      a blank formula, rewrite `{Name}`, then try the candidate tokens longest first and
      wrap those that are known fields, then rewrite the function vocabulary. */
  method TranslateField(field: CalculatedField, valid: set<string>) returns (r: Result<string, FieldError>)
    ensures r == TranslateFormula(field, valid)
  {
    var expr := Strip(field.formula);
    if expr == [] {
      return Err(EmptyFormula(field.name));
    }
    expr := ReplaceFieldTokens(expr);
    var cands := Candidates(expr);
    ghost var braced := expr;
    var j := 0;
    assert cands[0..] == cands;
    while j < |cands|
      invariant 0 <= j <= |cands|
      invariant SubstituteAll(expr, cands[j..], valid) == SubstituteAll(braced, cands, valid)
    {
      assert cands[j..][0] == cands[j] && cands[j..][1..] == cands[j + 1..];
      if cands[j] in valid {
        expr := WrapField(expr, cands[j]);
      }
      j := j + 1;
    }
    var translated := TranslateFunctions(expr);
    if translated.Err? {
      return Err(NoCoalesceArgument(field.name));
    }
    r := Ok(translated.value);
  }

  /** The whole loop body: the field translated, then its text evaluated. */
  method EvaluateField(field: CalculatedField, valid: set<string>, evaluates: Evaluates)
    returns (r: Result<string, FieldError>)
    ensures r == TranslateAndEvaluate(evaluates, field, valid)
  {
    r := TranslateField(field, valid);
    if r.Ok? && !evaluates(field, r.value) {
      r := Err(EvaluationFailed(field.name));
    }
  }

  /** `apply_calculated_fields`: the set of known fields starts as the data set's columns
      and grows by one name per field. The result lists the expression each field's column
      is computed from. */
  method ApplyCalculatedFields(columns: seq<string>, fields: seq<CalculatedField>, evaluates: Evaluates)
    returns (r: Result<seq<string>, FieldError>)
    ensures r == Evaluated(evaluates, fields, set c | c in columns)
  {
    var valid := set c | c in columns;
    ghost var target := Evaluated(evaluates, fields, set c | c in columns);
    var exprs: seq<string> := [];
    var k := 0;
    assert fields[0..] == fields;
    assert Prepend(exprs, target) == target by {
      if target.Ok? {
        assert [] + target.value == target.value;
      }
    }
    while k < |fields|
      invariant 0 <= k <= |fields|
      invariant target == Prepend(exprs, Evaluated(evaluates, fields[k..], valid))
    {
      var field := fields[k];
      assert fields[k..][0] == field && fields[k..][1..] == fields[k + 1..];
      EvaluatedUnfold(evaluates, exprs, fields[k..], valid);
      var t := EvaluateField(field, valid, evaluates);
      if t.Err? {
        return Err(t.error);
      }
      exprs := exprs + [t.value];
      valid := valid + {field.name};
      k := k + 1;
    }
    assert fields[k..] == [];
    assert exprs + [] == exprs;
    r := Ok(exprs);
  }

  lemma PrependUnfold(step: Step, done: seq<string>, fs: seq<CalculatedField>, valid: set<string>)
    requires fs != []
    ensures var t := step(fs[0], valid);
      Prepend(done, TranslateEach(step, fs, valid)) ==
        if t.Err? then Err(t.error) else Prepend(done + [t.value], TranslateEach(step, fs[1..], valid + {fs[0].name}))
  {
    var t := step(fs[0], valid);
    if t.Ok? {
      match TranslateEach(step, fs[1..], valid + {fs[0].name})
      case Ok(rest) =>
        assert done + ([t.value] + rest) == done + [t.value] + rest;
      case Err(_) =>
    }
  }

  /** A successful run translates every field, each with the data set's columns and the
      names of the fields before it as known fields. */
  lemma {:induction false} TranslateEachOk(step: Step, fields: seq<CalculatedField>, valid: set<string>)
    requires TranslateEach(step, fields, valid).Ok?
    ensures |TranslateEach(step, fields, valid).value| == |fields|
    ensures forall k :: 0 <= k < |fields| ==>
      step(fields[k], valid + Names(fields[..k])) == Ok(TranslateEach(step, fields, valid).value[k])
    decreases |fields|
  {
    if fields != [] {
      var head := fields[0];
      var tail := fields[1..];
      var v1 := valid + {head.name};
      TranslateEachOk(step, tail, v1);
      var out := TranslateEach(step, fields, valid).value;
      assert out == [step(head, valid).value] + TranslateEach(step, tail, v1).value;
      assert fields[..0] == [];
      assert valid + Names(fields[..0]) == valid;
      forall k | 1 <= k < |fields|
        ensures step(fields[k], valid + Names(fields[..k])) == Ok(out[k])
      {
        assert fields[k] == tail[k - 1];
        assert fields[..k] == [head] + tail[..k - 1];
        NamesCons(head, tail[..k - 1]);
        assert valid + Names(fields[..k]) == v1 + Names(tail[..k - 1]);
      }
    }
  }

  lemma TranslateAllOk(fields: seq<CalculatedField>, valid: set<string>)
    requires TranslateAll(fields, valid).Ok?
    ensures |TranslateAll(fields, valid).value| == |fields|
    ensures forall k :: 0 <= k < |fields| ==>
      TranslateFormula(fields[k], valid + Names(fields[..k])) == Ok(TranslateAll(fields, valid).value[k])
  {
    TranslateEachOk(TranslateFormula, fields, valid);
  }

  /** Every field's formula is non-blank once a run succeeds. */
  lemma NoBlankFormulaAccepted(fields: seq<CalculatedField>, valid: set<string>, k: nat)
    requires TranslateAll(fields, valid).Ok? && k < |fields|
    ensures Strip(fields[k].formula) != []
  {
    TranslateAllOk(fields, valid);
  }

  /** The first field whose formula is blank after stripping stops the run with an error
      naming that field, provided the fields before it went through. */
  lemma FirstBlankFormulaRejected(fields: seq<CalculatedField>, valid: set<string>, k: nat)
    requires k < |fields| && Strip(fields[k].formula) == []
    requires forall j :: 0 <= j < k ==> TranslateFormula(fields[j], valid + Names(fields[..j])).Ok?
    ensures TranslateAll(fields, valid) == Err(EmptyFormula(fields[k].name))
  {
    FirstFailureStops(TranslateFormula, fields, valid, k);
  }

  /** The first field whose step fails decides the outcome. */
  lemma {:induction false} FirstFailureStops(step: Step, fields: seq<CalculatedField>, valid: set<string>, k: nat)
    requires k < |fields| && step(fields[k], valid + Names(fields[..k])).Err?
    requires forall j :: 0 <= j < k ==> step(fields[j], valid + Names(fields[..j])).Ok?
    ensures TranslateEach(step, fields, valid) == Err(step(fields[k], valid + Names(fields[..k])).error)
    decreases k
  {
    var head := fields[0];
    var tail := fields[1..];
    if k > 0 {
      var v1 := valid + {head.name};
      assert fields[..0] == [] && valid + Names(fields[..0]) == valid;
      assert step(head, valid).Ok?;
      forall j | 0 <= j < k - 1 ensures step(tail[j], v1 + Names(tail[..j])).Ok? {
        assert tail[j] == fields[j + 1];
        assert fields[..j + 1] == [head] + tail[..j];
        NamesCons(head, tail[..j]);
        assert valid + Names(fields[..j + 1]) == v1 + Names(tail[..j]);
      }
      assert tail[k - 1] == fields[k];
      assert fields[..k] == [head] + tail[..k - 1];
      NamesCons(head, tail[..k - 1]);
      assert valid + Names(fields[..k]) == v1 + Names(tail[..k - 1]);
      FirstFailureStops(step, tail, v1, k - 1);
    } else {
      assert fields[..0] == [] && valid + Names(fields[..0]) == valid;
    }
  }

  /** A formula that is a bare identifier naming an earlier field refers to that field's
      column: the names of earlier fields are known to later formulas. */
  lemma EarlierFieldReferenceable(fields: seq<CalculatedField>, valid: set<string>, j: nat, k: nat)
    requires j < k < |fields|
    requires IsIdentifier(fields[j].name) && Strip(fields[k].formula) == fields[j].name
    ensures var braced := ReplaceFieldTokens(Strip(fields[k].formula));
      SubstituteAll(braced, Candidates(braced), valid + Names(fields[..k])) == FieldRef(fields[j].name)
  {
    var n := fields[j].name;
    assert fields[..k][j] == fields[j];
    NamesContains(fields[j], fields[..k]);
    forall m | 0 <= m < |n| ensures n[m] != '{' {
      assert IsWordChar(n[m]);
    }
    NoBraceUnchanged(n);
    BareKnownField(n, valid + Names(fields[..k]));
  }
}
