/**
 * What `getEncodedVariations` produces: one choice list per declared
 * parameter, in schema order; how many variations it keeps; what each
 * overlaid assignment holds; and that every encoded variation decodes back
 * to its assignment.
 */
module VariationProofs {
  import opened Wrappers
  import opened Records
  import opened JsStrings
  import opened Types
  import opened Coding
  import opened Constants
  import opened RoundTrip
  import opened Variations

  /** The number of parameters declared by the experiments of `schema`. */
  function ParamCount(schema: Schema): nat
  {
    if |schema| == 0 then 0 else ParamCount(schema[..|schema| - 1]) + |schema[|schema| - 1].1|
  }

  /** The position of experiment `k`'s first choice list in `possibleValues`. */
  function Offset(schema: Schema, k: nat): nat
    requires k <= |schema|
  {
    ParamCount(schema[..k])
  }

  /** The position in `possibleValues` of the choice list of parameter `j` of experiment `k`. */
  function Position(schema: Schema, k: nat, j: nat): nat
    requires k <= |schema|
  {
    Offset(schema, k) + j
  }

  lemma OffsetStep(schema: Schema, k: nat)
    requires k < |schema|
    ensures Offset(schema, k + 1) == Offset(schema, k) + |schema[k].1|
  {
    assert schema[..k + 1][..k] == schema[..k];
  }

  lemma {:induction false} OffsetMono(schema: Schema, k: nat, k': nat)
    requires k <= k' <= |schema|
    ensures Offset(schema, k) <= Offset(schema, k')
    decreases k' - k
  {
    if k < k' {
      OffsetStep(schema, k);
      OffsetMono(schema, k + 1, k');
    }
  }

  lemma OffsetFull(schema: Schema)
    ensures Offset(schema, |schema|) == ParamCount(schema)
  {
    assert schema[..|schema|] == schema;
  }

  /** Distinct parameters have distinct positions. */
  lemma OffsetInjective(schema: Schema, k: nat, j: nat, k': nat, j': nat)
    requires k < |schema| && j < |schema[k].1| && k' < |schema| && j' < |schema[k'].1|
    requires Position(schema, k, j) == Position(schema, k', j')
    ensures k == k' && j == j'
  {
    if k < k' {
      OffsetStep(schema, k);
      OffsetMono(schema, k + 1, k');
    } else if k' < k {
      OffsetStep(schema, k');
      OffsetMono(schema, k' + 1, k);
    }
  }

  lemma OffsetBound(schema: Schema, k: nat, j: nat)
    requires k < |schema| && j < |schema[k].1|
    ensures Position(schema, k, j) < ParamCount(schema)
  {
    OffsetStep(schema, k);
    OffsetMono(schema, k + 1, |schema|);
    OffsetFull(schema);
  }

  /** Every position below the parameter count belongs to one declared parameter. */
  lemma {:induction false} PositionOf(schema: Schema, m: nat) returns (k: nat, j: nat)
    requires m < ParamCount(schema)
    ensures k < |schema| && j < |schema[k].1|
    ensures Position(schema, k, j) == m
    decreases |schema|
  {
    var init := schema[..|schema| - 1];
    if m < ParamCount(init) {
      k, j := PositionOf(init, m);
      assert init[..k] == schema[..k];
    } else {
      k, j := |schema| - 1, m - ParamCount(init);
      assert schema[..k] == init;
    }
  }

  lemma {:induction false} PossibleValuesLength(schema: Schema)
    ensures |PossibleValues(schema)| == ParamCount(schema)
    decreases |schema|
  {
    if |schema| > 0 {
      PossibleValuesLength(schema[..|schema| - 1]);
    }
  }

  /**
   * `possibleValues` holds one list per declared parameter, in schema
   * order: the list at experiment `k`'s offset plus `j` enumerates the
   * candidate indices `0 .. len - 1` of parameter `j` of experiment `k`.
   */
  lemma {:induction false} PossibleValuesAt(schema: Schema, k: nat, j: nat)
    requires k < |schema| && j < |schema[k].1|
    ensures |PossibleValues(schema)| == ParamCount(schema)
    ensures Position(schema, k, j) < |PossibleValues(schema)|
    ensures PossibleValues(schema)[Position(schema, k, j)] == ParameterVariants(schema[k].0, schema[k].1[j])
    decreases |schema|
  {
    var n := |schema| - 1;
    var init := schema[..n];
    PossibleValuesLength(schema);
    PossibleValuesLength(init);
    assert PossibleValues(schema) == PossibleValues(init) + ExperimentVariants(schema[n].0, schema[n].1);
    if k < n {
      PossibleValuesAt(init, k, j);
      assert init[..k] == schema[..k];
    } else {
      assert schema[..k] == init;
    }
  }

  /** The whole of `possibleValues`: one list per declared parameter, in schema order. */
  lemma PossibleValuesShape(schema: Schema)
    ensures |PossibleValues(schema)| == ParamCount(schema)
    ensures forall k, j :: 0 <= k < |schema| && 0 <= j < |schema[k].1| ==>
              && Position(schema, k, j) < |PossibleValues(schema)|
              && PossibleValues(schema)[Position(schema, k, j)] == ParameterVariants(schema[k].0, schema[k].1[j])
  {
    PossibleValuesLength(schema);
    forall k, j | 0 <= k < |schema| && 0 <= j < |schema[k].1|
      ensures Position(schema, k, j) < |PossibleValues(schema)|
      ensures PossibleValues(schema)[Position(schema, k, j)] == ParameterVariants(schema[k].0, schema[k].1[j])
    {
      PossibleValuesAt(schema, k, j);
    }
  }

  // ---------------------------------------------------------------------
  // What a variation's assignment holds

  /** A schema every variation of which encodes and decodes: named experiments, each with parameters, each with candidates. */
  predicate Enumerable(schema: Schema) {
    && WellFormed(schema)
    && |schema| >= 1
    && forall k :: 0 <= k < |schema| ==>
         && schema[k].0 != ""
         && |schema[k].1| >= 1
         && forall j :: 0 <= j < |schema[k].1| ==> |schema[k].1[j].1| >= 1
  }

  /** A combination drawn from the product: one choice from each list, in order. */
  predicate Drawn(possibleValues: seq<seq<Choice>>, variation: seq<Choice>) {
    && |variation| == |possibleValues|
    && forall m :: 0 <= m < |variation| ==> variation[m] in possibleValues[m]
  }

  /**
   * The value parameter `j` of experiment `k` holds once the first `i`
   * choices of `variation` are applied: the chosen candidate when its
   * choice is among them and the candidate is truthy, the first candidate
   * (the default) otherwise.
   */
  function Chosen(schema: Schema, variation: seq<Choice>, i: nat, k: nat, j: nat): Value
    requires k < |schema| && j < |schema[k].1| && |schema[k].1[j].1| >= 1
  {
    var candidates := schema[k].1[j].1;
    var m := Position(schema, k, j);
    if m < i && m < |variation| && variation[m].index < |candidates| && !Falsy(candidates[variation[m].index])
    then candidates[variation[m].index]
    else candidates[0]
  }

  /** `experiments` declares every parameter in schema order, each holding its `Chosen` value after `i` choices. */
  predicate Reached(schema: Schema, variation: seq<Choice>, i: nat, experiments: CodableExperiments)
    requires Enumerable(schema)
  {
    && |experiments| == |schema|
    && forall k :: 0 <= k < |schema| ==>
         && experiments[k].0 == schema[k].0
         && |experiments[k].1| == |schema[k].1|
         && forall j :: 0 <= j < |schema[k].1| ==>
              experiments[k].1[j] == (schema[k].1[j].0, Chosen(schema, variation, i, k, j))
  }

  /** With every candidate list nonempty, `Firsts` keeps every parameter. */
  lemma {:induction false} FirstsFull(params: Params)
    requires forall j :: 0 <= j < |params| ==> |params[j].1| >= 1
    ensures |Firsts(params)| == |params|
    ensures forall j :: 0 <= j < |params| ==> Firsts(params)[j] == (params[j].0, params[j].1[0])
    decreases |params|
  {
    if |params| > 0 {
      var init := params[..|params| - 1];
      var last := params[|params| - 1];
      FirstsFull(init);
      var r := Firsts(params);
      assert r == Firsts(init) + [(last.0, last.1[0])];
      forall j | 0 <= j < |params|
        ensures r[j] == (params[j].0, params[j].1[0])
      {
        if j < |init| {
          assert r[j] == Firsts(init)[j];
          assert init[j] == params[j];
        }
      }
    }
  }

  lemma ReachedDefaults(schema: Schema, variation: seq<Choice>)
    requires Enumerable(schema)
    ensures Reached(schema, variation, 0, IsolatedDefaults(schema))
  {
    IsolatedDefaultsShape(schema);
    forall k | 0 <= k < |schema|
      ensures |Firsts(schema[k].1)| == |schema[k].1|
      ensures forall j :: 0 <= j < |schema[k].1| ==> Firsts(schema[k].1)[j] == (schema[k].1[j].0, schema[k].1[j].1[0])
    {
      FirstsFull(schema[k].1);
    }
  }

  /** The choice at position `m` names parameter `j` of experiment `k` and reads its candidate. */
  lemma ChoiceAt(schema: Schema, variation: seq<Choice>, m: nat, k: nat, j: nat)
    requires Enumerable(schema) && Drawn(PossibleValues(schema), variation)
    requires k < |schema| && j < |schema[k].1| && Position(schema, k, j) == m && m < |variation|
    ensures variation[m].expName == schema[k].0 && variation[m].paramName == schema[k].1[j].0
    ensures variation[m].index < |schema[k].1[j].1|
    ensures ChoiceValue(schema, variation[m]) == Some(schema[k].1[j].1[variation[m].index])
  {
    PossibleValuesAt(schema, k, j);
    var list := ParameterVariants(schema[k].0, schema[k].1[j]);
    assert variation[m] in list;
    GetAt(schema, k);
    GetAt(schema[k].1, j);
  }

  /** Writing the chosen value of parameter `j` of experiment `k` in place. */
  lemma WriteAt(experiments: CodableExperiments, k: nat, j: nat, value: Value)
    requires DistinctKeys(experiments) && k < |experiments|
    requires DistinctKeys(experiments[k].1) && j < |experiments[k].1|
    ensures Get(experiments, experiments[k].0) == Some(experiments[k].1)
    ensures Put(experiments, experiments[k].0, Put(experiments[k].1, experiments[k].1[j].0, value))
         == experiments[k := (experiments[k].0, experiments[k].1[j := (experiments[k].1[j].0, value)])]
  {
    GetAt(experiments, k);
    PutAt(experiments[k].1, j, value);
    PutAt(experiments, k, experiments[k].1[j := (experiments[k].1[j].0, value)]);
  }

  lemma ReachedKeys(schema: Schema, variation: seq<Choice>, i: nat, experiments: CodableExperiments)
    requires Enumerable(schema) && Reached(schema, variation, i, experiments)
    ensures Keys(experiments) == Keys(schema) && DistinctKeys(experiments)
    ensures forall k :: 0 <= k < |schema| ==> Keys(experiments[k].1) == Keys(schema[k].1) && DistinctKeys(experiments[k].1)
  {
    forall k | 0 <= k < |schema|
      ensures Keys(experiments[k].1) == Keys(schema[k].1)
    {
    }
  }

  /** Only the parameter at position `i` changes its `Chosen` value when choice `i` is applied. */
  lemma ChosenStep(schema: Schema, variation: seq<Choice>, i: nat, k: nat, j: nat, k': nat, j': nat)
    requires i < |variation|
    requires k < |schema| && j < |schema[k].1| && Position(schema, k, j) == i
    requires variation[i].index < |schema[k].1[j].1|
    requires k' < |schema| && j' < |schema[k'].1| && |schema[k'].1[j'].1| >= 1
    ensures (k', j') != (k, j) ==> Chosen(schema, variation, i + 1, k', j') == Chosen(schema, variation, i, k', j')
    ensures (k', j') == (k, j) ==>
              var value := schema[k].1[j].1[variation[i].index];
              Chosen(schema, variation, i + 1, k, j) == if Falsy(value) then schema[k].1[j].1[0] else value
  {
    if (k', j') != (k, j) && Position(schema, k', j') == i {
      OffsetInjective(schema, k, j, k', j');
    }
  }

  /** A falsy chosen candidate leaves the assignment as it is. */
  lemma ApplyFalsy(schema: Schema, variation: seq<Choice>, i: nat, experiments: CodableExperiments, k: nat, j: nat)
    requires Enumerable(schema) && i < |variation|
    requires k < |schema| && j < |schema[k].1| && Position(schema, k, j) == i
    requires variation[i].index < |schema[k].1[j].1|
    requires Falsy(schema[k].1[j].1[variation[i].index])
    requires Reached(schema, variation, i, experiments)
    ensures Reached(schema, variation, i + 1, experiments)
  {
    forall k', j' | 0 <= k' < |schema| && 0 <= j' < |schema[k'].1|
      ensures Chosen(schema, variation, i + 1, k', j') == Chosen(schema, variation, i, k', j')
    {
      ChosenStep(schema, variation, i, k, j, k', j');
    }
  }

  /** A truthy chosen candidate is written over parameter `j` of experiment `k`. */
  lemma ApplyTruthy(schema: Schema, variation: seq<Choice>, i: nat, experiments: CodableExperiments, k: nat, j: nat)
    requires Enumerable(schema) && i < |variation|
    requires k < |schema| && j < |schema[k].1| && Position(schema, k, j) == i
    requires variation[i].index < |schema[k].1[j].1|
    requires !Falsy(schema[k].1[j].1[variation[i].index])
    requires Reached(schema, variation, i, experiments)
    ensures var value := schema[k].1[j].1[variation[i].index];
            Reached(schema, variation, i + 1, experiments[k := (experiments[k].0, experiments[k].1[j := (experiments[k].1[j].0, value)])])
  {
    var value := schema[k].1[j].1[variation[i].index];
    var next := experiments[k := (experiments[k].0, experiments[k].1[j := (experiments[k].1[j].0, value)])];
    forall k' | 0 <= k' < |schema|
      ensures next[k'].0 == schema[k'].0 && |next[k'].1| == |schema[k'].1|
      ensures forall j' :: 0 <= j' < |schema[k'].1| ==> next[k'].1[j'] == (schema[k'].1[j'].0, Chosen(schema, variation, i + 1, k', j'))
    {
      forall j' | 0 <= j' < |schema[k'].1|
        ensures next[k'].1[j'] == (schema[k'].1[j'].0, Chosen(schema, variation, i + 1, k', j'))
      {
        ChosenStep(schema, variation, i, k, j, k', j');
        if k' == k && j' == j {
          assert next[k].1[j] == (experiments[k].1[j].0, value);
        } else {
          assert next[k'].1[j'] == experiments[k'].1[j'];
        }
      }
    }
  }

  /** Applying the choice at position `i` advances `Reached` by one. */
  lemma ApplyStep(schema: Schema, variation: seq<Choice>, i: nat, experiments: CodableExperiments)
    requires Enumerable(schema) && Drawn(PossibleValues(schema), variation) && i < |variation|
    requires Reached(schema, variation, i, experiments)
    ensures Reached(schema, variation, i + 1, Apply(schema, variation[i], experiments))
  {
    PossibleValuesLength(schema);
    var k, j := PositionOf(schema, i);
    ChoiceAt(schema, variation, i, k, j);
    ReachedKeys(schema, variation, i, experiments);
    var value := schema[k].1[j].1[variation[i].index];
    if Falsy(value) {
      ApplyFalsy(schema, variation, i, experiments, k, j);
    } else {
      WriteAt(experiments, k, j, value);
      ApplyTruthy(schema, variation, i, experiments, k, j);
    }
  }

  lemma {:induction false} OverlayFromReached(schema: Schema, variation: seq<Choice>, i: nat, experiments: CodableExperiments)
    requires Enumerable(schema) && Drawn(PossibleValues(schema), variation) && i <= |variation|
    requires Reached(schema, variation, i, experiments)
    ensures Reached(schema, variation, |variation|, OverlayFrom(schema, variation, i, experiments))
    decreases |variation| - i
  {
    if i < |variation| {
      var next := Apply(schema, variation[i], experiments);
      assert Reached(schema, variation, i + 1, next) by {
        ApplyStep(schema, variation, i, experiments);
      }
      OverlayFromReached(schema, variation, i + 1, next);
      assert OverlayFrom(schema, variation, i, experiments) == OverlayFrom(schema, variation, i + 1, next);
    } else {
      assert i == |variation|;
      assert OverlayFrom(schema, variation, i, experiments) == experiments;
    }
  }

  /**
   * The assignment of a variation: every experiment in schema order, every
   * parameter in declared order, each holding its chosen candidate, or its
   * default when the chosen candidate is falsy.
   */
  lemma OverlayContents(schema: Schema, variation: seq<Choice>)
    requires Enumerable(schema) && Drawn(PossibleValues(schema), variation)
    ensures Reached(schema, variation, |variation|, Overlay(schema, variation))
  {
    ReachedDefaults(schema, variation);
    OverlayFromReached(schema, variation, 0, IsolatedDefaults(schema));
  }

  /** Such an assignment is one the codec round-trips. */
  lemma OverlayConforms(schema: Schema, variation: seq<Choice>)
    requires Enumerable(schema) && Drawn(PossibleValues(schema), variation)
    ensures Conforms(schema, Overlay(schema, variation))
  {
    var a := Overlay(schema, variation);
    OverlayContents(schema, variation);
    ReachedKeys(schema, variation, |variation|, a);
    assert |a| == |schema| >= 1;
    forall k | 0 <= k < |a|
      ensures a[k].0 != "" && Get(schema, a[k].0).Some?
      ensures ConformingExperiment(Get(schema, a[k].0).value, a[k].1)
    {
      assert a[k].0 == schema[k].0;
      GetAt(schema, k);
      ReachedConforming(schema, variation, |variation|, a, k);
    }
  }

  /** Every parameter of a reached assignment holds one of its own candidates. */
  lemma ReachedConforming(schema: Schema, variation: seq<Choice>, i: nat, experiments: CodableExperiments, k: nat)
    requires Enumerable(schema) && Reached(schema, variation, i, experiments) && k < |schema|
    ensures ConformingExperiment(schema[k].1, experiments[k].1)
  {
    var definition := schema[k].1;
    var exp := experiments[k].1;
    forall j | 0 <= j < |exp|
      ensures exp[j].0 == definition[j].0 && exp[j].1 in definition[j].1
    {
      assert exp[j] == (definition[j].0, Chosen(schema, variation, i, k, j));
    }
  }

  // ---------------------------------------------------------------------
  // The kept variations and their encodings

  /** Every kept variation is drawn from the product of the choice lists. */
  lemma KeptDrawn(possibleValues: seq<seq<Choice>>, maxGeneratedVariations: int, m: nat)
    requires m < |PossibleVariations(possibleValues, maxGeneratedVariations)|
    ensures Drawn(possibleValues, PossibleVariations(possibleValues, maxGeneratedVariations)[m])
  {
    var head, tail := possibleValues[0], possibleValues[1..];
    var c := PossibleVariations(possibleValues, maxGeneratedVariations)[m];
    assert c in Cartesian(head, tail);
    CartesianMember(head, tail, c);
    forall i | 0 <= i < |c| ensures c[i] in possibleValues[i] {
      if i > 0 {
        assert c[(i - 1) + 1] in tail[i - 1];
      }
    }
  }

  /**
   * The number of kept variations: none when no parameter is declared,
   * otherwise `maxGeneratedVariations` (at least one) capped by the product
   * of the candidate counts.
   */
  lemma VariationCount(schema: Schema, maxGeneratedVariations: int)
    ensures |PossibleVariations(PossibleValues(schema), maxGeneratedVariations)| ==
              if ParamCount(schema) == 0 then 0
              else Min(Max(maxGeneratedVariations, 1), Product(PossibleValues(schema)))
    ensures forall k, j :: 0 <= k < |schema| && 0 <= j < |schema[k].1| ==>
              && Position(schema, k, j) < |PossibleValues(schema)|
              && |PossibleValues(schema)[Position(schema, k, j)]| == |schema[k].1[j].1|
  {
    var pv := PossibleValues(schema);
    PossibleValuesLength(schema);
    if |pv| > 0 {
      CartesianCount(pv[0], pv[1..]);
    }
    forall k, j | 0 <= k < |schema| && 0 <= j < |schema[k].1|
      ensures Position(schema, k, j) < |pv| && |pv[Position(schema, k, j)]| == |schema[k].1[j].1|
    {
      PossibleValuesAt(schema, k, j);
    }
  }

  lemma {:induction false} EncodedFromLength(schema: Schema, variations: seq<seq<Choice>>, i: nat, encoded: seq<string>)
    requires i <= |variations|
    ensures EncodedFrom(schema, variations, i, encoded).Success? ==>
              |EncodedFrom(schema, variations, i, encoded).value| == |encoded| + |variations| - i
    decreases |variations| - i
  {
    if i < |variations| && Encoding(schema, Overlay(schema, variations[i])).Success? {
      EncodedFromLength(schema, variations, i + 1, encoded + [Encoding(schema, Overlay(schema, variations[i])).value]);
    }
  }

  /** When every variation from position `i` on encodes, to `es[m]`, the loop appends those encodings in order. */
  lemma {:induction false} EncodedFromAll(schema: Schema, variations: seq<seq<Choice>>, i: nat, encoded: seq<string>, es: seq<string>)
    requires i <= |variations| == |es|
    requires forall m :: i <= m < |variations| ==> Encoding(schema, Overlay(schema, variations[m])) == Success(es[m])
    ensures EncodedFrom(schema, variations, i, encoded) == Success(encoded + es[i..])
    decreases |variations| - i
  {
    if i < |variations| {
      var e := Encoding(schema, Overlay(schema, variations[i]));
      EncodedFromStep(schema, variations, i, encoded, e);
      EncodedFromAll(schema, variations, i + 1, encoded + [es[i]], es);
      ConsSuffix(encoded, es, i);
    } else {
      assert encoded + es[i..] == encoded;
      assert EncodedFrom(schema, variations, i, encoded) == Success(encoded);
    }
  }

  lemma ConsSuffix<T>(prefix: seq<T>, s: seq<T>, i: nat)
    requires i < |s|
    ensures prefix + [s[i]] + s[i + 1..] == prefix + s[i..]
  {
    assert s[i..] == [s[i]] + s[i + 1..];
  }

  /** One pass of the encoding loop: a failure is thrown, a success is pushed. */
  lemma EncodedFromStep(schema: Schema, variations: seq<seq<Choice>>, i: nat, encoded: seq<string>, e: Result<string, EncodeError>)
    requires i < |variations| && e == Encoding(schema, Overlay(schema, variations[i]))
    ensures e.Failure? ==> EncodedFrom(schema, variations, i, encoded) == Failure(e.error)
    ensures e.Success? ==> EncodedFrom(schema, variations, i, encoded) == EncodedFrom(schema, variations, i + 1, encoded + [e.value])
  {
  }

  /** Otherwise the first variation that does not encode decides the error. */
  lemma {:induction false} EncodedFromFails(schema: Schema, variations: seq<seq<Choice>>, i: nat, encoded: seq<string>, f: nat)
    requires i <= f < |variations|
    requires forall m :: i <= m < f ==> Encoding(schema, Overlay(schema, variations[m])).Success?
    requires Encoding(schema, Overlay(schema, variations[f])).Failure?
    ensures EncodedFrom(schema, variations, i, encoded) == Failure(Encoding(schema, Overlay(schema, variations[f])).error)
    decreases f - i
  {
    var e := Encoding(schema, Overlay(schema, variations[i]));
    EncodedFromStep(schema, variations, i, encoded, e);
    if i < f {
      EncodedFromFails(schema, variations, i + 1, encoded + [e.value], f);
    }
  }

  /**
   * For a schema of named experiments that each declare parameters with
   * candidates, `getEncodedVariations` does not throw; it returns one
   * nonempty string per kept variation, in cartesian order; and each
   * string decodes to that variation's assignment, which encodes back to
   * the same string.
   */
  lemma VariationsDecode(schema: Schema, maxGeneratedVariations: int)
    requires Enumerable(schema)
    ensures var variations := PossibleVariations(PossibleValues(schema), maxGeneratedVariations);
            && EncodedVariations(schema, maxGeneratedVariations).Success?
            && |EncodedVariations(schema, maxGeneratedVariations).value| == |variations|
            && forall m :: 0 <= m < |variations| ==>
                 EncodesBack(schema, variations[m], EncodedVariations(schema, maxGeneratedVariations).value[m])
  {
    var pv := PossibleValues(schema);
    var variations := PossibleVariations(pv, maxGeneratedVariations);
    forall m | 0 <= m < |variations|
      ensures Encoding(schema, Overlay(schema, variations[m])).Success?
    {
      VariationRoundTrip(schema, maxGeneratedVariations, m);
    }
    EncodedAll(schema, variations);
    assert EncodedVariations(schema, maxGeneratedVariations) == EncodedFrom(schema, variations, 0, []);
    var r := EncodedVariations(schema, maxGeneratedVariations).value;
    forall m | 0 <= m < |variations|
      ensures EncodesBack(schema, variations[m], r[m])
    {
      VariationRoundTrip(schema, maxGeneratedVariations, m);
      EncodesBackOf(schema, variations[m], r[m]);
    }
  }

  /** When every variation encodes, the loop collects their encodings in order. */
  lemma EncodedAll(schema: Schema, variations: seq<seq<Choice>>)
    requires forall m :: 0 <= m < |variations| ==> Encoding(schema, Overlay(schema, variations[m])).Success?
    ensures EncodedFrom(schema, variations, 0, []).Success?
    ensures |EncodedFrom(schema, variations, 0, []).value| == |variations|
    ensures forall m :: 0 <= m < |variations| ==>
              EncodedFrom(schema, variations, 0, []).value[m] == Encoding(schema, Overlay(schema, variations[m])).value
  {
    var es := seq(|variations|, m requires 0 <= m < |variations| => Encoding(schema, Overlay(schema, variations[m])).value);
    var none: seq<string> := [];
    EncodedFromAll(schema, variations, 0, none, es);
    assert none + es[0..] == es;
  }

  lemma EncodesBackOf(schema: Schema, variation: seq<Choice>, s: string)
    requires Encoding(schema, Overlay(schema, variation)).Success?
    requires s == Encoding(schema, Overlay(schema, variation)).value
    requires s != "" && Decoding(schema, Single(s)) == Success(Overlay(schema, variation))
    ensures EncodesBack(schema, variation, s)
  {
  }

  /** `s` is nonempty, is the encoding of the variation's assignment, and decodes back to it. */
  predicate EncodesBack(schema: Schema, variation: seq<Choice>, s: string) {
    && s != ""
    && Encoding(schema, Overlay(schema, variation)) == Success(s)
    && Decoding(schema, Single(s)) == Success(Overlay(schema, variation))
  }

  lemma VariationRoundTrip(schema: Schema, maxGeneratedVariations: int, m: nat)
    requires Enumerable(schema)
    requires m < |PossibleVariations(PossibleValues(schema), maxGeneratedVariations)|
    ensures var a := Overlay(schema, PossibleVariations(PossibleValues(schema), maxGeneratedVariations)[m]);
            && Encoding(schema, a).Success?
            && Encoding(schema, a).value != ""
            && Decoding(schema, Single(Encoding(schema, a).value)) == Success(a)
  {
    var v := PossibleVariations(PossibleValues(schema), maxGeneratedVariations)[m];
    KeptDrawn(PossibleValues(schema), maxGeneratedVariations, m);
    OverlayConforms(schema, v);
    RoundTrip.RoundTrip(schema, Overlay(schema, v));
  }

  /**
   * `getExperimentProps` as written serves the defaults on every generated
   * path: the path's `params` hold only `experiment`, and it reads
   * `experiments`.
   */
  lemma GeneratedPathServesDefaults(schema: Schema, p: Path)
    ensures RouteValue(Some(RouteParams(p)), PROPS_PARAM) == None
    ensures PropsFrom(schema, Some(RouteParams(p)), PROPS_PARAM) == IsolatedDefaults(schema)
  {
    assert PROPS_PARAM !in Keys(RouteParams(p));
  }

  /**
   * Reading the route parameter the paths are generated with, visiting the
   * path of a generated variation serves that variation's assignment.
   */
  lemma PropsOfGeneratedPath(schema: Schema, maxGeneratedVariations: int, m: nat)
    requires Enumerable(schema)
    requires m < |PossibleVariations(PossibleValues(schema), maxGeneratedVariations)|
    ensures EncodedVariations(schema, maxGeneratedVariations).Success?
    ensures m < |EncodedVariations(schema, maxGeneratedVariations).value|
    ensures var p := Path(EncodedVariations(schema, maxGeneratedVariations).value[m]);
            PropsFrom(schema, Some(RouteParams(p)), ROUTE_PARAM)
            == Overlay(schema, PossibleVariations(PossibleValues(schema), maxGeneratedVariations)[m])
  {
    VariationsDecode(schema, maxGeneratedVariations);
    var s := EncodedVariations(schema, maxGeneratedVariations).value[m];
    assert RouteValue(Some(RouteParams(Path(s))), ROUTE_PARAM) == Some(Single(s));
  }
}
