/**
 * The defaults of lib/constants.ts: `DEFAULT_RULES`,
 * `getIsolatedExperimentDefaults` and `VARIATION_WITH_DEFAULT_EXPERIMENTS`,
 * over a schema given as a parameter.
 */
module Constants {
  import opened Wrappers
  import opened Records
  import opened JsStrings
  import opened Types
  import opened Coding
  import opened EncodeProofs
  import opened RulesProofs

  const ALLOCATION: string := "allocation"

  // ---------------------------------------------------------------------
  // DEFAULT_RULES

  /** `defaults` once the experiments from position `n` on are given the rule `"allocation"`. */
  function AllocationRulesFrom(schema: Schema, n: nat, defaults: Record<string>): Record<string>
    decreases |schema| - n
  {
    if n >= |schema| then defaults
    else AllocationRulesFrom(schema, n + 1, Put(defaults, schema[n].0, ALLOCATION))
  }

  /** What `DEFAULT_RULES()` returns. */
  function AllocationRules(schema: Schema): Record<string>
  {
    AllocationRulesFrom(schema, 0, [])
  }

  method DefaultRules(schema: Schema) returns (defaults: Record<string>)
    ensures defaults == AllocationRules(schema)
  {
    defaults := [];
    for n := 0 to |schema|
      invariant AllocationRulesFrom(schema, n, defaults) == AllocationRules(schema)
    {
      var (experimentName, _) := schema[n];
      defaults := Put(defaults, experimentName, ALLOCATION);
    }
  }

  /** The first `n` schema experiments, each with the rule `"allocation"`. */
  function AllocationPairs(schema: Schema, n: nat): (d: Record<string>)
    requires n <= |schema|
    ensures |d| == n
    ensures forall k :: 0 <= k < n ==> d[k] == (schema[k].0, ALLOCATION)
  {
    seq(n, k requires 0 <= k < n => (schema[k].0, ALLOCATION))
  }

  lemma {:induction false} AllocationRulesPrefix(schema: Schema, n: nat)
    requires WellFormed(schema) && n <= |schema|
    ensures AllocationRulesFrom(schema, n, AllocationPairs(schema, n)) == AllocationPairs(schema, |schema|)
    decreases |schema| - n
  {
    if n < |schema| {
      AllocationPairsNext(schema, n);
      AllocationRulesPrefix(schema, n + 1);
    }
  }

  lemma AllocationPairsNext(schema: Schema, n: nat)
    requires WellFormed(schema) && n < |schema|
    ensures Put(AllocationPairs(schema, n), schema[n].0, ALLOCATION) == AllocationPairs(schema, n + 1)
  {
    var d := AllocationPairs(schema, n);
    assert schema[n].0 !in Keys(d) by {
      forall k | 0 <= k < n ensures d[k].0 != schema[n].0 {
        assert Keys(schema)[k] != Keys(schema)[n];
      }
    }
    PutNew(d, schema[n].0, ALLOCATION);
    assert d + [(schema[n].0, ALLOCATION)] == AllocationPairs(schema, n + 1);
  }

  /** `DEFAULT_RULES()` maps every schema experiment, in schema order, to `"allocation"`. */
  lemma AllocationRulesShape(schema: Schema)
    requires WellFormed(schema)
    ensures AllocationRules(schema) == AllocationPairs(schema, |schema|)
  {
    AllocationRulesPrefix(schema, 0);
    assert AllocationPairs(schema, 0) == [];
  }

  /** `encodeRules(DEFAULT_RULES())` is `"allocation"` once per experiment, joined by `,`. */
  lemma DefaultRulesEncoding(schema: Schema)
    requires WellFormed(schema)
    ensures RuleString(schema, AllocationRules(schema)) == Join(seq(|schema|, _ => ALLOCATION), RULES_DELINEATOR)
  {
    var names := ExperimentNames(schema);
    var rules := AllocationRules(schema);
    AllocationRulesShape(schema);
    assert Keys(rules) == names;
    forall k | 0 <= k < |names|
      ensures Get(rules, names[k]) == Some(ALLOCATION)
    {
      GetAt(rules, k);
    }
    RuleSlotsContents(schema, rules);
    var slots := RuleSlots(names, rules, 0, []);
    if |names| > 0 {
      assert Get(rules, names[|names| - 1]).Some?;
      assert |names| - 1 < |slots|;
    }
    assert |slots| == |names| == |schema|;
    forall k | 0 <= k < |slots|
      ensures slots[k] == Some(ALLOCATION)
    {
      assert slots[k] == Get(rules, names[k]);
    }
    HolesAllocated(slots);
  }

  lemma HolesAllocated(slots: seq<Option<string>>)
    requires forall k :: 0 <= k < |slots| ==> slots[k] == Some(ALLOCATION)
    ensures Holes(slots) == seq(|slots|, _ => ALLOCATION)
  {
  }

  // ---------------------------------------------------------------------
  // getIsolatedExperimentDefaults

  /** `newExperiment` once the parameters from position `j` on are visited: each takes its first candidate, if any. */
  function FirstCandidates(params: Params, j: nat, newExperiment: CodableExperiment): CodableExperiment
    decreases |params| - j
  {
    if j >= |params| then newExperiment
    else
      FirstCandidates(params, j + 1,
                      if |params[j].1| == 0 then newExperiment else Put(newExperiment, params[j].0, params[j].1[0]))
  }

  /** `defaults` once the experiments from position `n` on are visited. */
  function DefaultsFrom(schema: Schema, n: nat, defaults: CodableExperiments): CodableExperiments
    decreases |schema| - n
  {
    if n >= |schema| then defaults
    else DefaultsFrom(schema, n + 1, Put(defaults, schema[n].0, FirstCandidates(schema[n].1, 0, [])))
  }

  /** What `getIsolatedExperimentDefaults()` returns. */
  function IsolatedDefaults(schema: Schema): CodableExperiments
  {
    DefaultsFrom(schema, 0, [])
  }

  method GetIsolatedExperimentDefaults(schema: Schema) returns (defaults: CodableExperiments)
    ensures defaults == IsolatedDefaults(schema)
  {
    defaults := [];
    for n := 0 to |schema|
      invariant DefaultsFrom(schema, n, defaults) == IsolatedDefaults(schema)
    {
      var (experimentName, experiment) := schema[n];
      var newExperiment: CodableExperiment := [];
      for j := 0 to |experiment|
        invariant FirstCandidates(experiment, j, newExperiment) == FirstCandidates(experiment, 0, [])
      {
        var (variantName, variantOptions) := experiment[j];
        if |variantOptions| == 0 {
          continue;
        }
        newExperiment := Put(newExperiment, variantName, variantOptions[0]);
      }
      defaults := Put(defaults, experimentName, newExperiment);
    }
  }

  /** Reference definition: the parameters with a nonempty candidate list, in order, each with its first candidate. */
  function Firsts(params: Params): (r: CodableExperiment)
    ensures |r| <= |params|
    ensures forall i :: 0 <= i < |r| ==> r[i].0 in Keys(params)
  {
    if |params| == 0 then []
    else
      var last := params[|params| - 1];
      var init := params[..|params| - 1];
      assert forall i :: 0 <= i < |init| ==> init[i].0 == params[i].0;
      Firsts(init) + (if |last.1| == 0 then [] else [(last.0, last.1[0])])
  }

  lemma {:induction false} FirstCandidatesFirsts(params: Params, j: nat)
    requires DistinctKeys(params) && j <= |params|
    ensures FirstCandidates(params, j, Firsts(params[..j])) == Firsts(params)
    decreases |params| - j
  {
    if j < |params| {
      var prefix := params[..j];
      var (name, candidates) := params[j];
      var next := if |candidates| == 0 then Firsts(prefix) else Put(Firsts(prefix), name, candidates[0]);
      assert FirstCandidates(params, j, Firsts(prefix)) == FirstCandidates(params, j + 1, next);
      FirstsNext(params, j);
      FirstCandidatesFirsts(params, j + 1);
    } else {
      assert params[..j] == params;
    }
  }

  /** Visiting parameter `j` extends the defaults of the first `j` parameters to those of the first `j + 1`. */
  lemma FirstsNext(params: Params, j: nat)
    requires DistinctKeys(params) && j < |params|
    ensures var (name, candidates) := params[j];
            (if |candidates| == 0 then Firsts(params[..j]) else Put(Firsts(params[..j]), name, candidates[0]))
            == Firsts(params[..j + 1])
  {
    var prefix := params[..j];
    var (name, candidates) := params[j];
    FirstsSnoc(params, j);
    if |candidates| > 0 {
      assert name !in Keys(Firsts(prefix)) by {
        forall i | 0 <= i < j ensures prefix[i].0 != name {
          assert Keys(params)[i] != Keys(params)[j];
        }
      }
      PutNew(Firsts(prefix), name, candidates[0]);
    }
  }

  lemma FirstsSnoc(params: Params, j: nat)
    requires j < |params|
    ensures Firsts(params[..j + 1])
         == Firsts(params[..j]) + (if |params[j].1| == 0 then [] else [(params[j].0, params[j].1[0])])
  {
    assert params[..j + 1][..j] == params[..j];
  }

  /** The value a parameter gets in the defaults: its first candidate, or none for an empty list. */
  function FirstOf(params: Params, name: string): Option<Value>
  {
    match Get(params, name)
    case Some(candidates) => if |candidates| > 0 then Some(candidates[0]) else None
    case None => None
  }

  /**
   * In the defaults of one experiment each parameter maps to its first
   * candidate; parameters with an empty candidate list are omitted.
   */
  lemma {:induction false} FirstsGet(params: Params)
    requires DistinctKeys(params)
    ensures DistinctKeys(Firsts(params))
    ensures forall name :: Get(Firsts(params), name) == FirstOf(params, name)
    decreases |params|
  {
    if |params| > 0 {
      var init := params[..|params| - 1];
      var (name, candidates) := params[|params| - 1];
      assert params == init + [(name, candidates)];
      assert Keys(init) == Keys(params)[..|params| - 1];
      FirstsGet(init);
      assert name !in Keys(init);
      FirstsSnoc(params, |params| - 1);
      assert params[..|params|] == params;
      forall name' ensures FirstOf(params, name') == if name' == name then (if |candidates| > 0 then Some(candidates[0]) else None) else FirstOf(init, name') {
        GetAppend(init, name, candidates, name');
      }
      if |candidates| > 0 {
        assert Firsts(params) == Firsts(init) + [(name, candidates[0])];
        assert name !in Keys(Firsts(init)) by {
          forall i | 0 <= i < |Firsts(init)| ensures Firsts(init)[i].0 != name {
            assert Firsts(init)[i].0 in Keys(init);
          }
        }
        assert Keys(Firsts(params)) == Keys(Firsts(init)) + [name];
        forall name' ensures Get(Firsts(params), name') == FirstOf(params, name') {
          GetAppend(Firsts(init), name, candidates[0], name');
        }
      } else {
        assert Firsts(params) == Firsts(init);
      }
    }
  }

  /** Reference definition of the defaults: every schema experiment, in schema order, with its `Firsts`. */
  function Defaults(schema: Schema): (d: CodableExperiments)
    ensures |d| == |schema|
  {
    seq(|schema|, k requires 0 <= k < |schema| => (schema[k].0, Firsts(schema[k].1)))
  }

  lemma {:induction false} DefaultsFromPrefix(schema: Schema, n: nat)
    requires WellFormed(schema) && n <= |schema|
    ensures DefaultsFrom(schema, n, Defaults(schema)[..n]) == Defaults(schema)
    decreases |schema| - n
  {
    var d := Defaults(schema);
    if n < |schema| {
      FirstCandidatesFirsts(schema[n].1, 0);
      assert schema[n].1[..0] == [];
      assert Keys(d) == Keys(schema);
      PutNext(d, n);
      DefaultsFromPrefix(schema, n + 1);
    } else {
      assert d[..n] == d;
    }
  }

  /** `getIsolatedExperimentDefaults()` agrees with the reference definition. */
  lemma IsolatedDefaultsShape(schema: Schema)
    requires WellFormed(schema)
    ensures IsolatedDefaults(schema) == Defaults(schema)
    ensures Keys(IsolatedDefaults(schema)) == ExperimentNames(schema)
  {
    DefaultsFromPrefix(schema, 0);
    assert Defaults(schema)[..0] == [];
    assert Keys(Defaults(schema)) == Keys(schema);
  }

  /**
   * The defaults have a key for every schema experiment, in schema order,
   * and each experiment's defaults are the first candidates of its
   * parameters, empty lists omitted.
   */
  lemma IsolatedDefaultsGet(schema: Schema, k: nat)
    requires WellFormed(schema) && k < |schema|
    ensures Keys(IsolatedDefaults(schema)) == ExperimentNames(schema)
    ensures Get(IsolatedDefaults(schema), schema[k].0).Some?
    ensures var exp := Get(IsolatedDefaults(schema), schema[k].0).value;
            DistinctKeys(exp) && forall name :: Get(exp, name) == FirstOf(schema[k].1, name)
  {
    IsolatedDefaultsShape(schema);
    GetAt(Defaults(schema), k);
    FirstsGet(schema[k].1);
  }

  // ---------------------------------------------------------------------
  // VARIATION_WITH_DEFAULT_EXPERIMENTS

  /** What `VARIATION_WITH_DEFAULT_EXPERIMENTS` holds, or the error computing it throws. */
  function DefaultVariation(schema: Schema): Result<string, EncodeError>
  {
    Encoding(schema, IsolatedDefaults(schema))
  }

  /** The segment of experiment `k` in the default variation: `k`, then `"{i}v0"` for each default. */
  function DefaultSegment(k: nat, n: nat): string
  {
    Join([NatToString(k)] + seq(n, i requires 0 <= i < n => ValueToken(i, 0)), PARAMETER_DELINEATOR)
  }

  lemma DefaultEncodable(schema: Schema, k: nat)
    requires WellFormed(schema) && k < |schema|
    ensures var exp := Firsts(schema[k].1);
            && (forall i :: 0 <= i < |exp| ==> ParamEncodable(schema, schema[k].0, exp[i]))
            && (forall i :: 0 <= i < |exp| ==> ValueIndexOf(schema, schema[k].0, exp[i]) == 0)
            && (|exp| >= 1 ==> SegmentEncodable(schema, schema[k].0, exp))
            && (|exp| >= 1 ==> ExpectedSegment(schema, schema[k].0, exp) == DefaultSegment(k, |exp|))
  {
    var name := schema[k].0;
    var params := schema[k].1;
    var exp := Firsts(params);
    GetAt(schema, k);
    IndexOfDistinct(Keys(schema), k);
    FirstsGet(params);
    forall i | 0 <= i < |exp|
      ensures ParamEncodable(schema, name, exp[i]) && ValueIndexOf(schema, name, exp[i]) == 0
    {
      GetAt(exp, i);
      assert Get(params, exp[i].0).Some?;
    }
    if |exp| >= 1 {
      assert ExpectedTokens(schema, name, exp) == seq(|exp|, i requires 0 <= i < |exp| => ValueToken(i, 0));
    }
  }

  /**
   * When every experiment has at least one parameter with a candidate, the
   * default variation is, for each experiment index `k` in order, `k`
   * followed by `"0v0"`, `"1v0"`, ... one per default.
   */
  lemma DefaultVariationShape(schema: Schema)
    requires WellFormed(schema)
    requires forall k :: 0 <= k < |schema| ==> |Firsts(schema[k].1)| >= 1
    ensures DefaultVariation(schema)
         == Success(Join(seq(|schema|, k requires 0 <= k < |schema| => DefaultSegment(k, |Firsts(schema[k].1)|)),
                         EXPERIMENT_DELINEATOR))
  {
    var a := IsolatedDefaults(schema);
    var segments := seq(|schema|, k requires 0 <= k < |schema| => DefaultSegment(k, |Firsts(schema[k].1)|));
    IsolatedDefaultsShape(schema);
    forall k | 0 <= k < |a|
      ensures SegmentEncodable(schema, a[k].0, a[k].1)
      ensures ExpectedSegment(schema, a[k].0, a[k].1) == segments[k]
    {
      DefaultEncodable(schema, k);
    }
    EncodingOfSegments(schema, a, segments);
  }

  /**
   * Computing the default variation fails exactly when some experiment has
   * no parameter with a candidate, and then with the empty-parameter error.
   */
  lemma DefaultVariationFails(schema: Schema)
    requires WellFormed(schema)
    ensures DefaultVariation(schema).Failure? <==> exists k :: 0 <= k < |schema| && |Firsts(schema[k].1)| == 0
    ensures DefaultVariation(schema).Failure? ==> DefaultVariation(schema).error == NoParameters
  {
    var a := IsolatedDefaults(schema);
    IsolatedDefaultsShape(schema);
    forall k | 0 <= k < |a|
      ensures SegmentEncodable(schema, a[k].0, a[k].1) <==> |Firsts(schema[k].1)| >= 1
    {
      DefaultEncodable(schema, k);
      GetAt(schema, k);
    }
    EncodingSucceedsIff(schema, a);
    if DefaultVariation(schema).Failure? {
      var k := FirstFailing(schema, a, 0);
      EncodingFails(schema, a, k);
      GetAt(schema, k);
    }
  }
}
