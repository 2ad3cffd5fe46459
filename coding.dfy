/**
 * The assignment codec and the rule codec of lib/coding.ts. The schema is an
 * explicit parameter. Each thrown error becomes a `Failure` with its own
 * error kind. Each function of the source is a method whose loops follow
 * the source, proved equal to a specification function that is defined one
 * loop step at a time.
 */
module Coding {
  import opened Wrappers
  import opened Records
  import opened JsStrings
  import opened Types

  const EXPERIMENT_DELINEATOR: char := 'e'
  const PARAMETER_DELINEATOR: char := 'p'
  const PARAMETER_VALUE_DELINEATOR: char := 'v'
  const RULES_DELINEATOR: char := ','

  /** `EXPERIMENT_NAMES`: the schema's experiment names in declaration order. */
  function ExperimentNames(schema: Schema): seq<string>
  {
    Keys(schema)
  }

  /** The errors `encodeExperiments` throws, one kind per throw site. */
  datatype EncodeError =
    | UnknownExperiment(expName: string)
    | NoParameters
    | ExperimentNotContained(expName: string)
    | UnknownParameter(paramName: string, expName: string)
    | UnknownValue(value: Value, paramName: string, expName: string)

  /** The errors `decodeExperiments` throws, one kind per throw site. */
  datatype DecodeError =
    | EmptyInput
    | NoExperiments
    | InvalidExperimentEncoding
    | ExperimentIndexNaN
    | InvalidExperimentIndex(index: int)
    | MissingParameterIndex(expName: string)
    | MissingValueIndex(expName: string)
    | InvalidParameterIndex(indexText: string, expName: string)
    | InvalidValueIndex(valueIndexText: string, expName: string)
    | ExperimentNotDefined(expName: string)
    | UnknownValueIndex(valueIndex: int, parameterIndex: int, expName: string)

  // ---------------------------------------------------------------------
  // Rule codec

  /** `rules[k] = rule` on a JavaScript array: positions between the old end and `k` become holes. */
  function Place(rules: seq<Option<string>>, k: nat, rule: string): (r: seq<Option<string>>)
    ensures |r| == if k < |rules| then |rules| else k + 1
    ensures r[k] == Some(rule)
    ensures forall j :: 0 <= j < |r| && j != k ==> r[j] == if j < |rules| then rules[j] else None
  {
    if k < |rules| then rules[k := Some(rule)] else rules + seq(k - |rules|, _ => None) + [Some(rule)]
  }

  /** The sparse `rules` array once the entries from position `n` on are placed into `rules`. */
  function RuleSlots(names: seq<string>, entries: Record<string>, n: nat, rules: seq<Option<string>>): seq<Option<string>>
    decreases |entries| - n
  {
    if n >= |entries| then rules
    else
      var nameIndex := IndexOf(names, entries[n].0);
      RuleSlots(names, entries, n + 1, if nameIndex > -1 then Place(rules, nameIndex, entries[n].1) else rules)
  }

  /** `Array.prototype.join` writes a hole as the empty string. */
  function Holes(rules: seq<Option<string>>): (r: seq<string>)
    ensures |r| == |rules|
    ensures forall j :: 0 <= j < |rules| ==> r[j] == rules[j].GetOr("")
  {
    seq(|rules|, j requires 0 <= j < |rules| => rules[j].GetOr(""))
  }

  /** What `encodeRules` returns. */
  function RuleString(schema: Schema, rulesByName: Record<string>): string
  {
    Join(Holes(RuleSlots(ExperimentNames(schema), rulesByName, 0, [])), RULES_DELINEATOR)
  }

  method EncodeRules(schema: Schema, rulesByName: Record<string>) returns (s: string)
    ensures s == RuleString(schema, rulesByName)
  {
    var names := ExperimentNames(schema);
    var rules: seq<Option<string>> := [];
    for n := 0 to |rulesByName|
      invariant RuleSlots(names, rulesByName, n, rules) == RuleSlots(names, rulesByName, 0, [])
    {
      var (name, rule) := rulesByName[n];
      var nameIndex := IndexOf(names, name);
      if nameIndex > -1 {
        rules := Place(rules, nameIndex, rule);
      }
    }
    s := Join(Holes(rules), RULES_DELINEATOR);
  }

  /** `decodedRules` once the pieces from position `index` on are added to `decoded`. */
  function RulesFrom(names: seq<string>, pieces: seq<string>, index: nat, decoded: Record<string>): Record<string>
    decreases |pieces| - index
  {
    if index >= |pieces| then decoded
    else
      RulesFrom(names, pieces, index + 1,
                if index < |names| then Put(decoded, names[index], pieces[index]) else decoded)
  }

  /** What `decodeRules` returns. */
  function DecodedRules(schema: Schema, rules: string): Record<string>
  {
    RulesFrom(ExperimentNames(schema), Split(rules, RULES_DELINEATOR), 0, [])
  }

  method DecodeRules(schema: Schema, rules: string) returns (decodedRules: Record<string>)
    ensures decodedRules == DecodedRules(schema, rules)
  {
    var names := ExperimentNames(schema);
    var pieces := Split(rules, RULES_DELINEATOR);
    decodedRules := [];
    for index := 0 to |pieces|
      invariant RulesFrom(names, pieces, index, decodedRules) == DecodedRules(schema, rules)
    {
      if index < |names| {
        decodedRules := Put(decodedRules, names[index], pieces[index]);
      }
    }
  }

  // ---------------------------------------------------------------------
  // Assignment codec: encoding

  /** The token `"{i}v{valueIndex}"`. */
  function ValueToken(i: nat, valueIndex: nat): string
  {
    NatToString(i) + [PARAMETER_VALUE_DELINEATOR] + NatToString(valueIndex)
  }

  /** `params` once the tokens of the parameters from position `i` on are pushed. */
  function ParamTokens(schema: Schema, expName: string, parameters: CodableExperiment, i: nat,
                       params: seq<string>): Result<seq<string>, EncodeError>
    decreases |parameters| - i
  {
    if i >= |parameters| then Success(params)
    else
      var (paramName, param) := parameters[i];
      match Get(schema, expName)
      case None => Failure(ExperimentNotContained(expName))
      case Some(expFromDefinition) =>
        match Get(expFromDefinition, paramName)
        case None => Failure(UnknownParameter(paramName, expName))
        case Some(paramsForExperiment) =>
          var paramIndex := IndexOf(paramsForExperiment, param);
          if paramIndex < 0 then Failure(UnknownValue(param, paramName, expName))
          else ParamTokens(schema, expName, parameters, i + 1, params + [ValueToken(i, paramIndex)])
  }

  /** The segment one experiment encodes to. */
  function ExperimentSegment(schema: Schema, expName: string, exp: CodableExperiment): Result<string, EncodeError>
  {
    var expNameIndex := IndexOf(ExperimentNames(schema), expName);
    if expNameIndex < 0 then Failure(UnknownExperiment(expName))
    else if |exp| < 1 then Failure(NoParameters)
    else
      var params :- ParamTokens(schema, expName, exp, 0, [NatToString(expNameIndex)]);
      Success(Join(params, PARAMETER_DELINEATOR))
  }

  /** `encodedExperiments` once the experiments from position `n` on are encoded. */
  function Segments(schema: Schema, experiments: CodableExperiments, n: nat,
                    encoded: seq<string>): Result<seq<string>, EncodeError>
    decreases |experiments| - n
  {
    if n >= |experiments| then Success(encoded)
    else
      var segment :- ExperimentSegment(schema, experiments[n].0, experiments[n].1);
      Segments(schema, experiments, n + 1, encoded + [segment])
  }

  /** What `encodeExperiments` returns or throws. */
  function Encoding(schema: Schema, experiments: CodableExperiments): Result<string, EncodeError>
  {
    var encoded :- Segments(schema, experiments, 0, []);
    Success(Join(encoded, EXPERIMENT_DELINEATOR))
  }

  method EncodeExperiments(schema: Schema, experiments: CodableExperiments) returns (r: Result<string, EncodeError>)
    ensures r == Encoding(schema, experiments)
  {
    var names := ExperimentNames(schema);
    var encodedExperiments: seq<string> := [];
    for n := 0 to |experiments|
      invariant Segments(schema, experiments, n, encodedExperiments) == Segments(schema, experiments, 0, [])
    {
      var (expName, exp) := experiments[n];
      var expNameIndex := IndexOf(names, expName);
      if expNameIndex < 0 {
        return Failure(UnknownExperiment(expName));
      }
      var parameters := exp;
      if |parameters| < 1 {
        return Failure(NoParameters);
      }
      var params := [NatToString(expNameIndex)];
      for i := 0 to |parameters|
        invariant ParamTokens(schema, expName, parameters, i, params)
               == ParamTokens(schema, expName, parameters, 0, [NatToString(expNameIndex)])
      {
        var (paramName, param) := parameters[i];
        var expFromDefinition := Get(schema, expName);
        if expFromDefinition.None? {
          return Failure(ExperimentNotContained(expName));
        }
        var paramsForExperiment := Get(expFromDefinition.value, paramName);
        if paramsForExperiment.None? {
          return Failure(UnknownParameter(paramName, expName));
        }
        var paramIndex := IndexOf(paramsForExperiment.value, param);
        if paramIndex < 0 {
          return Failure(UnknownValue(param, paramName, expName));
        }
        params := params + [ValueToken(i, paramIndex)];
      }
      encodedExperiments := encodedExperiments + [Join(params, PARAMETER_DELINEATOR)];
    }
    r := Success(Join(encodedExperiments, EXPERIMENT_DELINEATOR));
  }

  // ---------------------------------------------------------------------
  // Assignment codec: decoding

  /** `Array.isArray(variation) ? variation[0] : variation`; `None` stands for `undefined`. */
  function EncodedString(variation: QueryValue): Option<string>
  {
    match variation
    case Single(s) => Some(s)
    case Many(items) => if |items| == 0 then None else Some(items[0])
  }

  /** `decodedExperiment` after one `"{i}v{j}"` token is applied to it; out-of-range `i` is skipped. */
  function DecodedParameter(schema: Schema, experimentName: string, parameter: string,
                            decodedExperiment: CodableExperiment): Result<CodableExperiment, DecodeError>
  {
    var halves := Split(parameter, PARAMETER_VALUE_DELINEATOR);
    var index := halves[0];
    if index == "" then Failure(MissingParameterIndex(experimentName))
    else if |halves| < 2 || halves[1] == "" then Failure(MissingValueIndex(experimentName))
    else
      var valueIndex := halves[1];
      var parameterIndex := ParseInt(index);
      var parameterValueIndex := ParseInt(valueIndex);
      if parameterIndex.None? then Failure(InvalidParameterIndex(index, experimentName))
      else if parameterValueIndex.None? then Failure(InvalidValueIndex(valueIndex, experimentName))
      else
        match Get(schema, experimentName)
        case None => Failure(ExperimentNotDefined(experimentName))
        case Some(definition) =>
          var pi := parameterIndex.value;
          var vi := parameterValueIndex.value;
          if !(0 <= pi < |definition|) then Success(decodedExperiment)
          else if !(0 <= vi < |definition[pi].1|) then Failure(UnknownValueIndex(vi, pi, experimentName))
          else Success(Put(decodedExperiment, definition[pi].0, definition[pi].1[vi]))
  }

  /** `decodedExperiment` once the tokens from position `j` on are applied. */
  function DecodedParameters(schema: Schema, experimentName: string, parameters: seq<string>, j: nat,
                             decodedExperiment: CodableExperiment): Result<CodableExperiment, DecodeError>
    decreases |parameters| - j
  {
    if j >= |parameters| then Success(decodedExperiment)
    else
      var next :- DecodedParameter(schema, experimentName, parameters[j], decodedExperiment);
      DecodedParameters(schema, experimentName, parameters, j + 1, next)
  }

  /** The experiment name and parameter assignment one segment decodes to. */
  function DecodedSegment(schema: Schema, experiment: string): Result<(string, CodableExperiment), DecodeError>
  {
    var parameters := Split(experiment, PARAMETER_DELINEATOR);
    if |parameters| < 2 then Failure(InvalidExperimentEncoding)
    else
      var experimentIndex := ParseInt(parameters[0]);
      if experimentIndex.None? then Failure(ExperimentIndexNaN)
      else
        var names := ExperimentNames(schema);
        var k := experimentIndex.value;
        if !(0 <= k < |names|) || names[k] == "" then Failure(InvalidExperimentIndex(k))
        else
          var decodedExperiment :- DecodedParameters(schema, names[k], parameters[1..], 0, []);
          Success((names[k], decodedExperiment))
  }

  /** `decodedExperiments` once the segments from position `n` on are decoded. */
  function DecodedSegments(schema: Schema, experiments: seq<string>, n: nat,
                           decodedExperiments: CodableExperiments): Result<CodableExperiments, DecodeError>
    decreases |experiments| - n
  {
    if n >= |experiments| then Success(decodedExperiments)
    else
      var decoded :- DecodedSegment(schema, experiments[n]);
      DecodedSegments(schema, experiments, n + 1, Put(decodedExperiments, decoded.0, decoded.1))
  }

  lemma SegmentsStep(schema: Schema, experiments: seq<string>, n: nat, decodedExperiments: CodableExperiments)
    requires n < |experiments|
    ensures DecodedSegments(schema, experiments, n, decodedExperiments)
         == match DecodedSegment(schema, experiments[n])
            case Failure(e) => Failure(e)
            case Success(decoded) => DecodedSegments(schema, experiments, n + 1, Put(decodedExperiments, decoded.0, decoded.1))
  {
  }

  /** What `decodeExperiments` returns or throws. */
  function Decoding(schema: Schema, variation: QueryValue): Result<CodableExperiments, DecodeError>
  {
    var encodedString := EncodedString(variation);
    if encodedString.None? || |encodedString.value| == 0 then Failure(EmptyInput)
    else
      var experiments := Split(encodedString.value, EXPERIMENT_DELINEATOR);
      if |experiments| == 0 then Failure(NoExperiments)
      else DecodedSegments(schema, experiments, 0, [])
  }

  /** The inner loop of `decodeExperiments`: the tokens of one segment, in order. */
  method DecodeParameters(schema: Schema, experimentName: string, parameters: seq<string>)
    returns (r: Result<CodableExperiment, DecodeError>)
    ensures r == DecodedParameters(schema, experimentName, parameters, 0, [])
  {
    var decodedExperiment: CodableExperiment := [];
    for j := 0 to |parameters|
      invariant DecodedParameters(schema, experimentName, parameters, j, decodedExperiment)
             == DecodedParameters(schema, experimentName, parameters, 0, [])
    {
      var halves := Split(parameters[j], PARAMETER_VALUE_DELINEATOR);
      var index := halves[0];
      if index == "" {
        return Failure(MissingParameterIndex(experimentName));
      }
      if |halves| < 2 || halves[1] == "" {
        return Failure(MissingValueIndex(experimentName));
      }
      var valueIndex := halves[1];
      var parameterIndex := ParseInt(index);
      var parameterValueIndex := ParseInt(valueIndex);
      if parameterIndex.None? {
        return Failure(InvalidParameterIndex(index, experimentName));
      }
      if parameterValueIndex.None? {
        return Failure(InvalidValueIndex(valueIndex, experimentName));
      }
      var experimentFromDefinedExperiments := Get(schema, experimentName);
      if experimentFromDefinedExperiments.None? {
        return Failure(ExperimentNotDefined(experimentName));
      }
      var definition := experimentFromDefinedExperiments.value;
      var pi, vi := parameterIndex.value, parameterValueIndex.value;
      if !(0 <= pi < |definition|) {
        continue;
      }
      var (parameterName, candidates) := definition[pi];
      if !(0 <= vi < |candidates|) {
        return Failure(UnknownValueIndex(vi, pi, experimentName));
      }
      decodedExperiment := Put(decodedExperiment, parameterName, candidates[vi]);
    }
    r := Success(decodedExperiment);
  }

  /** The body of the outer loop of `decodeExperiments`: one `e`-separated segment. */
  method DecodeSegment(schema: Schema, experiment: string) returns (r: Result<(string, CodableExperiment), DecodeError>)
    ensures r == DecodedSegment(schema, experiment)
  {
    var parameters := Split(experiment, PARAMETER_DELINEATOR);
    if |parameters| < 2 {
      return Failure(InvalidExperimentEncoding);
    }
    var experimentIndex := ParseInt(parameters[0]);
    if experimentIndex.None? {
      return Failure(ExperimentIndexNaN);
    }
    var experimentNames := ExperimentNames(schema);
    var k := experimentIndex.value;
    if !(0 <= k < |experimentNames|) || experimentNames[k] == "" {
      return Failure(InvalidExperimentIndex(k));
    }
    var experimentName := experimentNames[k];
    parameters := parameters[1..];
    var decodedParameters := DecodeParameters(schema, experimentName, parameters);
    if decodedParameters.Failure? {
      return Failure(decodedParameters.error);
    }
    return Success((experimentName, decodedParameters.value));
  }

  method DecodeExperiments(schema: Schema, variation: QueryValue) returns (r: Result<CodableExperiments, DecodeError>)
    ensures r == Decoding(schema, variation)
  {
    var encodedString := EncodedString(variation);
    if encodedString.None? || |encodedString.value| == 0 {
      return Failure(EmptyInput);
    }
    var experiments := Split(encodedString.value, EXPERIMENT_DELINEATOR);
    if |experiments| == 0 {
      return Failure(NoExperiments);
    }
    r := DecodeSegments(schema, experiments);
  }

  /** The outer loop of `decodeExperiments`: the segments in order, a later one replacing an earlier one of the same experiment. */
  method DecodeSegments(schema: Schema, experiments: seq<string>) returns (r: Result<CodableExperiments, DecodeError>)
    ensures r == DecodedSegments(schema, experiments, 0, [])
  {
    var decodedExperiments: CodableExperiments := [];
    for n := 0 to |experiments|
      invariant DecodedSegments(schema, experiments, n, decodedExperiments) == DecodedSegments(schema, experiments, 0, [])
    {
      var decoded := DecodeSegment(schema, experiments[n]);
      SegmentsStep(schema, experiments, n, decodedExperiments);
      if decoded.Failure? {
        return Failure(decoded.error);
      }
      var (experimentName, decodedExperiment) := decoded.value;
      decodedExperiments := Put(decodedExperiments, experimentName, decodedExperiment);
    }
    r := Success(decodedExperiments);
  }
}
