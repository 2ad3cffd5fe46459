/** Concrete inputs under the storefront schema of lib/experiments.ts. */
module CodingExamples {
  import opened Wrappers
  import opened Records
  import opened JsStrings
  import opened Types
  import opened Coding
  import opened EncodeProofs
  import opened DecodeProofs
  import opened Experiments

  /** The assignment of bench.ts: the second candidate of every parameter. */
  const BenchAssignment: CodableExperiments :=
    [("button_text", [("button_text", Str("Add to cart"))]),
     ("image", [("image_url", Str("verceltshirtgroup"))]),
     ("headline", [("headline", Str("100% cotton premium Vercel-branded t-shirt"))])]

  lemma BenchPair(k: nat)
    requires k < 3
    ensures SegmentEncodable(EXPERIMENTS, BenchAssignment[k].0, BenchAssignment[k].1)
    ensures IndexOf(ExperimentNames(EXPERIMENTS), BenchAssignment[k].0) == k
    ensures ValueIndexOf(EXPERIMENTS, BenchAssignment[k].0, BenchAssignment[k].1[0]) == 1
  {
    var schema := EXPERIMENTS;
    assert ExperimentNames(schema) == ["button_text", "image", "headline"];
    assert BenchAssignment[k] == (schema[k].0, [(schema[k].1[0].0, schema[k].1[0].1[1])]);
    SecondCandidate(schema, k, BenchAssignment[k].0, BenchAssignment[k].1);
  }

  /** The pair choosing the second of two distinct candidates of a one-parameter experiment. */
  lemma SecondCandidate(schema: Schema, k: nat, name: string, exp: CodableExperiment)
    requires Distinct(ExperimentNames(schema)) && k < |schema|
    requires |schema[k].1| == 1 && |schema[k].1[0].1| == 2 && schema[k].1[0].1[0] != schema[k].1[0].1[1]
    requires name == schema[k].0 && exp == [(schema[k].1[0].0, schema[k].1[0].1[1])]
    ensures SegmentEncodable(schema, name, exp)
    ensures IndexOf(ExperimentNames(schema), name) == k
    ensures ValueIndexOf(schema, name, exp[0]) == 1
  {
    var definition := schema[k].1;
    IndexOfDistinct(ExperimentNames(schema), k);
    assert Get(schema, name) == Some(definition);
    IndexOfDistinct(Keys(definition), 0);
    assert Get(definition, exp[0].0) == Some(definition[0].1);
    assert ParamEncodable(schema, name, exp[0]);
  }

  /** The segment of an experiment with a single pair. */
  lemma SinglePairSegment(schema: Schema, name: string, exp: CodableExperiment)
    requires SegmentEncodable(schema, name, exp) && |exp| == 1
    ensures ExpectedSegment(schema, name, exp)
         == NatToString(IndexOf(ExperimentNames(schema), name)) + [PARAMETER_DELINEATOR]
            + ValueToken(0, ValueIndexOf(schema, name, exp[0]))
  {
    var token := ValueToken(0, ValueIndexOf(schema, name, exp[0]));
    var parts := [NatToString(IndexOf(ExperimentNames(schema), name))] + ExpectedTokens(schema, name, exp);
    assert ExpectedTokens(schema, name, exp) == [token];
    assert parts[1..] == [token];
    assert Join(parts, PARAMETER_DELINEATOR) == parts[0] + [PARAMETER_DELINEATOR] + Join([token], PARAMETER_DELINEATOR);
  }

  lemma BenchSegment(k: nat)
    requires k < 3
    ensures SegmentEncodable(EXPERIMENTS, BenchAssignment[k].0, BenchAssignment[k].1)
    ensures ExpectedSegment(EXPERIMENTS, BenchAssignment[k].0, BenchAssignment[k].1) == ["0p0v1", "1p0v1", "2p0v1"][k]
  {
    BenchPair(k);
    SinglePairSegment(EXPERIMENTS, BenchAssignment[k].0, BenchAssignment[k].1);
    SecondCandidateString(k);
  }

  lemma SecondCandidateString(k: nat)
    requires k < 3
    ensures NatToString(k) + [PARAMETER_DELINEATOR] + ValueToken(0, 1) == ["0p0v1", "1p0v1", "2p0v1"][k]
  {
    assert ValueToken(0, 1) == "0v1";
  }

  /** bench.ts encodes its assignment to `0p0v1e1p0v1e2p0v1`. */
  lemma BenchEncoding(a: CodableExperiments)
    requires a == BenchAssignment
    ensures Encoding(EXPERIMENTS, a) == Success("0p0v1e1p0v1e2p0v1")
  {
    BenchSegment(0);
    BenchSegment(1);
    BenchSegment(2);
    EncodingOfSegments(EXPERIMENTS, a, ["0p0v1", "1p0v1", "2p0v1"]);
    JoinThree("0p0v1", "1p0v1", "2p0v1", EXPERIMENT_DELINEATOR);
    BenchString("0p0v1", "1p0v1", "2p0v1");
  }

  lemma BenchString(x: string, y: string, z: string)
    requires x == "0p0v1" && y == "1p0v1" && z == "2p0v1"
    ensures x + "e" + y + "e" + z == "0p0v1e1p0v1e2p0v1"
  {
  }

  lemma JoinThree(x: string, y: string, z: string, d: char)
    ensures Join([x, y, z], d) == x + [d] + y + [d] + z
  {
    assert [x, y, z][1..] == [y, z];
    assert [y, z][1..] == [z];
    assert Join([y, z], d) == y + [d] + Join([z], d);
    assert Join([x, y, z], d) == x + [d] + Join([y, z], d);
  }

  /** A string with no `e` is one segment, decoded into a one-entry assignment. */
  lemma OneSegment(schema: Schema, s: string)
    requires |s| > 0 && EXPERIMENT_DELINEATOR !in s
    ensures DecodedSegment(schema, s).Failure? ==> Decoding(schema, Single(s)) == Failure(DecodedSegment(schema, s).error)
    ensures DecodedSegment(schema, s).Success? ==> Decoding(schema, Single(s)) == Success([DecodedSegment(schema, s).value])
  {
    SplitNoSeparator(s, EXPERIMENT_DELINEATOR);
    var segments: seq<string> := [];
    DecodedSegmentsAppend(schema, segments, s, 0, []);
    assert segments + [s] == Split(s, EXPERIMENT_DELINEATOR);
    var empty: CodableExperiments := [];
    assert DecodedSegments(schema, segments, 0, empty) == Success(empty);
    var decoded := DecodedSegment(schema, s);
    if decoded.Success? {
      var d := decoded.value;
      PutNew(empty, d.0, d.1);
      assert empty + [(d.0, d.1)] == [d];
    }
  }

  /** A segment with one token applies that token to the empty experiment. */
  lemma OneTokenParameters(schema: Schema, name: string, t: string)
    ensures DecodedParameters(schema, name, [t], 0, []) == DecodedParameter(schema, name, t, [])
  {
    DecodedParametersAppend(schema, name, [], t, 0, []);
    assert [] + [t] == [t];
  }

  /** The segment `"{k}p{i}v{x}"`: experiment `k`, one token. */
  lemma OneTokenSegment(schema: Schema, k: nat, i: nat, x: nat)
    ensures var parameters := Split(NatToString(k) + [PARAMETER_DELINEATOR] + ValueToken(i, x), PARAMETER_DELINEATOR);
            parameters == [NatToString(k), ValueToken(i, x)] && ParseInt(parameters[0]) == Some(k)
  {
    var index := NatToString(k);
    var token := ValueToken(i, x);
    NoParameterDelineator(k, i, x);
    SplitAppend(index, token, PARAMETER_DELINEATOR);
    SplitNoSeparator(index, PARAMETER_DELINEATOR);
    SplitNoSeparator(token, PARAMETER_DELINEATOR);
    assert [index] + [token] == [index, token];
    ParseIntNatToString(k);
  }

  /** Decoding the one-segment, one-token string `"{k}p{i}v{x}"`. */
  lemma DecodeOneToken(schema: Schema, k: nat, i: nat, x: nat)
    ensures var s := NatToString(k) + [PARAMETER_DELINEATOR] + ValueToken(i, x);
            var names := ExperimentNames(schema);
            (Decoding(schema, Single(s))
             == if k >= |names| || names[k] == "" then Failure(InvalidExperimentIndex(k))
                else match DecodedParameter(schema, names[k], ValueToken(i, x), [])
                     case Failure(e) => Failure(e)
                     case Success(exp) => Success([(names[k], exp)]))
  {
    var s := NatToString(k) + [PARAMETER_DELINEATOR] + ValueToken(i, x);
    OneTokenChars(k, i, x);
    OneSegment(schema, s);
    OneTokenSegment(schema, k, i, x);
    var parameters := Split(s, PARAMETER_DELINEATOR);
    assert parameters[1..] == [ValueToken(i, x)];
    var names := ExperimentNames(schema);
    if k < |names| && names[k] != "" {
      OneTokenParameters(schema, names[k], ValueToken(i, x));
    }
  }

  lemma OneTokenChars(k: nat, i: nat, x: nat)
    ensures EXPERIMENT_DELINEATOR !in NatToString(k) + [PARAMETER_DELINEATOR] + ValueToken(i, x)
  {
    var s := NatToString(k) + [PARAMETER_DELINEATOR] + ValueToken(i, x);
    NatToStringChars(k);
    NatToStringChars(i);
    NatToStringChars(x);
    assert CharsIn(s, Digits + {PARAMETER_DELINEATOR, PARAMETER_VALUE_DELINEATOR});
  }

  /** Encoding a one-experiment, one-pair assignment. */
  lemma EncodeOnePair(schema: Schema, a: CodableExperiments)
    requires |a| == 1 && |a[0].1| == 1 && SegmentEncodable(schema, a[0].0, a[0].1)
    ensures Encoding(schema, a)
         == Success(NatToString(IndexOf(ExperimentNames(schema), a[0].0)) + [PARAMETER_DELINEATOR]
                    + ValueToken(0, ValueIndexOf(schema, a[0].0, a[0].1[0])))
  {
    SinglePairSegment(schema, a[0].0, a[0].1);
    EncodingOk(schema, a);
    assert ExpectedSegments(schema, a) == [ExpectedSegment(schema, a[0].0, a[0].1)];
  }

  lemma ZeroTokenString()
    ensures NatToString(0) + [PARAMETER_DELINEATOR] + ValueToken(0, 0) == "0p0v0"
  {
  }

  /** An experiment index past the schema is rejected: `9p0v0` has no experiment 9. */
  lemma ExperimentIndexTooLarge(s: string)
    requires s == "9p0v0"
    ensures Decoding(EXPERIMENTS, Single(s)) == Failure(InvalidExperimentIndex(9))
  {
    assert s == NatToString(9) + [PARAMETER_DELINEATOR] + ValueToken(0, 0);
    DecodeOneToken(EXPERIMENTS, 9, 0, 0);
    assert |ExperimentNames(EXPERIMENTS)| == 3;
  }

  /**
   * `0p7v0` names parameter 7 of `button_text`, which declares one: the
   * token is skipped and the experiment decodes to `{}`, which in turn does
   * not encode.
   */
  lemma ParameterIndexSkipped(s: string)
    requires s == "0p7v0"
    ensures Decoding(EXPERIMENTS, Single(s)) == Success([("button_text", [])])
    ensures Encoding(EXPERIMENTS, Decoding(EXPERIMENTS, Single(s)).value) == Failure(NoParameters)
  {
    assert s == NatToString(0) + [PARAMETER_DELINEATOR] + ValueToken(7, 0);
    DecodeOneToken(EXPERIMENTS, 0, 7, 0);
    assert ExperimentNames(EXPERIMENTS)[0] == "button_text";
    assert Get(EXPERIMENTS, "button_text") == Some(EXPERIMENTS[0].1);
    ValueTokenDecoded(EXPERIMENTS, "button_text", 7, 0, []);
    var a: CodableExperiments := [("button_text", [])];
    assert ExperimentSegment(EXPERIMENTS, a[0].0, a[0].1) == Failure(NoParameters);
    assert Encoding(EXPERIMENTS, a) == Failure(NoParameters);
  }

  /** A schema whose one experiment declares two parameters. */
  const TwoParameters: Schema := [("x", [("p", [Num(1), Num(2)]), ("q", [Num(3)])])]

  /**
   * The encoder writes a pair's position in the assignment, not in the
   * declaration: `{x: {q: 3}}` encodes as `0p0v0`, which decodes to
   * `{x: {p: 1}}`.
   */
  lemma ParameterOrderHazard(a: CodableExperiments)
    requires a == [("x", [("q", Num(3))])]
    ensures Encoding(TwoParameters, a) == Success("0p0v0")
    ensures Decoding(TwoParameters, Single(Encoding(TwoParameters, a).value)) == Success([("x", [("p", Num(1))])])
  {
    assert ExperimentNames(TwoParameters) == ["x"];
    var definition := TwoParameters[0].1;
    assert Get(TwoParameters, "x") == Some(definition);
    assert Get(definition, "q") == Some([Num(3)]);
    assert ValueIndexOf(TwoParameters, "x", a[0].1[0]) == 0;
    EncodeOnePair(TwoParameters, a);
    ZeroTokenString();
    FirstTokenDecoded(TwoParameters, Encoding(TwoParameters, a).value);
  }

  lemma FirstTokenDecoded(schema: Schema, s: string)
    requires schema == TwoParameters && s == "0p0v0"
    ensures Decoding(schema, Single(s)) == Success([("x", [("p", Num(1))])])
  {
    ZeroTokenString();
    DecodeOneToken(schema, 0, 0, 0);
    assert ExperimentNames(schema)[0] == "x";
    assert Get(schema, "x") == Some(schema[0].1);
    ValueTokenDecoded(schema, "x", 0, 0, []);
    var t := ValueToken(0, 0);
    var definition := Get(schema, "x").value;
    assert definition == schema[0].1;
    assert |definition| == 2 && |definition[0].1| == 2;
    var empty: CodableExperiment := [];
    PutNew(empty, definition[0].0, definition[0].1[0]);
    assert DecodedParameter(schema, "x", t, empty) == Success(empty + [(definition[0].0, definition[0].1[0])]);
    assert definition[0].0 == "p";
    assert definition[0].1[0] == Num(1);
    assert empty + [(definition[0].0, definition[0].1[0])] == [("p", Num(1))];
    assert DecodedParameter(schema, "x", t, []) == Success([("p", Num(1))]);
    assert Decoding(schema, Single(NatToString(0) + [PARAMETER_DELINEATOR] + t)) == Success([("x", [("p", Num(1))])]);
  }

  /** A schema whose one experiment is named "". */
  const UnnamedExperiment: Schema := [("", [("p", [Num(1)])])]

  /**
   * An experiment named "" encodes, but the decoder treats the falsy name
   * as a missing experiment: `{"": {p: 1}}` does not survive the trip.
   */
  lemma EmptyNameRejected(a: CodableExperiments)
    requires a == [("", [("p", Num(1))])]
    ensures Encoding(UnnamedExperiment, a) == Success("0p0v0")
    ensures Decoding(UnnamedExperiment, Single(Encoding(UnnamedExperiment, a).value)) == Failure(InvalidExperimentIndex(0))
  {
    assert ExperimentNames(UnnamedExperiment) == [""];
    var definition := UnnamedExperiment[0].1;
    assert Get(UnnamedExperiment, "") == Some(definition);
    assert Get(definition, "p") == Some([Num(1)]);
    assert ValueIndexOf(UnnamedExperiment, "", a[0].1[0]) == 0;
    EncodeOnePair(UnnamedExperiment, a);
    ZeroTokenString();
    DecodeOneToken(UnnamedExperiment, 0, 0, 0);
  }
}
