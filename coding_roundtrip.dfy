/**
 * The round-trip law of the assignment codec: an assignment that follows
 * the schema's own parameter order decodes back from its encoding.
 */
module RoundTrip {
  import opened Wrappers
  import opened Records
  import opened JsStrings
  import opened Types
  import opened Coding
  import opened EncodeProofs
  import opened DecodeProofs

  /**
   * The experiment sets a leading run of its declared parameters, at least
   * one, in declared order, each to one of its candidates. The encoder
   * writes a pair's position in the assignment, which the decoder reads as
   * a position in the declaration, so only this order survives the trip.
   */
  predicate ConformingExperiment(definition: Params, exp: CodableExperiment) {
    && 1 <= |exp| <= |definition|
    && forall i :: 0 <= i < |exp| ==> exp[i].0 == definition[i].0 && exp[i].1 in definition[i].1
  }

  /** A nonempty assignment of distinct, nonempty schema experiment names, each conforming. */
  predicate Conforms(schema: Schema, a: CodableExperiments) {
    && WellFormed(schema)
    && |a| >= 1
    && DistinctKeys(a)
    && forall k :: 0 <= k < |a| ==>
         && a[k].0 != ""
         && Get(schema, a[k].0).Some?
         && ConformingExperiment(Get(schema, a[k].0).value, a[k].1)
  }

  /** The characters an encoded segment is made of. */
  const SegmentChars: set<char> := Digits + {PARAMETER_DELINEATOR, PARAMETER_VALUE_DELINEATOR}

  lemma DefinitionDistinct(schema: Schema, name: string)
    requires WellFormed(schema) && Get(schema, name).Some?
    ensures DistinctKeys(Get(schema, name).value)
  {
  }

  /** A conforming experiment is encodable, and its value indices are the candidates' positions. */
  lemma ConformingEncodable(schema: Schema, name: string, exp: CodableExperiment)
    requires WellFormed(schema) && Get(schema, name).Some?
    requires ConformingExperiment(Get(schema, name).value, exp)
    ensures SegmentEncodable(schema, name, exp)
    ensures forall i :: 0 <= i < |exp| ==>
              ValueIndexOf(schema, name, exp[i]) == IndexOf(Get(schema, name).value[i].1, exp[i].1)
  {
    var definition := Get(schema, name).value;
    DefinitionDistinct(schema, name);
    forall i | 0 <= i < |exp|
      ensures Get(definition, exp[i].0) == Some(definition[i].1)
    {
      GetAt(definition, i);
    }
  }

  /** A conforming experiment names each parameter once, since the declaration does. */
  lemma ConformingDistinct(schema: Schema, name: string, exp: CodableExperiment)
    requires WellFormed(schema) && Get(schema, name).Some?
    requires ConformingExperiment(Get(schema, name).value, exp)
    ensures DistinctKeys(exp)
  {
    var definition := Get(schema, name).value;
    DefinitionDistinct(schema, name);
    assert Keys(exp) == Keys(definition)[..|exp|];
  }

  lemma SegmentCharsOf(schema: Schema, name: string, exp: CodableExperiment)
    requires SegmentEncodable(schema, name, exp)
    ensures CharsIn(ExpectedSegment(schema, name, exp), SegmentChars)
    ensures |ExpectedSegment(schema, name, exp)| >= 1
  {
    var parts := [NatToString(IndexOf(ExperimentNames(schema), name))] + ExpectedTokens(schema, name, exp);
    forall k | 0 <= k < |parts|
      ensures CharsIn(parts[k], SegmentChars)
    {
    }
    JoinChars(parts, PARAMETER_DELINEATOR, SegmentChars);
    JoinNonEmpty(parts, PARAMETER_DELINEATOR);
  }

  lemma {:induction false} ParametersRoundTrip(schema: Schema, name: string, exp: CodableExperiment, j: nat)
    requires WellFormed(schema) && Get(schema, name).Some?
    requires ConformingExperiment(Get(schema, name).value, exp)
    requires j <= |exp|
    ensures SegmentEncodable(schema, name, exp)
    ensures DecodedParameters(schema, name, ExpectedTokens(schema, name, exp), j, exp[..j]) == Success(exp)
    decreases |exp| - j
  {
    ConformingEncodable(schema, name, exp);
    var tokens := ExpectedTokens(schema, name, exp);
    if j < |exp| {
      var definition := Get(schema, name).value;
      var x := IndexOf(definition[j].1, exp[j].1);
      assert tokens[j] == ValueToken(j, x);
      ValueTokenDecoded(schema, name, j, x, exp[..j]);
      ConformingDistinct(schema, name, exp);
      PutNext(exp, j);
      ParametersRoundTrip(schema, name, exp, j + 1);
    } else {
      assert exp[..j] == exp;
    }
  }

  /** The segment of a conforming experiment decodes to that experiment. */
  lemma SegmentRoundTrip(schema: Schema, name: string, exp: CodableExperiment)
    requires WellFormed(schema) && name != "" && Get(schema, name).Some?
    requires ConformingExperiment(Get(schema, name).value, exp)
    ensures SegmentEncodable(schema, name, exp)
    ensures DecodedSegment(schema, ExpectedSegment(schema, name, exp)) == Success((name, exp))
  {
    ConformingEncodable(schema, name, exp);
    var index := IndexOf(ExperimentNames(schema), name);
    var tokens := ExpectedTokens(schema, name, exp);
    var parts := [NatToString(index)] + tokens;
    forall k | 0 <= k < |parts|
      ensures PARAMETER_DELINEATOR !in parts[k]
    {
      assert CharsIn(parts[k], Digits + {PARAMETER_VALUE_DELINEATOR});
    }
    SplitJoin(parts, PARAMETER_DELINEATOR);
    ParseIntNatToString(index);
    assert parts[1..] == tokens;
    ParametersRoundTrip(schema, name, exp, 0);
    assert exp[..0] == [];
  }

  lemma {:induction false} SegmentsRoundTrip(schema: Schema, a: CodableExperiments, n: nat)
    requires Conforms(schema, a)
    requires n <= |a|
    requires forall k :: 0 <= k < |a| ==> SegmentEncodable(schema, a[k].0, a[k].1)
    ensures DecodedSegments(schema, ExpectedSegments(schema, a), n, a[..n]) == Success(a)
    decreases |a| - n
  {
    if n < |a| {
      SegmentRoundTrip(schema, a[n].0, a[n].1);
      PutNext(a, n);
      SegmentsRoundTrip(schema, a, n + 1);
    } else {
      assert a[..n] == a;
    }
  }

  /**
   * The two assignments the round trip leaves out: `{}` encodes to `""`,
   * which `decodeExperiments` rejects as empty, and an experiment without
   * parameters does not encode at all.
   */
  lemma OutsideRoundTrip(schema: Schema, expName: string)
    ensures Encoding(schema, []) == Success("")
    ensures Decoding(schema, Single(Encoding(schema, []).value)) == Failure(EmptyInput)
    ensures expName in ExperimentNames(schema) ==> Encoding(schema, [(expName, [])]) == Failure(NoParameters)
  {
  }

  /**
   * `decodeExperiments(encodeExperiments(a))` is `a` for every conforming
   * assignment, and encoding the decoded assignment reproduces the string.
   */
  lemma RoundTrip(schema: Schema, a: CodableExperiments)
    requires Conforms(schema, a)
    ensures Encoding(schema, a).Success?
    ensures Decoding(schema, Single(Encoding(schema, a).value)) == Success(a)
    ensures Encoding(schema, Decoding(schema, Single(Encoding(schema, a).value)).value) == Encoding(schema, a)
  {
    forall k | 0 <= k < |a|
      ensures SegmentEncodable(schema, a[k].0, a[k].1)
    {
      ConformingEncodable(schema, a[k].0, a[k].1);
    }
    EncodingOk(schema, a);
    var segments := ExpectedSegments(schema, a);
    var s := Join(segments, EXPERIMENT_DELINEATOR);
    forall k | 0 <= k < |segments|
      ensures EXPERIMENT_DELINEATOR !in segments[k]
    {
      SegmentCharsOf(schema, a[k].0, a[k].1);
      assert CharsIn(segments[k], SegmentChars);
    }
    SplitJoin(segments, EXPERIMENT_DELINEATOR);
    SegmentCharsOf(schema, a[0].0, a[0].1);
    JoinNonEmpty(segments, EXPERIMENT_DELINEATOR);
    SegmentsRoundTrip(schema, a, 0);
    assert a[..0] == [];
  }
}
