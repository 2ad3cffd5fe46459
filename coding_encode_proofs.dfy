/**
 * What `encodeExperiments` promises: when it succeeds, the exact string it
 * produces, and otherwise which error it throws. Each is stated about
 * `Coding.Encoding`, the function `Coding.EncodeExperiments` is proved equal to.
 */
module EncodeProofs {
  import opened Wrappers
  import opened Records
  import opened JsStrings
  import opened Types
  import opened Coding

  /** The pair `(paramName, value)` names a parameter the schema defines for `expName` and one of its candidates. */
  predicate ParamEncodable(schema: Schema, expName: string, p: (string, Value)) {
    match Get(schema, expName)
    case None => false
    case Some(definition) =>
      match Get(definition, p.0)
      case None => false
      case Some(candidates) => p.1 in candidates
  }

  /** The experiment is in the schema, has at least one parameter, and every pair is encodable. */
  predicate SegmentEncodable(schema: Schema, expName: string, exp: CodableExperiment) {
    && expName in ExperimentNames(schema)
    && |exp| >= 1
    && forall i :: 0 <= i < |exp| ==> ParamEncodable(schema, expName, exp[i])
  }

  /** The error thrown for a pair that is not encodable. */
  function ParamError(schema: Schema, expName: string, p: (string, Value)): EncodeError
  {
    match Get(schema, expName)
    case None => ExperimentNotContained(expName)
    case Some(definition) =>
      match Get(definition, p.0)
      case None => UnknownParameter(p.0, expName)
      case Some(_) => UnknownValue(p.1, p.0, expName)
  }

  /** The first position of the value among the parameter's candidates. */
  function ValueIndexOf(schema: Schema, expName: string, p: (string, Value)): nat
    requires ParamEncodable(schema, expName, p)
  {
    IndexOf(Get(Get(schema, expName).value, p.0).value, p.1)
  }

  /** The tokens `"{i}v{valueIndex}"`, where `i` is the pair's position in the assignment. */
  function ExpectedTokens(schema: Schema, expName: string, exp: CodableExperiment): seq<string>
    requires forall i :: 0 <= i < |exp| ==> ParamEncodable(schema, expName, exp[i])
  {
    seq(|exp|, i requires 0 <= i < |exp| => ValueToken(i, ValueIndexOf(schema, expName, exp[i])))
  }

  /** The schema index of the experiment followed by its tokens, joined by `p`. */
  function ExpectedSegment(schema: Schema, expName: string, exp: CodableExperiment): string
    requires SegmentEncodable(schema, expName, exp)
  {
    Join([NatToString(IndexOf(ExperimentNames(schema), expName))] + ExpectedTokens(schema, expName, exp),
         PARAMETER_DELINEATOR)
  }

  lemma {:induction false} ParamTokensOk(schema: Schema, expName: string, exp: CodableExperiment, j: nat, acc: seq<string>)
    requires j <= |exp|
    requires forall i :: 0 <= i < |exp| ==> ParamEncodable(schema, expName, exp[i])
    ensures ParamTokens(schema, expName, exp, j, acc) == Success(acc + ExpectedTokens(schema, expName, exp)[j..])
    decreases |exp| - j
  {
    var expected := ExpectedTokens(schema, expName, exp);
    if j < |exp| {
      var token := ValueToken(j, ValueIndexOf(schema, expName, exp[j]));
      assert ParamEncodable(schema, expName, exp[j]);
      assert ParamTokens(schema, expName, exp, j, acc) == ParamTokens(schema, expName, exp, j + 1, acc + [token]);
      ParamTokensOk(schema, expName, exp, j + 1, acc + [token]);
      assert expected[j..] == [token] + expected[j + 1..];
      assert acc + [token] + expected[j + 1..] == acc + expected[j..];
    } else {
      assert acc + expected[j..] == acc;
    }
  }

  lemma {:induction false} ParamTokensFail(schema: Schema, expName: string, exp: CodableExperiment, j: nat, i: nat, acc: seq<string>)
    requires j <= i < |exp|
    requires forall i' :: j <= i' < i ==> ParamEncodable(schema, expName, exp[i'])
    requires !ParamEncodable(schema, expName, exp[i])
    ensures ParamTokens(schema, expName, exp, j, acc) == Failure(ParamError(schema, expName, exp[i]))
    decreases i - j
  {
    if j < i {
      var p := exp[j];
      var token := ValueToken(j, IndexOf(Get(Get(schema, expName).value, p.0).value, p.1));
      ParamTokensFail(schema, expName, exp, j + 1, i, acc + [token]);
    }
  }

  /** An encodable experiment encodes to its schema index followed by one token per pair, in input order. */
  lemma SegmentOk(schema: Schema, expName: string, exp: CodableExperiment)
    requires SegmentEncodable(schema, expName, exp)
    ensures ExperimentSegment(schema, expName, exp) == Success(ExpectedSegment(schema, expName, exp))
  {
    var expNameIndex := IndexOf(ExperimentNames(schema), expName);
    ParamTokensOk(schema, expName, exp, 0, [NatToString(expNameIndex)]);
    assert ExpectedTokens(schema, expName, exp)[0..] == ExpectedTokens(schema, expName, exp);
  }

  /**
   * The four ways one experiment fails to encode: an unknown experiment,
   * no parameters, and at the first bad pair an unknown parameter or a
   * value outside the candidates.
   */
  lemma SegmentFails(schema: Schema, expName: string, exp: CodableExperiment, i: nat)
    requires i <= |exp|
    requires forall i' :: 0 <= i' < i ==> ParamEncodable(schema, expName, exp[i'])
    requires i < |exp| ==> !ParamEncodable(schema, expName, exp[i])
    requires i == |exp| ==> !SegmentEncodable(schema, expName, exp)
    ensures expName !in ExperimentNames(schema) ==>
              ExperimentSegment(schema, expName, exp) == Failure(UnknownExperiment(expName))
    ensures expName in ExperimentNames(schema) && |exp| == 0 ==>
              ExperimentSegment(schema, expName, exp) == Failure(NoParameters)
    ensures expName in ExperimentNames(schema) && i < |exp| ==>
              var p := exp[i];
              var definition := Get(schema, expName).value;
              && ExperimentSegment(schema, expName, exp) == Failure(ParamError(schema, expName, p))
              && (Get(definition, p.0).None? ==> ParamError(schema, expName, p) == UnknownParameter(p.0, expName))
              && (Get(definition, p.0).Some? ==>
                    p.1 !in Get(definition, p.0).value && ParamError(schema, expName, p) == UnknownValue(p.1, p.0, expName))
    ensures ExperimentSegment(schema, expName, exp).Failure?
  {
    if expName in ExperimentNames(schema) && |exp| >= 1 {
      var expNameIndex := IndexOf(ExperimentNames(schema), expName);
      ParamTokensFail(schema, expName, exp, 0, i, [NatToString(expNameIndex)]);
    }
  }

  /** The segments of all experiments, in input order. */
  function ExpectedSegments(schema: Schema, a: CodableExperiments): seq<string>
    requires forall k :: 0 <= k < |a| ==> SegmentEncodable(schema, a[k].0, a[k].1)
  {
    seq(|a|, k requires 0 <= k < |a| => ExpectedSegment(schema, a[k].0, a[k].1))
  }

  lemma SliceStep<T>(s: seq<T>, n: nat, acc: seq<T>)
    requires n < |s|
    ensures acc + [s[n]] + s[n + 1..] == acc + s[n..]
  {
    assert s[n..] == [s[n]] + s[n + 1..];
  }

  lemma {:induction false} SegmentsOk(schema: Schema, a: CodableExperiments, n: nat, acc: seq<string>)
    requires n <= |a|
    requires forall k :: 0 <= k < |a| ==> SegmentEncodable(schema, a[k].0, a[k].1)
    ensures Segments(schema, a, n, acc) == Success(acc + ExpectedSegments(schema, a)[n..])
    decreases |a| - n
  {
    var expected := ExpectedSegments(schema, a);
    if n < |a| {
      var segment := ExpectedSegment(schema, a[n].0, a[n].1);
      SegmentOk(schema, a[n].0, a[n].1);
      assert Segments(schema, a, n, acc) == Segments(schema, a, n + 1, acc + [segment]);
      SegmentsOk(schema, a, n + 1, acc + [segment]);
      assert expected[n] == segment;
      SliceStep(expected, n, acc);
    } else {
      assert acc + expected[n..] == acc;
    }
  }

  lemma {:induction false} SegmentsFail(schema: Schema, a: CodableExperiments, n: nat, k: nat, acc: seq<string>)
    requires n <= k < |a|
    requires forall j :: n <= j < k ==> SegmentEncodable(schema, a[j].0, a[j].1)
    requires ExperimentSegment(schema, a[k].0, a[k].1).Failure?
    ensures Segments(schema, a, n, acc) == Failure(ExperimentSegment(schema, a[k].0, a[k].1).error)
    decreases k - n
  {
    if n < k {
      var segment := ExpectedSegment(schema, a[n].0, a[n].1);
      SegmentOk(schema, a[n].0, a[n].1);
      assert Segments(schema, a, n, acc) == Segments(schema, a, n + 1, acc + [segment]);
      SegmentsFail(schema, a, n + 1, k, acc + [segment]);
    } else {
      var failed := ExperimentSegment(schema, a[n].0, a[n].1);
      assert Segments(schema, a, n, acc) == Failure(failed.error);
    }
  }

  /**
   * Output shape: when every experiment is encodable, the result is the
   * experiments' segments, in input order, joined by `e`.
   */
  lemma EncodingOk(schema: Schema, a: CodableExperiments)
    requires forall k :: 0 <= k < |a| ==> SegmentEncodable(schema, a[k].0, a[k].1)
    ensures Encoding(schema, a) == Success(Join(ExpectedSegments(schema, a), EXPERIMENT_DELINEATOR))
  {
    SegmentsOk(schema, a, 0, []);
    assert [] + ExpectedSegments(schema, a)[0..] == ExpectedSegments(schema, a);
  }

  /** An assignment whose segments are known encodes to their join. */
  lemma EncodingOfSegments(schema: Schema, a: CodableExperiments, segments: seq<string>)
    requires |a| == |segments|
    requires forall k :: 0 <= k < |a| ==> SegmentEncodable(schema, a[k].0, a[k].1)
    requires forall k :: 0 <= k < |a| ==> ExpectedSegment(schema, a[k].0, a[k].1) == segments[k]
    ensures Encoding(schema, a) == Success(Join(segments, EXPERIMENT_DELINEATOR))
  {
    EncodingOk(schema, a);
    assert ExpectedSegments(schema, a) == segments;
  }

  /** The error thrown is that of the first experiment that does not encode. */
  lemma EncodingFails(schema: Schema, a: CodableExperiments, k: nat)
    requires k < |a|
    requires forall j :: 0 <= j < k ==> SegmentEncodable(schema, a[j].0, a[j].1)
    requires !SegmentEncodable(schema, a[k].0, a[k].1)
    ensures ExperimentSegment(schema, a[k].0, a[k].1).Failure?
    ensures Encoding(schema, a) == Failure(ExperimentSegment(schema, a[k].0, a[k].1).error)
  {
    var exp := a[k].1;
    var i := FirstUnencodable(schema, a[k].0, exp, 0);
    SegmentFails(schema, a[k].0, exp, i);
    SegmentsFail(schema, a, 0, k, []);
  }

  /** The position of the first pair from `j` on that is not encodable, or `|exp|` if there is none. */
  function FirstUnencodable(schema: Schema, expName: string, exp: CodableExperiment, j: nat): (i: nat)
    requires j <= |exp|
    requires forall i' :: 0 <= i' < j ==> ParamEncodable(schema, expName, exp[i'])
    ensures j <= i <= |exp|
    ensures forall i' :: 0 <= i' < i ==> ParamEncodable(schema, expName, exp[i'])
    ensures i < |exp| ==> !ParamEncodable(schema, expName, exp[i])
    decreases |exp| - j
  {
    if j == |exp| || !ParamEncodable(schema, expName, exp[j]) then j
    else FirstUnencodable(schema, expName, exp, j + 1)
  }

  /** `encodeExperiments` succeeds exactly when every experiment of the input is encodable. */
  lemma EncodingSucceedsIff(schema: Schema, a: CodableExperiments)
    ensures Encoding(schema, a).Success? <==> forall k :: 0 <= k < |a| ==> SegmentEncodable(schema, a[k].0, a[k].1)
  {
    if forall k :: 0 <= k < |a| ==> SegmentEncodable(schema, a[k].0, a[k].1) {
      EncodingOk(schema, a);
    } else {
      var k := FirstFailing(schema, a, 0);
      EncodingFails(schema, a, k);
    }
  }

  /** The position of the first experiment from `n` on that is not encodable. */
  function FirstFailing(schema: Schema, a: CodableExperiments, n: nat): (k: nat)
    requires n <= |a|
    requires forall j :: 0 <= j < n ==> SegmentEncodable(schema, a[j].0, a[j].1)
    requires exists j :: 0 <= j < |a| && !SegmentEncodable(schema, a[j].0, a[j].1)
    ensures n <= k < |a|
    ensures forall j :: 0 <= j < k ==> SegmentEncodable(schema, a[j].0, a[j].1)
    ensures !SegmentEncodable(schema, a[k].0, a[k].1)
    decreases |a| - n
  {
    if !SegmentEncodable(schema, a[n].0, a[n].1) then n else FirstFailing(schema, a, n + 1)
  }

  /** The throw at lib/coding.ts:61-64 is dead: no input makes `encodeExperiments` raise it. */
  lemma EncodingNeverNotContained(schema: Schema, a: CodableExperiments)
    ensures Encoding(schema, a).Failure? ==> !Encoding(schema, a).error.ExperimentNotContained?
  {
    EncodingSucceedsIff(schema, a);
    if Encoding(schema, a).Failure? {
      var k := FirstFailing(schema, a, 0);
      EncodingFails(schema, a, k);
      var i := FirstUnencodable(schema, a[k].0, a[k].1, 0);
      SegmentFails(schema, a[k].0, a[k].1, i);
    }
  }
}
