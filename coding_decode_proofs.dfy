/**
 * What `decodeExperiments` promises, stated about `Coding.Decoding`, the
 * function `Coding.DecodeExperiments` is proved equal to.
 */
module DecodeProofs {
  import opened Wrappers
  import opened Records
  import opened JsStrings
  import opened Types
  import opened Coding

  lemma {:induction false} ParametersNeverNotDefined(schema: Schema, name: string, ps: seq<string>, j: nat, acc: CodableExperiment)
    requires name in Keys(schema)
    ensures DecodedParameters(schema, name, ps, j, acc).Failure? ==> !DecodedParameters(schema, name, ps, j, acc).error.ExperimentNotDefined?
    ensures DecodedParameters(schema, name, ps, j, acc).Failure? ==> !DecodedParameters(schema, name, ps, j, acc).error.NoExperiments?
    decreases |ps| - j
  {
    if j < |ps| {
      var next := DecodedParameter(schema, name, ps[j], acc);
      ParameterNeverNotDefined(schema, name, ps[j], acc);
      if next.Success? {
        ParametersNeverNotDefined(schema, name, ps, j + 1, next.value);
      }
    }
  }

  lemma ParameterNeverNotDefined(schema: Schema, name: string, t: string, acc: CodableExperiment)
    requires name in Keys(schema)
    ensures DecodedParameter(schema, name, t, acc).Failure? ==> !DecodedParameter(schema, name, t, acc).error.ExperimentNotDefined?
    ensures DecodedParameter(schema, name, t, acc).Failure? ==> !DecodedParameter(schema, name, t, acc).error.NoExperiments?
  {
  }

  lemma {:induction false} SegmentsNeverNotDefined(schema: Schema, segs: seq<string>, n: nat, acc: CodableExperiments)
    ensures DecodedSegments(schema, segs, n, acc).Failure? ==> !DecodedSegments(schema, segs, n, acc).error.ExperimentNotDefined?
    ensures DecodedSegments(schema, segs, n, acc).Failure? ==> !DecodedSegments(schema, segs, n, acc).error.NoExperiments?
    decreases |segs| - n
  {
    if n < |segs| {
      var parameters := Split(segs[n], PARAMETER_DELINEATOR);
      if |parameters| >= 2 && ParseInt(parameters[0]).Some? {
        var k := ParseInt(parameters[0]).value;
        var names := ExperimentNames(schema);
        if 0 <= k < |names| && names[k] != "" {
          ParametersNeverNotDefined(schema, names[k], parameters[1..], 0, []);
        }
      }
      var decoded := DecodedSegment(schema, segs[n]);
      if decoded.Success? {
        SegmentsNeverNotDefined(schema, segs, n + 1, Put(acc, decoded.value.0, decoded.value.1));
      }
    }
  }

  /** The throws at lib/coding.ts:99 and lib/coding.ts:150-154 are dead: no input makes `decodeExperiments` raise them. */
  lemma DecodingNeverUnreachableErrors(schema: Schema, variation: QueryValue)
    ensures Decoding(schema, variation).Failure? ==> !Decoding(schema, variation).error.NoExperiments?
    ensures Decoding(schema, variation).Failure? ==> !Decoding(schema, variation).error.ExperimentNotDefined?
  {
    var encodedString := EncodedString(variation);
    if encodedString.Some? && |encodedString.value| > 0 {
      var experiments := Split(encodedString.value, EXPERIMENT_DELINEATOR);
      assert Decoding(schema, variation) == DecodedSegments(schema, experiments, 0, []);
      SegmentsNeverNotDefined(schema, experiments, 0, []);
    }
  }

  /** A missing string, an empty array and the empty string are all rejected before any splitting. */
  lemma EmptyInputRejected(schema: Schema, variation: QueryValue)
    ensures EncodedString(variation).None? ==> Decoding(schema, variation) == Failure(EmptyInput)
    ensures variation == Single("") || variation == Many([]) ==> Decoding(schema, variation) == Failure(EmptyInput)
    ensures variation.Many? && |variation.items| >= 1 ==> Decoding(schema, variation) == Decoding(schema, Single(variation.items[0]))
  {
  }

  /** A numeral has no `p` and no `v`, and `parseInt` reads it back. */
  lemma NumeralText(k: nat)
    ensures PARAMETER_DELINEATOR !in NatToString(k) && PARAMETER_VALUE_DELINEATOR !in NatToString(k)
    ensures ParseInt(NatToString(k)) == Some(k)
  {
    var numeral := NatToString(k);
    assert forall i :: 0 <= i < |numeral| ==> IsDigit(numeral[i]);
    ParseIntNatToString(k);
  }

  /** The `p`-pieces of `"{index}p{rest}"`, when `index` has no `p`. */
  lemma SegmentPieces(index: string, rest: string)
    requires PARAMETER_DELINEATOR !in index
    ensures var pieces := Split(index + [PARAMETER_DELINEATOR] + rest, PARAMETER_DELINEATOR);
            |pieces| >= 2 && pieces[0] == index && pieces[1..] == Split(rest, PARAMETER_DELINEATOR)
  {
    SplitNoSeparator(index, PARAMETER_DELINEATOR);
    SplitAppend(index, rest, PARAMETER_DELINEATOR);
    assert ([index] + Split(rest, PARAMETER_DELINEATOR))[1..] == Split(rest, PARAMETER_DELINEATOR);
  }

  lemma SegmentWithoutParameters(schema: Schema, seg: string)
    requires PARAMETER_DELINEATOR !in seg
    ensures DecodedSegment(schema, seg) == Failure(InvalidExperimentEncoding)
  {
    SplitNoSeparator(seg, PARAMETER_DELINEATOR);
  }

  lemma SegmentIndexNaN(schema: Schema, index: string, rest: string)
    requires PARAMETER_DELINEATOR !in index && NotNumeric(index)
    ensures DecodedSegment(schema, index + [PARAMETER_DELINEATOR] + rest) == Failure(ExperimentIndexNaN)
  {
    SegmentPieces(index, rest);
    ParseIntNaN(index);
  }

  lemma SegmentIndexDecoded(schema: Schema, k: nat, rest: string)
    ensures var names := ExperimentNames(schema);
            var seg := NatToString(k) + [PARAMETER_DELINEATOR] + rest;
            if k >= |names| || names[k] == "" then DecodedSegment(schema, seg) == Failure(InvalidExperimentIndex(k))
            else
              var decoded := DecodedParameters(schema, names[k], Split(rest, PARAMETER_DELINEATOR), 0, []);
              DecodedSegment(schema, seg) == if decoded.Failure? then Failure(decoded.error) else Success((names[k], decoded.value))
  {
    NumeralText(k);
    SegmentPieces(NatToString(k), rest);
  }

  /** A negative experiment index `"-{m}"` names no experiment: `experimentNames[-m]` is undefined. */
  lemma SegmentNegativeIndex(schema: Schema, m: nat, rest: string)
    requires m >= 1
    ensures DecodedSegment(schema, "-" + NatToString(m) + [PARAMETER_DELINEATOR] + rest) == Failure(InvalidExperimentIndex(-(m as int)))
  {
    NumeralText(m);
    ParseIntNegative(m);
    SegmentPieces("-" + NatToString(m), rest);
  }

  /**
   * The throws of one `e`-separated segment, read off its text, in the
   * order the source checks them: a segment without `p`, an experiment
   * index `parseInt` cannot read, and an index that names no experiment
   * (negative, too large, or naming an experiment whose name is empty,
   * hence falsy).
   * A segment `"{k}p{rest}"` with a valid `k` is decoded by the `p`-pieces
   * of `rest`, in order.
   */
  lemma SegmentErrors(schema: Schema, seg: string, index: string, rest: string, k: nat)
    ensures PARAMETER_DELINEATOR !in seg ==> DecodedSegment(schema, seg) == Failure(InvalidExperimentEncoding)
    ensures PARAMETER_DELINEATOR !in index && NotNumeric(index) ==>
              DecodedSegment(schema, index + [PARAMETER_DELINEATOR] + rest) == Failure(ExperimentIndexNaN)
    ensures var names := ExperimentNames(schema);
            k >= |names| || names[k] == "" ==>
              DecodedSegment(schema, NatToString(k) + [PARAMETER_DELINEATOR] + rest) == Failure(InvalidExperimentIndex(k))
    ensures k >= 1 ==>
              DecodedSegment(schema, "-" + NatToString(k) + [PARAMETER_DELINEATOR] + rest) == Failure(InvalidExperimentIndex(-(k as int)))
    ensures var names := ExperimentNames(schema);
            k < |names| && names[k] != "" ==>
              var decoded := DecodedParameters(schema, names[k], Split(rest, PARAMETER_DELINEATOR), 0, []);
              DecodedSegment(schema, NatToString(k) + [PARAMETER_DELINEATOR] + rest)
              == if decoded.Failure? then Failure(decoded.error) else Success((names[k], decoded.value))
  {
    if PARAMETER_DELINEATOR !in seg {
      SegmentWithoutParameters(schema, seg);
    }
    if PARAMETER_DELINEATOR !in index && NotNumeric(index) {
      SegmentIndexNaN(schema, index, rest);
    }
    if k >= 1 {
      SegmentNegativeIndex(schema, k, rest);
    }
    SegmentIndexDecoded(schema, k, rest);
  }

  /** The `v`-halves of `"{index}v{valueIndex}"`, when neither part has a `v`. */
  lemma TokenHalves(index: string, valueIndex: string)
    requires PARAMETER_VALUE_DELINEATOR !in index && PARAMETER_VALUE_DELINEATOR !in valueIndex
    ensures Split(index + [PARAMETER_VALUE_DELINEATOR] + valueIndex, PARAMETER_VALUE_DELINEATOR) == [index, valueIndex]
  {
    SplitNoSeparator(index, PARAMETER_VALUE_DELINEATOR);
    SplitNoSeparator(valueIndex, PARAMETER_VALUE_DELINEATOR);
    SplitAppend(index, valueIndex, PARAMETER_VALUE_DELINEATOR);
  }

  lemma TokenWithoutValue(schema: Schema, name: string, index: string, acc: CodableExperiment)
    requires PARAMETER_VALUE_DELINEATOR !in index && index != ""
    ensures DecodedParameter(schema, name, index, acc) == Failure(MissingValueIndex(name))
    ensures DecodedParameter(schema, name, index + [PARAMETER_VALUE_DELINEATOR], acc) == Failure(MissingValueIndex(name))
  {
    SplitNoSeparator(index, PARAMETER_VALUE_DELINEATOR);
    TokenHalves(index, "");
    assert index + [PARAMETER_VALUE_DELINEATOR] + "" == index + [PARAMETER_VALUE_DELINEATOR];
  }

  lemma TokenIndexNaN(schema: Schema, name: string, index: string, valueIndex: string, acc: CodableExperiment)
    requires PARAMETER_VALUE_DELINEATOR !in index && PARAMETER_VALUE_DELINEATOR !in valueIndex
    requires index != "" && valueIndex != "" && NotNumeric(index)
    ensures DecodedParameter(schema, name, index + [PARAMETER_VALUE_DELINEATOR] + valueIndex, acc) == Failure(InvalidParameterIndex(index, name))
  {
    TokenHalves(index, valueIndex);
    ParseIntNaN(index);
  }

  lemma TokenValueIndexNaN(schema: Schema, name: string, i: nat, valueIndex: string, acc: CodableExperiment)
    requires PARAMETER_VALUE_DELINEATOR !in valueIndex && valueIndex != "" && NotNumeric(valueIndex)
    ensures DecodedParameter(schema, name, NatToString(i) + [PARAMETER_VALUE_DELINEATOR] + valueIndex, acc) == Failure(InvalidValueIndex(valueIndex, name))
  {
    NumeralText(i);
    TokenHalves(NatToString(i), valueIndex);
    ParseIntNaN(valueIndex);
  }

  lemma TokenExperimentUndefined(schema: Schema, name: string, i: nat, x: nat, acc: CodableExperiment)
    requires Get(schema, name).None?
    ensures DecodedParameter(schema, name, ValueToken(i, x), acc) == Failure(ExperimentNotDefined(name))
  {
    ValueTokenSplit(i, x);
    ParseIntNatToString(i);
    ParseIntNatToString(x);
  }

  /**
   * The throws of one `p`-separated token `"{index}v{valueIndex}"`, read off
   * its text, in the order the source checks them: an empty index, a
   * missing or empty value index, an index or value index `parseInt`
   * cannot read, and an experiment the schema lacks.
   */
  lemma ParameterErrors(schema: Schema, name: string, index: string, valueIndex: string, i: nat, x: nat, acc: CodableExperiment)
    requires PARAMETER_VALUE_DELINEATOR !in index && PARAMETER_VALUE_DELINEATOR !in valueIndex
    ensures index == "" ==>
              DecodedParameter(schema, name, index + [PARAMETER_VALUE_DELINEATOR] + valueIndex, acc) == Failure(MissingParameterIndex(name))
    ensures index != "" ==>
              DecodedParameter(schema, name, index, acc) == Failure(MissingValueIndex(name))
    ensures index != "" && valueIndex == "" ==>
              DecodedParameter(schema, name, index + [PARAMETER_VALUE_DELINEATOR] + valueIndex, acc) == Failure(MissingValueIndex(name))
    ensures index != "" && valueIndex != "" && NotNumeric(index) ==>
              DecodedParameter(schema, name, index + [PARAMETER_VALUE_DELINEATOR] + valueIndex, acc) == Failure(InvalidParameterIndex(index, name))
    ensures valueIndex != "" && NotNumeric(valueIndex) ==>
              DecodedParameter(schema, name, NatToString(i) + [PARAMETER_VALUE_DELINEATOR] + valueIndex, acc) == Failure(InvalidValueIndex(valueIndex, name))
    ensures Get(schema, name).None? ==>
              DecodedParameter(schema, name, ValueToken(i, x), acc) == Failure(ExperimentNotDefined(name))
  {
    if index == "" {
      TokenHalves(index, valueIndex);
    } else {
      TokenWithoutValue(schema, name, index, acc);
      if valueIndex == "" {
        assert index + [PARAMETER_VALUE_DELINEATOR] + valueIndex == index + [PARAMETER_VALUE_DELINEATOR];
      } else if NotNumeric(index) {
        TokenIndexNaN(schema, name, index, valueIndex, acc);
      }
    }
    if valueIndex != "" && NotNumeric(valueIndex) {
      TokenValueIndexNaN(schema, name, i, valueIndex, acc);
    }
    if Get(schema, name).None? {
      TokenExperimentUndefined(schema, name, i, x, acc);
    }
  }

  /** `definition` declares a parameter named `p.0` whose candidates include `p.1`. */
  predicate ParamFits(definition: Params, p: (string, Value)) {
    exists j :: 0 <= j < |definition| && definition[j].0 == p.0 && p.1 in definition[j].1
  }

  predicate ExperimentFits(definition: Params, exp: CodableExperiment) {
    DistinctKeys(exp) && forall p :: p in exp ==> ParamFits(definition, p)
  }

  /** Keys are nonempty schema experiment names, once each, and every value is a candidate of its parameter. */
  predicate AssignmentFits(schema: Schema, d: CodableExperiments) {
    && DistinctKeys(d)
    && forall e :: e in d ==>
         && e.0 != ""
         && Get(schema, e.0).Some?
         && ExperimentFits(Get(schema, e.0).value, e.1)
  }

  lemma {:induction false} ParametersFit(schema: Schema, name: string, ps: seq<string>, j: nat, acc: CodableExperiment)
    requires Get(schema, name).Some?
    requires ExperimentFits(Get(schema, name).value, acc)
    ensures DecodedParameters(schema, name, ps, j, acc).Success? ==>
              ExperimentFits(Get(schema, name).value, DecodedParameters(schema, name, ps, j, acc).value)
    decreases |ps| - j
  {
    if j < |ps| {
      var next := DecodedParameter(schema, name, ps[j], acc);
      if next.Success? {
        var definition := Get(schema, name).value;
        forall p | p in next.value
          ensures ParamFits(definition, p)
        {
          if p !in acc {
            var halves := Split(ps[j], PARAMETER_VALUE_DELINEATOR);
            var pi := ParseInt(halves[0]).value;
            var vi := ParseInt(halves[1]).value;
            assert p == (definition[pi].0, definition[pi].1[vi]);
          }
        }
        PutDistinct(acc, "", Str(""));
        if next.value != acc {
          var halves := Split(ps[j], PARAMETER_VALUE_DELINEATOR);
          var pi := ParseInt(halves[0]).value;
          var vi := ParseInt(halves[1]).value;
          PutDistinct(acc, definition[pi].0, definition[pi].1[vi]);
        }
        ParametersFit(schema, name, ps, j + 1, next.value);
      }
    }
  }

  lemma {:induction false} SegmentsFit(schema: Schema, segs: seq<string>, n: nat, acc: CodableExperiments)
    requires AssignmentFits(schema, acc)
    ensures DecodedSegments(schema, segs, n, acc).Success? ==> AssignmentFits(schema, DecodedSegments(schema, segs, n, acc).value)
    decreases |segs| - n
  {
    if n < |segs| {
      var decoded := DecodedSegment(schema, segs[n]);
      if decoded.Success? {
        var parameters := Split(segs[n], PARAMETER_DELINEATOR);
        var k := ParseInt(parameters[0]).value;
        var name := ExperimentNames(schema)[k];
        assert name in Keys(schema);
        ParametersFit(schema, name, parameters[1..], 0, []);
        PutDistinct(acc, decoded.value.0, decoded.value.1);
        SegmentsFit(schema, segs, n + 1, Put(acc, decoded.value.0, decoded.value.1));
      }
    }
  }

  /**
   * A decoded assignment names each schema experiment at most once, never
   * an experiment named "", and gives each parameter one of its candidates.
   */
  lemma DecodedFits(schema: Schema, variation: QueryValue)
    ensures Decoding(schema, variation).Success? ==> AssignmentFits(schema, Decoding(schema, variation).value)
  {
    var encodedString := EncodedString(variation);
    if encodedString.Some? && |encodedString.value| > 0 {
      SegmentsFit(schema, Split(encodedString.value, EXPERIMENT_DELINEATOR), 0, []);
    }
  }

  lemma {:induction false} DecodedParametersAppend(schema: Schema, name: string, ps: seq<string>, t: string, j: nat, acc: CodableExperiment)
    requires j <= |ps|
    ensures DecodedParameters(schema, name, ps + [t], j, acc)
         == match DecodedParameters(schema, name, ps, j, acc)
            case Failure(e) => Failure(e)
            case Success(r) => DecodedParameter(schema, name, t, r)
    decreases |ps| - j
  {
    if j < |ps| {
      assert (ps + [t])[j] == ps[j];
      var next := DecodedParameter(schema, name, ps[j], acc);
      if next.Success? {
        DecodedParametersAppend(schema, name, ps, t, j + 1, next.value);
      }
    } else {
      var next := DecodedParameter(schema, name, t, acc);
      assert (ps + [t])[j] == t;
      if next.Success? {
        assert DecodedParameters(schema, name, ps + [t], j + 1, next.value) == next;
      }
    }
  }

  lemma {:induction false} DecodedSegmentsAppend(schema: Schema, segs: seq<string>, t: string, n: nat, acc: CodableExperiments)
    requires n <= |segs|
    ensures DecodedSegments(schema, segs + [t], n, acc)
         == match DecodedSegments(schema, segs, n, acc)
            case Failure(e) => Failure(e)
            case Success(r) =>
              match DecodedSegment(schema, t)
              case Failure(e) => Failure(e)
              case Success(decoded) => Success(Put(r, decoded.0, decoded.1))
    decreases |segs| - n
  {
    if n < |segs| {
      assert (segs + [t])[n] == segs[n];
      var decoded := DecodedSegment(schema, segs[n]);
      if decoded.Success? {
        DecodedSegmentsAppend(schema, segs, t, n + 1, Put(acc, decoded.value.0, decoded.value.1));
      }
    } else {
      assert (segs + [t])[n] == t;
    }
  }

  /** A segment decodes through its `p`-separated pieces: index first, then tokens. */
  predicate DecodesThrough(schema: Schema, seg: string, name: string)
  {
    var parameters := Split(seg, PARAMETER_DELINEATOR);
    var names := ExperimentNames(schema);
    && |parameters| >= 2
    && ParseInt(parameters[0]).Some?
    && 0 <= ParseInt(parameters[0]).value < |names|
    && names[ParseInt(parameters[0]).value] == name
    && name != ""
  }

  lemma SegmentThrough(schema: Schema, seg: string, name: string)
    requires DecodesThrough(schema, seg, name)
    ensures var decoded := DecodedParameters(schema, name, Split(seg, PARAMETER_DELINEATOR)[1..], 0, []);
            DecodedSegment(schema, seg) == if decoded.Failure? then Failure(decoded.error) else Success((name, decoded.value))
  {
  }

  lemma SegmentDecoded(schema: Schema, seg: string, name: string, exp: CodableExperiment)
    requires DecodedSegment(schema, seg) == Success((name, exp))
    ensures DecodesThrough(schema, seg, name)
    ensures DecodedParameters(schema, name, Split(seg, PARAMETER_DELINEATOR)[1..], 0, []) == Success(exp)
  {
  }

  /** Appending one more token to a segment that decodes applies that token to its result. */
  lemma TokenAppended(schema: Schema, seg: string, t: string, name: string, exp: CodableExperiment)
    requires DecodedSegment(schema, seg) == Success((name, exp))
    requires PARAMETER_DELINEATOR !in t
    ensures DecodedSegment(schema, seg + [PARAMETER_DELINEATOR] + t)
         == match DecodedParameter(schema, name, t, exp)
            case Failure(e) => Failure(e)
            case Success(exp') => Success((name, exp'))
  {
    var seg' := seg + [PARAMETER_DELINEATOR] + t;
    var parameters := Split(seg, PARAMETER_DELINEATOR);
    SplitAppend(seg, t, PARAMETER_DELINEATOR);
    SplitNoSeparator(t, PARAMETER_DELINEATOR);
    var parameters' := Split(seg', PARAMETER_DELINEATOR);
    assert parameters' == parameters + [t];
    assert parameters'[0] == parameters[0];
    assert parameters'[1..] == parameters[1..] + [t];
    SegmentDecoded(schema, seg, name, exp);
    SegmentThrough(schema, seg', name);
    DecodedParametersAppend(schema, name, parameters[1..], t, 0, []);
  }

  /**
   * A token whose parameter position lies outside the experiment's
   * declared parameters (negative or too large) is skipped: the segment
   * decodes as if the token were absent.
   */
  lemma OutOfRangeParameterSkipped(schema: Schema, seg: string, t: string, name: string, exp: CodableExperiment)
    requires DecodedSegment(schema, seg) == Success((name, exp))
    requires Get(schema, name).Some?
    requires PARAMETER_DELINEATOR !in t
    requires var halves := Split(t, PARAMETER_VALUE_DELINEATOR);
             && halves[0] != "" && |halves| >= 2 && halves[1] != ""
             && ParseInt(halves[0]).Some? && ParseInt(halves[1]).Some?
             && !(0 <= ParseInt(halves[0]).value < |Get(schema, name).value|)
    ensures DecodedSegment(schema, seg + [PARAMETER_DELINEATOR] + t) == Success((name, exp))
  {
    TokenAppended(schema, seg, t, name, exp);
  }

  /** Split of a token `"{i}v{j}"` gives back the two numerals. */
  lemma ValueTokenSplit(i: nat, x: nat)
    ensures Split(ValueToken(i, x), PARAMETER_VALUE_DELINEATOR) == [NatToString(i), NatToString(x)]
  {
    NatToStringChars(i);
    NatToStringChars(x);
    SplitAppend(NatToString(i), NatToString(x), PARAMETER_VALUE_DELINEATOR);
    SplitNoSeparator(NatToString(i), PARAMETER_VALUE_DELINEATOR);
    SplitNoSeparator(NatToString(x), PARAMETER_VALUE_DELINEATOR);
  }

  /** Neither an index nor a value token holds a `p`. */
  lemma NoParameterDelineator(k: nat, i: nat, x: nat)
    ensures PARAMETER_DELINEATOR !in NatToString(k)
    ensures PARAMETER_DELINEATOR !in ValueToken(i, x)
  {
    NatToStringChars(k);
    NatToStringChars(i);
    NatToStringChars(x);
    assert CharsIn(ValueToken(i, x), Digits + {PARAMETER_VALUE_DELINEATOR});
  }

  /** A token names parameter `i` and candidate `x`; in range, it sets that parameter. */
  lemma ValueTokenDecoded(schema: Schema, name: string, i: nat, x: nat, acc: CodableExperiment)
    requires Get(schema, name).Some?
    ensures var definition := Get(schema, name).value;
            (DecodedParameter(schema, name, ValueToken(i, x), acc)
             == if i >= |definition| then Success(acc)
                else if x >= |definition[i].1| then Failure(UnknownValueIndex(x, i, name))
                else Success(Put(acc, definition[i].0, definition[i].1[x])))
  {
    ValueTokenSplit(i, x);
    ParseIntNatToString(i);
    ParseIntNatToString(x);
  }

  /** A later token for a declared parameter overwrites that parameter's value, keeping its position. */
  lemma LaterTokenOverwrites(schema: Schema, seg: string, name: string, exp: CodableExperiment, i: nat, x: nat)
    requires DecodedSegment(schema, seg) == Success((name, exp))
    requires Get(schema, name).Some?
    requires i < |Get(schema, name).value| && x < |Get(schema, name).value[i].1|
    ensures var definition := Get(schema, name).value;
            (DecodedSegment(schema, seg + [PARAMETER_DELINEATOR] + ValueToken(i, x))
             == Success((name, Put(exp, definition[i].0, definition[i].1[x]))))
  {
    NoParameterDelineator(i, i, x);
    TokenAppended(schema, seg, ValueToken(i, x), name, exp);
    ValueTokenDecoded(schema, name, i, x, exp);
  }

  /**
   * A later segment for an experiment replaces the earlier one: the
   * experiment keeps its first position and takes the later value.
   */
  lemma LaterSegmentReplaces(schema: Schema, s: string, seg: string, d: CodableExperiments, name: string, exp: CodableExperiment)
    requires Decoding(schema, Single(s)) == Success(d)
    requires DecodedSegment(schema, seg) == Success((name, exp))
    requires EXPERIMENT_DELINEATOR !in seg
    ensures Decoding(schema, Single(s + [EXPERIMENT_DELINEATOR] + seg)) == Success(Put(d, name, exp))
  {
    SplitAppend(s, seg, EXPERIMENT_DELINEATOR);
    SplitNoSeparator(seg, EXPERIMENT_DELINEATOR);
    DecodedSegmentsAppend(schema, Split(s, EXPERIMENT_DELINEATOR), seg, 0, []);
  }
}
