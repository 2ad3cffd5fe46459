/**
 * lib/variations.ts: the cartesian-product generator, the enumeration of
 * encoded variations built on it, and the route helpers `getExperimentPaths`
 * and `getExperimentProps`.
 */
module Variations {
  import opened Wrappers
  import opened Records
  import opened Types
  import opened Coding
  import opened Constants

  // ---------------------------------------------------------------------
  // cartesian

  /** `[h, ...r]` for each `h` of `head`, in order: one pass of the inner loop. */
  function Spread<T>(head: seq<T>, r: seq<T>): (out: seq<seq<T>>)
    ensures |out| == |head|
    ensures forall h :: 0 <= h < |head| ==> out[h] == [head[h]] + r
  {
    seq(|head|, h requires 0 <= h < |head| => [head[h]] + r)
  }

  /** The two loops of `cartesian`: for each `r` of `remainder`, for each `h` of `head`. */
  function Prepend<T>(head: seq<T>, remainder: seq<seq<T>>): seq<seq<T>>
    decreases |remainder|
  {
    if |remainder| == 0 then [] else Spread(head, remainder[0]) + Prepend(head, remainder[1..])
  }

  /** What `cartesian(head, ...tail)` yields, in order. */
  function Cartesian<T>(head: seq<T>, tail: seq<seq<T>>): seq<seq<T>>
    decreases |tail|, 1
  {
    Prepend(head, Remainder(tail))
  }

  /** `remainder`: the product of the tail, or the single empty combination when there is none. */
  function Remainder<T>(tail: seq<seq<T>>): seq<seq<T>>
    decreases |tail|, 0
  {
    if |tail| > 0 then Cartesian(tail[0], tail[1..]) else [[]]
  }

  /** The product of the lengths of `lists`. */
  function Product<T>(lists: seq<seq<T>>): nat
  {
    if |lists| == 0 then 1 else |lists[0]| * Product(lists[1..])
  }

  lemma {:induction false} PrependLength<T>(head: seq<T>, remainder: seq<seq<T>>)
    ensures |Prepend(head, remainder)| == |remainder| * |head|
    decreases |remainder|
  {
    if |remainder| > 0 {
      PrependLength(head, remainder[1..]);
    }
  }

  /** Position `r * |head| + h` holds `head[h]` in front of `remainder[r]`. */
  lemma {:induction false} PrependIndex<T>(head: seq<T>, remainder: seq<seq<T>>, r: nat, h: nat)
    requires r < |remainder| && h < |head|
    ensures r * |head| + h < |Prepend(head, remainder)|
    ensures Prepend(head, remainder)[r * |head| + h] == [head[h]] + remainder[r]
    decreases |remainder|
  {
    PrependLength(head, remainder);
    if r > 0 {
      PrependIndex(head, remainder[1..], r - 1, h);
      assert r * |head| + h == |head| + ((r - 1) * |head| + h);
    }
  }

  lemma {:induction false} PrependMember<T>(head: seq<T>, remainder: seq<seq<T>>, c: seq<T>)
    ensures c in Prepend(head, remainder) <==> |c| >= 1 && c[0] in head && c[1..] in remainder
    decreases |remainder|
  {
    if |remainder| > 0 {
      PrependMember(head, remainder[1..], c);
      var spread := Spread(head, remainder[0]);
      assert c in spread <==> |c| >= 1 && c[0] in head && c[1..] == remainder[0] by {
        if c in spread {
          var h :| 0 <= h < |head| && spread[h] == c;
          assert c[1..] == remainder[0];
        }
        if |c| >= 1 && c[0] in head && c[1..] == remainder[0] {
          var h :| 0 <= h < |head| && head[h] == c[0];
          assert spread[h] == c;
        }
      }
      assert remainder == [remainder[0]] + remainder[1..];
    }
  }

  /** `cartesian` yields exactly as many combinations as the product of the input lengths. */
  lemma {:induction false} CartesianCount<T>(head: seq<T>, tail: seq<seq<T>>)
    ensures |Cartesian(head, tail)| == |head| * Product(tail)
    decreases |tail|
  {
    PrependLength(head, Remainder(tail));
    if |tail| > 0 {
      CartesianCount(tail[0], tail[1..]);
    }
  }

  /**
   * A combination is yielded exactly when it has one element per input and
   * its k-th element is drawn from the k-th input.
   */
  lemma {:induction false} CartesianMember<T>(head: seq<T>, tail: seq<seq<T>>, c: seq<T>)
    ensures c in Cartesian(head, tail) <==>
              && |c| == |tail| + 1
              && c[0] in head
              && forall k :: 0 <= k < |tail| ==> c[k + 1] in tail[k]
    decreases |tail|
  {
    PrependMember(head, Remainder(tail), c);
    if |tail| == 0 {
      if |c| >= 1 {
        assert c[1..] in [[]] <==> |c| == 1;
      }
    } else if |c| >= 1 {
      CartesianMember(tail[0], tail[1..], c[1..]);
      if |c| == |tail| + 1 {
        var rest := forall k :: 0 <= k < |tail| - 1 ==> c[1..][k + 1] in tail[1..][k];
        var all := forall k :: 0 <= k < |tail| ==> c[k + 1] in tail[k];
        if all {
          assert c[1..][0] in tail[0];
          assert rest by {
            forall k | 0 <= k < |tail| - 1 ensures c[1..][k + 1] in tail[1..][k] {
              assert c[(k + 1) + 1] in tail[k + 1];
            }
          }
        }
        if c[1..][0] in tail[0] && rest {
          assert all by {
            forall k | 0 <= k < |tail| ensures c[k + 1] in tail[k] {
              if k > 0 {
                assert c[1..][(k - 1) + 1] in tail[1..][k - 1];
              }
            }
          }
        }
      }
    }
  }

  /**
   * The first input varies fastest: combination `r * |head| + h` is
   * `head[h]` in front of the `r`-th combination of the tail.
   */
  lemma CartesianOrder<T>(head: seq<T>, tail: seq<seq<T>>, r: nat, h: nat)
    requires r < |Remainder(tail)| && h < |head|
    ensures r * |head| + h < |Cartesian(head, tail)|
    ensures Cartesian(head, tail)[r * |head| + h] == [head[h]] + Remainder(tail)[r]
  {
    PrependIndex(head, Remainder(tail), r, h);
  }

  /** An empty input list makes the product empty. */
  lemma CartesianEmpty<T>(head: seq<T>, tail: seq<seq<T>>, k: nat)
    requires k < |tail| && |tail[k]| == 0
    ensures Cartesian(head, tail) == []
  {
    if |Cartesian(head, tail)| > 0 {
      var c := Cartesian(head, tail)[0];
      CartesianMember(head, tail, c);
    }
  }

  /** An empty head makes the product empty. */
  lemma CartesianEmptyHead<T>(head: seq<T>, tail: seq<seq<T>>)
    requires |head| == 0
    ensures Cartesian(head, tail) == []
  {
    CartesianCount(head, tail);
  }

  /** With no tail, `cartesian(head)` yields `[h]` for each `h` of `head`. */
  lemma CartesianNoTail<T>(head: seq<T>)
    ensures Cartesian(head, []) == seq(|head|, h requires 0 <= h < |head| => [head[h]])
  {
    var c := Cartesian(head, []);
    PrependLength(head, [[]]);
    forall h | 0 <= h < |head| ensures c[h] == [head[h]] {
      PrependIndex(head, [[]], 0, h);
    }
  }

  /**
   * For the inputs `[1, 2], [10, 20], [100, 200, 300]` the second
   * combination is `[2, 10, 100]`: the first input varies fastest.
   */
  lemma DocCommentOrder(head: seq<int>, tail: seq<seq<int>>)
    requires head == [1, 2] && tail == [[10, 20], [100, 200, 300]]
    ensures |Cartesian(head, tail)| == 12
    ensures Cartesian(head, tail)[0] == [1, 10, 100]
    ensures Cartesian(head, tail)[1] == [2, 10, 100]
    ensures Cartesian(head, tail)[2] == [1, 20, 100]
  {
    CartesianCount(head, tail);
    CartesianCount(tail[0], tail[1..]);
    CartesianCount(tail[1], []);
    var inner := Cartesian(tail[1], []);
    CartesianNoTail(tail[1]);
    assert inner[0] == [100];
    var middle := Cartesian(tail[0], tail[1..]);
    assert Remainder(tail[1..]) == inner;
    CartesianOrder(tail[0], tail[1..], 0, 0);
    CartesianOrder(tail[0], tail[1..], 0, 1);
    assert middle[0] == [10, 100];
    assert middle[1] == [20, 100];
    CartesianOrder(head, tail, 0, 0);
    CartesianOrder(head, tail, 0, 1);
    CartesianOrder(head, tail, 1, 0);
  }

  // ---------------------------------------------------------------------
  // getEncodedVariations

  /** The default for `maxGeneratedVariations`, which `getExperimentPaths` relies on. */
  const MAX_GENERATED_VARIATIONS: int := 100

  /** One entry of a choice list: candidate `index` of parameter `paramName` of experiment `expName`. */
  datatype Choice = Choice(expName: string, paramName: string, index: nat)

  /** `parameterVariants`: one choice per candidate position of one parameter. */
  function ParameterVariants(expName: string, param: (string, seq<Value>)): (r: seq<Choice>)
    ensures |r| == |param.1|
    ensures forall i :: 0 <= i < |r| ==> r[i] == Choice(expName, param.0, i)
  {
    seq(|param.1|, i requires 0 <= i < |param.1| => Choice(expName, param.0, i))
  }

  /** The choice lists of one experiment's parameters, in declared order. */
  function ExperimentVariants(expName: string, params: Params): (r: seq<seq<Choice>>)
    ensures |r| == |params|
    ensures forall j :: 0 <= j < |r| ==> r[j] == ParameterVariants(expName, params[j])
  {
    seq(|params|, j requires 0 <= j < |params| => ParameterVariants(expName, params[j]))
  }

  /** `possibleValues`: the choice lists of every parameter of every experiment, in schema order. */
  function PossibleValues(schema: Schema): seq<seq<Choice>>
  {
    if |schema| == 0 then []
    else
      var (expName, params) := schema[|schema| - 1];
      PossibleValues(schema[..|schema| - 1]) + ExperimentVariants(expName, params)
  }

  function Min(a: int, b: int): int { if a <= b then a else b }

  function Max(a: int, b: int): int { if a <= b then b else a }

  /** How many combinations the loop keeps: the first is pushed before `count` is compared. */
  function Kept(total: nat, maxGeneratedVariations: int): nat
  {
    Min(Max(maxGeneratedVariations, 1), total)
  }

  /** `possibleVariations`: the leading combinations of the product of the choice lists. */
  function PossibleVariations(possibleValues: seq<seq<Choice>>, maxGeneratedVariations: int): seq<seq<Choice>>
  {
    if |possibleValues| == 0 then []
    else
      var all := Cartesian(possibleValues[0], possibleValues[1..]);
      all[..Kept(|all|, maxGeneratedVariations)]
  }

  /** `EXPERIMENTS[expName].params[paramName][index]`, `None` standing for `undefined`. */
  function ChoiceValue(schema: Schema, c: Choice): Option<Value>
  {
    match Get(schema, c.expName)
    case None => None
    case Some(params) =>
      match Get(params, c.paramName)
      case None => None
      case Some(values) => if c.index < |values| then Some(values[c.index]) else None
  }

  /** One pass of the innermost loop: a truthy chosen value overwrites the experiment's parameter. */
  function Apply(schema: Schema, c: Choice, experiments: CodableExperiments): CodableExperiments
  {
    var value := ChoiceValue(schema, c);
    if value.None? || Falsy(value.value) then experiments
    else
      match Get(experiments, c.expName)
      case None => experiments
      case Some(exp) => Put(experiments, c.expName, Put(exp, c.paramName, value.value))
  }

  /** The choices of `variation` from position `i` on, applied to `experiments`. */
  function OverlayFrom(schema: Schema, variation: seq<Choice>, i: nat, experiments: CodableExperiments): CodableExperiments
    decreases |variation| - i
  {
    if i >= |variation| then experiments
    else OverlayFrom(schema, variation, i + 1, Apply(schema, variation[i], experiments))
  }

  /** The assignment a variation stands for: the defaults with its choices applied. */
  function Overlay(schema: Schema, variation: seq<Choice>): CodableExperiments
  {
    OverlayFrom(schema, variation, 0, IsolatedDefaults(schema))
  }

  /** `encodedVariations` after the variations from position `i` on are encoded; the first failure is thrown. */
  function EncodedFrom(schema: Schema, variations: seq<seq<Choice>>, i: nat, encoded: seq<string>): Result<seq<string>, EncodeError>
    decreases |variations| - i
  {
    if i >= |variations| then Success(encoded)
    else
      var s :- Encoding(schema, Overlay(schema, variations[i]));
      EncodedFrom(schema, variations, i + 1, encoded + [s])
  }

  /** What `getEncodedVariations(maxGeneratedVariations)` returns, or the error it throws. */
  function EncodedVariations(schema: Schema, maxGeneratedVariations: int): Result<seq<string>, EncodeError>
  {
    EncodedFrom(schema, PossibleVariations(PossibleValues(schema), maxGeneratedVariations), 0, [])
  }

  /** The first two loops of `getEncodedVariations`: copy the schema's entries, then build the choice lists. */
  method CollectPossibleValues(schema: Schema) returns (possibleValues: seq<seq<Choice>>)
    ensures possibleValues == PossibleValues(schema)
  {
    var experimentsForPath: Schema := [];
    for n := 0 to |schema|
      invariant experimentsForPath == schema[..n]
    {
      experimentsForPath := experimentsForPath + [schema[n]];
    }
    assert experimentsForPath == schema;
    possibleValues := [];
    for n := 0 to |experimentsForPath|
      invariant possibleValues == PossibleValues(schema[..n])
    {
      var (expName, params) := experimentsForPath[n];
      for j := 0 to |params|
        invariant possibleValues == PossibleValues(schema[..n]) + ExperimentVariants(expName, params[..j])
      {
        var (paramName, paramValues) := params[j];
        var parameterVariants := seq(|paramValues|, i requires 0 <= i < |paramValues| => Choice(expName, paramName, i));
        assert parameterVariants == ParameterVariants(expName, params[j]);
        assert params[..j + 1] == params[..j] + [params[j]];
        assert ExperimentVariants(expName, params[..j + 1]) == ExperimentVariants(expName, params[..j]) + [parameterVariants];
        possibleValues := possibleValues + [parameterVariants];
      }
      assert params[..|params|] == params;
      assert schema[..n + 1][..n] == schema[..n];
    }
    assert schema[..|schema|] == schema;
  }

  /** The third step: draw combinations from the generator until `maxGeneratedVariations` are kept. */
  method FirstVariations(possibleValues: seq<seq<Choice>>, maxGeneratedVariations: int) returns (possibleVariations: seq<seq<Choice>>)
    ensures possibleVariations == PossibleVariations(possibleValues, maxGeneratedVariations)
  {
    possibleVariations := [];
    if |possibleValues| > 0 {
      var generator := Cartesian(possibleValues[0], possibleValues[1..]);
      var count := 0;
      while count < |generator|
        invariant 0 <= count <= |generator|
        invariant possibleVariations == generator[..count]
        invariant count == 0 || count < maxGeneratedVariations
      {
        possibleVariations := possibleVariations + [generator[count]];
        count := count + 1;
        if count >= maxGeneratedVariations {
          break;
        }
      }
    }
  }

  /** The last step for one variation: fresh defaults, each truthy chosen value written over them. */
  method OverlayVariation(schema: Schema, variation: seq<Choice>) returns (experiments: CodableExperiments)
    ensures experiments == Overlay(schema, variation)
  {
    experiments := GetIsolatedExperimentDefaults(schema);
    for i := 0 to |variation|
      invariant OverlayFrom(schema, variation, i, experiments) == Overlay(schema, variation)
    {
      var Choice(expName, paramName, index) := variation[i];
      var exp := Get(schema, expName);
      if exp.None? {
        continue;
      }
      var paramValues := Get(exp.value, paramName);
      if paramValues.None? || index >= |paramValues.value| {
        continue;
      }
      var paramValueAtIndex := paramValues.value[index];
      if Falsy(paramValueAtIndex) {
        continue;
      }
      var current := Get(experiments, expName);
      if current.Some? {
        experiments := Put(experiments, expName, Put(current.value, paramName, paramValueAtIndex));
      }
    }
  }

  /** `getEncodedVariations(maxGeneratedVariations)`. */
  method GetEncodedVariations(schema: Schema, maxGeneratedVariations: int) returns (r: Result<seq<string>, EncodeError>)
    ensures r == EncodedVariations(schema, maxGeneratedVariations)
  {
    var possibleValues := CollectPossibleValues(schema);
    var possibleVariations := FirstVariations(possibleValues, maxGeneratedVariations);
    var encodedVariations: seq<string> := [];
    for i := 0 to |possibleVariations|
      invariant EncodedFrom(schema, possibleVariations, i, encodedVariations) == EncodedVariations(schema, maxGeneratedVariations)
    {
      var experiments := OverlayVariation(schema, possibleVariations[i]);
      var encodedVariation := EncodeExperiments(schema, experiments);
      if encodedVariation.Failure? {
        return Failure(encodedVariation.error);
      }
      encodedVariations := encodedVariations + [encodedVariation.value];
    }
    return Success(encodedVariations);
  }

  // ---------------------------------------------------------------------
  // getExperimentPaths

  /** `{ params: { experiment } }`, one static path. */
  datatype Path = Path(experiment: string)

  /** The route parameter the paths are keyed by, and the page `[experiment].tsx` is named after. */
  const ROUTE_PARAM := "experiment"

  /** The `params` a request for path `p` is handed: `{ experiment: p.experiment }`. */
  function RouteParams(p: Path): (r: Record<QueryValue>)
    ensures Keys(r) == [ROUTE_PARAM]
    ensures Get(r, ROUTE_PARAM) == Some(Single(p.experiment))
  {
    [(ROUTE_PARAM, Single(p.experiment))]
  }

  /** `getExperimentPaths()`: one path per encoded variation, in the same order. */
  method GetExperimentPaths(schema: Schema) returns (r: Result<seq<Path>, EncodeError>)
    ensures EncodedVariations(schema, MAX_GENERATED_VARIATIONS).Failure? ==>
              r == Failure(EncodedVariations(schema, MAX_GENERATED_VARIATIONS).error)
    ensures EncodedVariations(schema, MAX_GENERATED_VARIATIONS).Success? ==>
              var encoded := EncodedVariations(schema, MAX_GENERATED_VARIATIONS).value;
              && r.Success?
              && |r.value| == |encoded|
              && forall i :: 0 <= i < |encoded| ==> r.value[i] == Path(encoded[i])
  {
    var encodedVariations := GetEncodedVariations(schema, MAX_GENERATED_VARIATIONS);
    if encodedVariations.Failure? {
      return Failure(encodedVariations.error);
    }
    var paths := PathsOf(encodedVariations.value);
    return Success(paths);
  }

  /** The loop of `getExperimentPaths`: one path per encoded variation, pushed in order. */
  method PathsOf(encoded: seq<string>) returns (paths: seq<Path>)
    ensures |paths| == |encoded|
    ensures forall i :: 0 <= i < |encoded| ==> paths[i] == Path(encoded[i])
  {
    paths := [];
    for i := 0 to |encoded|
      invariant |paths| == i
      invariant forall m :: 0 <= m < i ==> paths[m] == Path(encoded[m])
    {
      paths := paths + [Path(encoded[i])];
    }
  }

  // ---------------------------------------------------------------------
  // getExperimentProps

  /** Whether JavaScript treats a route parameter as true: an array always, a string when nonempty. */
  predicate Truthy(q: QueryValue) {
    match q
    case Single(s) => s != ""
    case Many(_) => true
  }

  /** The parameter `getExperimentProps` reads. */
  const PROPS_PARAM := "experiments"

  /** `params?.[key]`. */
  function RouteValue(params: Option<Record<QueryValue>>, key: string): Option<QueryValue>
  {
    match params
    case None => None
    case Some(query) => Get(query, key)
  }

  /** The assignment served for `params` when the encoded variation is read from `key`. */
  function PropsFrom(schema: Schema, params: Option<Record<QueryValue>>, key: string): CodableExperiments
  {
    var encoded := RouteValue(params, key);
    if encoded.Some? && Truthy(encoded.value) && Decoding(schema, encoded.value).Success?
    then Decoding(schema, encoded.value).value
    else IsolatedDefaults(schema)
  }

  /**
   * The body of `getExperimentProps`, reading the encoded variation from
   * `key`: the decoded assignment when that parameter is truthy and
   * decodes, the defaults otherwise.
   */
  method ExperimentPropsFrom(schema: Schema, params: Option<Record<QueryValue>>, key: string) returns (experiments: CodableExperiments)
    ensures var encoded := RouteValue(params, key);
            if encoded.Some? && Truthy(encoded.value) && Decoding(schema, encoded.value).Success?
            then experiments == Decoding(schema, encoded.value).value
            else experiments == IsolatedDefaults(schema)
  {
    experiments := GetIsolatedExperimentDefaults(schema);
    var encodedPathExperiments := RouteValue(params, key);
    if encodedPathExperiments.Some? && Truthy(encodedPathExperiments.value) {
      var decoded := DecodeExperiments(schema, encodedPathExperiments.value);
      if decoded.Success? {
        experiments := decoded.value;
      }
    }
  }

  /**
   * `getExperimentProps(params)` as written: it reads `params.experiments`,
   * a key the generated paths do not have.
   */
  method GetExperimentProps(schema: Schema, params: Option<Record<QueryValue>>) returns (experiments: CodableExperiments)
    ensures experiments == PropsFrom(schema, params, PROPS_PARAM)
    ensures var encoded := RouteValue(params, PROPS_PARAM);
            if encoded.Some? && Truthy(encoded.value) && Decoding(schema, encoded.value).Success?
            then experiments == Decoding(schema, encoded.value).value
            else experiments == IsolatedDefaults(schema)
  {
    experiments := ExperimentPropsFrom(schema, params, PROPS_PARAM);
  }

  /**
   * `getExperimentProps` reading the route parameter the paths are
   * generated with, `params.experiment`.
   */
  method GetRouteExperimentProps(schema: Schema, params: Option<Record<QueryValue>>) returns (experiments: CodableExperiments)
    ensures experiments == PropsFrom(schema, params, ROUTE_PARAM)
    ensures var encoded := RouteValue(params, ROUTE_PARAM);
            if encoded.Some? && Truthy(encoded.value) && Decoding(schema, encoded.value).Success?
            then experiments == Decoding(schema, encoded.value).value
            else experiments == IsolatedDefaults(schema)
  {
    experiments := ExperimentPropsFrom(schema, params, ROUTE_PARAM);
  }
}
