/**
 * The enumerator and the defaults on the schema the application ships
 * with: three experiments, one parameter each, two candidates each.
 */
module VariationExamples {
  import opened Wrappers
  import opened Records
  import opened JsStrings
  import opened Types
  import opened Coding
  import opened Experiments
  import opened Constants
  import opened CodingExamples
  import opened Variations
  import opened VariationProofs

  /** The storefront's shape: three experiments, one parameter each, two candidates each. */
  predicate ThreeByTwo(schema: Schema) {
    && |schema| == 3
    && forall k :: 0 <= k < 3 ==> |schema[k].1| == 1 && |schema[k].1[0].1| == 2
  }

  lemma StorefrontShape(schema: Schema)
    requires schema == EXPERIMENTS
    ensures ThreeByTwo(schema) && Enumerable(schema)
  {
    assert Keys(schema) == ["button_text", "image", "headline"];
  }

  /** Each experiment's defaults hold its one parameter. */
  lemma ThreeByTwoFirsts(schema: Schema, k: nat)
    requires ThreeByTwo(schema) && k < 3
    ensures |Firsts(schema[k].1)| == 1
  {
    var params := schema[k].1;
    assert params[..0] == [];
  }

  lemma DefaultSegmentAt(k: nat)
    requires k < 3
    ensures DefaultSegment(k, 1) == ["0p0v0", "1p0v0", "2p0v0"][k]
  {
    var tokens := [NatToString(k)] + seq(1, i requires 0 <= i < 1 => ValueToken(i, 0));
    assert tokens == [NatToString(k), ValueToken(0, 0)];
    assert tokens[1..] == [ValueToken(0, 0)];
    assert Join(tokens, PARAMETER_DELINEATOR) == NatToString(k) + [PARAMETER_DELINEATOR] + ValueToken(0, 0);
    ZeroTokenString();
  }

  lemma DefaultString(x: string, y: string, z: string)
    requires x == "0p0v0" && y == "1p0v0" && z == "2p0v0"
    ensures x + "e" + y + "e" + z == "0p0v0e1p0v0e2p0v0"
  {
  }

  lemma ThreeByTwoDefaultVariation(schema: Schema)
    requires ThreeByTwo(schema) && WellFormed(schema)
    ensures DefaultVariation(schema) == Success("0p0v0e1p0v0e2p0v0")
  {
    ThreeByTwoFirsts(schema, 0);
    ThreeByTwoFirsts(schema, 1);
    ThreeByTwoFirsts(schema, 2);
    DefaultVariationShape(schema);
    var segments := seq(|schema|, k requires 0 <= k < |schema| => DefaultSegment(k, |Firsts(schema[k].1)|));
    DefaultSegmentAt(0);
    DefaultSegmentAt(1);
    DefaultSegmentAt(2);
    assert segments == ["0p0v0", "1p0v0", "2p0v0"];
    JoinThree("0p0v0", "1p0v0", "2p0v0", EXPERIMENT_DELINEATOR);
    DefaultString("0p0v0", "1p0v0", "2p0v0");
  }

  /** `VARIATION_WITH_DEFAULT_EXPERIMENTS` is `0p0v0e1p0v0e2p0v0`. */
  lemma StorefrontDefaultVariation(schema: Schema)
    requires schema == EXPERIMENTS
    ensures DefaultVariation(schema) == Success("0p0v0e1p0v0e2p0v0")
  {
    StorefrontShape(schema);
    ThreeByTwoDefaultVariation(schema);
  }

  lemma ThreeByTwoPositions(schema: Schema, k: nat)
    requires ThreeByTwo(schema) && k <= 3
    ensures Offset(schema, k) == k
  {
    if k > 0 {
      ThreeByTwoPositions(schema, k - 1);
      OffsetStep(schema, k - 1);
    }
  }

  lemma ThreeByTwoChoiceLists(schema: Schema)
    requires ThreeByTwo(schema)
    ensures |PossibleValues(schema)| == 3
    ensures forall m :: 0 <= m < 3 ==> |PossibleValues(schema)[m]| == 2
  {
    ThreeByTwoPositions(schema, 3);
    OffsetFull(schema);
    PossibleValuesLength(schema);
    forall m | 0 <= m < 3
      ensures |PossibleValues(schema)[m]| == 2
    {
      ThreeByTwoPositions(schema, m);
      PossibleValuesAt(schema, m, 0);
    }
  }

  lemma ProductOfThree<T>(lists: seq<seq<T>>)
    requires |lists| == 3 && |lists[0]| == 2 && |lists[1]| == 2 && |lists[2]| == 2
    ensures Product(lists) == 8
  {
    var rest := lists[1..];
    var last := rest[1..];
    assert |last| == 1 && last[0] == lists[2];
    assert Product(last[1..]) == 1;
    assert Product(last) == 2;
    assert Product(rest) == 4;
  }

  /**
   * With the default `maxGeneratedVariations` of 100, the storefront has all
   * 2 * 2 * 2 = 8 variations; each encodes, and decodes back to its
   * assignment.
   */
  lemma StorefrontVariations(schema: Schema)
    requires schema == EXPERIMENTS
    ensures |PossibleVariations(PossibleValues(schema), MAX_GENERATED_VARIATIONS)| == 8
    ensures EncodedVariations(schema, MAX_GENERATED_VARIATIONS).Success?
    ensures |EncodedVariations(schema, MAX_GENERATED_VARIATIONS).value| == 8
  {
    StorefrontShape(schema);
    ThreeByTwoVariations(schema, MAX_GENERATED_VARIATIONS);
  }

  lemma ThreeByTwoVariations(schema: Schema, maxGeneratedVariations: int)
    requires ThreeByTwo(schema) && Enumerable(schema) && maxGeneratedVariations >= 8
    ensures |PossibleVariations(PossibleValues(schema), maxGeneratedVariations)| == 8
    ensures EncodedVariations(schema, maxGeneratedVariations).Success?
    ensures |EncodedVariations(schema, maxGeneratedVariations).value| == 8
  {
    var pv := PossibleValues(schema);
    ThreeByTwoChoiceLists(schema);
    ProductOfThree(pv);
    ThreeByTwoPositions(schema, 3);
    OffsetFull(schema);
    VariationCount(schema, maxGeneratedVariations);
    VariationsDecode(schema, maxGeneratedVariations);
  }

  /** The first choice list: one choice per candidate of the first experiment's parameter. */
  lemma ThreeByTwoFirstChoices(schema: Schema)
    requires ThreeByTwo(schema)
    ensures |PossibleValues(schema)| == 3
    ensures PossibleValues(schema)[0] == ParameterVariants(schema[0].0, schema[0].1[0])
  {
    ThreeByTwoChoiceLists(schema);
    ThreeByTwoPositions(schema, 0);
    PossibleValuesShape(schema);
    assert Position(schema, 0, 0) == 0;
  }

  /** The second variation picks the second candidate of the first experiment's parameter. */
  lemma ThreeByTwoSecondVariation(schema: Schema, maxGeneratedVariations: int)
    requires ThreeByTwo(schema) && Enumerable(schema) && maxGeneratedVariations >= 8
    ensures |PossibleVariations(PossibleValues(schema), maxGeneratedVariations)| == 8
    ensures |PossibleVariations(PossibleValues(schema), maxGeneratedVariations)[1]| == 3
    ensures PossibleVariations(PossibleValues(schema), maxGeneratedVariations)[1][0] == Choice(schema[0].0, schema[0].1[0].0, 1)
  {
    ThreeByTwoVariations(schema, maxGeneratedVariations);
    ThreeByTwoFirstChoices(schema);
    var pv := PossibleValues(schema);
    var all := Cartesian(pv[0], pv[1..]);
    PrependLength(pv[0], Remainder(pv[1..]));
    CartesianOrder(pv[0], pv[1..], 0, 1);
    KeptDrawn(pv, maxGeneratedVariations, 1);
  }

  /**
   * The page generated for the second variation is served the defaults,
   * whose first parameter holds its first candidate, although the
   * variation holds the second; reading `experiment` serves the variation.
   */
  lemma ThreeByTwoPathServesDefaults(schema: Schema, maxGeneratedVariations: int)
    requires ThreeByTwo(schema) && Enumerable(schema) && maxGeneratedVariations >= 8
    requires !Falsy(schema[0].1[0].1[1])
    ensures |PossibleVariations(PossibleValues(schema), maxGeneratedVariations)| == 8
    ensures EncodedVariations(schema, maxGeneratedVariations).Success?
    ensures |EncodedVariations(schema, maxGeneratedVariations).value| == 8
    ensures var p := Path(EncodedVariations(schema, maxGeneratedVariations).value[1]);
            var a := Overlay(schema, PossibleVariations(PossibleValues(schema), maxGeneratedVariations)[1]);
            var defaults := IsolatedDefaults(schema);
            && PropsFrom(schema, Some(RouteParams(p)), PROPS_PARAM) == defaults
            && PropsFrom(schema, Some(RouteParams(p)), ROUTE_PARAM) == a
            && |a| >= 1 && |a[0].1| >= 1 && a[0].1[0] == (schema[0].1[0].0, schema[0].1[0].1[1])
            && |defaults| >= 1 && |defaults[0].1| >= 1 && defaults[0].1[0] == (schema[0].1[0].0, schema[0].1[0].1[0])
  {
    ThreeByTwoVariations(schema, maxGeneratedVariations);
    ThreeByTwoSecondVariation(schema, maxGeneratedVariations);
    var v := PossibleVariations(PossibleValues(schema), maxGeneratedVariations)[1];
    var p := Path(EncodedVariations(schema, maxGeneratedVariations).value[1]);
    GeneratedPathServesDefaults(schema, p);
    PropsOfGeneratedPath(schema, maxGeneratedVariations, 1);
    KeptDrawn(PossibleValues(schema), maxGeneratedVariations, 1);
    OverlayContents(schema, v);
    ReachedDefaults(schema, v);
    ThreeByTwoPositions(schema, 0);
    assert Position(schema, 0, 0) == 0;
  }

  /**
   * On the storefront, the page generated for the second variation, whose
   * button reads "Add to cart", is served the defaults, whose button reads
   * "Buy now".
   */
  lemma StorefrontPathServesDefaults(schema: Schema)
    requires schema == EXPERIMENTS
    ensures |PossibleVariations(PossibleValues(schema), MAX_GENERATED_VARIATIONS)| == 8
    ensures EncodedVariations(schema, MAX_GENERATED_VARIATIONS).Success?
    ensures |EncodedVariations(schema, MAX_GENERATED_VARIATIONS).value| == 8
    ensures var p := Path(EncodedVariations(schema, MAX_GENERATED_VARIATIONS).value[1]);
            var a := Overlay(schema, PossibleVariations(PossibleValues(schema), MAX_GENERATED_VARIATIONS)[1]);
            var defaults := IsolatedDefaults(schema);
            && PropsFrom(schema, Some(RouteParams(p)), PROPS_PARAM) == defaults
            && PropsFrom(schema, Some(RouteParams(p)), ROUTE_PARAM) == a
            && |a| >= 1 && |a[0].1| >= 1 && a[0].1[0] == ("button_text", Str("Add to cart"))
            && |defaults| >= 1 && |defaults[0].1| >= 1 && defaults[0].1[0] == ("button_text", Str("Buy now"))
  {
    StorefrontShape(schema);
    ThreeByTwoPathServesDefaults(schema, MAX_GENERATED_VARIATIONS);
  }
}
