# Experiment-assignment codec, variation enumerator and FNV-1a hash

This project models the core of a storefront that runs A/B experiments
with statically generated pages. Every page variant is addressed by a
short string that encodes an *assignment*: for each experiment, the value
chosen for each parameter. For example, `0p0v1e1p0v1e2p0v1` reads as
"experiment 0, parameter 0 takes candidate 1; experiment 1, …". The model
covers:

- the assignment codec `encodeExperiments` / `decodeExperiments` and the rule
  codec `encodeRules` / `decodeRules` (lib/coding.ts);
- the cartesian-product generator and the enumeration of every encoded
  variation, `getEncodedVariations`, with the route helpers
  `getExperimentPaths` and `getExperimentProps` (lib/variations.ts);
- the defaults `getIsolatedExperimentDefaults`, `DEFAULT_RULES` and
  `VARIATION_WITH_DEFAULT_EXPERIMENTS` (lib/constants.ts);
- the 32-bit FNV-1a hash `fnv1a` (lib/fnv1a.ts).

The experiment schema is passed explicitly everywhere: experiment name →
parameter name → ordered candidate values. The storefront's own schema
(lib/experiments.ts) is the constant `Experiments.EXPERIMENTS`.

JavaScript objects are modelled as ordered association lists
(`Records.Record<V> = seq<(string, V)>`). `Get` returns the first match.
`Put` replaces a value in place, keeping the key's position, or appends a
new key. This is how property assignment orders keys that are not array
indices. JavaScript lists integer-like keys such as `"0"` or `"12"` first,
in ascending numeric order; the model assumes no experiment or parameter
name is such a string (see "Left out" below).

Every thrown `Error` becomes a `Failure` carrying its own error kind
(`Coding.EncodeError`, `Coding.DecodeError`). Each loop that updates
variables in the source is a method with that loop and its invariants,
proved equal to a specification function defined one loop step at a time,
and the properties are proved about those functions. Some loops are
functions instead, because they update no variables: the generator
`cartesian` (lib/variations.ts:23-35), whose two `for` loops only yield,
is `Variations.Cartesian` with `Prepend` and `Spread`; the `map` that
builds one parameter's choice list (lib/variations.ts:52-53) is
`Variations.ParameterVariants`, and the choice lists of one experiment
are `Variations.ExperimentVariants`.

Files:

| file | contents |
|---|---|
| `wrappers.dfy` | `Option`, `Result` |
| `records.dfy` | ordered records: `Keys`, `Get`, `Put`, `IndexOf` |
| `jsstrings.dfy` | `String.prototype.split` / `Array.prototype.join` on one character, `parseInt`, decimal numerals |
| `types.dfy` | values (strings, numbers, booleans), falsiness, schema and assignment shapes |
| `experiments.dfy` | the storefront schema |
| `coding.dfy` | the two codecs as methods, with their specification functions |
| `coding_rules_proofs.dfy` | properties of the rule codec |
| `coding_encode_proofs.dfy` | what `encodeExperiments` outputs, and when and how it fails |
| `coding_decode_proofs.dfy` | what `decodeExperiments` outputs, and when and how it fails |
| `coding_roundtrip.dfy` | decode after encode is the identity on conforming assignments |
| `coding_examples.dfy` | concrete strings under the storefront schema and two small schemas |
| `constants.dfy` | defaults, default rules, the default variation |
| `variations.dfy` | `cartesian`, `getEncodedVariations`, `getExperimentPaths`, `getExperimentProps` |
| `variations_proofs.dfy` | choice lists, count, overlay contents, every generated variation decodes back |
| `variations_examples.dfy` | the storefront: 8 variations, default variation `0p0v0e1p0v0e2p0v0` |
| `fnv1a.dfy` | the hash loop and its laws |

In the code, the inner loop of `decodeExperiments` and the loop over
segments are one function. In the model they are three methods:
`Coding.DecodeParameters` (one segment's tokens), `Coding.DecodeSegment`
(one segment) and `Coding.DecodeSegments` (all segments). Likewise, the
loop of `getExperimentPaths` is the method `Variations.PathsOf`, and
`getEncodedVariations` is split along its loops into
`Variations.CollectPossibleValues`, `Variations.FirstVariations` and
`Variations.OverlayVariation`.

## Model

| member | source | states |
|---|---|---|
| JsStrings.Split | lib/coding.ts:97 | splitting on one character yields at least one piece; no piece contains the separator; joining the pieces gives back the input |
| JsStrings.SplitJoin | lib/coding.ts:24-30 | splitting a join of separator-free pieces gives back the pieces |
| JsStrings.SplitAppend | lib/coding.ts:97 | splitting `a + d + t` is the pieces of `a` followed by the pieces of `t` |
| JsStrings.ParseIntNatToString | lib/coding.ts:113 | `parseInt` of a decimal numeral written by template interpolation is that number |
| JsStrings.ParseIntNegative | lib/coding.ts:113 | `parseInt` of a minus sign followed by a decimal numeral is the negative of that number |
| JsStrings.ParseIntDigits | lib/coding.ts:135-136 | `parseInt` of a nonempty digit string is its decimal value |
| JsStrings.ParseIntNaN | lib/coding.ts:114-115 | `parseInt` is NaN on the empty string and on a string that starts with something other than a digit, a sign or whitespace |
| Coding.Place | lib/coding.ts:20 | writing index k of a sparse array sets slot k, keeps the other slots, and fills the gap past the old end with holes |
| Coding.EncodeRules | lib/coding.ts:14-25 | the loop's result is `RuleString`: each entry's rule placed at its name's schema index, holes written empty, joined by `,` |
| Coding.DecodeRules | lib/coding.ts:27-38 | the loop's result is `DecodedRules`: piece k of the `,`-split assigned to the k-th schema name while names last |
| RulesProofs.SlotsAll | lib/coding.ts:17-22 | the invariant of the placing loop is preserved to its end: each filled slot holds the rule of its schema name among the entries visited so far |
| RulesProofs.RuleSlotsContents | lib/coding.ts:14-22 | slot k holds the rule of the k-th schema name; the last slot is filled, so there are no trailing empties; names past the array have no rule; every name with a rule lies within the array |
| RulesProofs.RuleStringShape | lib/coding.ts:14-25 | `encodeRules` is the join of the slots, and the piece at schema index k is that name's rule or `""` |
| RulesProofs.RuleStringNoKnownNames | lib/coding.ts:14-25 | with no schema name among the entries, `encodeRules` returns `""` |
| RulesProofs.DecodedRulesShape | lib/coding.ts:27-38 | `decodeRules` never fails: it has min(pieces, names) entries, and entry k pairs the k-th name with the k-th piece; later pieces are dropped |
| RulesProofs.RulesRoundTrip | lib/coding.ts:14-38 | `decodeRules(encodeRules(r))` gives back r's rule for every schema name r has, provided no such rule contains `,`; other schema names read as absent or `""`; non-schema names are absent |
| Coding.EncodeExperiments | lib/coding.ts:41-88 | the two nested loops, with their early throws, compute `Encoding` |
| EncodeProofs.ParamTokensOk | lib/coding.ts:57-80 | when every pair is encodable, the token loop pushes `"{i}v{valueIndex}"` for pair i, in input order |
| EncodeProofs.ParamTokensFail | lib/coding.ts:61-78 | the first pair that is not encodable decides the token loop's error |
| EncodeProofs.SegmentOk | lib/coding.ts:49-81 | an encodable experiment gives its schema index followed by the `p`-joined tokens, where i is the pair's position in the input and valueIndex is the first `===` match among the candidates |
| EncodeProofs.SegmentFails | lib/coding.ts:49-78 | the four failures of one experiment, in the order checked: name not in the schema, no parameters, parameter not defined for the experiment, value not among the candidates |
| EncodeProofs.SegmentsOk | lib/coding.ts:44-84 | when every experiment is encodable, the outer loop collects their segments in input order |
| EncodeProofs.SegmentsFail | lib/coding.ts:44-84 | the first experiment that fails decides the outer loop's error |
| EncodeProofs.EncodingOk | lib/coding.ts:41-88 | when every experiment is encodable, the result is the segments joined by `e`, in input order |
| EncodeProofs.EncodingOfSegments | lib/coding.ts:81-87 | an assignment whose segments are given encodes to their `e`-join |
| EncodeProofs.EncodingFails | lib/coding.ts:41-88 | the first experiment that is not encodable decides the error |
| EncodeProofs.EncodingSucceedsIff | lib/coding.ts:41-88 | encoding succeeds if and only if every experiment is encodable |
| EncodeProofs.EncodingNeverNotContained | lib/coding.ts:58-64 | the throw for an experiment missing from the definitions is dead, because the name was already found among the schema names |
| Coding.DecodeParameters | lib/coding.ts:122-168 | the inner loop over one segment's tokens, with its `continue` and its throws, computes `DecodedParameters` |
| Coding.DecodeSegment | lib/coding.ts:105-121 | one segment's checks and its token loop compute `DecodedSegment` |
| Coding.DecodeSegments | lib/coding.ts:104-170 | the outer loop computes `DecodedSegments`, stopping at the first failing segment |
| Coding.DecodeExperiments | lib/coding.ts:90-173 | the whole of `decodeExperiments` computes `Decoding` |
| DecodeProofs.EmptyInputRejected | lib/coding.ts:93-95 | `undefined`, an empty array and `""` throw the empty-string error; an array decodes as its first element |
| DecodeProofs.SegmentErrors | lib/coding.ts:105-121 | over the segment's text: a segment without `p` fails as an invalid encoding; `"{index}p…"` with an index that is empty or starts with a letter fails as NaN; `"{k}p…"` fails with invalid index k when k is past the schema or names an empty (falsy) name, and `"-{k}p…"` with k ≥ 1 fails with invalid index -k; otherwise `"{k}p{rest}"` is decoded by the `p`-pieces of `rest`, in order, under the k-th name |
| DecodeProofs.ParameterErrors | lib/coding.ts:122-154 | over the token's text: `"v…"` (no index) fails with the missing-index error; a token without `v`, or ending in `v`, fails with the missing-value-index error; `"{index}v{x}"` whose index starts with a letter fails as an invalid parameter index carrying that text; `"{i}v{x}"` whose value index starts with a letter fails as an invalid value index carrying that text; an experiment missing from the schema fails as not defined |
| DecodeProofs.DecodingNeverUnreachableErrors | lib/coding.ts:99 | `decodeExperiments` never throws "No experiments are encoded", because `split` yields at least one piece, and never the undefined-experiment error of lines 150-154 |
| DecodeProofs.ParametersNeverNotDefined | lib/coding.ts:147-154 | for an experiment of the schema, the token loop never raises the undefined-experiment error |
| DecodeProofs.SegmentsNeverNotDefined | lib/coding.ts:116-154 | the segment loop never raises the undefined-experiment error, since the name was looked up in the schema |
| DecodeProofs.ParametersFit | lib/coding.ts:160-167 | every value the token loop writes is a candidate of the named parameter, and parameter names stay distinct |
| DecodeProofs.SegmentsFit | lib/coding.ts:116-169 | the segment loop keeps every key a nonempty schema experiment name and every value a candidate of its parameter |
| DecodeProofs.DecodedFits | lib/coding.ts:90-173 | a decoded assignment has distinct keys that are schema experiment names, and every value is among its parameter's candidates |
| DecodeProofs.DecodedParametersAppend | lib/coding.ts:122-168 | one more token is applied to the result of the earlier ones, after their first failure if any |
| DecodeProofs.DecodedSegmentsAppend | lib/coding.ts:104-170 | one more segment is decoded after the earlier ones and stored under its name |
| DecodeProofs.OutOfRangeParameterSkipped | lib/coding.ts:155-159 | a token whose parameter index is beyond the experiment's declared parameters is skipped, not an error |
| DecodeProofs.ValueTokenDecoded | lib/coding.ts:123-167 | the token `"{i}v{x}"` is skipped when i is out of range, fails when x is out of range, and otherwise writes candidate x of parameter i |
| DecodeProofs.TokenAppended | lib/coding.ts:122-168 | appending `p` and a token to a decoded segment applies that token to the segment's result |
| DecodeProofs.LaterTokenOverwrites | lib/coding.ts:167 | a later token for the same parameter overwrites the earlier value |
| DecodeProofs.LaterSegmentReplaces | lib/coding.ts:169 | a later segment for the same experiment replaces the earlier one, keeping its key's position |
| RoundTrip.ConformingEncodable | lib/coding.ts:65-78 | an experiment whose i-th pair names the schema's i-th parameter with one of its candidates is encodable, and each value index is its first occurrence |
| RoundTrip.ParametersRoundTrip | lib/coding.ts:79-167 | decoding the tokens of a conforming experiment rebuilds it pair by pair |
| RoundTrip.SegmentRoundTrip | lib/coding.ts:56-169 | a conforming experiment with a nonempty name decodes from its segment to its name and pairs |
| RoundTrip.SegmentsRoundTrip | lib/coding.ts:104-170 | the segments of a conforming assignment decode back to it, experiment by experiment |
| RoundTrip.RoundTrip | lib/coding.ts:41-173 | for a nonempty assignment whose experiments are distinct, nonempty schema names, each with at least one pair, and whose i-th pair is the schema's i-th parameter with a candidate value: encoding succeeds, decoding gives back the assignment, and re-encoding gives back the same string |
| RoundTrip.OutsideRoundTrip | lib/coding.ts:81-95 | the assignments the round trip excludes: `{}` encodes to `""`, which decoding rejects as empty, and an experiment with no pairs does not encode (no-parameters error) |
| CodingExamples.BenchEncoding | bench.ts:197-203 | the bench assignment (the second candidate of each storefront parameter) encodes to `0p0v1e1p0v1e2p0v1` |
| CodingExamples.EncodeOnePair | lib/coding.ts:56-87 | a one-experiment, one-pair assignment encodes to its index, `p`, and `0v{valueIndex}` |
| CodingExamples.DecodeOneToken | lib/coding.ts:104-169 | `"{k}p{i}v{x}"` decodes to the k-th experiment with that token applied, or fails on a bad experiment index |
| CodingExamples.ExperimentIndexTooLarge | lib/coding.ts:116-120 | `9p0v0` under the storefront schema fails with an invalid experiment index 9 |
| CodingExamples.ParameterIndexSkipped | lib/coding.ts:155-159 | `0p7v0` decodes to `{button_text: {}}`, which in turn fails to encode for having no parameters |
| CodingExamples.ParameterOrderHazard | lib/coding.ts:57-167 | `{x: {q: 3}}` encodes to `0p0v0` because the position written is the position in the input, and that string decodes to `{x: {p: 1}}` |
| CodingExamples.EmptyNameRejected | lib/coding.ts:117-120 | an experiment named `""` encodes, but its string fails to decode because the empty name is falsy |
| Constants.DefaultRules | lib/constants.ts:29-35 | the loop's result is `AllocationRules` |
| Constants.AllocationRulesShape | lib/constants.ts:29-35 | `DEFAULT_RULES()` maps every schema experiment name, in schema order, to `"allocation"` |
| Constants.DefaultRulesEncoding | lib/constants.ts:29-35 | `encodeRules(DEFAULT_RULES())` is `"allocation"` once per experiment, joined by `,` |
| Constants.GetIsolatedExperimentDefaults | lib/constants.ts:37-51 | the nested loops, with their `continue`, compute `IsolatedDefaults` |
| Constants.FirstCandidatesFirsts | lib/constants.ts:41-47 | the inner loop builds the parameters with a first candidate, in declared order, each mapped to that candidate |
| Constants.FirstsGet | lib/constants.ts:41-47 | in one experiment's defaults each parameter maps to its first candidate, and a parameter with no candidates is absent |
| Constants.IsolatedDefaultsShape | lib/constants.ts:37-51 | the defaults have one key per schema experiment, in schema order |
| Constants.IsolatedDefaultsGet | lib/constants.ts:39-48 | the defaults of experiment k map each parameter to its first candidate and omit parameters with none, so an experiment without candidates maps to `{}` |
| Constants.DefaultEncodable | lib/constants.ts:44-101 | each experiment's defaults are encodable with every value index 0, and encode to `k p 0v0 p 1v0 …` |
| Constants.DefaultVariationShape | lib/constants.ts:99-101 | when every experiment has a default, `VARIATION_WITH_DEFAULT_EXPERIMENTS` is the `e`-join of the segments `k p 0v0 p 1v0 …` |
| Constants.DefaultVariationFails | lib/constants.ts:45-101 | computing `VARIATION_WITH_DEFAULT_EXPERIMENTS` fails if and only if some experiment's defaults are `{}`, and then with the no-parameters error |
| VariationExamples.StorefrontDefaultVariation | lib/constants.ts:99-101 | under the storefront schema, `VARIATION_WITH_DEFAULT_EXPERIMENTS` is `0p0v0e1p0v0e2p0v0` |
| Variations.CartesianCount | lib/variations.ts:23-36 | `cartesian(head, ...tail)` yields the product of the input lengths many combinations |
| Variations.CartesianMember | lib/variations.ts:23-36 | a sequence is yielded if and only if it has one element per input and its k-th element comes from the k-th input |
| Variations.CartesianOrder | lib/variations.ts:31-35 | combination `r * len(head) + h` is `[head[h], ...remainder[r]]`, so the first input varies fastest |
| Variations.DocCommentOrder | lib/variations.ts:16-17 | on the doc comment's input the code yields `[1,10,100]`, `[2,10,100]`, `[1,20,100]` first, not the order that comment shows |
| Variations.CartesianEmpty | lib/variations.ts:27-35 | if any tail input is empty, nothing is yielded |
| Variations.CartesianEmptyHead | lib/variations.ts:32 | an empty head yields nothing |
| Variations.CartesianNoTail | lib/variations.ts:27-30 | with no tail, `[h]` is yielded for each `h` of `head` |
| Variations.CollectPossibleValues | lib/variations.ts:39-58 | the first two loops compute `PossibleValues` |
| Variations.FirstVariations | lib/variations.ts:60-76 | the counting loop with its `break` keeps the leading `PossibleVariations` |
| Variations.OverlayVariation | lib/variations.ts:80-94 | fresh defaults with each truthy chosen value written over them compute `Overlay` |
| Variations.GetEncodedVariations | lib/variations.ts:38-102 | the whole function computes `EncodedVariations`, throwing the first encoding error if any |
| VariationProofs.PossibleValuesShape | lib/variations.ts:48-57 | there is one choice list per (experiment, parameter), in schema order, and the list at that position is the parameter's choices |
| VariationProofs.VariationCount | lib/variations.ts:65-76 | the number of variations is `min(max(N, 1), product)` when the schema has parameters, and 0 when it has none |
| VariationProofs.KeptDrawn | lib/variations.ts:65-76 | every kept variation takes its m-th choice from the m-th choice list |
| VariationProofs.ReachedDefaults | lib/variations.ts:80 | fresh defaults hold each parameter's first candidate |
| VariationProofs.ApplyFalsy | lib/variations.ts:92 | a falsy chosen value is skipped, so the parameter keeps its default |
| VariationProofs.ApplyTruthy | lib/variations.ts:93 | a truthy chosen value overwrites exactly that experiment's parameter, in place |
| VariationProofs.ApplyStep | lib/variations.ts:82-94 | one choice moves the assignment from "the first i choices applied" to "the first i+1 choices applied" |
| VariationProofs.OverlayFromReached | lib/variations.ts:82-94 | the overlay loop ends with every choice applied |
| VariationProofs.OverlayContents | lib/variations.ts:78-94 | a variation's assignment lists every experiment and parameter in schema order, each holding its chosen candidate, or its first candidate when the chosen one is falsy |
| VariationProofs.OverlayConforms | lib/variations.ts:80-94 | a variation's assignment meets the round-trip condition of the codec |
| VariationProofs.EncodedFromAll | lib/variations.ts:78-99 | when every assignment encodes, the loop pushes their encodings in order |
| VariationProofs.EncodedFromFails | lib/variations.ts:96 | otherwise the first assignment that fails to encode decides the error |
| VariationProofs.VariationsDecode | lib/variations.ts:38-102 | for a schema whose experiments are nonempty names with parameters and candidates, `getEncodedVariations` does not throw and returns one nonempty string per kept variation, in cartesian order; each string decodes to that variation's assignment, which encodes back to the same string |
| VariationExamples.StorefrontVariations | lib/variations.ts:38-102 | with the default limit of 100, the storefront schema yields 2·2·2 = 8 variations, all encoded |
| Variations.GetExperimentPaths | lib/variations.ts:105-116 | one `{params: {experiment: s}}` per encoded variation, in the same order, or the enumeration's error |
| Variations.PathsOf | lib/variations.ts:109-113 | the loop pushes one path per string, in order |
| Variations.ExperimentPropsFrom | lib/variations.ts:124-148 | reading the encoded variation from a given key: the decoded assignment when that parameter is present, truthy and decodes, the defaults `getIsolatedExperimentDefaults()` otherwise |
| Variations.GetExperimentProps | lib/variations.ts:124-148 | as written, reading `params.experiments`: the decoded assignment when it is present, truthy and decodes; otherwise the defaults |
| Variations.GetRouteExperimentProps | lib/variations.ts:124-148 | the corrected reading of `params.experiment`, the key the generated paths carry, with the same fallback to the defaults |
| Variations.RouteParams | lib/variations.ts:110-112 | the `params` of a generated path hold exactly one key, `experiment`, whose value is the encoded variation |
| VariationProofs.GeneratedPathServesDefaults | lib/variations.ts:105-148 | as written, the `params` of every generated path lack `experiments`, so every generated page is served the defaults |
| VariationProofs.PropsOfGeneratedPath | lib/variations.ts:105-148 | reading `experiment` (the corrected props), visiting the path of any generated variation serves exactly that variation's assignment |
| VariationExamples.ThreeByTwoPathServesDefaults | lib/variations.ts:105-148 | on any three-experiment, two-candidate schema, the second generated page is served the defaults (first parameter at its first candidate) although its variation holds the second candidate, which the corrected props serve |
| VariationExamples.StorefrontPathServesDefaults | lib/variations.ts:105-148 | on the storefront, the second generated page (button "Add to cart") is served the defaults (button "Buy now") |
| Fnv1a.Fnv1a | lib/fnv1a.ts:9-19 | the loop computes `Hash`, which is below 2^32 |
| Fnv1a.Step | lib/fnv1a.ts:13-16 | one step is `((hash xor code) * 16777619) mod 2^32` and stays below 2^32 |
| Fnv1a.HashEmpty | lib/fnv1a.ts:2-18 | the empty string hashes to 2166136261 |
| Fnv1a.HashAppend | lib/fnv1a.ts:11-17 | append law: `fnv1a(s + [c]) == step(fnv1a(s), c)` |
| Fnv1a.HashInOrder | lib/fnv1a.ts:11-17 | the hash is the step folded over the code units from the offset basis, first unit first |
| Fnv1a.HashConcat | lib/fnv1a.ts:11-17 | hashing `s + t` continues the loop over `t` from the hash of `s` |
| Fnv1a.XorFits | lib/fnv1a.ts:13-16 | xoring a code unit (below 2^16) into a hash below 2^32 stays below 2^32, so only the multiplication needs truncating |
| Fnv1a.XorBits | lib/fnv1a.ts:13 | `XorNat` is exclusive or: bit i of the result is bit i of the hash plus bit i of the code unit, modulo 2 |
| Fnv1a.XorBound | lib/fnv1a.ts:13 | the xor of two n-bit numbers is an n-bit number |
| Fnv1a.HashOfA | lib/fnv1a.ts:9-19 | the string `"a"` hashes to 0xe40c292c, the published FNV-1a 32-bit reference value |

## Findings

| source | as written | input that shows it | evidently intended | confidence | as-written member | corrected member |
|---|---|---|---|---|---|---|
| lib/variations.ts:129 | `getExperimentProps` reads `params?.experiments`, but `getExperimentPaths` keys every path by `experiment` (lib/variations.ts:110-112) and the page route is named `[experiment]`, so the key read is never present on a generated page | the storefront's second generated path, whose variation has the button "Add to cart": its page is served the defaults, with "Buy now" | read `params?.experiment`, so that each generated page serves its own variation | high; not executed | VariationProofs.GeneratedPathServesDefaults | VariationProofs.PropsOfGeneratedPath |

The as-written half is also shown concretely by `VariationExamples.StorefrontPathServesDefaults`. The corrected props are `Variations.GetRouteExperimentProps`.

## Left out

- Module globals: `EXPERIMENTS` and `EXPERIMENT_NAMES` (lib/coding.ts:40, lib/constants.ts:14) are replaced by the explicit `schema` parameter. The model of `EXPERIMENT_DEFAULTS` (lib/constants.ts:15) is `IsolatedDefaults(schema)`.
- Numbers are integers compared by `===`. The model has no floating point, so no NaN or fractional parameter values. Array-valued parameters are left out, since `indexOf` compares arrays by reference and never matches them.
- `parseInt` is modelled with the default radix. It skips leading JavaScript whitespace, takes a sign and a `0x`/`0X` prefix, and reads the longest digit prefix as an exact integer. The rounding of very long numerals to a double is left out.
- Strings are sequences of Unicode scalar values. Every separator, digit and whitespace character is a single UTF-16 code unit, so `split`, `parseInt` and `===` agree with JavaScript on well-formed strings. Strings holding a lone surrogate cannot be represented. No normalisation takes place.
- `fnv1a` takes its input as a sequence of code units, the values `charCodeAt` returns. `Number(hash)` is exact because the hash is below 2^32.
- The non-array branch of the choice lists (lib/variations.ts:54) is left out. Under the schema type every parameter's candidates are an array, so that branch cannot be taken.
- `Variations.OverlayVariation`: when a choice names an experiment or parameter missing from the schema, the source would raise a `TypeError`, but the model skips it. Choices are built from the schema itself, so this never happens.
- `cartesian` is a lazy generator. Here it is the finite sequence it yields, and the early `break` is a prefix of that sequence.
- `getExperimentProps` logs a failed decode in preview environments. That logging and every `console.*` timing call are left out; the environment flag only affects logging.
- `getExperimentPaths` calls `getEncodedVariations()` with its default argument 100 (`Variations.MAX_GENERATED_VARIATIONS`).
- `Variations.Kept`: `maxGeneratedVariations` is an integer. A NaN argument, which never satisfies `count >= N` so nothing is truncated, and a fractional one such as 2.5, which keeps 3 variations, are not modelled; the only caller passes the default 100.
- Routing: the framework hands the page for a generated path the `params` that path was generated with. `Variations.RouteParams` stands for that hand-off; the page module that calls `getExperimentProps` and the middleware that rewrites requests to those paths are not part of this model.
- Cookie names, `ms()`, environment variables, the Statsig SDK, Edge Config, JWT verification, middleware and pages are not part of this model, and neither are lib/engine-identity.ts and lib/get-experiments.ts.
- Array-index key order: JavaScript enumerates integer-like keys (`"0"`, `"12"`) before all others, in ascending numeric order. `Object.keys(EXPERIMENTS)` (lib/coding.ts:40) and the `Object.entries` loops (lib/coding.ts:44, 57) would then list them out of declaration order, and the decoded records (lib/coding.ts:167, 169) would order them likewise. The model keeps insertion order throughout, so its results agree with the source only when no experiment or parameter name is an array-index string. The storefront's names are not.
- The unused `paths` field of each experiment definition is not part of the schema type.
