/** The shapes of the experiment schema and of experiment assignments. */
module Types {
  import opened Records

  /**
   * A parameter value: a JavaScript string, number or boolean. Numbers are
   * represented by integers; strict equality (`===`) is datatype equality.
   */
  datatype Value = Str(s: string) | Num(n: int) | Bool(b: bool)

  /** The values JavaScript treats as false in a condition. */
  predicate Falsy(v: Value) {
    v == Str("") || v == Num(0) || v == Bool(false)
  }

  /** An experiment definition's `params`: parameter name to its ordered candidate values. */
  type Params = Record<seq<Value>>

  /** The experiment schema: experiment name to its `params` (the unused `paths` is left out). */
  type Schema = Record<Params>

  /** One experiment's assignment: parameter name to the chosen value. */
  type CodableExperiment = Record<Value>

  /** An assignment: experiment name to that experiment's parameter assignment. */
  type CodableExperiments = Record<CodableExperiment>

  /** A route parameter as Next.js passes it: one string or several. */
  datatype QueryValue = Single(s: string) | Many(items: seq<string>)

  /** What JavaScript objects guarantee: experiment names, and parameter names within an experiment, are distinct. */
  predicate WellFormed(schema: Schema) {
    DistinctKeys(schema) && forall k :: 0 <= k < |schema| ==> DistinctKeys(schema[k].1)
  }
}
