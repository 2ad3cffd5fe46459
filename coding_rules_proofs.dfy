/**
 * What `encodeRules` and `decodeRules` promise, stated about
 * `Coding.RuleString` and `Coding.DecodedRules`, the functions the two
 * methods are proved equal to.
 */
module RulesProofs {
  import opened Wrappers
  import opened Records
  import opened JsStrings
  import opened Types
  import opened Coding

  /**
   * The sparse array after the first `n` entries: slot `k` holds the rule
   * of the `k`-th name, the last slot is filled, and no name past the end
   * has a rule.
   */
  predicate SlotsReflect(names: seq<string>, entries: Record<string>, n: nat, rules: seq<Option<string>>)
    requires n <= |entries|
  {
    && |rules| <= |names|
    && (forall k :: 0 <= k < |rules| ==> rules[k] == Get(entries[..n], names[k]))
    && (|rules| > 0 ==> rules[|rules| - 1].Some?)
    && (forall k :: |rules| <= k < |names| ==> Get(entries[..n], names[k]).None?)
  }

  lemma SlotsStep(names: seq<string>, entries: Record<string>, n: nat, rules: seq<Option<string>>)
    requires Distinct(names) && DistinctKeys(entries)
    requires n < |entries|
    requires SlotsReflect(names, entries, n, rules)
    ensures var nameIndex := IndexOf(names, entries[n].0);
            SlotsReflect(names, entries, n + 1, if nameIndex > -1 then Place(rules, nameIndex, entries[n].1) else rules)
  {
    var nameIndex := IndexOf(names, entries[n].0);
    PrefixGet(names, entries, n);
    if nameIndex > -1 {
      PlaceReflects(names, entries, n, rules, nameIndex);
    } else {
      SkipReflects(names, entries, n, rules);
    }
  }

  lemma SkipReflects(names: seq<string>, entries: Record<string>, n: nat, rules: seq<Option<string>>)
    requires n < |entries| && entries[n].0 !in names
    requires SlotsReflect(names, entries, n, rules)
    requires forall k :: 0 <= k < |names| ==>
               Get(entries[..n + 1], names[k]) == if names[k] == entries[n].0 then Some(entries[n].1) else Get(entries[..n], names[k])
    ensures SlotsReflect(names, entries, n + 1, rules)
  {
  }

  lemma PlaceReflects(names: seq<string>, entries: Record<string>, n: nat, rules: seq<Option<string>>, nameIndex: nat)
    requires Distinct(names) && n < |entries|
    requires SlotsReflect(names, entries, n, rules)
    requires nameIndex < |names| && names[nameIndex] == entries[n].0
    requires forall k :: 0 <= k < |names| ==>
               Get(entries[..n + 1], names[k]) == if names[k] == entries[n].0 then Some(entries[n].1) else Get(entries[..n], names[k])
    ensures SlotsReflect(names, entries, n + 1, Place(rules, nameIndex, entries[n].1))
  {
    var (name, rule) := entries[n];
    var r := Place(rules, nameIndex, rule);
    forall k | 0 <= k < |r|
      ensures r[k] == Get(entries[..n + 1], names[k])
    {
      if k != nameIndex {
        assert names[k] != name;
      }
    }
    forall k | |r| <= k < |names|
      ensures Get(entries[..n + 1], names[k]).None?
    {
      assert names[k] != name;
    }
  }

  /** Adding entry `n` gives its rule to its own name and leaves every other name as it was. */
  lemma PrefixGet(names: seq<string>, entries: Record<string>, n: nat)
    requires DistinctKeys(entries) && n < |entries|
    ensures forall k :: 0 <= k < |names| ==>
              Get(entries[..n + 1], names[k]) == if names[k] == entries[n].0 then Some(entries[n].1) else Get(entries[..n], names[k])
  {
    var (name, rule) := entries[n];
    assert entries[..n + 1] == entries[..n] + [(name, rule)];
    assert name !in Keys(entries[..n]) by {
      forall i | 0 <= i < n ensures entries[..n][i].0 != name {
        assert Keys(entries)[i] != Keys(entries)[n];
      }
    }
    forall k | 0 <= k < |names|
      ensures Get(entries[..n + 1], names[k]) == if names[k] == name then Some(rule) else Get(entries[..n], names[k])
    {
      GetAppend(entries[..n], name, rule, names[k]);
    }
  }

  lemma {:induction false} SlotsAll(names: seq<string>, entries: Record<string>, n: nat, rules: seq<Option<string>>)
    requires Distinct(names) && DistinctKeys(entries)
    requires n <= |entries|
    requires SlotsReflect(names, entries, n, rules)
    ensures SlotsReflect(names, entries, |entries|, RuleSlots(names, entries, n, rules))
    decreases |entries| - n
  {
    if n < |entries| {
      SlotsStep(names, entries, n, rules);
      var nameIndex := IndexOf(names, entries[n].0);
      SlotsAll(names, entries, n + 1, if nameIndex > -1 then Place(rules, nameIndex, entries[n].1) else rules);
    }
  }

  /**
   * Each known name's rule sits at that name's schema index, unknown names
   * are ignored, and the array ends at the highest filled index.
   */
  lemma RuleSlotsContents(schema: Schema, rulesByName: Record<string>)
    requires WellFormed(schema) && DistinctKeys(rulesByName)
    ensures var names := ExperimentNames(schema);
            var slots := RuleSlots(names, rulesByName, 0, []);
            && |slots| <= |names|
            && (forall k :: 0 <= k < |slots| ==> slots[k] == Get(rulesByName, names[k]))
            && (|slots| > 0 ==> slots[|slots| - 1].Some?)
            && (forall k :: |slots| <= k < |names| ==> Get(rulesByName, names[k]).None?)
            && (forall k :: 0 <= k < |names| && Get(rulesByName, names[k]).Some? ==> k < |slots|)
  {
    var names := ExperimentNames(schema);
    assert rulesByName[..0] == [];
    SlotsAll(names, rulesByName, 0, []);
    assert rulesByName[..|rulesByName|] == rulesByName;
  }

  /** The encoded rules: slot `k` is the rule of the `k`-th experiment, or empty for a hole. */
  lemma RuleStringShape(schema: Schema, rulesByName: Record<string>)
    requires WellFormed(schema) && DistinctKeys(rulesByName)
    ensures var names := ExperimentNames(schema);
            var slots := RuleSlots(names, rulesByName, 0, []);
            && RuleString(schema, rulesByName) == Join(Holes(slots), RULES_DELINEATOR)
            && (forall k :: 0 <= k < |slots| && k < |names| ==> Holes(slots)[k] == Get(rulesByName, names[k]).GetOr(""))
  {
    RuleSlotsContents(schema, rulesByName);
  }

  /** Input with no rule for any schema experiment encodes to the empty string. */
  lemma RuleStringNoKnownNames(schema: Schema, rulesByName: Record<string>)
    requires WellFormed(schema) && DistinctKeys(rulesByName)
    requires forall k :: 0 <= k < |rulesByName| ==> rulesByName[k].0 !in ExperimentNames(schema)
    ensures RuleString(schema, rulesByName) == ""
  {
    var names := ExperimentNames(schema);
    RuleSlotsContents(schema, rulesByName);
  }

  /** The first `n` schema names paired with the first `n` pieces. */
  function Pairs(names: seq<string>, pieces: seq<string>, n: nat): (d: Record<string>)
    requires n <= |names| && n <= |pieces|
    ensures |d| == n
    ensures forall k :: 0 <= k < n ==> d[k] == (names[k], pieces[k])
  {
    seq(n, k requires 0 <= k < n => (names[k], pieces[k]))
  }

  function Min(a: nat, b: nat): nat {
    if a < b then a else b
  }

  lemma {:induction false} RulesFromPairs(names: seq<string>, pieces: seq<string>, i: nat)
    requires Distinct(names) && i <= |pieces|
    ensures RulesFrom(names, pieces, i, Pairs(names, pieces, Min(i, |names|)))
         == Pairs(names, pieces, Min(|pieces|, |names|))
    decreases |pieces| - i
  {
    if i < |pieces| {
      var d := Pairs(names, pieces, Min(i, |names|));
      var next := if i < |names| then Put(d, names[i], pieces[i]) else d;
      assert RulesFrom(names, pieces, i, d) == RulesFrom(names, pieces, i + 1, next);
      if i < |names| {
        PairsNext(names, pieces, i);
      }
      assert next == Pairs(names, pieces, Min(i + 1, |names|));
      RulesFromPairs(names, pieces, i + 1);
    }
  }

  lemma PairsNext(names: seq<string>, pieces: seq<string>, i: nat)
    requires Distinct(names) && i < |names| && i < |pieces|
    ensures Put(Pairs(names, pieces, i), names[i], pieces[i]) == Pairs(names, pieces, i + 1)
  {
    var d := Pairs(names, pieces, i);
    assert names[i] !in Keys(d) by {
      forall k | 0 <= k < i ensures d[k].0 != names[i] {
        assert names[k] != names[i];
      }
    }
    PutNew(d, names[i], pieces[i]);
    assert d + [(names[i], pieces[i])] == Pairs(names, pieces, i + 1);
  }

  /**
   * `decodeRules` never fails: piece `k` goes to the `k`-th schema name,
   * and pieces beyond the schema are dropped.
   */
  lemma DecodedRulesShape(schema: Schema, rules: string)
    requires WellFormed(schema)
    ensures var names := ExperimentNames(schema);
            var pieces := Split(rules, RULES_DELINEATOR);
            var d := DecodedRules(schema, rules);
            && |d| == Min(|pieces|, |names|)
            && forall k :: 0 <= k < |d| ==> d[k] == (names[k], pieces[k])
  {
    var names := ExperimentNames(schema);
    var pieces := Split(rules, RULES_DELINEATOR);
    RulesFromPairs(names, pieces, 0);
    assert Pairs(names, pieces, 0) == [];
  }

  /**
   * Decoding the encoded rules pairs the `k`-th schema name with the `k`-th
   * slot; an encoding with no slot at all still yields one empty piece.
   */
  lemma DecodedSlots(schema: Schema, rulesByName: Record<string>)
    requires WellFormed(schema) && DistinctKeys(rulesByName)
    requires forall e :: e in rulesByName && e.0 in ExperimentNames(schema) ==> RULES_DELINEATOR !in e.1
    ensures var names := ExperimentNames(schema);
            var slots := RuleSlots(names, rulesByName, 0, []);
            var d := DecodedRules(schema, RuleString(schema, rulesByName));
            |slots| <= |names| && |slots| <= |d| <= |names|
    ensures var names := ExperimentNames(schema);
            var slots := RuleSlots(names, rulesByName, 0, []);
            var d := DecodedRules(schema, RuleString(schema, rulesByName));
            forall k :: 0 <= k < |d| ==> d[k] == (names[k], if k < |slots| then Holes(slots)[k] else "")
  {
    var names := ExperimentNames(schema);
    RuleSlotsContents(schema, rulesByName);
    var slots := RuleSlots(names, rulesByName, 0, []);
    var s := RuleString(schema, rulesByName);
    var holes := Holes(slots);
    var pieces := Split(s, RULES_DELINEATOR);
    if |slots| == 0 {
      assert pieces == [""];
    } else {
      forall k | 0 <= k < |holes|
        ensures RULES_DELINEATOR !in holes[k]
      {
        if slots[k].Some? {
          var i := IndexOf(Keys(rulesByName), names[k]);
          assert rulesByName[i] in rulesByName;
        }
      }
      SplitJoin(holes, RULES_DELINEATOR);
    }
    DecodedRulesShape(schema, s);
  }

  /** One experiment's rule after the round trip, from the slot its name indexes. */
  lemma NamedSlot(names: seq<string>, slots: seq<Option<string>>, d: Record<string>, rulesByName: Record<string>, name: string)
    requires Distinct(names) && |slots| <= |d| <= |names|
    requires forall k :: 0 <= k < |d| ==> d[k] == (names[k], if k < |slots| then Holes(slots)[k] else "")
    requires forall k :: 0 <= k < |slots| ==> slots[k] == Get(rulesByName, names[k])
    requires forall k :: 0 <= k < |names| && Get(rulesByName, names[k]).Some? ==> k < |slots|
    requires name in names
    ensures name in Keys(rulesByName) ==> Get(d, name) == Get(rulesByName, name)
    ensures name !in Keys(rulesByName) ==> Get(d, name) in {None, Some("")}
  {
    GetNamed(d, names, name);
    var k := IndexOf(names, name);
    if k < |slots| {
      assert Get(d, name) == Some(Holes(slots)[k]);
      assert slots[k] == Get(rulesByName, name);
    } else {
      assert Get(rulesByName, name).None?;
      assert Get(d, name) in {None, Some("")};
    }
  }

  /** Looking a name up in a record whose keys are a prefix of distinct `names`. */
  lemma GetNamed(d: Record<string>, names: seq<string>, name: string)
    requires Distinct(names) && |d| <= |names|
    requires forall k :: 0 <= k < |d| ==> d[k].0 == names[k]
    requires name in names
    ensures var k := IndexOf(names, name);
            && (k < |d| ==> Get(d, name) == Some(d[k].1))
            && (k >= |d| ==> Get(d, name).None?)
  {
    var k := IndexOf(names, name);
    assert DistinctKeys(d) by {
      forall i, j | 0 <= i < j < |d| ensures Keys(d)[i] != Keys(d)[j] {
        assert Keys(d)[i] == names[i];
      }
    }
    if k < |d| {
      GetAt(d, k);
    } else {
      assert name !in Keys(d);
    }
  }

  /**
   * `decodeRules(encodeRules(r))` gives back the rule of every schema
   * experiment `r` names, when no such rule contains `,`. A schema
   * experiment `r` does not name reads as absent or as the empty rule.
   */
  lemma RulesRoundTrip(schema: Schema, rulesByName: Record<string>)
    requires WellFormed(schema) && DistinctKeys(rulesByName)
    requires forall e :: e in rulesByName && e.0 in ExperimentNames(schema) ==> RULES_DELINEATOR !in e.1
    ensures var d := DecodedRules(schema, RuleString(schema, rulesByName));
            && (forall name :: name in ExperimentNames(schema) && name in Keys(rulesByName) ==>
                  Get(d, name) == Get(rulesByName, name))
            && (forall name :: name in ExperimentNames(schema) && name !in Keys(rulesByName) ==>
                  Get(d, name) in {None, Some("")})
            && (forall name :: name !in ExperimentNames(schema) ==> Get(d, name).None?)
  {
    var names := ExperimentNames(schema);
    RuleSlotsContents(schema, rulesByName);
    var slots := RuleSlots(names, rulesByName, 0, []);
    var d := DecodedRules(schema, RuleString(schema, rulesByName));
    DecodedSlots(schema, rulesByName);
    forall name | name in names
      ensures name in Keys(rulesByName) ==> Get(d, name) == Get(rulesByName, name)
      ensures name !in Keys(rulesByName) ==> Get(d, name) in {None, Some("")}
    {
      NamedSlot(names, slots, d, rulesByName, name);
    }
    forall name | name !in names
      ensures Get(d, name).None?
    {
      assert name !in Keys(d);
    }
  }
}
