/**
 * The strong-rule filter applied to the association rules the mining library
 * produced: both lift and confidence must clear their floors strictly.
 */
module Rules {
  import opened Filtering

  /**
   * One row of the rule table: the item sets on either side and the metrics
   * the filter reads.
   */
  datatype Rule = Rule(antecedents: set<string>, consequents: set<string>,
                       confidence: real, lift: real)

  /** The floors of the filter; both comparisons are strict. */
  const MinLift: real := 1.2
  const MinConfidence: real := 0.5

  predicate IsStrong(rule: Rule)
  {
    rule.lift > MinLift && rule.confidence > MinConfidence
  }

  /**
   * The strong rules: a rule is kept exactly when its lift exceeds 1.2 and its
   * confidence exceeds 0.5; a rule at either floor is dropped.
   */
  function StrongRules(rules: seq<Rule>): (strong: seq<Rule>)
    ensures |strong| <= |rules|
    ensures forall r :: r in strong <==> r in rules && r.lift > 1.2 && r.confidence > 0.5
  {
    Filter(IsStrong, rules)
  }

  /** The strong rules keep their order in the rule table, each with its multiplicity. */
  lemma StrongRulesKeepOrder(rules: seq<Rule>, x: Rule)
    ensures IsSubsequence(StrongRules(rules), rules)
    ensures multiset(StrongRules(rules))[x] ==
              if x.lift > 1.2 && x.confidence > 0.5 then multiset(rules)[x] else 0
  {
    FilterIsSubsequence(IsStrong, rules);
    FilterMultiplicity(IsStrong, rules, x);
  }
}
