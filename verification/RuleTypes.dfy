/**
 * A validated rule, as the loader hands it on. What a predicate reads is not modelled: a tick says whether it
 * matched.
 */
module RuleTypes {
  import opened Common

  datatype RuleKind = React | Inhibit

  datatype Rule = Rule(
    id: string,
    kind: RuleKind,
    run: string,              // the action a react rule admits
    disable: seq<string>,     // the names an inhibit rule evicts
    cooldownS: real,
    hysteresis: real,
    durationS: Option<real>
  )

  /** The loader refuses a negative cooldown or hysteresis. */
  predicate ValidTimes(rule: Rule) {
    rule.cooldownS >= 0.0 && rule.hysteresis >= 0.0
  }

  predicate DistinctRules(rules: seq<Rule>) {
    forall i, j :: 0 <= i < j < |rules| ==> rules[i].id != rules[j].id
  }
}
