/** The gateway's policies and their rules (services/gateway/src/policy/types.ts). */
module Policies {
  import opened Wrappers
  import CE = ConditionEvaluator

  datatype Effect = Allow | Deny

  datatype Rule = Rule(id: string, effect: Effect, conditions: seq<CE.Condition>, actions: seq<string>, priority: int)

  datatype Policy = Policy(
    id: string, version: nat, name: string, description: Option<string>, rules: seq<Rule>,
    createdAt: int, updatedAt: int, hash: string)
}
