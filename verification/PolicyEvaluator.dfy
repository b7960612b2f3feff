/**
 The policy evaluator (services/gateway/src/policy/policy-evaluator.ts): two passes over the rules in
 order of priority. The specification does not sort: deny wins over allow, allow over the default,
 and the deciding rule is the least by priority and then by position in the policy.
 */
module PolicyEvaluator {
  import opened Wrappers
  import opened Sorting
  import opened Policies
  import CE = ConditionEvaluator

  datatype Evaluation = Evaluation(
    decision: Effect, matchedRule: Option<string>, reason: Option<string>, allowedActions: seq<string>,
    policyId: string, policyVersion: nat, policyHash: string)

  /** A request: the context, what JavaScript adds to it, and the actions asked for. */
  datatype Request = Request(context: CE.Value, runtime: CE.Runtime, actions: seq<string>)

  function Priority(): Rule -> int {
    (rule: Rule) => rule.priority
  }

  /** All the conditions of a rule hold. */
  predicate Applies(rule: Rule, request: Request) {
    forall i :: 0 <= i < |rule.conditions| ==> CE.Holds(rule.conditions[i], request.context, request.runtime)
  }

  predicate MatchesRule(rule: Rule, request: Request) {
    && (exists i :: 0 <= i < |request.actions| && request.actions[i] in rule.actions)
    && Applies(rule, request)
  }

  /** The rule has the effect and matches. */
  predicate Fires(rule: Rule, effect: Effect, request: Request) {
    rule.effect == effect && MatchesRule(rule, request)
  }

  ghost predicate SomeFires(rules: seq<Rule>, effect: Effect, request: Request) {
    exists rule :: rule in rules && Fires(rule, effect, request)
  }

  // What it takes for a rule to fire, in terms of the meaning of its conditions.

  /** Some requested action is one that the rule is about. */
  ghost predicate Concerns(rule: Rule, request: Request) {
    exists a :: a in request.actions && a in rule.actions
  }

  /** Every condition tests a field that is there, and stands to it as its operator means. */
  ghost predicate Satisfied(rule: Rule, request: Request) {
    forall c :: c in rule.conditions ==>
                  && CE.Tested(c, request.context, request.runtime) != CE.Undefined
                  && CE.Means(c.operator, CE.Tested(c, request.context, request.runtime), c.value, request.runtime)
  }

  /** Some rule of this effect concerns the request and is satisfied by it. */
  ghost predicate Calls(rules: seq<Rule>, effect: Effect, request: Request) {
    exists rule :: rule in rules && rule.effect == effect && Concerns(rule, request) && Satisfied(rule, request)
  }

  lemma {:induction false} AppliesMeans(rule: Rule, request: Request)
    ensures Applies(rule, request) <==> Satisfied(rule, request)
  {
    forall c | c in rule.conditions
      ensures CE.Holds(c, request.context, request.runtime) <==>
              && CE.Tested(c, request.context, request.runtime) != CE.Undefined
              && CE.Means(c.operator, CE.Tested(c, request.context, request.runtime), c.value, request.runtime)
    {
      CE.TestMeans(c.operator, CE.Tested(c, request.context, request.runtime), c.value, request.runtime);
    }
    assert Applies(rule, request) <==> forall c :: c in rule.conditions ==> CE.Holds(c, request.context, request.runtime);
  }

  lemma {:induction false} FiresMeans(rule: Rule, effect: Effect, request: Request)
    ensures Fires(rule, effect, request) <==> rule.effect == effect && Concerns(rule, request) && Satisfied(rule, request)
  {
    AppliesMeans(rule, request);
    if a :| a in request.actions && a in rule.actions {
      var i :| 0 <= i < |request.actions| && request.actions[i] == a;
    }
  }

  lemma {:induction false} SomeFiresMeans(rules: seq<Rule>, effect: Effect, request: Request)
    ensures SomeFires(rules, effect, request) <==> Calls(rules, effect, request)
  {
    forall rule ensures Fires(rule, effect, request) <==> rule.effect == effect && Concerns(rule, request) && Satisfied(rule, request) {
      FiresMeans(rule, effect, request);
    }
  }

  // ------------------------------------------------------------- the requested actions

  function IntersectActions(requested: seq<string>, ruleActions: seq<string>): seq<string> {
    if requested == [] then []
    else
      var rest := IntersectActions(requested[1..], ruleActions);
      if requested[0] in ruleActions then [requested[0]] + rest else rest
  }

  /** `s` is what is left of `t` when some elements are crossed out. */
  ghost predicate IsSublist(s: seq<string>, t: seq<string>)
    decreases |t|
  {
    s == [] || (t != [] && (IsSublist(s, t[1..]) || (s[0] == t[0] && IsSublist(s[1..], t[1..]))))
  }

  /** The common actions in the order of the request, each as often as the request has it. */
  ghost predicate IsCommonPart(s: seq<string>, requested: seq<string>, ruleActions: seq<string>) {
    && IsSublist(s, requested)
    && (forall a :: multiset(s)[a] == if a in ruleActions then multiset(requested)[a] else 0)
  }

  lemma {:induction false} IntersectionIsCommonPart(requested: seq<string>, ruleActions: seq<string>)
    ensures IsCommonPart(IntersectActions(requested, ruleActions), requested, ruleActions)
    decreases |requested|
  {
    if requested != [] {
      IntersectionIsCommonPart(requested[1..], ruleActions);
      assert requested == [requested[0]] + requested[1..];
      var rest := IntersectActions(requested[1..], ruleActions);
      assert ([requested[0]] + rest)[1..] == rest;
    }
  }

  lemma {:induction false} SublistCounts(s: seq<string>, t: seq<string>)
    requires IsSublist(s, t)
    ensures multiset(s) <= multiset(t)
    decreases |t|
  {
    if s != [] {
      assert t == [t[0]] + t[1..] && s == [s[0]] + s[1..];
      if IsSublist(s, t[1..]) {
        SublistCounts(s, t[1..]);
      } else {
        SublistCounts(s[1..], t[1..]);
      }
    }
  }

  /** There is only one such common part. */
  lemma {:induction false} CommonPartIsIntersection(s: seq<string>, requested: seq<string>, ruleActions: seq<string>)
    requires IsCommonPart(s, requested, ruleActions)
    ensures s == IntersectActions(requested, ruleActions)
    decreases |requested|
  {
    if requested != [] {
      var rest := requested[1..];
      assert requested == [requested[0]] + rest;
      if requested[0] in ruleActions {
        if IsSublist(s, rest) {
          SublistCounts(s, rest);
        }
        assert s == [s[0]] + s[1..];
        CommonPartIsIntersection(s[1..], rest, ruleActions);
      } else {
        assert requested[0] !in multiset(s);
        CommonPartIsIntersection(s, rest, ruleActions);
      }
    }
  }

  // ------------------------------------------------------------- the deciding rule

  /** Rule `i` fires, and none that fires comes before it by priority and position. */
  ghost predicate IsDeciding(rules: seq<Rule>, i: nat, effect: Effect, request: Request) {
    && i < |rules| && Fires(rules[i], effect, request)
    && (forall j :: 0 <= j < |rules| && Fires(rules[j], effect, request) ==>
                      rules[i].priority < rules[j].priority || (rules[i].priority == rules[j].priority && i <= j))
  }

  /** The first rule of a list that fires. */
  function First(rules: seq<Rule>, effect: Effect, request: Request): (r: Option<Rule>)
    ensures r.Some? ==> r.value in rules && Fires(r.value, effect, request)
    ensures r == None ==> forall rule :: rule in rules ==> !Fires(rule, effect, request)
  {
    if rules == [] then None
    else if Fires(rules[0], effect, request) then Some(rules[0])
    else First(rules[1..], effect, request)
  }

  lemma {:induction false} FirstIs(rules: seq<Rule>, n: nat, effect: Effect, request: Request)
    requires n < |rules| && Fires(rules[n], effect, request)
    requires forall i :: 0 <= i < n ==> !Fires(rules[i], effect, request)
    ensures First(rules, effect, request) == Some(rules[n])
    decreases n
  {
    if n > 0 {
      FirstIs(rules[1..], n - 1, effect, request);
    }
  }

  /** Inserting a rule before its equals: it becomes the first to fire unless one of lower priority number fires. */
  lemma {:induction false} FirstOfInsert(x: Rule, rules: seq<Rule>, effect: Effect, request: Request)
    requires SortedBy(rules, Priority())
    ensures var first := First(rules, effect, request);
            First(Insert(x, rules, Priority()), effect, request)
            == if Fires(x, effect, request) && (first == None || x.priority <= first.value.priority) then Some(x) else first
    decreases |rules|
  {
    var first := First(rules, effect, request);
    if rules == [] || x.priority <= rules[0].priority {
      assert ([x] + rules)[1..] == rules;
      if first.Some? {
        var i :| 0 <= i < |rules| && rules[i] == first.value;
        assert Priority()(rules[0]) <= Priority()(rules[i]);
      }
    } else {
      var rest := Insert(x, rules[1..], Priority());
      assert ([rules[0]] + rest)[1..] == rest;
      FirstOfInsert(x, rules[1..], effect, request);
    }
  }

  /** The first rule to fire in the sorted list is the deciding one of the unsorted list. */
  lemma {:induction false} FirstSortedDecides(rules: seq<Rule>, effect: Effect, request: Request) returns (i: nat)
    requires First(StableSort(rules, Priority()), effect, request).Some?
    ensures IsDeciding(rules, i, effect, request)
    ensures First(StableSort(rules, Priority()), effect, request) == Some(rules[i])
    decreases |rules|
  {
    var rest := StableSort(rules[1..], Priority());
    StableSortSorts(rules[1..], Priority());
    FirstOfInsert(rules[0], rest, effect, request);
    var first := First(rest, effect, request);
    if first == None {
      i := 0;
      SameRules(rules[1..], rest);
      assert forall j :: 0 < j < |rules| ==> rules[j] == rules[1..][j - 1];
    } else {
      var k := FirstSortedDecides(rules[1..], effect, request);
      i := if Fires(rules[0], effect, request) && rules[0].priority <= first.value.priority then 0 else k + 1;
      assert forall j :: 0 < j < |rules| ==> rules[j] == rules[1..][j - 1];
    }
  }

  lemma {:induction false} SameRules(a: seq<Rule>, b: seq<Rule>)
    requires multiset(a) == multiset(b)
    ensures forall rule :: rule in a <==> rule in b
  {
    forall rule ensures rule in a <==> rule in b {
      assert rule in a <==> rule in multiset(a);
      assert rule in b <==> rule in multiset(b);
    }
  }

  // ------------------------------------------------------------- evaluation

  /** Deny overrides allow, and there is no allowing by default. */
  ghost predicate IsAllowed(rules: seq<Rule>, request: Request) {
    SomeFires(rules, Allow, request) && !SomeFires(rules, Deny, request)
  }

  /** The evaluation names rule `i` of the policy. */
  ghost predicate NamesRule(e: Evaluation, policy: Policy, i: nat, request: Request) {
    && IsDeciding(policy.rules, i, e.decision, request)
    && e.matchedRule == Some(policy.rules[i].id)
    && (e.decision == Deny ==> e.reason == Some("denied by rule: " + policy.rules[i].id) && e.allowedActions == [])
    && (e.decision == Allow ==>
          e.reason == None && e.allowedActions != [] && IsCommonPart(e.allowedActions, request.actions, policy.rules[i].actions))
  }

  /** The declarative meaning of an evaluation. */
  ghost predicate IsDenyOverrides(e: Evaluation, policy: Policy, request: Request) {
    && (e.decision == Allow <==> IsAllowed(policy.rules, request))
    && (if SomeFires(policy.rules, Deny, request) || SomeFires(policy.rules, Allow, request)
        then exists i: nat :: NamesRule(e, policy, i, request)
        else e.matchedRule == None && e.reason == Some("no matching rule") && e.allowedActions == [])
    && e.policyId == policy.id && e.policyVersion == policy.version && e.policyHash == policy.hash
  }

  /** One pass: the position of the first rule that fires. */
  method Pass(sortedRules: seq<Rule>, effect: Effect, request: Request) returns (found: Option<Rule>)
    ensures found == First(sortedRules, effect, request)
  {
    for i := 0 to |sortedRules|
      invariant forall j :: 0 <= j < i ==> !Fires(sortedRules[j], effect, request)
    {
      var rule := sortedRules[i];
      if rule.effect == effect && MatchesRule(rule, request) {
        FirstIs(sortedRules, i, effect, request);
        return Some(rule);
      }
    }
    return None;
  }

  method Evaluate(policy: Policy, request: Request) returns (e: Evaluation)
    ensures IsDenyOverrides(e, policy, request)
    ensures e.decision == Allow <==> Calls(policy.rules, Allow, request) && !Calls(policy.rules, Deny, request)
  {
    SomeFiresMeans(policy.rules, Allow, request);
    SomeFiresMeans(policy.rules, Deny, request);
    var sortedRules := StableSort(policy.rules, Priority());
    var base := Evaluation(Deny, None, None, [], policy.id, policy.version, policy.hash);

    var denied := Pass(sortedRules, Deny, request);
    FirstMeans(policy.rules, Deny, request);
    if denied.Some? {
      e := base.(matchedRule := Some(denied.value.id), reason := Some("denied by rule: " + denied.value.id));
      var i := FirstSortedDecides(policy.rules, Deny, request);
      assert NamesRule(e, policy, i, request);
      return;
    }

    var allowed := Pass(sortedRules, Allow, request);
    FirstMeans(policy.rules, Allow, request);
    if allowed.Some? {
      e := base.(decision := Allow, matchedRule := Some(allowed.value.id),
                 allowedActions := IntersectActions(request.actions, allowed.value.actions));
      var i := FirstSortedDecides(policy.rules, Allow, request);
      AllowsSomething(request, allowed.value);
      assert NamesRule(e, policy, i, request);
      return;
    }
    e := base.(reason := Some("no matching rule"));
  }

  lemma {:induction false} FirstMeans(rules: seq<Rule>, effect: Effect, request: Request)
    ensures First(StableSort(rules, Priority()), effect, request).Some? <==> SomeFires(rules, effect, request)
  {
    StableSortSorts(rules, Priority());
    SameRules(StableSort(rules, Priority()), rules);
  }

  lemma {:induction false} AllowsSomething(request: Request, rule: Rule)
    requires MatchesRule(rule, request)
    ensures IntersectActions(request.actions, rule.actions) != []
    ensures IsCommonPart(IntersectActions(request.actions, rule.actions), request.actions, rule.actions)
  {
    IntersectionIsCommonPart(request.actions, rule.actions);
    var i :| 0 <= i < |request.actions| && request.actions[i] in rule.actions;
    assert request.actions[i] in multiset(request.actions);
  }

  /** Of an allowed request: its evaluation, and the rule that decides. */
  lemma {:induction false} AllowedEvaluation(policy: Policy, request: Request) returns (e: Evaluation, i: nat)
    requires IsAllowed(policy.rules, request)
    ensures IsDenyOverrides(e, policy, request) && IsDeciding(policy.rules, i, Allow, request)
    ensures e.allowedActions == IntersectActions(request.actions, policy.rules[i].actions)
  {
    FirstMeans(policy.rules, Allow, request);
    i := FirstSortedDecides(policy.rules, Allow, request);
    AllowsSomething(request, policy.rules[i]);
    e := Evaluation(Allow, Some(policy.rules[i].id), None, IntersectActions(request.actions, policy.rules[i].actions),
                    policy.id, policy.version, policy.hash);
    assert NamesRule(e, policy, i, request);
  }

  // ------------------------------------------------------------- what follows

  /** The order of the rules in a policy never changes the decision, nor the priority of the rule that is named. */
  lemma {:induction false} OrderDoesNotMatter(p: Policy, q: Policy, d: Evaluation, e: Evaluation, request: Request, i: nat, j: nat)
    requires multiset(p.rules) == multiset(q.rules)
    requires IsDenyOverrides(d, p, request) && IsDenyOverrides(e, q, request)
    ensures d.decision == e.decision
    ensures NamesRule(d, p, i, request) && NamesRule(e, q, j, request) ==> p.rules[i].priority == q.rules[j].priority
  {
    SameRules(p.rules, q.rules);
    if NamesRule(d, p, i, request) && NamesRule(e, q, j, request) {
      assert p.rules[i] in q.rules && q.rules[j] in p.rules;
      var k :| 0 <= k < |q.rules| && q.rules[k] == p.rules[i];
      var l :| 0 <= l < |p.rules| && p.rules[l] == q.rules[j];
    }
  }

  /** With distinct priorities among the rules that could decide, the order does not change the rule either. */
  lemma {:induction false} DistinctPrioritiesFixTheRule(p: Policy, q: Policy, d: Evaluation, e: Evaluation, request: Request, i: nat, j: nat)
    requires multiset(p.rules) == multiset(q.rules)
    requires IsDenyOverrides(d, p, request) && IsDenyOverrides(e, q, request)
    requires NamesRule(d, p, i, request) && NamesRule(e, q, j, request)
    requires forall r, s :: (r in p.rules && s in p.rules && Fires(r, d.decision, request) && Fires(s, d.decision, request)) ==>
                              r.priority == s.priority ==> r == s
    ensures p.rules[i] == q.rules[j]
  {
    OrderDoesNotMatter(p, q, d, e, request, i, j);
    SameRules(p.rules, q.rules);
    assert q.rules[j] in p.rules && p.rules[i] in p.rules;
  }

  /** Two evaluations of the same policy and request agree: the meaning determines the answer. */
  lemma {:induction false} MeaningDetermines(p: Policy, d: Evaluation, e: Evaluation, request: Request)
    requires IsDenyOverrides(d, p, request) && IsDenyOverrides(e, p, request)
    ensures d == e
  {
    if SomeFires(p.rules, Deny, request) || SomeFires(p.rules, Allow, request) {
      var i: nat :| NamesRule(d, p, i, request);
      var j: nat :| NamesRule(e, p, j, request);
      assert d.decision == e.decision;
      assert Fires(p.rules[i], d.decision, request) && Fires(p.rules[j], d.decision, request);
      assert i == j;
      if d.decision == Allow {
        CommonPartIsIntersection(d.allowedActions, request.actions, p.rules[i].actions);
        CommonPartIsIntersection(e.allowedActions, request.actions, p.rules[i].actions);
      }
    }
  }

  /** An allowed action was requested, is listed by an allow rule that applies, and by no deny rule that applies. */
  lemma {:induction false} AllowedActionsAreSafe(p: Policy, e: Evaluation, request: Request, action: string)
    requires IsDenyOverrides(e, p, request) && action in e.allowedActions
    ensures action in request.actions
    ensures exists rule :: rule in p.rules && rule.effect == Allow && action in rule.actions && Satisfied(rule, request)
    ensures !exists rule :: rule in p.rules && rule.effect == Deny && action in rule.actions && Satisfied(rule, request)
  {
    var i: nat :| NamesRule(e, p, i, request);
    assert action in multiset(e.allowedActions);
    assert action in multiset(request.actions);
    AppliesMeans(p.rules[i], request);
    if rule :| rule in p.rules && rule.effect == Deny && action in rule.actions && Satisfied(rule, request) {
      AppliesMeans(rule, request);
      assert Fires(rule, Deny, request);
    }
  }

  /** Adding deny rules, anywhere, can only take permissions away. */
  lemma {:induction false} MoreDenyAllowsLess(p: Policy, q: Policy, d: Evaluation, e: Evaluation, request: Request)
    requires forall rule :: rule in p.rules ==> rule in q.rules
    requires forall rule :: rule in q.rules && rule !in p.rules ==> rule.effect == Deny
    requires IsDenyOverrides(d, p, request) && IsDenyOverrides(e, q, request)
    ensures e.decision == Allow ==> d.decision == Allow
  {
    if e.decision == Allow {
      var rule :| rule in q.rules && Fires(rule, Allow, request);
      assert rule in p.rules;
    }
  }
}
