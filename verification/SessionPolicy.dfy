/**
 The policy check of a new session (services/gateway/src/routes/session-policy.ts), over the policy
 store and the policy evaluator.
 */
module SessionPolicy {
  import opened Wrappers
  import opened Policies
  import CE = ConditionEvaluator
  import PE = PolicyEvaluator
  import PS = PolicyStore

  const DEFAULT_POLICY_ID := "default-policy"

  /** What a credential says of its holder; a role that it does not mention is undefined. */
  datatype Credential = Credential(issuer: string, subject: string, role: CE.Value)

  /** The policy in force: none if evaluator or store is not configured, else the store's default policy, if it has one. */
  datatype InForce = NotConfigured | Configured(policy: Option<Policy>)

  datatype Verdict = Success | InvalidCredential | PolicyMissing | Denied(reason: string, matchedRule: Option<string>)

  datatype Input = Input(credential: Option<Credential>, robotId: string, requestedScope: seq<string>)

  function BuildRequest(credential: Credential, input: Input, rt: CE.Runtime, now: int): PE.Request {
    PE.Request(
      CE.Obj(map[
        "credential" := CE.Obj(map["issuer" := CE.Str(credential.issuer), "subject" := CE.Str(credential.subject), "role" := credential.role]),
        "context" := CE.Obj(map[
          "time" := CE.Date(now), "resource" := CE.Str(input.robotId),
          "action" := if input.requestedScope == [] then CE.Undefined else CE.Str(input.requestedScope[0])])]),
      rt, input.requestedScope)
  }

  // What a condition sees of a request, field by field.

  const FIELDS: set<string> := {"credential.issuer", "credential.subject", "credential.role", "context.time", "context.resource", "context.action"}

  ghost function Shown(field: string, credential: Credential, input: Input, now: int): CE.Value {
    if field == "credential.issuer" then CE.Str(credential.issuer)
    else if field == "credential.subject" then CE.Str(credential.subject)
    else if field == "credential.role" then credential.role
    else if field == "context.time" then CE.Date(now)
    else if field == "context.resource" then CE.Str(input.robotId)
    else if field == "context.action" && input.requestedScope != [] then CE.Str(input.requestedScope[0])
    else CE.Undefined
  }

  lemma {:induction false} FieldIs(path: string, a: string, b: string, context: CE.Value, rt: CE.Runtime)
    requires path == a + "." + b && '.' !in a && '.' !in b
    requires context.Obj? && a in context.fields && context.fields[a].Obj? && b in context.fields[a].fields
    ensures CE.Follow(context, CE.Split(path), rt) == context.fields[a].fields[b]
  {
    CE.SplitTwo(a, b);
    CE.FollowTwo(context, a, b, rt);
    CE.StepMeans(context, a, rt);
    CE.StepMeans(context.fields[a], b, rt);
  }

  lemma {:induction false} FieldParts(field: string, credential: Credential, input: Input, rt: CE.Runtime, now: int) returns (a: string, b: string)
    requires field in FIELDS
    ensures field == a + "." + b && '.' !in a && '.' !in b
    ensures var context := BuildRequest(credential, input, rt, now).context;
            && a in context.fields && context.fields[a].Obj? && b in context.fields[a].fields
            && context.fields[a].fields[b] == Shown(field, credential, input, now)
  {
    a := if field in {"credential.issuer", "credential.subject", "credential.role"} then "credential" else "context";
    b := match field
         case "credential.issuer" => "issuer"
         case "credential.subject" => "subject"
         case "credential.role" => "role"
         case "context.time" => "time"
         case "context.resource" => "resource"
         case _ => "action";
  }

  /** Each of the six paths leads to the value it is named after. */
  lemma {:induction false} ContextShows(field: string, credential: Credential, input: Input, rt: CE.Runtime, now: int)
    requires field in FIELDS
    ensures CE.Follow(BuildRequest(credential, input, rt, now).context, CE.Split(field), rt) == Shown(field, credential, input, now)
  {
    var a, b := FieldParts(field, credential, input, rt, now);
    FieldIs(field, a, b, BuildRequest(credential, input, rt, now).context, rt);
  }

  /** And there is nothing else to be seen; what is requested is the whole scope. */
  lemma {:induction false} ContextHasNoMore(credential: Credential, input: Input, rt: CE.Runtime, now: int)
    ensures var request := BuildRequest(credential, input, rt, now);
            && request.actions == input.requestedScope && request.runtime == rt
            && request.context.Obj? && request.context.fields.Keys == {"credential", "context"}
            && request.context.fields["credential"].Obj? && request.context.fields["context"].Obj?
            && request.context.fields["credential"].fields.Keys == {"issuer", "subject", "role"}
            && request.context.fields["context"].fields.Keys == {"time", "resource", "action"}
  {
  }

  /** Every condition is about one of these fields. */
  ghost predicate Plain(rules: seq<Rule>) {
    forall rule, c :: rule in rules && c in rule.conditions ==> c.field in FIELDS
  }

  /** Some rule of this effect lists a requested action, and all its conditions hold of what they see. */
  ghost predicate Speaks(rules: seq<Rule>, effect: Effect, credential: Credential, input: Input, rt: CE.Runtime, now: int) {
    exists rule :: rule in rules && rule.effect == effect && (exists a :: a in input.requestedScope && a in rule.actions)
                   && Fits(rule, credential, input, rt, now)
  }

  ghost predicate Fits(rule: Rule, credential: Credential, input: Input, rt: CE.Runtime, now: int) {
    forall c :: c in rule.conditions ==>
                  && Shown(c.field, credential, input, now) != CE.Undefined
                  && CE.Means(c.operator, Shown(c.field, credential, input, now), c.value, rt)
  }

  lemma {:induction false} SpeaksIffCalls(rules: seq<Rule>, effect: Effect, credential: Credential, input: Input, rt: CE.Runtime, now: int)
    requires Plain(rules)
    ensures PE.Calls(rules, effect, BuildRequest(credential, input, rt, now)) <==> Speaks(rules, effect, credential, input, rt, now)
  {
    var request := BuildRequest(credential, input, rt, now);
    forall rule | rule in rules
      ensures PE.Concerns(rule, request) <==> exists a :: a in input.requestedScope && a in rule.actions
      ensures PE.Satisfied(rule, request) <==> Fits(rule, credential, input, rt, now)
    {
      forall c | c in rule.conditions
        ensures CE.Tested(c, request.context, rt) == Shown(c.field, credential, input, now)
      {
        ContextShows(c.field, credential, input, rt, now);
      }
    }
  }

  /** For policies over these fields: the session may be created exactly if an allow rule speaks and no deny rule does. */
  lemma {:induction false} AdmitsIffSpeaks(policy: Policy, input: Input, rt: CE.Runtime, now: int)
    requires input.credential.Some? && Plain(policy.rules)
    ensures Admits(Configured(Some(policy)), input, rt, now) <==>
            && Speaks(policy.rules, Allow, input.credential.value, input, rt, now)
            && !Speaks(policy.rules, Deny, input.credential.value, input, rt, now)
  {
    var request := BuildRequest(input.credential.value, input, rt, now);
    PE.SomeFiresMeans(policy.rules, Allow, request);
    PE.SomeFiresMeans(policy.rules, Deny, request);
    SpeaksIffCalls(policy.rules, Allow, input.credential.value, input, rt, now);
    SpeaksIffCalls(policy.rules, Deny, input.credential.value, input, rt, now);
  }

  /** One rule, which allows some requested action to a list of roles. */
  ghost predicate AllowsRoles(rules: seq<Rule>, requestedScope: seq<string>, roles: seq<CE.Value>) {
    && |rules| == 1 && rules[0].effect == Allow
    && rules[0].conditions == [CE.Condition("credential.role", "in", CE.Arr(roles))]
    && exists a :: a in requestedScope && a in rules[0].actions
  }

  lemma {:induction false} RoleDecides(policy: Policy, roles: seq<CE.Value>, input: Input, rt: CE.Runtime, now: int)
    requires input.credential.Some? && AllowsRoles(policy.rules, input.requestedScope, roles)
    ensures var role := input.credential.value.role;
            Admits(Configured(Some(policy)), input, rt, now) <==> role != CE.Undefined && role in roles && !CE.IsReference(role)
  {
    var rule, c := policy.rules[0], CE.Condition("credential.role", "in", CE.Arr(roles));
    assert policy.rules == [rule] && rule.conditions == [c];
    OneSpeaks(rule, Allow, input.credential.value, input, rt, now);
    OneSpeaks(rule, Deny, input.credential.value, input, rt, now);
    RoleFits(rule, c, input.credential.value, input, rt, now);
    AdmitsIffSpeaks(policy, input, rt, now);
  }

  lemma {:induction false} OneSpeaks(rule: Rule, effect: Effect, credential: Credential, input: Input, rt: CE.Runtime, now: int)
    ensures Speaks([rule], effect, credential, input, rt, now) <==>
            rule.effect == effect && (exists a :: a in input.requestedScope && a in rule.actions) && Fits(rule, credential, input, rt, now)
  {
    assert rule in [rule];
  }

  lemma {:induction false} RoleFits(rule: Rule, c: CE.Condition, credential: Credential, input: Input, rt: CE.Runtime, now: int)
    requires rule.conditions == [c] && c.field == "credential.role" && c.operator == "in" && c.value.Arr?
    ensures Fits(rule, credential, input, rt, now) <==>
            credential.role != CE.Undefined && credential.role in c.value.elements && !CE.IsReference(credential.role)
  {
    assert c in rule.conditions;
    assert Shown(c.field, credential, input, now) == credential.role;
  }

  /** The session may be created: no policy is in force, or the one in force allows it to this credential. */
  ghost predicate Admits(inForce: InForce, input: Input, rt: CE.Runtime, now: int) {
    inForce.Configured? ==>
      && input.credential.Some? && inForce.policy.Some?
      && PE.IsAllowed(inForce.policy.value.rules, BuildRequest(input.credential.value, input, rt, now))
  }

  /** The store's answer at this instant. */
  method PolicyInForce(store: PS.Store?) returns (inForce: InForce)
    requires store != null ==> store.Valid()
    ensures inForce == if store == null then NotConfigured else Configured(PS.Latest(store.history, "default-policy"))
  {
    if store == null {
      return NotConfigured;
    }
    var policy := store.Get(DEFAULT_POLICY_ID);
    return Configured(policy);
  }

  /** A missing credential is reported before a missing policy, and a denial names the rule that decided it. */
  method EvaluateSessionPolicy(inForce: InForce, input: Input, rt: CE.Runtime, now: int) returns (verdict: Verdict)
    ensures verdict == Success <==> Admits(inForce, input, rt, now)
    ensures verdict == InvalidCredential <==> inForce.Configured? && input.credential == None
    ensures verdict == PolicyMissing <==> inForce == Configured(None) && input.credential.Some?
    ensures inForce.Configured? && inForce.policy.Some? && input.credential.Some? && Plain(inForce.policy.value.rules) ==>
              var rules, credential := inForce.policy.value.rules, input.credential.value;
              verdict == Success <==> Speaks(rules, Allow, credential, input, rt, now) && !Speaks(rules, Deny, credential, input, rt, now)
    ensures inForce.Configured? && inForce.policy.Some? && input.credential.Some? ==>
              var role := input.credential.value.role;
              forall roles {:trigger AllowsRoles(inForce.policy.value.rules, input.requestedScope, roles)} ::
                AllowsRoles(inForce.policy.value.rules, input.requestedScope, roles) ==>
                  (verdict == Success <==> role != CE.Undefined && role in roles && !CE.IsReference(role))
    ensures verdict.Denied? ==>
              verdict.reason == if verdict.matchedRule.Some? then "denied by rule: " + verdict.matchedRule.value else "no matching rule"
    ensures verdict.Denied? && verdict.matchedRule == None ==>
              !PE.Calls(inForce.policy.value.rules, Deny, BuildRequest(input.credential.value, input, rt, now))
    ensures verdict.Denied? && verdict.matchedRule.Some? ==>
              exists i: nat :: PE.IsDeciding(inForce.policy.value.rules, i, Deny, BuildRequest(input.credential.value, input, rt, now))
                               && inForce.policy.value.rules[i].id == verdict.matchedRule.value
  {
    if inForce == NotConfigured {
      return Success;
    }
    if input.credential == None {
      return InvalidCredential;
    }
    if inForce.policy == None {
      return PolicyMissing;
    }
    if Plain(inForce.policy.value.rules) {
      AdmitsIffSpeaks(inForce.policy.value, input, rt, now);
    }
    forall roles | AllowsRoles(inForce.policy.value.rules, input.requestedScope, roles)
      ensures var role := input.credential.value.role;
              Admits(inForce, input, rt, now) <==> role != CE.Undefined && role in roles && !CE.IsReference(role)
    {
      RoleDecides(inForce.policy.value, roles, input, rt, now);
    }
    var request := BuildRequest(input.credential.value, input, rt, now);
    var e := PE.Evaluate(inForce.policy.value, request);
    if e.decision == Allow {
      return Success;
    }
    DeniedBy(e, inForce.policy.value, request);
    return Denied(e.reason.value, e.matchedRule);
  }

  lemma {:induction false} DeniedBy(e: PE.Evaluation, policy: Policy, request: PE.Request)
    requires PE.IsDenyOverrides(e, policy, request) && e.decision == Deny
    ensures e.reason == Some(if e.matchedRule.Some? then "denied by rule: " + e.matchedRule.value else "no matching rule")
    ensures e.matchedRule == None ==> !PE.Calls(policy.rules, Deny, request)
    ensures e.matchedRule.Some? ==>
              exists i: nat :: PE.IsDeciding(policy.rules, i, Deny, request) && policy.rules[i].id == e.matchedRule.value
  {
    PE.SomeFiresMeans(policy.rules, Deny, request);
    if PE.SomeFires(policy.rules, Deny, request) || PE.SomeFires(policy.rules, Allow, request) {
      var i: nat :| PE.NamesRule(e, policy, i, request);
      assert PE.IsDeciding(policy.rules, i, Deny, request);
    }
  }

  /** What the policy in force allows of the request is exactly this scope. */
  ghost predicate AllowsExactly(inForce: InForce, input: Input, rt: CE.Runtime, now: int, scope: seq<string>)
    requires Admits(inForce, input, rt, now)
  {
    inForce.Configured? ==>
      exists e :: PE.IsDenyOverrides(e, inForce.policy.value, BuildRequest(input.credential.value, input, rt, now)) && e.allowedActions == scope
  }

  /** The rule that decides lists every action of the scope. */
  ghost predicate ListsAll(inForce: InForce, input: Input, rt: CE.Runtime, now: int, scope: seq<string>)
    requires Admits(inForce, input, rt, now)
  {
    inForce.Configured? ==>
      exists i: nat :: PE.IsDeciding(inForce.policy.value.rules, i, Allow, BuildRequest(input.credential.value, input, rt, now))
                       && forall a :: a in scope ==> a in inForce.policy.value.rules[i].actions
  }

  /**
   A session is created with the whole requested scope, not with the allowed actions. They are the same
   exactly when the deciding rule lists every requested action.
   */
  lemma {:induction false} ScopeIsAllowedIff(inForce: InForce, input: Input, rt: CE.Runtime, now: int)
    requires Admits(inForce, input, rt, now)
    ensures AllowsExactly(inForce, input, rt, now, input.requestedScope) <==> ListsAll(inForce, input, rt, now, input.requestedScope)
  {
    if inForce.Configured? {
      var policy, request := inForce.policy.value, BuildRequest(input.credential.value, input, rt, now);
      var e, i := PE.AllowedEvaluation(policy, request);
      IntersectionIsAllIff(request.actions, policy.rules[i].actions);
      if d :| PE.IsDenyOverrides(d, policy, request) && d.allowedActions == input.requestedScope {
        PE.MeaningDetermines(policy, d, e, request);
      }
    }
  }

  lemma {:induction false} IntersectionIsAllIff(requested: seq<string>, ruleActions: seq<string>)
    ensures PE.IntersectActions(requested, ruleActions) == requested <==> forall a :: a in requested ==> a in ruleActions
    ensures |PE.IntersectActions(requested, ruleActions)| <= |requested|
    decreases |requested|
  {
    if requested != [] {
      IntersectionIsAllIff(requested[1..], ruleActions);
      assert requested == [requested[0]] + requested[1..];
    }
  }
}
