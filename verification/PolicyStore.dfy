/**
 The versioned policy store (services/gateway/src/policy/policy-store.ts): the current policies and
 their histories, in two maps that are updated side by side.
 */
module PolicyStore {
  import opened Wrappers
  import opened Policies

  datatype PolicyError = NotFound(id: string) | AlreadyExists(id: string) | MaxPoliciesExceeded(max: int)

  datatype CreateInput = CreateInput(id: string, name: string, description: Option<string>, rules: seq<Rule>)

  datatype UpdateInput = UpdateInput(name: Option<string>, description: Option<string>, rules: Option<seq<Rule>>)

  type Hash = seq<Rule> -> string

  type Histories = map<string, seq<Policy>>

  function OrElse<T>(o: Option<T>, otherwise: T): T {
    if o.Some? then o.value else otherwise
  }

  /** The versions of one policy: numbered from 1, all of one identity, each with the hash of its own rules. */
  ghost predicate IsHistory(id: string, versions: seq<Policy>, hash: Hash) {
    && versions != []
    && (forall i :: 0 <= i < |versions| ==>
                      && versions[i].id == id && versions[i].version == i + 1
                      && versions[i].hash == hash(versions[i].rules)
                      && versions[i].createdAt == versions[0].createdAt)
  }

  /** Both maps have the same keys, and the current policy is the last of its history. */
  ghost predicate Agree(policies: map<string, Policy>, history: Histories, hash: Hash) {
    && policies.Keys == history.Keys
    && (forall id {:trigger IsCurrent(id, policies[id], history[id], hash)} :: id in policies && id in history ==>
          IsCurrent(id, policies[id], history[id], hash))
  }

  ghost predicate IsCurrent(id: string, policy: Policy, versions: seq<Policy>, hash: Hash) {
    IsHistory(id, versions, hash) && policy == versions[|versions| - 1]
  }

  /** Filing a new current version together with its history. */
  lemma {:induction false} AgreeWith(policies: map<string, Policy>, history: Histories, hash: Hash, id: string, p: Policy, versions: seq<Policy>)
    requires Agree(policies, history, hash) && IsCurrent(id, p, versions, hash)
    ensures Agree(policies[id := p], history[id := versions], hash)
    ensures |policies[id := p]| == |policies| + if id in policies then 0 else 1
  {
    assert policies[id := p].Keys == policies.Keys + {id};
    forall i | i in policies && i != id ensures IsCurrent(i, policies[i], history[i], hash) {
    }
  }

  lemma {:induction false} AgreeWithout(policies: map<string, Policy>, history: Histories, hash: Hash, id: string)
    requires Agree(policies, history, hash)
    ensures Agree(policies - {id}, history - {id}, hash) && |policies - {id}| <= |policies|
  {
    assert policies.Keys == (policies - {id}).Keys + (policies.Keys * {id});
    forall i | i in policies && i != id ensures IsCurrent(i, policies[i], history[i], hash) {
    }
  }

  /** The next version of a policy. */
  lemma {:induction false} NextVersion(id: string, policy: Policy, versions: seq<Policy>, hash: Hash, next: Policy)
    requires IsCurrent(id, policy, versions, hash)
    requires next.id == id && next.version == policy.version + 1 && next.createdAt == policy.createdAt && next.hash == hash(next.rules)
    ensures IsCurrent(id, next, versions + [next], hash)
  {
  }

  class Store {
    const computeHash: Hash
    const maxPolicies: int
    var policies: map<string, Policy>
    var history: Histories

    ghost predicate Valid()
      reads this
    {
      Agree(policies, history, computeHash) && |policies| <= Max(0, maxPolicies)
    }

    constructor (computeHash: Hash, maxPolicies: int)
      ensures Valid() && history == map[]
      ensures this.computeHash == computeHash && this.maxPolicies == maxPolicies
    {
      this.computeHash, this.maxPolicies := computeHash, maxPolicies;
      policies, history := map[], map[];
    }

    /** The current version: the last of the history. */
    method Get(id: string) returns (policy: Option<Policy>)
      requires Valid()
      ensures policy == Latest(history, id)
      ensures policy.Some? <==> id in history
    {
      assert id in policies ==> IsCurrent(id, policies[id], history[id], computeHash);
      return if id in policies then Some(policies[id]) else None;
    }

    /** Searching the history for a version finds the element at that place, if there is one. */
    method GetByVersion(id: string, version: int) returns (policy: Option<Policy>)
      requires Valid()
      ensures policy == if id in history && 1 <= version <= |history[id]| then Some(history[id][version - 1]) else None
    {
      if id !in history {
        return None;
      }
      var versions := history[id];
      assert IsCurrent(id, policies[id], versions, computeHash);
      for i := 0 to |versions|
        invariant !(1 <= version <= i)
      {
        if versions[i].version == version {
          return Some(versions[i]);
        }
      }
      return None;
    }

    method Create(input: CreateInput, now: int) returns (r: Result<Policy, PolicyError>)
      requires Valid()
      modifies this
      ensures Valid()
      ensures r == if input.id in old(history) then Err(AlreadyExists(input.id))
                   else if |old(history)| >= maxPolicies then Err(MaxPoliciesExceeded(maxPolicies))
                   else Ok(Policy(input.id, 1, input.name, input.description, input.rules, now, now, computeHash(input.rules)))
      ensures history == if r.Ok? then old(history)[input.id := [r.value]] else old(history)
    {
      SameSize(policies, history);
      if input.id in policies {
        r := Err(AlreadyExists(input.id));
      } else if |policies| >= maxPolicies {
        r := Err(MaxPoliciesExceeded(maxPolicies));
      } else {
        var policy := Policy(input.id, 1, input.name, input.description, input.rules, now, now, computeHash(input.rules));
        AgreeWith(policies, history, computeHash, input.id, policy, [policy]);
        policies := policies[input.id := policy];
        history := history[input.id := [policy]];
        r := Ok(policy);
      }
    }

    method Update(id: string, updates: UpdateInput, now: int) returns (r: Result<Policy, PolicyError>)
      requires Valid()
      modifies this
      ensures Valid()
      ensures r.Err? <==> id !in old(history)
      ensures r.Err? ==> r.error == NotFound(id) && history == old(history)
      ensures r.Ok? ==> history == old(history)[id := old(history)[id] + [r.value]]
      ensures r.Ok? ==> Latest(old(history), id).Some? && IsUpdate(Latest(old(history), id).value, updates, now, r.value)
    {
      if id !in policies {
        return Err(NotFound(id));
      }
      assert IsCurrent(id, policies[id], history[id], computeHash);
      var updated := Updated(policies[id], updates, now);
      NextVersion(id, policies[id], history[id], computeHash, updated);
      var versions := (if id in history then history[id] else []) + [updated];
      AgreeWith(policies, history, computeHash, id, updated, versions);
      policies := policies[id := updated];
      history := history[id := versions];
      return Ok(updated);
    }

    function Updated(existing: Policy, updates: UpdateInput, now: int): (p: Policy)
      ensures IsUpdate(existing, updates, now, p) && p.hash == computeHash(p.rules)
    {
      var newRules := OrElse(updates.rules, existing.rules);
      existing.(
        name := OrElse(updates.name, existing.name),
        description := if updates.description.Some? then updates.description else existing.description,
        rules := newRules,
        version := existing.version + 1,
        updatedAt := now,
        hash := computeHash(newRules))
    }

    method Delete(id: string) returns (existed: bool)
      requires Valid()
      modifies this
      ensures Valid() && history == old(history) - {id}
      ensures existed <==> id in old(history)
    {
      existed := id in policies;
      AgreeWithout(policies, history, computeHash, id);
      policies := policies - {id};
      history := history - {id};
    }

    method GetVersionHistory(id: string) returns (versions: seq<Policy>)
      requires Valid()
      ensures versions == if id in history then history[id] else []
    {
      return if id in history then history[id] else [];
    }

    method Clear()
      modifies this
      ensures Valid() && history == map[]
    {
      policies, history := map[], map[];
    }

    // --------------------------------------------------------------------- whole runs

    method Perform(op: Op)
      requires Valid()
      modifies this
      ensures Valid()
      ensures forall id :: !Drops(op, id) ==> Grown(old(history), history, id)
    {
      match op
      case Create(input, now) =>
        var _ := Create(input, now);
      case Update(id, updates, now) =>
        var _ := Update(id, updates, now);
      case Delete(id) =>
        var _ := Delete(id);
      case Clear =>
        Clear();
    }

    /** However the store is used, a policy that is not deleted keeps every version it had, in its place. */
    method Run(ops: seq<Op>)
      requires Valid()
      modifies this
      ensures Valid()
      ensures forall id :: Spares(ops, id) ==> Grown(old(history), history, id)
    {
      var i := 0;
      while i < |ops|
        invariant 0 <= i <= |ops| && Valid()
        invariant forall id :: Spares(ops[..i], id) ==> Grown(old(history), history, id)
      {
        ghost var mid := history;
        Perform(ops[i]);
        forall id | Spares(ops[..i + 1], id) ensures Grown(old(history), history, id) {
          SparesNext(ops, i, id);
          assert Grown(old(history), mid, id) && Grown(mid, history, id);
        }
        i := i + 1;
      }
      assert ops[..i] == ops;
    }
  }

  datatype Op =
    | Create(input: CreateInput, now: int)
    | Update(id: string, updates: UpdateInput, now: int)
    | Delete(id: string)
    | Clear

  predicate Drops(op: Op, id: string) {
    op == Delete(id) || op.Clear?
  }

  predicate Spares(ops: seq<Op>, id: string) {
    forall i :: 0 <= i < |ops| ==> !Drops(ops[i], id)
  }

  lemma {:induction false} SparesNext(ops: seq<Op>, i: nat, id: string)
    requires i < |ops|
    ensures Spares(ops[..i + 1], id) <==> Spares(ops[..i], id) && !Drops(ops[i], id)
  {
    assert ops[..i + 1] == ops[..i] + [ops[i]];
    assert ops[..i + 1][i] == ops[i];
    assert forall k :: 0 <= k < i ==> ops[..i + 1][k] == ops[..i][k];
  }

  /** Nothing is lost of a policy: it is still there, and its history begins as it was. */
  ghost predicate Grown(before: Histories, after: Histories, id: string) {
    id in before ==> id in after && before[id] <= after[id]
  }

  ghost function Latest(history: Histories, id: string): Option<Policy> {
    if id in history && history[id] != [] then Some(history[id][|history[id]| - 1]) else None
  }

  /** Only the fields that are given change; the version goes up by one. */
  ghost predicate IsUpdate(before: Policy, updates: UpdateInput, now: int, after: Policy) {
    && after.id == before.id && after.createdAt == before.createdAt && after.updatedAt == now
    && after.version == before.version + 1
    && after.name == (if updates.name.Some? then updates.name.value else before.name)
    && after.rules == (if updates.rules.Some? then updates.rules.value else before.rules)
    && after.description == if updates.description.Some? then updates.description else before.description
  }

  lemma {:induction false} SameSize(policies: map<string, Policy>, history: Histories)
    requires policies.Keys == history.Keys
    ensures |policies| == |history|
  {
    assert |policies| == |policies.Keys| && |history| == |history.Keys|;
  }
}
