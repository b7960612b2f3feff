/**
 The gateway's sessions: their creation, refresh and deletion (services/gateway/src/routes/sessions.ts),
 the token check of a refresh (services/gateway/src/routes/session-policy.ts), and revocation by
 session or by operator (services/gateway/src/routes/revocations.ts), over the token registry and the
 signaling rooms. Each route handler is one atomic step.
 */
module Gateway {
  import opened Wrappers
  import opened Collections
  import TR = TokenRegistry
  import CE = ConditionEvaluator
  import SP = SessionPolicy
  import PE = PolicyEvaluator
  import PS = Policies
  import SIG = Signaling

  datatype Status = Pending | Active | Terminated | Revoked

  datatype SessionState = SessionState(
    robotId: string, operatorDid: string, state: Status, effectiveScope: seq<string>, expiresAt: int)

  type Sessions = map<string, SessionState>

  datatype Reply = Ok200 | Created201 | BadRequest400 | Unauthorized401 | Forbidden403 | NotFound404 | ServerError500

  predicate IsLive(s: SessionState) {
    s.state == Pending || s.state == Active
  }

  /** The token belongs to an existing, live session of the same operator and robot. */
  ghost predicate Belongs(sessions: Sessions, e: TR.TokenEntry) {
    && e.sessionId in sessions && IsLive(sessions[e.sessionId])
    && sessions[e.sessionId].operatorDid == e.operatorDid
    && sessions[e.sessionId].robotId == e.robotId
  }

  /** Every registered token belongs to a live session, and no session has two. */
  ghost predicate Consistent(sessions: Sessions, tokens: TR.Tokens) {
    && (forall j {:trigger Belongs(sessions, tokens[j])} :: j in tokens ==> Belongs(sessions, tokens[j]))
    && (forall i, j {:trigger SameSession(tokens, i, j)} :: SameSession(tokens, i, j) ==> i == j)
  }

  ghost predicate SameSession(tokens: TR.Tokens, i: string, j: string) {
    i in tokens && j in tokens && tokens[i].sessionId == tokens[j].sessionId
  }

  ghost predicate Dead(sessions: Sessions, sessionId: string) {
    sessionId in sessions && (sessions[sessionId].state == Terminated || sessions[sessionId].state == Revoked)
  }

  function WithState(sessions: Sessions, ids: seq<string>, state: Status): Sessions {
    map s | s in sessions :: if s in ids then sessions[s].(state := state) else sessions[s]
  }

  /**
   What every step keeps, from one state of the sessions and tokens to a later one: no session is lost
   or changes hands, the dead stay dead, and a session without a token gets no other.
   */
  ghost predicate Onward(s0: Sessions, t0: TR.Tokens, s1: Sessions, t1: TR.Tokens) {
    forall s {:trigger Keeps(s0, t0, s1, t1, s)} :: s in s0 ==> Keeps(s0, t0, s1, t1, s)
  }

  ghost predicate Keeps(s0: Sessions, t0: TR.Tokens, s1: Sessions, t1: TR.Tokens, s: string)
    requires s in s0
  {
    && s in s1 && s1[s].operatorDid == s0[s].operatorDid && s1[s].robotId == s0[s].robotId
    && (Dead(s0, s) ==> Dead(s1, s))
    && (!TR.HasToken(t0, s) ==> !TR.HasToken(t1, s))
  }

  lemma {:induction false} OnwardOnward(s0: Sessions, t0: TR.Tokens, s1: Sessions, t1: TR.Tokens, s2: Sessions, t2: TR.Tokens)
    requires Onward(s0, t0, s1, t1) && Onward(s1, t1, s2, t2)
    ensures Onward(s0, t0, s2, t2)
  {
    forall s | s in s0 ensures Keeps(s0, t0, s2, t2, s) {
      assert Keeps(s0, t0, s1, t1, s) && Keeps(s1, t1, s2, t2, s);
    }
  }

  // ------------------------------------------------------------------------- creating

  function Effective(requestedScope: Option<seq<string>>): seq<string> {
    if requestedScope.Some? then requestedScope.value else ["teleop:view", "teleop:control"]
  }

  function StatusOf(verdict: SP.Verdict): Reply {
    match verdict
    case Success => Created201
    case InvalidCredential => BadRequest400
    case PolicyMissing => ServerError500
    case Denied(_, _) => Forbidden403
  }

  /**
   The answer to a request for a session, without evaluating rules in any order. A generator that is there
   can still fail to produce a token.
   */
  ghost function CreateReply(generatorReady: bool, generates: bool, inForce: SP.InForce, input: SP.Input, rt: CE.Runtime, now: int): Reply {
    if !generatorReady then ServerError500
    else if SP.Admits(inForce, input, rt, now) then if generates then Created201 else ServerError500
    else if input.credential == None then BadRequest400
    else if inForce.policy == None then ServerError500
    else Forbidden403
  }

  // ----------------------------------------------------------------------- refreshing

  /** The bearer token is the registered, still valid token of this very session. */
  ghost predicate Holds(extractJti: string -> Option<string>, tokens: TR.Tokens, bearer: string, id: string, now: int) {
    match extractJti(bearer)
    case None => false
    case Some(jti) => jti != "" && jti in tokens && tokens[jti].sessionId == id && now < tokens[jti].expiresAt
  }

  /** The session may be refreshed with this token: it is live, and the token is its own and still valid. */
  ghost predicate MayRefresh(extractJti: string -> Option<string>, sessions: Sessions, tokens: TR.Tokens,
                             id: string, bearer: Option<string>, now: int) {
    && bearer.Some? && bearer.value != "" && id in sessions
    && (sessions[id].state == Pending || sessions[id].state == Active)
    && Holds(extractJti, tokens, bearer.value, id, now)
  }

  /** The answer of a refresh. */
  ghost function RefreshReply(extractJti: string -> Option<string>, generates: bool, sessions: Sessions, tokens: TR.Tokens,
                              id: string, bearer: Option<string>, now: int): Reply {
    if bearer == None || bearer.value == "" then Unauthorized401
    else if id !in sessions then NotFound404
    else if !MayRefresh(extractJti, sessions, tokens, id, bearer, now) then Forbidden403
    else if generates then Ok200
    else ServerError500
  }

  /** What a refresh does: the session's tokens are replaced by one, and its expiry is that token's. */
  ghost predicate Replaced(s0: Sessions, t0: TR.Tokens, s1: Sessions, t1: TR.Tokens, id: string, jti: string, expiresAt: int) {
    && id in s0 && s1 == s0[id := s0[id].(expiresAt := expiresAt)]
    && t1 == TR.Without(t0, TR.OfSession(id))[jti := TR.TokenEntry(jti, id, s0[id].operatorDid, s0[id].robotId, expiresAt)]
  }

  /** Or, if no token is generated, the session only loses what tokens it had. */
  ghost predicate Renewed(s0: Sessions, t0: TR.Tokens, s1: Sessions, t1: TR.Tokens, id: string, generates: bool, jti: string, expiresAt: int) {
    if generates then Replaced(s0, t0, s1, t1, id, jti, expiresAt) else s1 == s0 && t1 == TR.Without(t0, TR.OfSession(id))
  }

  /**
   A session that is dead, or that has no token, is past refreshing for good: in every later state it is
   as dead as it was, has no token, and whatever a refresh presents is refused.
   */
  lemma {:induction false} NoWayBack(extractJti: string -> Option<string>, generates: bool, s0: Sessions, t0: TR.Tokens,
                                     s1: Sessions, t1: TR.Tokens, id: string, bearer: Option<string>, now: int)
    requires Consistent(s0, t0) && Onward(s0, t0, s1, t1)
    requires id in s0 && (Dead(s0, id) || !TR.HasToken(t0, id))
    ensures id in s1 && (Dead(s0, id) ==> Dead(s1, id))
    ensures !TR.HasToken(t1, id)
    ensures RefreshReply(extractJti, generates, s1, t1, id, bearer, now) in {Unauthorized401, Forbidden403}
  {
    assert Keeps(s0, t0, s1, t1, id);
    if k :| k in t0 && t0[k].sessionId == id {
      assert Belongs(s0, t0[k]);
    }
  }

  // --------------------------------------------------- what the steps do to consistency

  lemma {:induction false} FewerTokens(sessions: Sessions, tokens: TR.Tokens, fewer: TR.Tokens)
    requires Consistent(sessions, tokens)
    requires forall j :: j in fewer ==> j in tokens && fewer[j] == tokens[j]
    ensures Consistent(sessions, fewer) && Onward(sessions, tokens, sessions, fewer)
  {
    forall i, j | SameSession(fewer, i, j) ensures i == j {
      assert SameSession(tokens, i, j);
    }
  }

  /** Ending sessions that have no token left. */
  lemma {:induction false} EndSessions(sessions: Sessions, tokens: TR.Tokens, ids: seq<string>, state: Status)
    requires Consistent(sessions, tokens)
    requires forall s :: s in ids ==> !TR.HasToken(tokens, s)
    requires state == Terminated || state == Revoked
    ensures Consistent(WithState(sessions, ids, state), tokens)
    ensures Onward(sessions, tokens, WithState(sessions, ids, state), tokens)
  {
    forall j | j in tokens ensures Belongs(WithState(sessions, ids, state), tokens[j]) {
      assert Belongs(sessions, tokens[j]);
      assert TR.HasToken(tokens, tokens[j].sessionId);
    }
  }

  lemma {:induction false} EndOfSession(sessions: Sessions, tokens: TR.Tokens, id: string, state: Status)
    requires Consistent(sessions, tokens) && (state == Terminated || state == Revoked)
    ensures var left := TR.Without(tokens, TR.OfSession(id));
            && Consistent(WithState(sessions, [id], state), left)
            && Onward(sessions, tokens, WithState(sessions, [id], state), left)
            && !TR.HasToken(left, id)
            && (TR.HasToken(tokens, id) ==> id in sessions)
  {
    var left := TR.Without(tokens, TR.OfSession(id));
    FewerTokens(sessions, tokens, left);
    EndSessions(sessions, left, [id], state);
    OnwardOnward(sessions, tokens, sessions, left, WithState(sessions, [id], state), left);
    if k :| k in tokens && tokens[k].sessionId == id {
      assert Belongs(sessions, tokens[k]);
    }
  }

  /** Every token of a session of the operator is the operator's, so none is left when the operator's are gone. */
  lemma {:induction false} EndOfOperator(sessions: Sessions, tokens: TR.Tokens, operatorDid: string, ids: seq<string>)
    requires Consistent(sessions, tokens)
    requires TR.SessionsUsed(ids, tokens, operatorDid)
    ensures var left := TR.Without(tokens, TR.OfOperator(operatorDid));
            && Consistent(WithState(sessions, ids, Revoked), left)
            && Onward(sessions, tokens, WithState(sessions, ids, Revoked), left)
    ensures forall s :: s in ids ==> s in sessions
  {
    var left := TR.Without(tokens, TR.OfOperator(operatorDid));
    forall s | s in ids ensures !TR.HasToken(left, s) && s in sessions {
      OperatorLosesAll(sessions, tokens, operatorDid, s);
    }
    FewerTokens(sessions, tokens, left);
    EndSessions(sessions, left, ids, Revoked);
    OnwardOnward(sessions, tokens, sessions, left, WithState(sessions, ids, Revoked), left);
  }

  lemma {:induction false} OperatorLosesAll(sessions: Sessions, tokens: TR.Tokens, operatorDid: string, sessionId: string)
    requires Consistent(sessions, tokens) && TR.Uses(tokens, operatorDid, sessionId)
    ensures !TR.HasToken(TR.Without(tokens, TR.OfOperator(operatorDid)), sessionId)
    ensures sessionId in sessions && IsLive(sessions[sessionId]) && sessions[sessionId].operatorDid == operatorDid
  {
    var k :| k in tokens && tokens[k].operatorDid == operatorDid && tokens[k].sessionId == sessionId;
    assert Belongs(sessions, tokens[k]);
    forall j | j in tokens && tokens[j].sessionId == sessionId ensures tokens[j].operatorDid == operatorDid {
      assert Belongs(sessions, tokens[j]);
    }
  }

  /**
   The operator's sessions that had a token are exactly those that die; a live session of the operator
   without a token (its token expired and was cleaned up) stays live, but can never be given one.
   */
  lemma {:induction false} OperatorSessionsThatDie(sessions: Sessions, tokens: TR.Tokens, operatorDid: string, ids: seq<string>, s: string)
    requires Consistent(sessions, tokens)
    requires TR.SessionsUsed(ids, tokens, operatorDid)
    requires s in sessions && IsLive(sessions[s]) && sessions[s].operatorDid == operatorDid
    ensures Dead(WithState(sessions, ids, Revoked), s) <==> TR.HasToken(tokens, s)
  {
    assert TR.Uses(tokens, operatorDid, s) ==> TR.HasToken(tokens, s);
    if k :| k in tokens && tokens[k].sessionId == s {
      assert Belongs(sessions, tokens[k]);
      assert TR.Uses(tokens, operatorDid, s);
    }
  }

  /** Registering a token for a live session that has none. */
  lemma {:induction false} NewToken(sessions: Sessions, tokens: TR.Tokens, e: TR.TokenEntry)
    requires Consistent(sessions, tokens) && Belongs(sessions, e)
    requires !TR.HasToken(tokens, e.sessionId)
    ensures Consistent(sessions, tokens[e.jti := e])
    ensures forall s :: TR.HasToken(tokens[e.jti := e], s) ==> TR.HasToken(tokens, s) || s == e.sessionId
  {
    var more := tokens[e.jti := e];
    forall j | j in more ensures Belongs(sessions, more[j]) {
      assert j != e.jti ==> Belongs(sessions, tokens[j]);
    }
    forall i, j | SameSession(more, i, j) ensures i == j {
      assert i != e.jti && j != e.jti ==> SameSession(tokens, i, j);
    }
    forall s | TR.HasToken(more, s) ensures TR.HasToken(tokens, s) || s == e.sessionId {
      var j :| j in more && more[j].sessionId == s;
    }
  }

  lemma {:induction false} NewSession(sessions: Sessions, tokens: TR.Tokens, id: string, s: SessionState, e: TR.TokenEntry)
    requires Consistent(sessions, tokens) && id !in sessions
    requires Belongs(map[id := s], e)
    ensures Consistent(sessions[id := s], tokens[e.jti := e])
    ensures Onward(sessions, tokens, sessions[id := s], tokens[e.jti := e])
  {
    forall j | j in tokens ensures Belongs(sessions[id := s], tokens[j]) {
      assert Belongs(sessions, tokens[j]);
    }
    forall j | j in tokens ensures tokens[j].sessionId != id {
      assert Belongs(sessions, tokens[j]);
    }
    NewToken(sessions[id := s], tokens, e);
  }

  /** A session's token replaced by another: the one step after which a session of before has a token it did not have. */
  lemma {:induction false} TokenReplaced(sessions: Sessions, tokens: TR.Tokens, id: string, e: TR.TokenEntry, expiresAt: int)
    requires Consistent(sessions, tokens) && Belongs(sessions, e) && e.sessionId == id
    requires TR.HasToken(tokens, id)
    ensures var after := sessions[id := sessions[id].(expiresAt := expiresAt)];
            var replaced := TR.Without(tokens, TR.OfSession(id))[e.jti := e];
            Consistent(after, replaced) && Onward(sessions, tokens, after, replaced)
  {
    var left := TR.Without(tokens, TR.OfSession(id));
    FewerTokens(sessions, tokens, left);
    NewToken(sessions, left, e);
    var after := sessions[id := sessions[id].(expiresAt := expiresAt)];
    var replaced := left[e.jti := e];
    forall j | j in replaced ensures Belongs(after, replaced[j]) {
      assert Belongs(sessions, replaced[j]);
    }
  }

  method RevokeTokens(registry: TR.Registry, id: string, now: int) returns (count: nat)
    requires registry.Valid() && registry.Unclashing() && registry.clock <= now
    modifies registry.Repr()
    ensures registry.Valid() && registry.Unclashing() && registry.clock == now
    ensures registry.used == old(registry.used) && registry.revocationCache == old(registry.revocationCache)
    ensures registry.tokens == TR.Without(old(registry.tokens), TR.OfSession(id))
    ensures count > 0 <==> TR.HasToken(old(registry.tokens), id)
  {
    count := registry.RevokeBySession(id, None, now);
  }

  method QueryToken(registry: TR.Registry, jti: string, now: int) returns (valid: bool)
    requires registry.Valid() && registry.Unclashing() && registry.clock <= now
    modifies registry.Repr()
    ensures registry.Valid() && registry.Unclashing() && registry.clock == now && registry.tokens == old(registry.tokens)
    ensures registry.used == old(registry.used) && registry.revocationCache == old(registry.revocationCache)
    ensures valid <==> jti in registry.tokens && now < registry.tokens[jti].expiresAt
  {
    valid := registry.IsValid(jti, now);
  }

  method RevokeOperatorTokens(registry: TR.Registry, operatorDid: string, now: int) returns (ids: seq<string>)
    requires registry.Valid() && registry.Unclashing() && registry.clock <= now
    modifies registry.Repr()
    ensures registry.Valid() && registry.Unclashing() && registry.clock == now
    ensures registry.used == old(registry.used) && registry.revocationCache == old(registry.revocationCache)
    ensures registry.tokens == TR.Without(old(registry.tokens), TR.OfOperator(operatorDid))
    ensures TR.SessionsUsed(ids, old(registry.tokens), operatorDid)
  {
    ids := registry.RevokeByOperator(operatorDid, None, now);
  }

  /** Without a registry every token passes. */
  method IsTokenValidForSession(extractJti: string -> Option<string>, registry: TR.Registry?, token: string, id: string, now: int)
    returns (valid: bool)
    requires registry != null ==> registry.Valid() && registry.Unclashing() && registry.clock <= now
    modifies if registry == null then {} else registry.Repr()
    ensures registry == null ==> valid
    ensures registry != null ==>
              && registry.Valid() && registry.Unclashing() && registry.tokens == old(registry.tokens)
              && registry.used == old(registry.used) && registry.revocationCache == old(registry.revocationCache)
              && old(registry.clock) <= registry.clock <= now
              && (valid <==> Holds(extractJti, registry.tokens, token, id, now))
  {
    valid := true;
    if registry != null {
      valid := false;
      var jti := extractJti(token);
      if jti.Some? && jti.value != "" && jti.value in registry.tokens && registry.tokens[jti.value].sessionId == id {
        valid := QueryToken(registry, jti.value, now);
      }
    }
  }

  /** Revoke what tokens a session has and register a new one for it. */
  method SwapToken(registry: TR.Registry, entry: TR.TokenEntry, now: int)
    requires registry.Valid() && registry.Unclashing() && registry.clock <= now && entry.jti !in registry.used
    modifies registry.Repr()
    ensures registry.Valid() && registry.Unclashing() && registry.clock == now
    ensures registry.used == old(registry.used) + {entry.jti} && registry.revocationCache == old(registry.revocationCache)
    ensures registry.tokens == TR.Without(old(registry.tokens), TR.OfSession(entry.sessionId))[entry.jti := entry]
  {
    var _ := RevokeTokens(registry, entry.sessionId, now);
    registry.Register(entry);
  }

  // --------------------------------------------------------------------- the gateway

  class Gateway {
    /** Reading the `jti` of a token without verifying it. */
    const extractJti: string -> Option<string>
    const generatorReady: bool
    const registry: TR.Registry
    const signaling: SIG.Server
    var sessions: Sessions

    ghost function Repr(): set<object>
      reads registry
    {
      {this, signaling} + registry.Repr()
    }

    ghost predicate Valid()
      reads this, registry, Repr()
    {
      && registry.Valid() && registry.Unclashing()
      && signaling.Valid()
      && Consistent(sessions, registry.tokens) && "" !in sessions
      && (signaling.tokenRegistry == null || signaling.tokenRegistry == registry)
    }

    /** Signaling may check tokens against the same registry, or have none. */
    constructor (extractJti: string -> Option<string>, generatorReady: bool, registry: TR.Registry, signaling: SIG.Server)
      requires registry.Valid() && registry.Unclashing() && signaling.Valid() && registry.tokens == map[]
      requires signaling.tokenRegistry == null || signaling.tokenRegistry == registry
      ensures Valid() && sessions == map[]
      ensures this.extractJti == extractJti && this.generatorReady == generatorReady
      ensures this.registry == registry && this.signaling == signaling
    {
      this.extractJti, this.generatorReady, this.registry, this.signaling := extractJti, generatorReady, registry, signaling;
      sessions := map[];
    }

    /**
     POST /v1/sessions. A session is created exactly if the policy in force admits it and a token is
     generated. Its scope is what the policy allows exactly if the deciding rule lists all of it.
     */
    method CreateSession(id: string, jti: string, robotId: string, operatorDid: string, credential: Option<SP.Credential>,
                         requestedScope: Option<seq<string>>, inForce: SP.InForce, rt: CE.Runtime, generates: bool, expiresAt: int, now: int)
      returns (reply: Reply)
      requires Valid() && id !in sessions && id != "" && jti !in registry.used
      modifies this`sessions, registry`tokens, registry`ledger, registry`used
      ensures Valid() && Onward(old(sessions), old(registry.tokens), sessions, registry.tokens)
      ensures registry.used <= old(registry.used) + {jti}
      ensures var scope := if requestedScope.Some? then requestedScope.value else ["teleop:view", "teleop:control"];
              reply == CreateReply(generatorReady, generates, inForce, SP.Input(credential, robotId, scope), rt, now)
      ensures if reply == Created201
              then
                var scope := if requestedScope.Some? then requestedScope.value else ["teleop:view", "teleop:control"];
                && sessions == old(sessions)[id := SessionState(robotId, operatorDid, Pending, scope, expiresAt)]
                && registry.tokens == old(registry.tokens)[jti := TR.TokenEntry(jti, id, operatorDid, robotId, expiresAt)]
              else sessions == old(sessions) && registry.tokens == old(registry.tokens)
      ensures reply == Created201 ==>
                var scope := sessions[id].effectiveScope;
                var input := SP.Input(credential, robotId, scope);
                SP.AllowsExactly(inForce, input, rt, now, scope) <==> SP.ListsAll(inForce, input, rt, now, scope)
    {
      if !generatorReady {
        return ServerError500;
      }
      var scope := Effective(requestedScope);
      var verdict := SP.EvaluateSessionPolicy(inForce, SP.Input(credential, robotId, scope), rt, now);
      if verdict != SP.Success {
        return StatusOf(verdict);
      }
      SP.ScopeIsAllowedIff(inForce, SP.Input(credential, robotId, scope), rt, now);
      if !generates {
        return ServerError500;
      }
      StoreSession(id, TR.TokenEntry(jti, id, operatorDid, robotId, expiresAt), SessionState(robotId, operatorDid, Pending, scope, expiresAt));
      return Created201;
    }

    method StoreSession(id: string, entry: TR.TokenEntry, session: SessionState)
      requires Valid() && id !in sessions && id != "" && entry.jti !in registry.used && Belongs(map[id := session], entry)
      modifies this`sessions, registry`tokens, registry`ledger, registry`used
      ensures Valid() && Onward(old(sessions), old(registry.tokens), sessions, registry.tokens)
      ensures registry.used == old(registry.used) + {entry.jti}
      ensures sessions == old(sessions)[id := session] && registry.tokens == old(registry.tokens)[entry.jti := entry]
    {
      NewSession(sessions, registry.tokens, id, session, entry);
      registry.Register(entry);
      sessions := sessions[id := session];
    }

    method UpdateSessionState(id: string, state: Status) returns (found: bool)
      modifies this`sessions
      ensures sessions == WithState(old(sessions), [id], state)
      ensures found <==> id in old(sessions)
    {
      found := id in sessions;
      if found {
        sessions := sessions[id := sessions[id].(state := state)];
      }
    }

    /** Set the state of a session, if it exists, and revoke its tokens; the answer is whether either was there. */
    method EndSession(id: string, state: Status, now: int) returns (affected: bool)
      requires Valid() && registry.clock <= now
      requires state == Terminated || state == Revoked
      modifies this`sessions, registry.Repr()
      ensures Valid() && registry.clock == now && registry.used == old(registry.used)
      ensures registry.revocationCache == old(registry.revocationCache)
      ensures Onward(old(sessions), old(registry.tokens), sessions, registry.tokens)
      ensures sessions == WithState(old(sessions), [id], state)
      ensures registry.tokens == TR.Without(old(registry.tokens), TR.OfSession(id))
      ensures affected <==> id in old(sessions)
      ensures !TR.HasToken(registry.tokens, id)
    {
      ghost var s0, t0 := sessions, registry.tokens;
      EndOfSession(s0, t0, id, state);
      var found := UpdateSessionState(id, state);
      var count := RevokeTokens(registry, id, now);
      affected := found || count > 0;
    }

    /** DELETE /v1/sessions/:session_id */
    method DeleteSession(id: string, now: int) returns (reply: Reply)
      requires Valid() && registry.clock <= now
      modifies this`sessions, registry.Repr()
      ensures Valid() && old(registry.clock) <= registry.clock <= now && registry.used == old(registry.used)
      ensures registry.revocationCache == old(registry.revocationCache)
      ensures Onward(old(sessions), old(registry.tokens), sessions, registry.tokens)
      ensures reply == if id in old(sessions) then Ok200 else NotFound404
      ensures sessions == WithState(old(sessions), [id], Terminated)
      ensures id in sessions ==> registry.tokens == TR.Without(old(registry.tokens), TR.OfSession(id))
    {
      if id !in sessions {
        assert sessions == WithState(sessions, [id], Terminated);
        return NotFound404;
      }
      var _ := EndSession(id, Terminated, now);
      return Ok200;
    }

    /**
     POST /v1/sessions/:session_id/refresh; `jti` is the id of the token to be generated. The old token is
     revoked before the new one is generated: if that fails, the session is left without a token.
     */
    method Refresh(id: string, bearer: Option<string>, generates: bool, jti: string, expiresAt: int, now: int) returns (reply: Reply)
      requires Valid() && registry.clock <= now && jti !in registry.used
      modifies this`sessions, registry.Repr()
      ensures Valid() && old(registry.clock) <= registry.clock <= now && registry.used <= old(registry.used) + {jti}
      ensures registry.revocationCache == old(registry.revocationCache)
      ensures Onward(old(sessions), old(registry.tokens), sessions, registry.tokens)
      ensures reply == RefreshReply(extractJti, generatorReady && generates, old(sessions), old(registry.tokens), id, bearer, now)
      ensures if !(generatorReady && MayRefresh(extractJti, old(sessions), old(registry.tokens), id, bearer, now))
              then sessions == old(sessions) && registry.tokens == old(registry.tokens)
              else Renewed(old(sessions), old(registry.tokens), sessions, registry.tokens, id, generates, jti, expiresAt)
    {
      if bearer == None || bearer.value == "" {
        reply := Unauthorized401;
      } else if id !in sessions {
        reply := NotFound404;
      } else if !IsLive(sessions[id]) {
        reply := Forbidden403;
      } else {
        var valid := IsTokenValidForSession(extractJti, registry, bearer.value, id, now);
        if valid {
          reply := Renew(id, generates, jti, expiresAt, now);
        } else {
          reply := Forbidden403;
        }
      }
    }

    method Renew(id: string, generates: bool, jti: string, expiresAt: int, now: int) returns (reply: Reply)
      requires Valid() && registry.clock <= now && jti !in registry.used
      requires id in sessions && IsLive(sessions[id]) && TR.HasToken(registry.tokens, id)
      modifies this`sessions, registry.Repr()
      ensures Valid() && old(registry.clock) <= registry.clock <= now && registry.used <= old(registry.used) + {jti}
      ensures registry.revocationCache == old(registry.revocationCache)
      ensures Onward(old(sessions), old(registry.tokens), sessions, registry.tokens)
      ensures reply == if generatorReady && generates then Ok200 else ServerError500
      ensures if generatorReady
              then Renewed(old(sessions), old(registry.tokens), sessions, registry.tokens, id, generates, jti, expiresAt)
              else sessions == old(sessions) && registry.tokens == old(registry.tokens)
    {
      OnwardStill(sessions, registry.tokens);
      if !generatorReady {
        reply := ServerError500;
      } else if generates {
        ReplaceToken(id, jti, expiresAt, now);
        reply := Ok200;
      } else {
        DropToken(id, now);
        reply := ServerError500;
      }
    }

    method ReplaceToken(id: string, jti: string, expiresAt: int, now: int)
      requires Valid() && registry.clock <= now && jti !in registry.used
      requires id in sessions && IsLive(sessions[id]) && TR.HasToken(registry.tokens, id)
      modifies this`sessions, registry.Repr()
      ensures Valid() && registry.clock == now && registry.used == old(registry.used) + {jti}
      ensures registry.revocationCache == old(registry.revocationCache)
      ensures Onward(old(sessions), old(registry.tokens), sessions, registry.tokens)
      ensures Replaced(old(sessions), old(registry.tokens), sessions, registry.tokens, id, jti, expiresAt)
    {
      var entry := TR.TokenEntry(jti, id, sessions[id].operatorDid, sessions[id].robotId, expiresAt);
      TokenReplaced(sessions, registry.tokens, id, entry, expiresAt);
      SwapToken(registry, entry, now);
      sessions := sessions[id := sessions[id].(expiresAt := expiresAt)];
    }

    /** The old token is revoked, and then no new one is generated. */
    method DropToken(id: string, now: int)
      requires Valid() && registry.clock <= now
      modifies registry.Repr()
      ensures Valid() && registry.clock == now && registry.used == old(registry.used)
      ensures registry.revocationCache == old(registry.revocationCache)
      ensures Onward(sessions, old(registry.tokens), sessions, registry.tokens)
      ensures registry.tokens == TR.Without(old(registry.tokens), TR.OfSession(id))
    {
      FewerTokens(sessions, registry.tokens, TR.Without(registry.tokens, TR.OfSession(id)));
      var _ := RevokeTokens(registry, id, now);
    }

    method Cleanup(now: int) returns (removed: nat)
      requires Valid() && registry.clock <= now
      modifies registry.Repr()
      ensures Valid() && registry.clock == now && registry.used == old(registry.used)
      ensures registry.revocationCache == old(registry.revocationCache)
      ensures Onward(sessions, old(registry.tokens), sessions, registry.tokens)
      ensures registry.tokens == TR.Without(old(registry.tokens), (e: TR.TokenEntry) => e.expiresAt <= now)
    {
      FewerTokens(sessions, registry.tokens, TR.Without(registry.tokens, (e: TR.TokenEntry) => e.expiresAt <= now));
      removed := registry.Cleanup(now);
    }

    /** Revoke a session and its token and tear its room down; the answer is whether there was such a session. */
    method RevokeSession(id: string, reason: string, now: int) returns (affected: bool)
      requires Valid() && registry.clock <= now
      modifies this`sessions, registry.Repr(), signaling`rooms, signaling`sockets, signaling`sent
      ensures Valid() && registry.clock == now && registry.used == old(registry.used)
      ensures registry.revocationCache == old(registry.revocationCache)
      ensures Onward(old(sessions), old(registry.tokens), sessions, registry.tokens)
      ensures affected <==> id in old(sessions)
      ensures sessions == WithState(old(sessions), [id], Revoked)
      ensures registry.tokens == TR.Without(old(registry.tokens), TR.OfSession(id))
      ensures SIG.AllTornDown(old(signaling.Now()), signaling.Now(), if affected then [id] else [], reason)
    {
      affected := EndSession(id, Revoked, now);
      assert signaling.Now() == old(signaling.Now());
      NotifyIf(affected, id, reason);
    }

    method NotifyIf(affected: bool, id: string, reason: string)
      requires signaling.Valid()
      modifies signaling`rooms, signaling`sockets, signaling`sent
      ensures signaling.Valid()
      ensures SIG.AllTornDown(old(signaling.Now()), signaling.Now(), if affected then [id] else [], reason)
    {
      if affected {
        signaling.NotifyRevocation(id, reason);
      } else {
        SIG.NoneTornDown(signaling.Now(), reason);
      }
    }

    /** Mark the sessions revoked and tear their rooms down. */
    method RevokeEach(ids: seq<string>, reason: string)
      requires signaling.Valid() && Distinct(ids) && "" !in ids
      modifies this`sessions, signaling`rooms, signaling`sockets, signaling`sent
      ensures signaling.Valid()
      ensures EachRevoked(old(sessions), old(signaling.Now()), sessions, signaling.Now(), ids, reason)
    {
      SIG.NoneTornDown(signaling.Now(), reason);
      assert sessions == WithState(sessions, [], Revoked);
      var i := 0;
      while i < |ids|
        invariant 0 <= i <= |ids| && signaling.Valid()
        invariant EachRevoked(old(sessions), old(signaling.Now()), sessions, signaling.Now(), ids[..i], reason)
      {
        RevokeNext(ids, i, reason, old(sessions), old(signaling.Now()), old(signaling.states));
        i := i + 1;
      }
      assert ids[..i] == ids;
    }

    method RevokeNext(ids: seq<string>, i: nat, reason: string, ghost s0: Sessions, ghost scene: SIG.Scene,
                      ghost states: map<string, SIG.PeerState>)
      requires signaling.Valid() && Distinct(ids) && "" !in ids && i < |ids|
      requires SIG.Confined(scene.rooms, states, scene.sockets)
      requires EachRevoked(s0, scene, sessions, signaling.Now(), ids[..i], reason)
      modifies this`sessions, signaling`rooms, signaling`sockets, signaling`sent
      ensures signaling.Valid()
      ensures EachRevoked(s0, scene, sessions, signaling.Now(), ids[..i + 1], reason)
    {
      ghost var mid := signaling.Now();
      ghost var before := sessions;
      var _ := UpdateSessionState(ids[i], Revoked);
      signaling.NotifyRevocation(ids[i], reason);
      EachRevokedNext(s0, scene, before, mid, sessions, signaling.Now(), states, ids, i, reason);
    }

    /** Revoke an operator's tokens; the answer lists the sessions that had one. */
    method RevokeOperatorSessions(operatorDid: string, reason: string, now: int) returns (ids: seq<string>)
      requires Valid() && registry.clock <= now
      modifies this`sessions, registry.Repr(), signaling`rooms, signaling`sockets, signaling`sent
      ensures Valid() && registry.clock == now && registry.used == old(registry.used)
      ensures registry.revocationCache == old(registry.revocationCache)
      ensures Onward(old(sessions), old(registry.tokens), sessions, registry.tokens)
      ensures TR.SessionsUsed(ids, old(registry.tokens), operatorDid)
      ensures EachRevoked(old(sessions), old(signaling.Now()), sessions, signaling.Now(), ids, reason)
      ensures registry.tokens == TR.Without(old(registry.tokens), TR.OfOperator(operatorDid))
    {
      ghost var s0, t0 := sessions, registry.tokens;
      ids := RevokeOperatorTokens(registry, operatorDid, now);
      EndOfOperator(s0, t0, operatorDid, ids);
      assert signaling.Now() == old(signaling.Now());
      RevokeEach(ids, reason);
    }

    method RevokeGivenSession(sessionId: Option<string>, reason: string, now: int) returns (affected: seq<string>)
      requires Valid() && registry.clock <= now
      modifies this`sessions, registry.Repr(), signaling`rooms, signaling`sockets, signaling`sent
      ensures Valid() && old(registry.clock) <= registry.clock <= now && registry.used == old(registry.used)
      ensures registry.revocationCache == old(registry.revocationCache)
      ensures Revoking(old(sessions), old(registry.tokens), old(signaling.Now()), sessions, registry.tokens, signaling.Now(), affected, reason)
      ensures affected == if Given(sessionId) && sessionId.value in old(sessions) then [sessionId.value] else []
    {
      affected := [];
      ghost var s0, t0, scene := sessions, registry.tokens, signaling.Now();
      if Given(sessionId) {
        var found := RevokeSession(sessionId.value, reason, now);
        affected := if found then [sessionId.value] else [];
        SessionRevoking(s0, t0, scene, sessions, registry.tokens, signaling.Now(), sessionId.value, reason);
      } else {
        NothingRevoking(s0, t0, scene, reason);
      }
    }

    method RevokeGivenOperator(operatorDid: Option<string>, reason: string, now: int) returns (affected: seq<string>)
      requires Valid() && registry.clock <= now
      modifies this`sessions, registry.Repr(), signaling`rooms, signaling`sockets, signaling`sent
      ensures Valid() && old(registry.clock) <= registry.clock <= now && registry.used == old(registry.used)
      ensures registry.revocationCache == old(registry.revocationCache)
      ensures Revoking(old(sessions), old(registry.tokens), old(signaling.Now()), sessions, registry.tokens, signaling.Now(), affected, reason)
      ensures if Given(operatorDid) then TR.SessionsUsed(affected, old(registry.tokens), operatorDid.value) else affected == []
    {
      affected := [];
      ghost var s0, t0, scene := sessions, registry.tokens, signaling.Now();
      if Given(operatorDid) {
        affected := RevokeOperatorSessions(operatorDid.value, reason, now);
        OperatorRevoking(s0, t0, scene, sessions, registry.tokens, signaling.Now(), operatorDid.value, affected, reason);
      } else {
        NothingRevoking(s0, t0, scene, reason);
      }
    }

    /** POST /v1/revocations; `refusal` is the answer of the admin check when it does not pass. */
    method CreateRevocation(refusal: Option<Reply>, sessionId: Option<string>, operatorDid: Option<string>, reason: string, now: int)
      returns (reply: Reply, affected: seq<string>)
      requires Valid() && registry.clock <= now
      modifies this`sessions, registry.Repr(), signaling`rooms, signaling`sockets, signaling`sent
      ensures Valid() && old(registry.clock) <= registry.clock <= now && registry.used == old(registry.used)
      ensures registry.revocationCache == old(registry.revocationCache)
      ensures reply == if refusal.Some? then refusal.value
                       else if sessionId in {None, Some("")} && operatorDid in {None, Some("")} then BadRequest400
                       else Created201
      ensures Revoking(old(sessions), old(registry.tokens), old(signaling.Now()), sessions, registry.tokens, signaling.Now(), affected, reason)
      ensures refusal.Some? ==> affected == []
      ensures refusal == None ==> AsksFor(old(sessions), old(registry.tokens), sessionId, operatorDid, affected)
    {
      affected := [];
      ghost var s0, t0, scene := sessions, registry.tokens, signaling.Now();
      if refusal.Some? {
        reply := refusal.value;
        NothingRevoking(s0, t0, scene, reason);
      } else {
        reply := if !Given(sessionId) && !Given(operatorDid) then BadRequest400 else Created201;
        affected := RevokeGiven(sessionId, operatorDid, reason, now);
      }
    }

    method RevokeGiven(sessionId: Option<string>, operatorDid: Option<string>, reason: string, now: int) returns (affected: seq<string>)
      requires Valid() && registry.clock <= now
      modifies this`sessions, registry.Repr(), signaling`rooms, signaling`sockets, signaling`sent
      ensures Valid() && old(registry.clock) <= registry.clock <= now && registry.used == old(registry.used)
      ensures registry.revocationCache == old(registry.revocationCache)
      ensures Revoking(old(sessions), old(registry.tokens), old(signaling.Now()), sessions, registry.tokens, signaling.Now(), affected, reason)
      ensures AsksFor(old(sessions), old(registry.tokens), sessionId, operatorDid, affected)
    {
      ghost var s0, t0, scene0, states := sessions, registry.tokens, signaling.Now(), signaling.states;
      var first := RevokeGivenSession(sessionId, reason, now);
      ghost var s1, t1, scene1 := sessions, registry.tokens, signaling.Now();
      var second := RevokeGivenOperator(operatorDid, reason, now);
      RevokingBoth(s0, t0, scene0, s1, t1, scene1, sessions, registry.tokens, signaling.Now(), states, sessionId, operatorDid, first, second, reason);
      affected := first + second;
    }

    // --------------------------------------------------------------------- whole runs

    method Perform(e: Event)
      requires Valid() && registry.clock <= e.at
      requires NewIds(e) !! sessions.Keys + {""} && NewJtis(e) !! registry.used
      modifies this`sessions, registry.Repr(), signaling`rooms, signaling`states, signaling`sockets, signaling`sent
      ensures Valid() && registry.clock <= e.at && registry.revocationCache == old(registry.revocationCache)
      ensures Onward(old(sessions), old(registry.tokens), sessions, registry.tokens)
      ensures sessions.Keys <= old(sessions.Keys) + NewIds(e) && registry.used <= old(registry.used) + NewJtis(e)
      ensures old(signaling.Tidy()) && !JoinsNameless(e) ==> signaling.Tidy()
    {
      if e.Signal? {
        HandleSignal(e.event, e.at);
      } else if e.Revoke? {
        PerformRevocation(e);
      } else {
        PerformSessionEvent(e);
      }
    }

    method PerformRevocation(e: Event)
      requires Valid() && registry.clock <= e.at && e.Revoke?
      modifies this`sessions, registry.Repr(), signaling`rooms, signaling`sockets, signaling`sent
      ensures Valid() && registry.clock <= e.at && registry.revocationCache == old(registry.revocationCache)
      ensures Onward(old(sessions), old(registry.tokens), sessions, registry.tokens)
      ensures sessions.Keys == old(sessions.Keys) && registry.used == old(registry.used)
      ensures old(signaling.Tidy()) ==> signaling.Tidy()
    {
      ghost var s0, t0, scene := sessions, registry.tokens, signaling.Now();
      var _, affected := CreateRevocation(e.refusal, e.sessionId, e.operator, e.reason, e.at);
      RevokingKeeps(s0, t0, scene, sessions, registry.tokens, signaling.Now(), affected, e.reason);
    }

    /** The events that do not concern the rooms. */
    method PerformSessionEvent(e: Event)
      requires Valid() && registry.clock <= e.at && !e.Signal? && !e.Revoke?
      requires NewIds(e) !! sessions.Keys + {""} && NewJtis(e) !! registry.used
      modifies this`sessions, registry.Repr()
      ensures Valid() && registry.clock <= e.at && registry.revocationCache == old(registry.revocationCache)
      ensures Onward(old(sessions), old(registry.tokens), sessions, registry.tokens)
      ensures sessions.Keys <= old(sessions.Keys) + NewIds(e) && registry.used <= old(registry.used) + NewJtis(e)
      ensures signaling.rooms == old(signaling.rooms)
    {
      RegistryIsApart();
      if e.Create? {
        PerformCreation(e);
      } else if e.Sweep? {
        var _ := Cleanup(e.at);
      } else {
        PerformOnSession(e);
      }
    }

    lemma {:induction false} RegistryIsApart()
      ensures signaling !in registry.Repr() && this !in registry.Repr()
    {
    }

    method PerformCreation(e: Event)
      requires Valid() && e.Create? && e.id !in sessions && e.id != "" && e.jti !in registry.used
      modifies this`sessions, registry`tokens, registry`ledger, registry`used
      ensures Valid()
      ensures Onward(old(sessions), old(registry.tokens), sessions, registry.tokens)
      ensures sessions.Keys <= old(sessions.Keys) + {e.id} && registry.used <= old(registry.used) + {e.jti}
    {
      var _ := CreateSession(e.id, e.jti, e.robotId, e.operatorDid, e.credential, e.requestedScope, e.inForce, e.rt, e.generates, e.expiresAt, e.at);
    }

    method PerformOnSession(e: Event)
      requires Valid() && registry.clock <= e.at && (e.Delete? || e.Renew?) && NewJtis(e) !! registry.used
      modifies this`sessions, registry.Repr()
      ensures Valid() && registry.clock <= e.at && registry.revocationCache == old(registry.revocationCache)
      ensures Onward(old(sessions), old(registry.tokens), sessions, registry.tokens)
      ensures sessions.Keys == old(sessions.Keys) && registry.used <= old(registry.used) + NewJtis(e)
    {
      if e.Delete? {
        var _ := DeleteSession(e.id, e.at);
      } else {
        var _ := Refresh(e.id, e.bearer, e.generates, e.jti, e.expiresAt, e.at);
      }
    }

    /** A signaling event, if it can happen: it may ask the registry, and changes no session and no token. */
    method HandleSignal(event: SIG.Event, now: int)
      requires Valid() && registry.clock <= now
      modifies registry.Repr(), signaling`rooms, signaling`states, signaling`sockets, signaling`sent
      ensures Valid() && registry.clock <= now && registry.used == old(registry.used)
      ensures registry.revocationCache == old(registry.revocationCache)
      ensures registry.tokens == old(registry.tokens) && registry.ledger == old(registry.ledger)
      ensures Onward(old(sessions), old(registry.tokens), sessions, registry.tokens)
      ensures sessions == old(sessions)
      ensures old(signaling.Tidy()) && !SIG.JoinsNameless(event) ==> signaling.Tidy()
    {
      OnwardStill(sessions, registry.tokens);
      if signaling.Possible(event) {
        signaling.Perform(event, now);
      }
    }

    /**
     Any run of the gateway with its rooms: the invariants hold throughout, the end is onward from the
     start, and the rooms stay in order as long as nobody asks to join the nameless session.
     */
    method Run(events: seq<Event>)
      requires Valid() && Feasible(events, sessions.Keys + {""}, registry.used, registry.clock)
      modifies this`sessions, registry.Repr(), signaling`rooms, signaling`states, signaling`sockets, signaling`sent
      ensures Valid() && registry.revocationCache == old(registry.revocationCache)
      ensures Onward(old(sessions), old(registry.tokens), sessions, registry.tokens)
      ensures old(signaling.Tidy()) && (forall i :: 0 <= i < |events| ==> !JoinsNameless(events[i])) ==> signaling.Tidy()
      decreases |events|
    {
      ghost var s0, t0 := sessions, registry.tokens;
      if events == [] {
        OnwardStill(s0, t0);
      } else {
        ghost var ids, jtis := sessions.Keys + {""} + NewIds(events[0]), registry.used + NewJtis(events[0]);
        Perform(events[0]);
        ghost var s1, t1 := sessions, registry.tokens;
        FeasibleSooner(events[1..], ids, jtis, events[0].at, s1.Keys + {""}, registry.used, registry.clock);
        Run(events[1..]);
        OnwardOnward(s0, t0, s1, t1, sessions, registry.tokens);
      }
    }

    /** After any run, a session that was dead or had no token has none, and whatever a refresh presents is refused. */
    method RunWithoutToken(id: string, events: seq<Event>, generates: bool, bearer: Option<string>, end: int)
      requires Valid() && Feasible(events, sessions.Keys + {""}, registry.used, registry.clock)
      requires id in sessions && (Dead(sessions, id) || !TR.HasToken(registry.tokens, id))
      modifies this`sessions, registry.Repr(), signaling`rooms, signaling`states, signaling`sockets, signaling`sent
      ensures Valid() && id in sessions && !TR.HasToken(registry.tokens, id)
      ensures RefreshReply(extractJti, generates, sessions, registry.tokens, id, bearer, end) in {Unauthorized401, Forbidden403}
    {
      ghost var s0, t0 := sessions, registry.tokens;
      Run(events);
      NoWayBack(extractJti, generates, s0, t0, sessions, registry.tokens, id, bearer, end);
    }

    /**
     A refresh that is accepted and then generates no token is the session's last: after any further run
     it has no token, and whatever a refresh then presents is refused.
     */
    method RunAfterFailedRefresh(id: string, bearer: Option<string>, jti: string, expiresAt: int, now: int, events: seq<Event>,
                                 generates: bool, later: Option<string>, end: int)
      returns (reply: Reply)
      requires Valid() && registry.clock <= now && jti !in registry.used && generatorReady
      requires MayRefresh(extractJti, sessions, registry.tokens, id, bearer, now)
      requires Feasible(events, sessions.Keys + {""}, registry.used + {jti}, now)
      modifies this`sessions, registry.Repr(), signaling`rooms, signaling`states, signaling`sockets, signaling`sent
      ensures Valid() && reply == ServerError500 && id in sessions && !TR.HasToken(registry.tokens, id)
      ensures RefreshReply(extractJti, generates, sessions, registry.tokens, id, later, end) in {Unauthorized401, Forbidden403}
    {
      ghost var keys, used := sessions.Keys + {""}, registry.used + {jti};
      reply := RefreshInVain(id, bearer, jti, expiresAt, now);
      FeasibleSooner(events, keys, used, now, sessions.Keys + {""}, registry.used, registry.clock);
      RunWithoutToken(id, events, generates, later, end);
    }

    method RefreshInVain(id: string, bearer: Option<string>, jti: string, expiresAt: int, now: int) returns (reply: Reply)
      requires Valid() && registry.clock <= now && jti !in registry.used && generatorReady
      requires MayRefresh(extractJti, sessions, registry.tokens, id, bearer, now)
      modifies this`sessions, registry.Repr()
      ensures Valid() && registry.clock <= now && registry.used <= old(registry.used) + {jti}
      ensures registry.revocationCache == old(registry.revocationCache)
      ensures reply == ServerError500 && sessions == old(sessions) && !TR.HasToken(registry.tokens, id)
    {
      reply := Refresh(id, bearer, false, jti, expiresAt, now);
    }

    /**
     A peer that a join admits holds a valid token of some live session; the gateway's own check accepts
     the token for the session joined exactly if that is the session it was registered for.
     */
    lemma {:induction false} AdmittedIsOwnIff(sessionId: string, token: string, now: int)
      requires Valid() && signaling.tokenRegistry == registry && registry.clock <= now
      requires signaling.JoinError(sessionId, Some(token), now) == None
      requires extractJti(token) == Some(signaling.decodeTokenClaims(token).value.jti) && extractJti(token) != Some("")
      ensures var jti := extractJti(token).value;
              && jti in registry.tokens && now < registry.tokens[jti].expiresAt && Belongs(sessions, registry.tokens[jti])
              && (Holds(extractJti, registry.tokens, token, sessionId, now) <==> registry.tokens[jti].sessionId == sessionId)
    {
      var jti := extractJti(token).value;
      registry.GoodIsRegistered(jti, now);
      assert Belongs(sessions, registry.tokens[jti]);
    }
  }

  /** The policy lists viewing alone; the session is created for viewing and control, which are asked for by default. */
  method ScopeBeyondPolicy(rt: CE.Runtime, credential: SP.Credential, expiresAt: int, now: int) returns (gateway: Gateway, reply: Reply)
    ensures gateway.Valid() && reply == Created201 && "s" in gateway.sessions
    ensures gateway.sessions["s"].effectiveScope == ["teleop:view", "teleop:control"]
    ensures var input := SP.Input(Some(credential), "r", ["teleop:view", "teleop:control"]);
            SP.Admits(ViewOnly(), input, rt, now) && !SP.AllowsExactly(ViewOnly(), input, rt, now, gateway.sessions["s"].effectiveScope)
  {
    ViewingAdmits(SP.Input(Some(credential), "r", Effective(None)), rt, now);
    var registry := new TR.Registry(now);
    var signaling := new SIG.Server(_ => None, registry);
    gateway := new Gateway(_ => None, true, registry, signaling);
    reply := gateway.CreateSession("s", "j", "r", "o", Some(credential), None, ViewOnly(), rt, true, expiresAt, now);
  }

  /** A policy of one rule, without conditions, that allows viewing. */
  function ViewOnly(): SP.InForce {
    SP.Configured(Some(PS.Policy("default-policy", 1, "view only", None, [PS.Rule("r", PS.Allow, [], ["teleop:view"], 0)], 0, 0, "")))
  }

  lemma {:induction false} ViewingAdmits(input: SP.Input, rt: CE.Runtime, now: int)
    requires input.credential.Some? && input.requestedScope == ["teleop:view", "teleop:control"]
    ensures SP.Admits(ViewOnly(), input, rt, now) && !SP.ListsAll(ViewOnly(), input, rt, now, input.requestedScope)
  {
    var request := SP.BuildRequest(input.credential.value, input, rt, now);
    var rules := ViewOnly().policy.value.rules;
    assert request.actions[0] in rules[0].actions;
    assert PE.Fires(rules[0], PS.Allow, request) && rules[0] in rules;
    assert request.actions[1] !in rules[0].actions;
  }

  /** What can happen to sessions and rooms; the ids of new sessions and tokens are part of the event. */
  datatype Event =
    | Create(id: string, jti: string, robotId: string, operatorDid: string, credential: Option<SP.Credential>,
             requestedScope: Option<seq<string>>, inForce: SP.InForce, rt: CE.Runtime, generates: bool, expiresAt: int, at: int)
    | Delete(id: string, at: int)
    | Renew(id: string, bearer: Option<string>, generates: bool, jti: string, expiresAt: int, at: int)
    | Revoke(refusal: Option<Reply>, sessionId: Option<string>, operator: Option<string>, reason: string, at: int)
    | Sweep(at: int)
    | Signal(event: SIG.Event, at: int)

  predicate JoinsNameless(e: Event) {
    e.Signal? && SIG.JoinsNameless(e.event)
  }

  function NewIds(e: Event): set<string> {
    if e.Create? then {e.id} else {}
  }

  function NewJtis(e: Event): set<string> {
    if e.Create? || e.Renew? then {e.jti} else {}
  }

  /** Time does not run backwards, and generated ids are never empty and never generated twice. */
  ghost predicate Feasible(events: seq<Event>, ids: set<string>, jtis: set<string>, clock: int) {
    events != [] ==>
      && clock <= events[0].at && NewIds(events[0]) !! ids && NewJtis(events[0]) !! jtis
      && Feasible(events[1..], ids + NewIds(events[0]), jtis + NewJtis(events[0]), events[0].at)
  }

  lemma {:induction false} FeasibleSooner(events: seq<Event>, ids: set<string>, jtis: set<string>, clock: int,
                                          fewerIds: set<string>, fewerJtis: set<string>, sooner: int)
    requires Feasible(events, ids, jtis, clock)
    requires fewerIds <= ids && fewerJtis <= jtis && sooner <= clock
    ensures Feasible(events, fewerIds, fewerJtis, sooner)
    decreases |events|
  {
    if events != [] {
      var e := events[0];
      FeasibleSooner(events[1..], ids + NewIds(e), jtis + NewJtis(e), e.at, fewerIds + NewIds(e), fewerJtis + NewJtis(e), e.at);
    }
  }

  lemma {:induction false} OnwardStill(s: Sessions, t: TR.Tokens)
    ensures Onward(s, t, s, t)
  {
  }

  /** A field of the request that is there and not empty. */
  predicate Given(field: Option<string>) {
    field.Some? && field.value != ""
  }

  function OfAny(ids: seq<string>): TR.TokenEntry -> bool {
    (e: TR.TokenEntry) => e.sessionId in ids
  }

  /** The sessions that a revocation is about: the named one if it exists, and those the operator has a token for; each once. */
  ghost predicate AsksFor(sessions: Sessions, tokens: TR.Tokens, sessionId: Option<string>, operatorDid: Option<string>, ids: seq<string>) {
    && Distinct(ids)
    && (forall s :: s in ids <==>
          || (s != "" && sessionId == Some(s) && s in sessions)
          || (operatorDid.Some? && operatorDid.value != "" && TR.Uses(tokens, operatorDid.value, s)))
  }

  /** Exactly these sessions are revoked, lose their tokens, and have their rooms torn down. */
  ghost predicate Revoking(s0: Sessions, t0: TR.Tokens, before: SIG.Scene, s1: Sessions, t1: TR.Tokens, after: SIG.Scene,
                           ids: seq<string>, reason: string) {
    && Onward(s0, t0, s1, t1)
    && EachRevoked(s0, before, s1, after, ids, reason)
    && t1 == TR.Without(t0, OfAny(ids))
  }

  lemma {:induction false} RevokingKeeps(s0: Sessions, t0: TR.Tokens, before: SIG.Scene, s1: Sessions, t1: TR.Tokens, after: SIG.Scene,
                                         ids: seq<string>, reason: string)
    requires Revoking(s0, t0, before, s1, t1, after, ids, reason)
    ensures Onward(s0, t0, s1, t1) && s1.Keys == s0.Keys
    ensures SIG.Members(after.rooms, "") <= SIG.Members(before.rooms, "")
  {
    assert SIG.Emptied(before, after, ids, "");
  }

  lemma {:induction false} NothingRevoking(s: Sessions, t: TR.Tokens, scene: SIG.Scene, reason: string)
    ensures Revoking(s, t, scene, s, t, scene, [], reason)
  {
    SIG.NoneTornDown(scene, reason);
    assert WithState(s, [], Revoked) == s;
    assert TR.Without(t, OfAny([])) == t;
  }

  lemma {:induction false} SessionRevoking(s0: Sessions, t0: TR.Tokens, before: SIG.Scene, s1: Sessions, t1: TR.Tokens, after: SIG.Scene,
                                           id: string, reason: string)
    requires Consistent(s0, t0) && Onward(s0, t0, s1, t1)
    requires s1 == WithState(s0, [id], Revoked) && t1 == TR.Without(t0, TR.OfSession(id))
    requires SIG.AllTornDown(before, after, if id in s0 then [id] else [], reason)
    ensures Revoking(s0, t0, before, s1, t1, after, if id in s0 then [id] else [], reason)
  {
    var ids := if id in s0 then [id] else [];
    assert s1 == WithState(s0, ids, Revoked);
    forall j | j in t0 ensures OfAny(ids)(t0[j]) <==> TR.OfSession(id)(t0[j]) {
      assert Belongs(s0, t0[j]);
    }
    assert t1 == TR.Without(t0, OfAny(ids));
  }

  lemma {:induction false} OperatorRevoking(s0: Sessions, t0: TR.Tokens, before: SIG.Scene, s1: Sessions, t1: TR.Tokens, after: SIG.Scene,
                                            operatorDid: string, ids: seq<string>, reason: string)
    requires Consistent(s0, t0) && Onward(s0, t0, s1, t1)
    requires TR.SessionsUsed(ids, t0, operatorDid) && t1 == TR.Without(t0, TR.OfOperator(operatorDid))
    requires EachRevoked(s0, before, s1, after, ids, reason)
    ensures Revoking(s0, t0, before, s1, t1, after, ids, reason)
  {
    forall j | j in t0 ensures OfAny(ids)(t0[j]) <==> TR.OfOperator(operatorDid)(t0[j]) {
      assert t0[j].sessionId in ids <==> TR.Uses(t0, operatorDid, t0[j].sessionId);
      if k :| k in t0 && t0[k].operatorDid == operatorDid && t0[k].sessionId == t0[j].sessionId {
        assert SameSession(t0, k, j);
      }
    }
    assert t1 == TR.Without(t0, OfAny(ids));
  }

  lemma {:induction false} RevokingBoth(s0: Sessions, t0: TR.Tokens, scene0: SIG.Scene, s1: Sessions, t1: TR.Tokens, scene1: SIG.Scene,
                                        s2: Sessions, t2: TR.Tokens, scene2: SIG.Scene, states: map<string, SIG.PeerState>,
                                        sessionId: Option<string>, operatorDid: Option<string>, first: seq<string>, second: seq<string>,
                                        reason: string)
    requires SIG.Confined(scene0.rooms, states, scene0.sockets) && Consistent(s0, t0) && "" !in s0
    requires Revoking(s0, t0, scene0, s1, t1, scene1, first, reason) && Revoking(s1, t1, scene1, s2, t2, scene2, second, reason)
    requires first == if Given(sessionId) && sessionId.value in s0 then [sessionId.value] else []
    requires if Given(operatorDid) then TR.SessionsUsed(second, t1, operatorDid.value) else second == []
    ensures Revoking(s0, t0, scene0, s2, t2, scene2, first + second, reason)
    ensures AsksFor(s0, t0, sessionId, operatorDid, first + second)
  {
    OnwardOnward(s0, t0, s1, t1, s2, t2);
    forall s | s in second ensures s !in first && s != "" {
      UsedIsKnown(s0, t0, first, operatorDid.value, s);
    }
    SIG.TearDownsCompose(scene0, scene1, scene2, states, first, second, reason);
    assert s2 == WithState(s0, first + second, Revoked);
    assert t2 == TR.Without(t0, OfAny(first + second));
    AskedForBoth(s0, t0, sessionId, operatorDid, first, second);
  }

  /** The named session, and then those that the operator has a token for once that session's is gone. */
  lemma {:induction false} AskedForBoth(s0: Sessions, t0: TR.Tokens, sessionId: Option<string>, operatorDid: Option<string>,
                                        first: seq<string>, second: seq<string>)
    requires first == if Given(sessionId) && sessionId.value in s0 then [sessionId.value] else []
    requires if Given(operatorDid) then TR.SessionsUsed(second, TR.Without(t0, OfAny(first)), operatorDid.value) else second == []
    requires Distinct(second) && forall s :: s in second ==> s !in first
    ensures AsksFor(s0, t0, sessionId, operatorDid, first + second)
  {
    forall s ensures s in first + second <==>
                     || (s != "" && sessionId == Some(s) && s in s0)
                     || (operatorDid.Some? && operatorDid.value != "" && TR.Uses(t0, operatorDid.value, s))
    {
      if operatorDid.Some? {
        UsesLeft(t0, first, operatorDid.value, s);
      }
    }
  }

  lemma {:induction false} UsedIsKnown(s0: Sessions, t0: TR.Tokens, first: seq<string>, operatorDid: string, s: string)
    requires Consistent(s0, t0) && "" !in s0
    requires TR.Uses(TR.Without(t0, OfAny(first)), operatorDid, s)
    ensures s !in first && s != ""
  {
    var left := TR.Without(t0, OfAny(first));
    var k :| k in left && left[k].operatorDid == operatorDid && left[k].sessionId == s;
    assert Belongs(s0, t0[k]);
  }

  /** After the named session is gone, the operator's other sessions are as they were. */
  lemma {:induction false} UsesLeft(t0: TR.Tokens, first: seq<string>, operatorDid: string, s: string)
    ensures TR.Uses(TR.Without(t0, OfAny(first)), operatorDid, s) <==> TR.Uses(t0, operatorDid, s) && s !in first
  {
    if k :| k in t0 && t0[k].operatorDid == operatorDid && t0[k].sessionId == s && s !in first {
      assert k in TR.Without(t0, OfAny(first));
    }
  }

  /** The sessions are revoked and their rooms torn down. */
  ghost predicate EachRevoked(s0: Sessions, before: SIG.Scene, s1: Sessions, after: SIG.Scene, ids: seq<string>, reason: string) {
    s1 == WithState(s0, ids, Revoked) && SIG.AllTornDown(before, after, ids, reason)
  }

  lemma {:induction false} EachRevokedNext(s0: Sessions, before: SIG.Scene, s1: Sessions, mid: SIG.Scene, s2: Sessions, after: SIG.Scene,
                                           states: map<string, SIG.PeerState>, ids: seq<string>, i: nat, reason: string)
    requires SIG.Confined(before.rooms, states, before.sockets) && Distinct(ids) && "" !in ids && i < |ids|
    requires EachRevoked(s0, before, s1, mid, ids[..i], reason) && EachRevoked(s1, mid, s2, after, [ids[i]], reason)
    ensures EachRevoked(s0, before, s2, after, ids[..i + 1], reason)
  {
    WithStateNext(s0, ids[..i], ids[i], Revoked);
    SIG.TearDownsCompose(before, mid, after, states, ids[..i], [ids[i]], reason);
    assert ids[..i + 1] == ids[..i] + [ids[i]];
  }

  lemma {:induction false} WithStateNext(sessions: Sessions, ids: seq<string>, id: string, state: Status)
    ensures WithState(WithState(sessions, ids, state), [id], state) == WithState(sessions, ids + [id], state)
  {
  }
}
