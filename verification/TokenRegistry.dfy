/**
 The gateway's registry of active tokens (services/gateway/src/tokens/token-registry.ts), with the
 revocation cache it asks first.

 The specification is a ledger: the tokens registered by this process and not revoked since. The
 registry keeps less (cleanup drops expired tokens) and asks more (the cache may have evicted,
 lapsed or been loaded from a store); its answers are the ledger's all the same.
 */
module TokenRegistry {
  import opened Wrappers
  import opened Collections
  import RC = RevocationCache

  datatype TokenEntry = TokenEntry(jti: string, sessionId: string, operatorDid: string, robotId: string, expiresAt: int)

  type Tokens = map<string, TokenEntry>

  /** Every token is filed under its own id. */
  ghost predicate Filed(tokens: Tokens) {
    forall k :: k in tokens ==> tokens[k].jti == k
  }

  /** The registry agrees with the ledger on every token that has not expired. */
  ghost predicate Follows(tokens: Tokens, ledger: Tokens, now: int) {
    && (forall k :: k in tokens ==> k in ledger && ledger[k] == tokens[k])
    && (forall k :: k in ledger && now < ledger[k].expiresAt ==> k in tokens)
  }

  /** What the ledger says about a token: registered here, not revoked since, not expired. */
  ghost predicate Good(ledger: Tokens, jti: string, now: int) {
    jti in ledger && now < ledger[jti].expiresAt
  }

  /** The tokens of a list, each once, that satisfy `p`. */
  ghost predicate Selects(list: seq<TokenEntry>, tokens: Tokens, p: TokenEntry -> bool) {
    && (forall i :: 0 <= i < |list| ==> list[i].jti in tokens && tokens[list[i].jti] == list[i] && p(list[i]))
    && (forall i, j :: 0 <= i < j < |list| ==> list[i].jti != list[j].jti)
    && (forall k :: k in tokens && p(tokens[k]) ==> tokens[k] in list)
  }

  /** Some token of the operator belongs to the session. */
  ghost predicate Uses(tokens: Tokens, operatorDid: string, sessionId: string) {
    exists k :: k in tokens && tokens[k].operatorDid == operatorDid && tokens[k].sessionId == sessionId
  }

  /** The sessions to which some token of the operator belongs, each once. */
  ghost predicate SessionsUsed(ids: seq<string>, tokens: Tokens, operatorDid: string) {
    && Distinct(ids)
    && (forall s {:trigger Uses(tokens, operatorDid, s)} :: s in ids <==> Uses(tokens, operatorDid, s))
  }

  /** The session has a registered token. */
  ghost predicate HasToken(tokens: Tokens, sessionId: string) {
    exists k :: k in tokens && tokens[k].sessionId == sessionId
  }

  ghost predicate Mentions(list: seq<TokenEntry>, sessionId: string) {
    exists i :: 0 <= i < |list| && list[i].sessionId == sessionId
  }

  function OfSession(sessionId: string): TokenEntry -> bool {
    (e: TokenEntry) => e.sessionId == sessionId
  }

  function OfOperator(operatorDid: string): TokenEntry -> bool {
    (e: TokenEntry) => e.operatorDid == operatorDid
  }

  function Without(tokens: Tokens, p: TokenEntry -> bool): Tokens {
    map k | k in tokens && !p(tokens[k]) :: tokens[k]
  }

  /** The tokens left when a session's, or an operator's, are taken away are those of the other ones. */
  lemma {:induction false} OthersAreLeft(tokens: Tokens, id: string, k: string)
    ensures k in Without(tokens, OfSession(id)) <==> k in tokens && tokens[k].sessionId != id
    ensures k in Without(tokens, OfOperator(id)) <==> k in tokens && tokens[k].operatorDid != id
    ensures k in Without(tokens, OfSession(id)) ==> Without(tokens, OfSession(id))[k] == tokens[k]
    ensures k in Without(tokens, OfOperator(id)) ==> Without(tokens, OfOperator(id))[k] == tokens[k]
  {
  }

  /** The ids of the first `n` tokens of a list. */
  function Jtis(list: seq<TokenEntry>, n: nat): set<string>
    requires n <= |list|
  {
    if n == 0 then {} else Jtis(list, n - 1) + {list[n - 1].jti}
  }

  lemma {:induction false} JtisHas(list: seq<TokenEntry>, n: nat, k: string)
    requires n <= |list|
    ensures k in Jtis(list, n) <==> exists i :: 0 <= i < n && list[i].jti == k
    decreases n
  {
    if n > 0 {
      JtisHas(list, n - 1, k);
    }
  }

  lemma {:induction false} SelectedAreWithout(list: seq<TokenEntry>, tokens: Tokens, p: TokenEntry -> bool)
    requires Filed(tokens) && Selects(list, tokens, p)
    ensures tokens - Jtis(list, |list|) == Without(tokens, p)
  {
    forall k | k in tokens ensures k in Jtis(list, |list|) <==> p(tokens[k]) {
      JtisHas(list, |list|, k);
      if p(tokens[k]) {
        var i :| 0 <= i < |list| && list[i] == tokens[k];
      }
    }
  }

  /** What the revocation cache holds once the first `n` tokens of a list were added to it. */
  ghost function Remembered(held: RC.Entries, list: seq<TokenEntry>, n: nat, reason: Option<string>, now: int): RC.Entries
    requires n <= |list|
  {
    if n == 0 then held
    else
      var e := list[n - 1];
      Remembered(held, list, n - 1, reason, now)[e.jti := RC.RevokedEntry(e.jti, now, e.expiresAt, reason)]
  }

  lemma {:induction false} RememberedCount(held: RC.Entries, list: seq<TokenEntry>, n: nat, reason: Option<string>, now: int)
    requires n <= |list|
    ensures |Remembered(held, list, n, reason, now)| <= |held| + n
    decreases n
  {
    if n > 0 {
      var before := Remembered(held, list, n - 1, reason, now);
      RememberedCount(held, list, n - 1, reason, now);
      RC.PutCounts(before, list[n - 1].jti, RC.RevokedEntry(list[n - 1].jti, now, list[n - 1].expiresAt, reason));
    }
  }

  lemma {:induction false} RememberedAt(held: RC.Entries, list: seq<TokenEntry>, n: nat, reason: Option<string>, now: int, k: string)
    requires n <= |list|
    ensures var after := Remembered(held, list, n, reason, now);
            && (k in after <==> k in held || k in Jtis(list, n))
            && (k in held && k !in Jtis(list, n) ==> after[k] == held[k])
            && (k in Jtis(list, n) ==> exists i :: 0 <= i < n && list[i].jti == k && after[k] == RC.RevokedEntry(k, now, list[i].expiresAt, reason))
    decreases n
  {
    if n > 0 {
      RememberedAt(held, list, n - 1, reason, now, k);
      if k == list[n - 1].jti {
        assert Remembered(held, list, n, reason, now)[k] == RC.RevokedEntry(k, now, list[n - 1].expiresAt, reason);
      }
    }
  }

  /** The first `i` tokens of a list are revoked. */
  ghost predicate RevokedSoFar(list: seq<TokenEntry>, i: nat, before: Books, after: Books, roomy: bool, reason: Option<string>, now: int)
    requires i <= |list|
  {
    && after.tokens == before.tokens - Jtis(list, i) && after.ledger == before.ledger - Jtis(list, i)
    && (roomy ==> after.held == Remembered(before.held, list, i, reason, now))
  }

  /** The registered tokens, the ledger, and what the revocation cache holds. */
  datatype Books = Books(tokens: Tokens, ledger: Tokens, held: RC.Entries)

  lemma {:induction false} RevokedNext(list: seq<TokenEntry>, i: nat, before: Books, mid: Books, after: Books, roomy: bool,
                                       reason: Option<string>, now: int)
    requires i < |list| && RevokedSoFar(list, i, before, mid, roomy, reason, now)
    requires after.tokens == mid.tokens - {list[i].jti} && after.ledger == mid.ledger - {list[i].jti}
    requires roomy ==> after.held == mid.held[list[i].jti := RC.RevokedEntry(list[i].jti, now, list[i].expiresAt, reason)]
    ensures RevokedSoFar(list, i + 1, before, after, roomy, reason, now)
  {
  }

  /**
   If the revocation cache had room for all the revoked tokens, it now holds each of them, with its own
   expiry, this reason and this instant, and otherwise what it held.
   */
  ghost predicate AllRemembered(before: RC.Entries, after: RC.Entries, tokens: Tokens, gone: set<string>, reason: Option<string>, now: int, maxSize: int) {
    |before| + |gone| <= maxSize ==>
      forall k {:trigger IsRemembered(before, after, tokens, gone, reason, now, k)} :: IsRemembered(before, after, tokens, gone, reason, now, k)
  }

  ghost predicate IsRemembered(before: RC.Entries, after: RC.Entries, tokens: Tokens, gone: set<string>, reason: Option<string>, now: int, k: string) {
    && (k in after <==> k in before || k in gone)
    && (k in gone ==> k in tokens && after[k] == RC.RevokedEntry(k, now, tokens[k].expiresAt, reason))
    && (k in before && k !in gone ==> after[k] == before[k])
  }

  lemma {:induction false} SelectedRemembered(held: RC.Entries, list: seq<TokenEntry>, tokens: Tokens, p: TokenEntry -> bool,
                                              reason: Option<string>, now: int, maxSize: int)
    requires Selects(list, tokens, p)
    ensures AllRemembered(held, Remembered(held, list, |list|, reason, now), tokens, Jtis(list, |list|), reason, now, maxSize)
  {
    forall k ensures IsRemembered(held, Remembered(held, list, |list|, reason, now), tokens, Jtis(list, |list|), reason, now, k) {
      RememberedAt(held, list, |list|, reason, now, k);
    }
  }

  lemma {:induction false} JtisDistinct(list: seq<TokenEntry>, i: nat)
    requires i <= |list|
    requires forall p, q :: 0 <= p < q < |list| ==> list[p].jti != list[q].jti
    ensures |Jtis(list, i)| == i
    decreases i
  {
    if i > 0 {
      JtisDistinct(list, i - 1);
      JtisHas(list, i - 1, list[i - 1].jti);
    }
  }

  /** Selecting lists every token that goes, and as many. */
  lemma {:induction false} SelectedCount(list: seq<TokenEntry>, tokens: Tokens, p: TokenEntry -> bool)
    requires Filed(tokens) && Selects(list, tokens, p)
    ensures tokens.Keys - Without(tokens, p).Keys == Jtis(list, |list|) && Jtis(list, |list|) <= tokens.Keys
    ensures tokens - Jtis(list, |list|) == Without(tokens, p)
    ensures |list| == |Jtis(list, |list|)| == |tokens| - |Without(tokens, p)|
  {
    SelectedAreWithout(list, tokens, p);
    JtisDistinct(list, |list|);
    forall k | k in Jtis(list, |list|) ensures k in tokens.Keys {
      JtisHas(list, |list|, k);
    }
    KeysLeft(tokens, Jtis(list, |list|));
  }

  lemma {:induction false} KeysLeft(tokens: Tokens, gone: set<string>)
    requires gone <= tokens.Keys
    ensures tokens.Keys - (tokens - gone).Keys == gone
    ensures |tokens - gone| == |tokens| - |gone|
  {
    assert tokens.Keys == (tokens - gone).Keys + gone;
  }

  lemma {:induction false} SessionSelected(list: seq<TokenEntry>, tokens: Tokens, sessionId: string)
    requires Selects(list, tokens, OfSession(sessionId))
    ensures |list| > 0 <==> HasToken(tokens, sessionId)
  {
    if |list| > 0 {
      assert list[0].jti in tokens && OfSession(sessionId)(list[0]);
    }
  }

  lemma {:induction false} LedgerRevokes(tokens: Tokens, ledger: Tokens, now: int, gone: set<string>)
    requires Follows(tokens, ledger, now)
    ensures Follows(tokens - gone, ledger - gone, now)
  {
  }

  class Registry {
    var tokens: Tokens
    var revocationCache: RC.Cache?
    ghost var ledger: Tokens
    ghost var used: set<string>  // every token id registered or loaded so far
    ghost var clock: int

    ghost function Repr(): set<object>
      reads this
    {
      if revocationCache == null then {this} else {this, revocationCache, revocationCache.metrics}
    }

    ghost predicate Valid()
      reads this, Repr()
    {
      && Filed(tokens)
      && Follows(tokens, ledger, clock)
      && (revocationCache != null ==> revocationCache.Valid())
      && tokens.Keys <= used && CacheKeys() <= used
    }

    ghost function CacheKeys(): set<string>
      reads this, Repr()
    {
      if revocationCache == null then {} else revocationCache.cache.Keys
    }

    ghost function Held(): RC.Entries
      reads this, Repr()
    {
      if revocationCache == null then map[] else revocationCache.cache
    }

    ghost function TheBooks(): Books
      reads this, Repr()
    {
      Books(tokens, ledger, Held())
    }

    /** The revocation cache has a live entry for the token. */
    ghost predicate HeldRevoked(jti: string, now: int)
      reads this, Repr()
    {
      revocationCache != null && jti in revocationCache.cache && now < revocationCache.cache[jti].expiresAt
    }

    /** No registered token has an entry in the revocation cache; true as long as token ids are never reused. */
    ghost predicate Unclashing()
      reads this, Repr()
    {
      CacheKeys() !! tokens.Keys
    }

    /** If there is a revocation cache, it holds this revocation. */
    ghost predicate Remembers(jti: string, expiresAt: int, reason: Option<string>, now: int)
      reads this, Repr()
    {
      revocationCache != null ==>
        jti in revocationCache.cache && revocationCache.cache[jti] == RC.RevokedEntry(jti, now, expiresAt, reason)
    }

    /** There is a revocation cache with room for `n` more entries. */
    ghost predicate HasRoom(n: int)
      reads this, Repr()
    {
      revocationCache != null && |CacheKeys()| + n <= revocationCache.maxSize
    }

    constructor (now: int)
      ensures Valid() && Unclashing() && clock == now
      ensures tokens == map[] && ledger == map[] && used == {} && revocationCache == null
    {
      tokens, ledger, used := map[], map[], {};
      revocationCache := null;
      clock := now;
    }

    /** At start-up: the cache may hold whatever was loaded from the store. */
    method SetRevocationCache(cache: RC.Cache)
      requires Valid() && cache.Valid()
      modifies this`revocationCache, this`used
      ensures Valid() && revocationCache == cache && used == old(used) + cache.cache.Keys
      ensures cache.cache.Keys !! tokens.Keys ==> Unclashing()
    {
      used := used + cache.cache.Keys;
      revocationCache := cache;
    }

    ghost method Advance(now: int)
      requires Valid() && clock <= now
      modifies this`clock
      ensures Valid() && clock == now
      ensures old(Unclashing()) ==> Unclashing()
    {
      clock := now;
    }

    method AddToRevocationCache(jti: string, expiresAt: int, reason: Option<string>, now: int)
      requires Valid() && jti in used
      modifies Repr() - {this}
      ensures Valid()
      ensures CacheKeys() <= old(CacheKeys()) + {jti}
      ensures Remembers(jti, expiresAt, reason, now)
      ensures old(HasRoom(1)) ==> Held() == old(Held())[jti := RC.RevokedEntry(jti, now, expiresAt, reason)]
    {
      if revocationCache == null {
        return;
      }
      revocationCache.Add(jti, expiresAt, reason, now);
    }

    method Register(entry: TokenEntry)
      requires Valid()
      modifies this`tokens, this`ledger, this`used
      ensures Valid()
      ensures tokens == old(tokens)[entry.jti := entry] && ledger == old(ledger)[entry.jti := entry]
      ensures used == old(used) + {entry.jti}
      ensures old(Unclashing()) && entry.jti !in old(used) ==> Unclashing()
    {
      used := used + {entry.jti};
      tokens := tokens[entry.jti := entry];
      ledger := ledger[entry.jti := entry];
    }

    /** What every way of revoking does with one registered token. */
    method RevokeEntry(entry: TokenEntry, reason: Option<string>, now: int)
      requires Valid() && clock == now && entry.jti in used
      modifies Repr()
      ensures Valid() && clock == now && revocationCache == old(revocationCache) && used == old(used)
      ensures tokens == old(tokens) - {entry.jti} && ledger == old(ledger) - {entry.jti}
      ensures old(Unclashing()) ==> Unclashing()
      ensures Remembers(entry.jti, entry.expiresAt, reason, now)
      ensures old(HasRoom(1)) ==> Held() == old(Held())[entry.jti := RC.RevokedEntry(entry.jti, now, entry.expiresAt, reason)]
    {
      AddToRevocationCache(entry.jti, entry.expiresAt, reason, now);
      LedgerRevokes(tokens, ledger, now, {entry.jti});
      tokens := tokens - {entry.jti};
      ledger := ledger - {entry.jti};
    }

    method Revoke(jti: string, reason: Option<string>, now: int) returns (found: bool)
      requires Valid() && clock <= now
      modifies Repr()
      ensures Valid() && clock == now && revocationCache == old(revocationCache) && used == old(used)
      ensures found <==> jti in old(tokens)
      ensures tokens == old(tokens) - {jti}
      ensures ledger == if found then old(ledger) - {jti} else old(ledger)
      ensures old(Unclashing()) ==> Unclashing()
      ensures found ==> Remembers(jti, old(tokens)[jti].expiresAt, reason, now)
    {
      Advance(now);
      if jti !in tokens {
        return false;
      }
      RevokeEntry(tokens[jti], reason, now);
      return true;
    }

    lemma {:induction false} GoodIsRegistered(jti: string, now: int)
      requires Valid() && clock <= now
      ensures Good(ledger, jti, now) <==> jti in tokens && now < tokens[jti].expiresAt
      ensures jti in tokens && jti in ledger ==> tokens[jti] == ledger[jti]
    {
    }

    /**
     The answer is the ledger's, except for a token that is good by the ledger and at the same time
     has a live entry in the revocation cache. Without reused token ids there is no such token.
     */
    method IsValid(jti: string, now: int) returns (valid: bool)
      requires Valid() && clock <= now
      modifies Repr()
      ensures Valid() && clock == now && revocationCache == old(revocationCache) && used == old(used)
      ensures tokens == old(tokens) && ledger == old(ledger)
      ensures valid <==> Good(ledger, jti, now) && !old(HeldRevoked(jti, now))
      ensures old(Unclashing()) ==> Unclashing() && (valid <==> Good(ledger, jti, now))
      ensures revocationCache != null ==>
                revocationCache.cache == if old(HeldRevoked(jti, now)) then old(revocationCache.cache) else old(revocationCache.cache) - {jti}
    {
      Advance(now);
      if revocationCache != null {
        var revoked := revocationCache.IsRevoked(jti, now);
        if revoked {
          return false;
        }
      }
      if jti !in tokens {
        return false;
      }
      return !(tokens[jti].expiresAt <= now);
    }

    /** `[...tokens.values()].filter(p)`, in any order. */
    method Filter(p: TokenEntry -> bool) returns (list: seq<TokenEntry>)
      requires Filed(tokens)
      ensures Selects(list, tokens, p)
    {
      list := [];
      var todo := tokens.Keys;
      while todo != {}
        invariant todo <= tokens.Keys
        invariant forall i :: 0 <= i < |list| ==>
                                list[i].jti in tokens && list[i].jti !in todo && tokens[list[i].jti] == list[i] && p(list[i])
        invariant forall i, j :: 0 <= i < j < |list| ==> list[i].jti != list[j].jti
        invariant forall k :: k in tokens && k !in todo && p(tokens[k]) ==> tokens[k] in list
        decreases |todo|
      {
        var k :| k in todo;
        if p(tokens[k]) {
          list := list + [tokens[k]];
        }
        todo := todo - {k};
      }
    }

    /** The tokens that expire after now and within the threshold. */
    method GetExpiringSoon(thresholdMs: int, now: int) returns (list: seq<TokenEntry>)
      requires Filed(tokens)
      ensures Selects(list, tokens, (e: TokenEntry) => now < e.expiresAt <= now + thresholdMs)
    {
      list := Filter((e: TokenEntry) => now < e.expiresAt <= now + thresholdMs);
    }

    method Cleanup(now: int) returns (removed: nat)
      requires Valid() && clock <= now
      modifies Repr()
      ensures Valid() && clock == now && ledger == old(ledger) && revocationCache == old(revocationCache) && used == old(used)
      ensures tokens == Without(old(tokens), (e: TokenEntry) => e.expiresAt <= now)
      ensures removed == |old(tokens)| - |tokens|
      ensures old(Unclashing()) ==> Unclashing()
      ensures revocationCache != null ==> revocationCache.cache == RC.Unexpired(old(revocationCache.cache), now)
    {
      Advance(now);
      removed := DropExpired(now);
      CleanupCache(now);
    }

    method CleanupCache(now: int)
      requires Valid()
      modifies Repr() - {this}
      ensures Valid() && CacheKeys() <= old(CacheKeys())
      ensures revocationCache != null ==> revocationCache.cache == RC.Unexpired(old(revocationCache.cache), now)
    {
      if revocationCache != null {
        var _ := revocationCache.Cleanup(now);
      }
    }

    method DropExpired(now: int) returns (removed: nat)
      requires Filed(tokens)
      modifies this`tokens
      ensures Filed(tokens)
      ensures tokens == Without(old(tokens), (e: TokenEntry) => e.expiresAt <= now)
      ensures removed == |old(tokens)| - |tokens|
    {
      removed := 0;
      var todo := tokens.Keys;
      while todo != {}
        invariant todo <= old(tokens).Keys
        invariant tokens.Keys <= old(tokens).Keys && forall k :: k in tokens ==> tokens[k] == old(tokens)[k]
        invariant forall k :: k in old(tokens) ==> (k in tokens <==> k in todo || now < old(tokens)[k].expiresAt)
        invariant removed + |tokens| == |old(tokens)|
        decreases |todo|
      {
        var k :| k in todo;
        if tokens[k].expiresAt <= now {
          DropCounts(tokens, k);
          tokens := tokens - {k};
          removed := removed + 1;
        }
        todo := todo - {k};
      }
    }

    /** Revoke every token of a list. */
    method RevokeAll(list: seq<TokenEntry>, reason: Option<string>, now: int)
      requires Valid() && clock == now && Jtis(list, |list|) <= used
      modifies Repr()
      ensures Valid() && clock == now && revocationCache == old(revocationCache) && used == old(used)
      ensures tokens == old(tokens) - Jtis(list, |list|) && ledger == old(ledger) - Jtis(list, |list|)
      ensures old(Unclashing()) ==> Unclashing()
      ensures old(HasRoom(|list|)) ==> Held() == Remembered(old(Held()), list, |list|, reason, now)
    {
      RevokeEach(list, reason, now, TheBooks(), HasRoom(|list|));
    }

    /** Each token of the list in turn; `RevokedSoFar` counts them. */
    method RevokeEach(list: seq<TokenEntry>, reason: Option<string>, now: int, ghost before: Books, ghost roomy: bool)
      requires Valid() && clock == now && Jtis(list, |list|) <= used
      requires roomy ==> revocationCache != null && |before.held| + |list| <= revocationCache.maxSize
      requires RevokedSoFar(list, 0, before, TheBooks(), roomy, reason, now)
      modifies Repr()
      ensures Valid() && clock == now && revocationCache == old(revocationCache) && used == old(used)
      ensures old(Unclashing()) ==> Unclashing()
      ensures RevokedSoFar(list, |list|, before, TheBooks(), roomy, reason, now)
    {
      ghost var apart, cache, known := Unclashing(), revocationCache, used;
      for i := 0 to |list|
        invariant Valid() && clock == now && revocationCache == cache && used == known
        invariant apart ==> Unclashing()
        invariant RevokedSoFar(list, i, before, TheBooks(), roomy, reason, now)
      {
        RevokeNext(list, i, reason, now, before, roomy);
      }
    }

    method RevokeNext(list: seq<TokenEntry>, i: nat, reason: Option<string>, now: int, ghost before: Books, ghost roomy: bool)
      requires Valid() && clock == now && i < |list| && Jtis(list, |list|) <= used
      requires roomy ==> revocationCache != null && |before.held| + |list| <= revocationCache.maxSize
      requires RevokedSoFar(list, i, before, TheBooks(), roomy, reason, now)
      modifies Repr()
      ensures Valid() && clock == now && revocationCache == old(revocationCache) && used == old(used)
      ensures old(Unclashing()) ==> Unclashing()
      ensures RevokedSoFar(list, i + 1, before, TheBooks(), roomy, reason, now)
    {
      ghost var books := TheBooks();
      JtisHas(list, |list|, list[i].jti);
      RememberedCount(before.held, list, i, reason, now);
      RevokeEntry(list[i], reason, now);
      RevokedNext(list, i, before, books, TheBooks(), roomy, reason, now);
    }

    /** Revoke the tokens that were selected by a condition. */
    method RevokeSelected(list: seq<TokenEntry>, ghost p: TokenEntry -> bool, reason: Option<string>, now: int)
      requires Valid() && clock == now && Selects(list, tokens, p)
      modifies Repr()
      ensures Valid() && clock == now && revocationCache == old(revocationCache) && used == old(used)
      ensures tokens == Without(old(tokens), p) && |list| == |old(tokens)| - |tokens|
      ensures ledger == old(ledger) - (old(tokens).Keys - tokens.Keys)
      ensures old(Unclashing()) ==> Unclashing()
      ensures revocationCache != null ==>
                AllRemembered(old(Held()), Held(), old(tokens), old(tokens).Keys - tokens.Keys, reason, now, revocationCache.maxSize)
    {
      SelectedCount(list, tokens, p);
      SelectedRemembered(Held(), list, tokens, p, reason, now, if revocationCache == null then 0 else revocationCache.maxSize);
      RevokeAll(list, reason, now);
    }

    method RevokeBySession(sessionId: string, reason: Option<string>, now: int) returns (count: nat)
      requires Valid() && clock <= now
      modifies Repr()
      ensures Valid() && clock == now && revocationCache == old(revocationCache) && used == old(used)
      ensures tokens == Without(old(tokens), OfSession(sessionId))
      ensures ledger == old(ledger) - (old(tokens).Keys - tokens.Keys)
      ensures count == |old(tokens)| - |tokens| && (count > 0 <==> HasToken(old(tokens), sessionId))
      ensures old(Unclashing()) ==> Unclashing()
      ensures revocationCache != null ==>
                AllRemembered(old(Held()), Held(), old(tokens), old(tokens).Keys - tokens.Keys, reason, now, revocationCache.maxSize)
    {
      Advance(now);
      var sessionTokens := Filter(OfSession(sessionId));
      SessionSelected(sessionTokens, tokens, sessionId);
      RevokeSelected(sessionTokens, OfSession(sessionId), reason, now);
      count := |sessionTokens|;
    }

    /** Revoke an operator's tokens; the answer lists the sessions they belonged to, each once. */
    method RevokeByOperator(operatorDid: string, reason: Option<string>, now: int) returns (sessionIds: seq<string>)
      requires Valid() && clock <= now
      modifies Repr()
      ensures Valid() && clock == now && revocationCache == old(revocationCache) && used == old(used)
      ensures tokens == Without(old(tokens), OfOperator(operatorDid))
      ensures ledger == old(ledger) - (old(tokens).Keys - tokens.Keys)
      ensures SessionsUsed(sessionIds, old(tokens), operatorDid)
      ensures old(Unclashing()) ==> Unclashing()
      ensures revocationCache != null ==>
                AllRemembered(old(Held()), Held(), old(tokens), old(tokens).Keys - tokens.Keys, reason, now, revocationCache.maxSize)
    {
      Advance(now);
      var operatorTokens := Filter(OfOperator(operatorDid));
      sessionIds := SessionsOf(operatorTokens);
      SessionsSelected(operatorTokens, tokens, operatorDid);
      RevokeSelected(operatorTokens, OfOperator(operatorDid), reason, now);
    }

    // --------------------------------------------------------------------- whole runs

    method Perform(o: TimedOp, ghost simple: Tokens) returns (answer: seq<bool>)
      requires Valid() && Unclashing() && clock <= o.at && NewJtis(o.op) !! used
      requires SameGood(ledger, simple, clock)
      modifies Repr()
      ensures Valid() && Unclashing() && clock == o.at && used == old(used) + NewJtis(o.op)
      ensures revocationCache == old(revocationCache)
      ensures SameGood(ledger, Noted(simple, o.op), clock)
      ensures answer == Reply(simple, o)
    {
      SameGoodLater(ledger, simple, clock, o.at);
      Advance(o.at);
      answer := React(o.op, o.at, simple);
    }

    method React(op: Op, now: int, ghost simple: Tokens) returns (answer: seq<bool>)
      requires Valid() && Unclashing() && clock == now && NewJtis(op) !! used
      requires SameGood(ledger, simple, now)
      modifies Repr()
      ensures Valid() && Unclashing() && clock == now && used == old(used) + NewJtis(op)
      ensures revocationCache == old(revocationCache)
      ensures SameGood(ledger, Noted(simple, op), now)
      ensures answer == Reply(simple, TimedOp(op, now))
    {
      if op.Registering? {
        SameGoodRegistered(ledger, simple, now, op.entry);
        Register(op.entry);
        answer := [];
      } else {
        answer := PerformOther(op, now, simple);
      }
    }

    method PerformOther(op: Op, now: int, ghost simple: Tokens) returns (answer: seq<bool>)
      requires Valid() && Unclashing() && clock == now && !op.Registering?
      requires SameGood(ledger, simple, now)
      modifies Repr()
      ensures Valid() && Unclashing() && clock == now && used == old(used)
      ensures revocationCache == old(revocationCache)
      ensures SameGood(ledger, Noted(simple, op), now)
      ensures answer == Reply(simple, TimedOp(op, now))
    {
      answer := [];
      if op.Querying? {
        assert Good(ledger, op.jti, now) <==> Good(simple, op.jti, now);
        var valid := IsValid(op.jti, now);
        answer := [valid];
      } else if op.Cleaning? {
        var _ := Cleanup(now);
      } else {
        PerformRevocation(op, now, simple);
      }
    }

    method PerformRevocation(op: Op, now: int, ghost simple: Tokens)
      requires Valid() && Unclashing() && clock == now && SameGood(ledger, simple, now)
      requires op.Revoking? || op.RevokingSession? || op.RevokingOperator?
      modifies Repr()
      ensures Valid() && Unclashing() && clock == now && used == old(used) && revocationCache == old(revocationCache)
      ensures SameGood(ledger, Noted(simple, op), now)
    {
      ghost var l, t := ledger, tokens;
      match op {
        case Revoking(jti, reason) =>
          SameGoodRevoked(l, t, simple, now, if jti in t then {jti} else {}, Noted(simple, op));
          var _ := Revoke(jti, reason, now);
        case RevokingSession(sessionId, reason) =>
          SameGoodRevoked(l, t, simple, now, t.Keys - Without(t, OfSession(sessionId)).Keys, Noted(simple, op));
          var _ := RevokeBySession(sessionId, reason, now);
        case RevokingOperator(operatorDid, reason) =>
          SameGoodRevoked(l, t, simple, now, t.Keys - Without(t, OfOperator(operatorDid)).Keys, Noted(simple, op));
          var _ := RevokeByOperator(operatorDid, reason, now);
      }
    }

    /**
     Whatever the revocation cache was loaded with, evicts or lets lapse, and whenever the registry
     cleans up: over any run that never reuses a token id, every query is answered as by the simple ledger.
     */
    method Run(ops: seq<TimedOp>, ghost simple: Tokens) returns (answers: seq<bool>)
      requires Valid() && Unclashing() && SameGood(ledger, simple, clock)
      requires Feasible(ops, used, clock)
      modifies Repr()
      ensures Valid() && Unclashing() && revocationCache == old(revocationCache)
      ensures answers == Answers(simple, ops)
      decreases |ops|
    {
      answers := [];
      if ops != [] {
        var answer := Perform(ops[0], simple);
        var rest := Run(ops[1..], Noted(simple, ops[0].op));
        answers := answer + rest;
      }
    }
  }

  // --------------------------------------------------------------------- the simple ledger

  datatype Op =
    | Registering(entry: TokenEntry)
    | Revoking(jti: string, reason: Option<string>)
    | RevokingSession(sessionId: string, reason: Option<string>)
    | RevokingOperator(operatorDid: string, reason: Option<string>)
    | Querying(jti: string)
    | Cleaning

  datatype TimedOp = TimedOp(op: Op, at: int)

  /** What an operation does to the simple ledger, which knows no clock, no cache and no cleanup. */
  function Noted(simple: Tokens, op: Op): Tokens {
    match op
    case Registering(entry) => simple[entry.jti := entry]
    case Revoking(jti, _) => simple - {jti}
    case RevokingSession(sessionId, _) => Without(simple, OfSession(sessionId))
    case RevokingOperator(operatorDid, _) => Without(simple, OfOperator(operatorDid))
    case Querying(_) => simple
    case Cleaning => simple
  }

  /** The answers that the simple ledger gives to the queries of a run. */
  ghost function Answers(simple: Tokens, ops: seq<TimedOp>): seq<bool>
    decreases |ops|
  {
    if ops == [] then []
    else Reply(simple, ops[0]) + Answers(Noted(simple, ops[0].op), ops[1..])
  }

  ghost function Reply(simple: Tokens, o: TimedOp): seq<bool> {
    if o.op.Querying? then [Good(simple, o.op.jti, o.at)] else []
  }

  function NewJtis(op: Op): set<string> {
    if op.Registering? then {op.entry.jti} else {}
  }

  /** Time does not run backwards, and no token id is registered twice. */
  ghost predicate Feasible(ops: seq<TimedOp>, used: set<string>, clock: int)
    decreases |ops|
  {
    ops != [] ==>
      && clock <= ops[0].at && NewJtis(ops[0].op) !! used
      && Feasible(ops[1..], used + NewJtis(ops[0].op), ops[0].at)
  }

  /** Two ledgers agree on every token that is good by either. */
  ghost predicate SameGood(a: Tokens, b: Tokens, now: int) {
    forall k {:trigger Good(a, k, now)} {:trigger Good(b, k, now)} ::
      (Good(a, k, now) <==> Good(b, k, now)) && (Good(a, k, now) ==> a[k] == b[k])
  }

  lemma {:induction false} SameGoodLater(a: Tokens, b: Tokens, now: int, later: int)
    requires SameGood(a, b, now) && now <= later
    ensures SameGood(a, b, later)
  {
    forall k ensures (Good(a, k, later) <==> Good(b, k, later)) && (Good(a, k, later) ==> a[k] == b[k]) {
      assert Good(a, k, now) <==> Good(b, k, now);
    }
  }

  lemma {:induction false} SameGoodRegistered(a: Tokens, b: Tokens, now: int, e: TokenEntry)
    requires SameGood(a, b, now)
    ensures SameGood(a[e.jti := e], b[e.jti := e], now)
  {
    forall k | k != e.jti
      ensures (Good(a[e.jti := e], k, now) <==> Good(b[e.jti := e], k, now)) && (Good(a[e.jti := e], k, now) ==> a[k] == b[k])
    {
      assert Good(a, k, now) <==> Good(b, k, now);
    }
  }

  /** Revoking the tokens that the registry still has is as good as revoking all. */
  lemma {:induction false} SameGoodRevoked(ledger: Tokens, tokens: Tokens, simple: Tokens, now: int, gone: set<string>, revoked: Tokens)
    requires SameGood(ledger, simple, now) && Follows(tokens, ledger, now)
    requires forall k :: k in revoked ==> k in simple && revoked[k] == simple[k]
    requires forall k :: k in tokens && k in simple && tokens[k] == simple[k] ==> (k in gone <==> k !in revoked)
    ensures SameGood(ledger - gone, revoked, now)
  {
    forall k
      ensures (Good(ledger - gone, k, now) <==> Good(revoked, k, now)) && (Good(revoked, k, now) ==> (ledger - gone)[k] == revoked[k])
    {
      assert Good(ledger, k, now) <==> Good(simple, k, now);
    }
  }

  /** `[...new Set(list.map((e) => e.sessionId))]` */
  method SessionsOf(list: seq<TokenEntry>) returns (sessionIds: seq<string>)
    ensures forall s :: s in sessionIds <==> Mentions(list, s)
    ensures Distinct(sessionIds)
  {
    sessionIds := [];
    for n := 0 to |list|
      invariant forall s :: s in sessionIds <==> Mentions(list[..n], s)
      invariant Distinct(sessionIds)
    {
      assert list[..n + 1] == list[..n] + [list[n]];
      forall s ensures Mentions(list[..n + 1], s) <==> Mentions(list[..n], s) || s == list[n].sessionId {
        MentionsNext(list[..n], list[n], s);
      }
      if list[n].sessionId !in sessionIds {
        sessionIds := sessionIds + [list[n].sessionId];
      }
    }
    assert list[..|list|] == list;
  }

  lemma {:induction false} MentionsNext(list: seq<TokenEntry>, e: TokenEntry, s: string)
    ensures Mentions(list + [e], s) <==> Mentions(list, s) || s == e.sessionId
  {
    var longer := list + [e];
    assert longer[|list|] == e;
    if i :| 0 <= i < |list| && list[i].sessionId == s {
      assert longer[i].sessionId == s;
    }
  }

  lemma {:induction false} SessionsSelected(list: seq<TokenEntry>, tokens: Tokens, operatorDid: string)
    requires Filed(tokens) && Selects(list, tokens, OfOperator(operatorDid))
    ensures forall s :: Mentions(list, s) <==> Uses(tokens, operatorDid, s)
  {
    forall k | k in tokens && tokens[k].operatorDid == operatorDid
      ensures Mentions(list, tokens[k].sessionId)
    {
      var i :| 0 <= i < |list| && list[i] == tokens[k];
    }
  }

  lemma {:induction false} DropCounts(tokens: Tokens, k: string)
    requires k in tokens
    ensures |tokens - {k}| == |tokens| - 1
  {
    assert tokens.Keys == (tokens - {k}).Keys + {k};
  }
}
