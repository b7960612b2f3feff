/**
 The robot agent's session package: the JWT validator (robot-agent/internal/session/token.go), the
 cache of validated tokens in front of it (robot-agent/internal/session/token_cache.go), and the
 session manager that uses both (robot-agent/internal/session/manager.go).

 Instants and durations are nanoseconds; date claims are whole seconds. The JWT library is known by
 what it reports: `Parsed` is its verdict on form and signature, and its check of `exp` and `nbf`
 with a leeway is that of sections 4.1.4 and 4.1.5 of RFC 7519.
 */
module Session {
  import opened Wrappers

  const SECOND := 1_000_000_000

  /** The zero `time.Time`, 1 January of year 1. */
  const ZERO_TIME := -62_135_596_800 * SECOND

  datatype Json = JString(s: string) | JNumber(n: int) | JArray(items: seq<Json>) | JOther

  type MapClaims = map<string, Json>

  datatype Parsed = Malformed | SignatureInvalid | Unverifiable | Verified(claims: MapClaims)

  datatype Error =
    | TokenExpired | InvalidSignature | InvalidAudience | SessionMismatch | MalformedToken | TokenNotYetValid
    | InvalidToken | SessionExists | SessionTerminated

  datatype TokenClaims = TokenClaims(
    jti: string, sessionID: string, subject: string, scope: seq<string>, nonce: string, expiresAt: int)

  // ------------------------------------------------------------- the validator

  /** A date claim as the library reads it; a missing claim and the number zero set no limit. */
  datatype NumericDate = NoLimit | At(instant: int) | NotADate

  function DateClaim(claims: MapClaims, name: string): NumericDate {
    if name !in claims then NoLimit
    else
      match claims[name]
      case JNumber(n) => if n == 0 then NoLimit else At(n * SECOND)
      case _ => NotADate
  }

  predicate Expired(claims: MapClaims, skew: int, now: int) {
    var exp := DateClaim(claims, "exp");
    exp.At? && !(now < exp.instant + skew)
  }

  predicate NotYetValid(claims: MapClaims, skew: int, now: int) {
    var nbf := DateClaim(claims, "nbf");
    nbf.At? && now < nbf.instant - skew
  }

  /** The first matching case of the mapping of the library's joined errors, if there is any error. */
  function TimeError(claims: MapClaims, skew: int, now: int): Option<Error> {
    if Expired(claims, skew, now) then Some(TokenExpired)
    else if NotYetValid(claims, skew, now) then Some(TokenNotYetValid)
    else if DateClaim(claims, "exp").NotADate? || DateClaim(claims, "nbf").NotADate? then Some(InvalidToken)
    else None
  }

  /** A string claim, or the empty string. */
  function StringClaim(claims: MapClaims, name: string): string {
    if name in claims && claims[name].JString? then claims[name].s else ""
  }

  predicate HasString(claims: MapClaims, name: string, value: string) {
    name in claims && claims[name] == JString(value)
  }

  function ExpiryOf(claims: MapClaims): int {
    if "exp" in claims && claims["exp"].JNumber? then claims["exp"].n * SECOND else ZERO_TIME
  }

  ghost function StringsOf(items: seq<Json>): seq<string> {
    if items == [] then []
    else
      var last := |items| - 1;
      StringsOf(items[..last]) + if items[last].JString? then [items[last].s] else []
  }

  /** The strings of the scope array, in order; no array, no scope. */
  ghost function ScopeOf(claims: MapClaims): seq<string> {
    if "scope" in claims && claims["scope"].JArray? then StringsOf(claims["scope"].items) else []
  }

  class TokenValidator {
    const parse: string -> Parsed
    const robotID: string
    const clockSkew: int

    constructor (parse: string -> Parsed, robotID: string, clockSkew: int)
      ensures this.parse == parse && this.robotID == robotID && this.clockSkew == clockSkew
    {
      this.parse, this.robotID, this.clockSkew := parse, robotID, clockSkew;
    }

    /** The claims of a token that the library accepts, or the reason to reject it. */
    ghost function Extracted(claims: MapClaims, expectedSessionID: string): Result<TokenClaims, Error> {
      if !HasString(claims, "aud", robotID) then Err(InvalidAudience)
      else if !HasString(claims, "sid", expectedSessionID) then Err(SessionMismatch)
      else Ok(TokenClaims(StringClaim(claims, "jti"), expectedSessionID, StringClaim(claims, "sub"),
                          ScopeOf(claims), StringClaim(claims, "nonce"), ExpiryOf(claims)))
    }

    /** Validation from scratch at `now`. */
    ghost function Verdict(token: string, expectedSessionID: string, now: int): Result<TokenClaims, Error> {
      if token == "" then Err(InvalidToken)
      else
        match parse(token)
        case Malformed => Err(MalformedToken)
        case SignatureInvalid => Err(InvalidSignature)
        case Unverifiable => Err(InvalidToken)
        case Verified(claims) =>
          match TimeError(claims, clockSkew, now)
          case Some(e) => Err(e)
          case None => Extracted(claims, expectedSessionID)
    }

    method Validate(token: string, expectedSessionID: string, now: int) returns (r: Result<TokenClaims, Error>)
      ensures r == Verdict(token, expectedSessionID, now)
    {
      if token == "" {
        return Err(InvalidToken);
      }
      match parse(token) {
        case Malformed => return Err(MalformedToken);
        case SignatureInvalid => return Err(InvalidSignature);
        case Unverifiable => return Err(InvalidToken);
        case Verified(claims) =>
          match TimeError(claims, clockSkew, now) {
            case Some(e) => return Err(e);
            case None =>
              r := ExtractClaims(claims, expectedSessionID);
          }
      }
    }

    method ExtractClaims(claims: MapClaims, expectedSessionID: string) returns (r: Result<TokenClaims, Error>)
      ensures r == Extracted(claims, expectedSessionID)
    {
      if !HasString(claims, "aud", robotID) {
        return Err(InvalidAudience);
      }
      if !HasString(claims, "sid", expectedSessionID) {
        return Err(SessionMismatch);
      }
      var expiresAt := ZERO_TIME;
      if "exp" in claims && claims["exp"].JNumber? {
        expiresAt := claims["exp"].n * SECOND;
      }
      var scope := ExtractScope(claims);
      return Ok(TokenClaims(StringClaim(claims, "jti"), expectedSessionID, StringClaim(claims, "sub"),
                            scope, StringClaim(claims, "nonce"), expiresAt));
    }

    method ExtractScope(claims: MapClaims) returns (scope: seq<string>)
      ensures scope == ScopeOf(claims)
    {
      if "scope" !in claims || !claims["scope"].JArray? {
        return [];
      }
      var items := claims["scope"].items;
      scope := [];
      for i := 0 to |items|
        invariant scope == StringsOf(items[..i])
      {
        assert items[..i + 1][..i] == items[..i];
        if items[i].JString? {
          scope := scope + [items[i].s];
        }
      }
      assert items[..|items|] == items;
    }
  }

  /** A string is in the extracted scope exactly when the scope array holds it. */
  lemma {:induction false} ScopeIsTheStrings(items: seq<Json>, s: string)
    ensures s in StringsOf(items) <==> JString(s) in items
    decreases |items|
  {
    if items != [] {
      ScopeIsTheStrings(items[..|items| - 1], s);
      assert items == items[..|items| - 1] + [items[|items| - 1]];
    }
  }

  // What the claims of a token mean, read off the token alone.

  /** The token has expired, leeway included. An expiry of 0 is none. */
  ghost predicate Over(claims: MapClaims, skew: int, now: int) {
    "exp" in claims && claims["exp"].JNumber? && claims["exp"].n != 0 && claims["exp"].n * 1_000_000_000 + skew <= now
  }

  /** The token is not valid yet, leeway included. */
  ghost predicate Early(claims: MapClaims, skew: int, now: int) {
    "nbf" in claims && claims["nbf"].JNumber? && claims["nbf"].n != 0 && now < claims["nbf"].n * 1_000_000_000 - skew
  }

  /** The two date claims, as far as they are there, are numbers. */
  ghost predicate Dated(claims: MapClaims) {
    ("exp" in claims ==> claims["exp"].JNumber?) && ("nbf" in claims ==> claims["nbf"].JNumber?)
  }

  ghost predicate Claims(claims: MapClaims, name: string, value: string) {
    name in claims && claims[name] == JString(value)
  }

  ghost function Claimed(claims: MapClaims, name: string): string {
    if name in claims && claims[name].JString? then claims[name].s else ""
  }

  /** RFC 7519: apart from its form, a token is accepted exactly in the interval from nbf to exp, widened by the leeway. */
  lemma {:induction false} AcceptedInInterval(v: TokenValidator, token: string, sessionID: string, now: int)
    ensures v.Verdict(token, sessionID, now).Ok? <==>
            && token != "" && v.parse(token).Verified?
            && var claims := v.parse(token).claims;
            && Claims(claims, "aud", v.robotID) && Claims(claims, "sid", sessionID)
            && Dated(claims) && !Over(claims, v.clockSkew, now) && !Early(claims, v.clockSkew, now)
  {
  }

  /** Why a token is rejected: of several reasons, the first in this order. */
  lemma {:induction false} RejectedBecause(v: TokenValidator, token: string, sessionID: string, now: int)
    ensures var r := v.Verdict(token, sessionID, now);
            && (r == Err(MalformedToken) <==> token != "" && v.parse(token).Malformed?)
            && (r == Err(InvalidSignature) <==> token != "" && v.parse(token).SignatureInvalid?)
            && (token == "" || v.parse(token).Unverifiable? ==> r == Err(InvalidToken))
            && (token != "" && v.parse(token).Verified? ==>
                  var claims := v.parse(token).claims;
                  var over, early := Over(claims, v.clockSkew, now), Early(claims, v.clockSkew, now);
                  && (r == Err(TokenExpired) <==> over)
                  && (r == Err(TokenNotYetValid) <==> !over && early)
                  && (r == Err(InvalidToken) <==> !over && !early && !Dated(claims))
                  && (r == Err(InvalidAudience) <==> !over && !early && Dated(claims) && !Claims(claims, "aud", v.robotID))
                  && (r == Err(SessionMismatch) <==>
                        !over && !early && Dated(claims) && Claims(claims, "aud", v.robotID) && !Claims(claims, "sid", sessionID)))
  {
  }

  /** What an accepted token says: each field is the claim of its own name. */
  lemma {:induction false} AcceptedClaims(v: TokenValidator, token: string, sessionID: string, now: int)
    requires v.Verdict(token, sessionID, now).Ok?
    ensures var c, claims := v.Verdict(token, sessionID, now).value, v.parse(token).claims;
            && c.sessionID == sessionID
            && c.jti == Claimed(claims, "jti") && c.subject == Claimed(claims, "sub") && c.nonce == Claimed(claims, "nonce")
            && c.scope == (if "scope" in claims && claims["scope"].JArray? then StringsOf(claims["scope"].items) else [])
            && c.expiresAt == (if "exp" in claims && claims["exp"].JNumber? then claims["exp"].n else -62_135_596_800) * 1_000_000_000
  {
  }

  // ----------------------------------------------------------------- the cache

  datatype CachedToken = CachedToken(claims: TokenClaims, validFor: string, cachedAt: int)

  const DEFAULT_CACHE_TTL := 30 * SECOND

  /** The conditions under which a cached token is served. */
  predicate Serves(entry: CachedToken, sessionID: string, ttl: int, now: int) {
    && entry.validFor == sessionID
    && !(now - entry.cachedAt > ttl)
    && !(now > entry.claims.expiresAt)
  }

  class TokenCache {
    const ttl: int
    var cache: map<string, CachedToken>

    constructor (ttl: int)
      ensures cache == map[] && this.ttl == if ttl <= 0 then 30 * 1_000_000_000 else ttl
    {
      this.ttl := if ttl <= 0 then DEFAULT_CACHE_TTL else ttl;
      cache := map[];
    }

    method Set(jti: string, sessionID: string, claims: TokenClaims, now: int)
      modifies this
      ensures cache == old(cache)[jti := CachedToken(claims, sessionID, now)]
    {
      cache := cache[jti := CachedToken(claims, sessionID, now)];
    }

    method Get(jti: string, sessionID: string, now: int) returns (r: Option<TokenClaims>)
      ensures r == if jti in cache && Serves(cache[jti], sessionID, ttl, now) then Some(cache[jti].claims) else None
    {
      if jti !in cache {
        return None;
      }
      var entry := cache[jti];
      if entry.validFor != sessionID {
        return None;
      }
      if now - entry.cachedAt > ttl {
        return None;
      }
      if now > entry.claims.expiresAt {
        return None;
      }
      return Some(entry.claims);
    }

    method Invalidate(jti: string)
      modifies this
      ensures cache == old(cache) - {jti}
    {
      cache := cache - {jti};
    }

    method InvalidateSession(sessionID: string)
      modifies this
      ensures forall k :: k in cache <==> k in old(cache) && old(cache)[k].validFor != sessionID
      ensures forall k :: k in cache ==> cache[k] == old(cache)[k]
    {
      var todo := cache.Keys;
      while todo != {}
        invariant todo <= old(cache).Keys
        invariant forall k :: k in cache <==> k in old(cache) && (k in todo || old(cache)[k].validFor != sessionID)
        invariant forall k :: k in cache ==> cache[k] == old(cache)[k]
        decreases |todo|
      {
        var jti :| jti in todo;
        if cache[jti].validFor == sessionID {
          cache := cache - {jti};
        }
        todo := todo - {jti};
      }
    }
  }

  /** The entry was made from a validation that succeeded when it was cached. */
  ghost predicate Earned(v: TokenValidator, token: string, entry: CachedToken) {
    v.Verdict(token, entry.validFor, entry.cachedAt) == Ok(entry.claims)
  }

  /** With a positive leeway, a token served from the cache would validate afresh, to the same claims. */
  lemma {:induction false} ServedIsValid(v: TokenValidator, token: string, entry: CachedToken, sessionID: string, ttl: int, now: int)
    requires v.clockSkew > 0
    requires Earned(v, token, entry) && entry.cachedAt <= now && Serves(entry, sessionID, ttl, now)
    ensures v.Verdict(token, sessionID, now) == Ok(entry.claims)
  {
    AcceptedInInterval(v, token, sessionID, entry.cachedAt);
    AcceptedInInterval(v, token, sessionID, now);
  }

  /** A JWT library that accepts one token, which expires at second 100. */
  function OneToken(robotID: string): string -> Parsed {
    (token: string) =>
      if token == "t" then Verified(map["aud" := JString(robotID), "sid" := JString("s"), "exp" := JNumber(100)])
      else Malformed
  }

  /**
   Without it, the cache is not exact: for every leeway of zero or less there is a token that is still
   served from the cache, one nanosecond after it was cached, when validating afresh says it has expired.
   */
  lemma {:induction false} LeewayIsNeeded(v: TokenValidator, ttl: int)
    returns (entry: CachedToken, now: int)
    requires v.clockSkew <= 0 && ttl >= 1 && v.parse == OneToken(v.robotID)
    ensures Earned(v, "t", entry) && entry.cachedAt <= now && Serves(entry, "s", ttl, now)
    ensures v.Verdict("t", "s", now) == Err(TokenExpired)
  {
    now := 100 * SECOND + v.clockSkew;
    var claims := v.parse("t").claims;
    entry := CachedToken(v.Extracted(claims, "s").value, "s", now - 1);
  }

  // --------------------------------------------------------------- the manager

  datatype State = Pending | Active | Terminated

  datatype Info = Info(sessionID: string, operatorDID: string, robotID: string, scope: seq<string>, expiresAt: int)

  class Manager {
    const robotID: string
    const validator: TokenValidator?
    const tokenCache: TokenCache
    var state: State
    var info: Option<Info>
    ghost var clock: int

    ghost predicate Valid()
      reads this, tokenCache
    {
      && (state == Active <==> info.Some?)
      && (validator == null ==> tokenCache.cache == map[])
      && (validator != null ==>
            && validator.clockSkew > 0
            && forall k :: k in tokenCache.cache ==>
                             tokenCache.cache[k].cachedAt <= clock && Earned(validator, k, tokenCache.cache[k]))
    }

    constructor (robotID: string, validator: TokenValidator?, now: int)
      requires validator != null ==> validator.clockSkew > 0
      ensures Valid() && fresh(tokenCache) && state == Pending && clock == now
      ensures this.robotID == robotID && this.validator == validator && tokenCache.ttl == 30 * 1_000_000_000
    {
      this.robotID, this.validator := robotID, validator;
      tokenCache := new TokenCache(DEFAULT_CACHE_TTL);
      state, info := Pending, None;
      clock := now;
    }

    ghost method Advance(now: int)
      requires Valid() && clock <= now
      modifies this`clock
      ensures Valid() && clock == now
    {
      clock := now;
    }

    function ClaimsToInfo(claims: TokenClaims): Info {
      Info(claims.sessionID, claims.subject, robotID, claims.scope, claims.expiresAt)
    }

    /** The answer that ignores the cache. */
    ghost function Uncached(sessionID: string, token: string, now: int): Result<Info, Error>
      reads this
    {
      if state == Terminated then Err(SessionTerminated)
      else if validator == null then Err(InvalidToken)
      else
        match validator.Verdict(token, sessionID, now)
        case Ok(claims) => Ok(ClaimsToInfo(claims))
        case Err(e) => Err(e)
    }

    /** The token is in the cache and would be served. */
    ghost predicate Cached(sessionID: string, token: string, now: int)
      reads tokenCache
    {
      token in tokenCache.cache && Serves(tokenCache.cache[token], sessionID, tokenCache.ttl, now)
    }

    /** The Info is what the claims say: the session asked for, the subject as operator, the strings of the scope, the expiry. */
    ghost predicate Describes(i: Info, claims: MapClaims, sessionID: string) {
      && i.sessionID == sessionID && i.operatorDID == Claimed(claims, "sub") && i.robotID == robotID
      && i.scope == (if "scope" in claims && claims["scope"].JArray? then StringsOf(claims["scope"].items) else [])
      && i.expiresAt == (if "exp" in claims && claims["exp"].JNumber? then claims["exp"].n else -62_135_596_800) * 1_000_000_000
    }

    /** On every run the cache is unobservable: the answer is that of validating afresh at this instant. */
    method ValidateToken(sessionID: string, token: string, now: int) returns (r: Result<Info, Error>)
      requires Valid() && clock <= now
      modifies this`clock, tokenCache
      ensures Valid() && clock == now
      ensures r == Uncached(sessionID, token, now)
      ensures r.Ok? ==> validator != null && validator.parse(token).Verified? && Describes(r.value, validator.parse(token).claims, sessionID)
      ensures tokenCache.cache ==
              if r.Ok? && !old(Cached(sessionID, token, now))
              then old(tokenCache.cache)[token := CachedToken(validator.Verdict(token, sessionID, now).value, sessionID, now)]
              else old(tokenCache.cache)
    {
      Advance(now);
      InfoDescribes(sessionID, token, now);
      if state == Terminated {
        return Err(SessionTerminated);
      }
      if validator == null {
        return Err(InvalidToken);
      }
      var cached := tokenCache.Get(token, sessionID, now);
      if cached.Some? {
        ServedIsValid(validator, token, tokenCache.cache[token], sessionID, tokenCache.ttl, now);
        return Ok(ClaimsToInfo(cached.value));
      }
      var claims := validator.Validate(token, sessionID, now);
      if claims.Err? {
        return Err(claims.error);
      }
      tokenCache.Set(token, sessionID, claims.value, now);
      return Ok(ClaimsToInfo(claims.value));
    }

    lemma {:induction false} InfoDescribes(sessionID: string, token: string, now: int)
      ensures var r := Uncached(sessionID, token, now);
              r.Ok? ==> validator != null && validator.parse(token).Verified? && Describes(r.value, validator.parse(token).claims, sessionID)
    {
      if validator != null && validator.Verdict(token, sessionID, now).Ok? {
        AcceptedInInterval(validator, token, sessionID, now);
        AcceptedClaims(validator, token, sessionID, now);
      }
    }

    method Activate(newInfo: Info) returns (err: Option<Error>)
      requires Valid()
      modifies this`state, this`info
      ensures Valid()
      ensures match old(state)
              case Pending => err == None && state == Active && info == Some(newInfo)
              case Active => err == Some(SessionExists) && state == old(state) && info == old(info)
              case Terminated => err == Some(SessionTerminated) && state == old(state) && info == old(info)
    {
      if state == Active {
        return Some(SessionExists);
      }
      if state == Terminated {
        return Some(SessionTerminated);
      }
      info := Some(newInfo);
      state := Active;
      return None;
    }

    method Terminate()
      requires Valid()
      modifies this`state, this`info, tokenCache
      ensures Valid() && state == Terminated && info == None
      ensures forall k :: k in tokenCache.cache <==>
                            k in old(tokenCache.cache) && (old(info) == None || old(tokenCache.cache)[k].validFor != old(info).value.sessionID)
      ensures forall k :: k in tokenCache.cache ==> tokenCache.cache[k] == old(tokenCache.cache)[k]
    {
      if state == Terminated {
        return;
      }
      if info.Some? {
        tokenCache.InvalidateSession(info.value.sessionID);
      }
      state := Terminated;
      info := None;
    }

    method Reset()
      requires Valid()
      modifies this`state, this`info
      ensures Valid() && state == Pending && info == None
    {
      state := Pending;
      info := None;
    }

    predicate HasScope(scope: string)
      reads this
    {
      info.Some? && scope in info.value.scope
    }
  }
}
