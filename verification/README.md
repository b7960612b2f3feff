# Verified model of the chainkvm gateway and robot agent

This project models the stateful core of the teleoperation system in Dafny and proves properties of it
over whole runs:

- **Robot agent**: the safety monitor (latching stop, recoverable control loss, window of invalid
  commands), the token-bucket rate limiter, the JWT validator behind its token cache and session
  manager, and the composition of handler, callbacks and safety tick, in which every motion of the
  robot must be justified by a live session.
- **Gateway**: the identity cache, the revocation cache and token registry, the expiry monitor, the
  signaling rooms, and the session, refresh and revocation routes over all of them; the policy evaluator
  with its conditions, and the versioned policy store.
- **Measurement**: percentile statistics of revocation timing, and frame timestamps from the robot's
  sender to the console's loss counter.

Objects whose methods update fields are classes with the same fields, and each method is proved against
a specification that is simpler than the code: a history, a ledger, a declarative rule or a count. Whole
runs are either sequences of calls of a step function (`SafetyRuns`, `ExpiryRuns`) or methods that
perform any sequence of events (`Agent.Agent.Run`, `Gateway.Gateway.Run`, `TokenRegistry.Registry.Run`,
`PolicyStore.Store.Run`, `Signaling.Server.Run`, `FrameTimestamps.Stream`). The agent also refines a pure step
function (`Agent.Next`), over which the theorems about control loss are stated.

## Files

| file | subject |
|---|---|
| `SafetyMonitor.dfy` | the monitor, and runs of calls on it |
| `RateLimit.dfy` | token bucket and rate limiter |
| `Session.dfy` | token validation, token cache, session manager |
| `Agent.dfy` | message validation and the agent as one machine |
| `IdentityCache.dfy` | TTL cache with eviction by age, and the resolver on top |
| `RevocationCache.dfy`, `TokenRegistry.dfy` | revoked and active tokens |
| `ExpiryMonitor.dfy` | expiry warnings, and runs of ticks |
| `Signaling.dfy`, `Gateway.dfy` | rooms; sessions, refresh and revocation |
| `ConditionEvaluator.dfy`, `Policies.dfy`, `PolicyEvaluator.dfy`, `PolicyStore.dfy`, `SessionPolicy.dfy` | policies, and their use for new sessions |
| `Percentiles.dfy`, `FrameTimestamps.dfy` | statistics and frame timestamps |
| `Sorting.dfy`, `Collections.dfy`, `Wrappers.dfy` | stable sort, sequences and sets, option and result |

## How the model reads the code

- Each public method, route handler or callback is one atomic step at one instant `now`, a parameter that
  never goes back. Go's locks and overlapping asynchronous handlers are not modelled below that grain.
- Instants and durations are unbounded integers, bucket levels and velocities are reals.
- Generated session, token and peer ids are fresh. What happens when a token id is reused is stated in
  `TokenRegistry.Registry.IsValid`: a live entry in the revocation cache then wins over the registry.
- JWT parsing, the reading of a `jti` without verification, hashing, DID resolution, JavaScript's
  relational comparison and the properties that its objects inherit are function parameters; the theorems
  hold for every such function. A date claim
  equal to the number 0 sets no limit, as in the JWT library.
- A JavaScript map is enumerated in arbitrary order where the code enumerates it.

## Where the code does less than it seems to promise

- Eviction in the identity cache skips an empty key (`services/gateway/src/identity/cache.ts:45`): it
  leaves the array but stays in the map. `IdentityCache.Cache.Set` says exactly when a lookup first departs
  from its specification: at a set that should give up an empty key which can still be found. Two sets on a
  new cache are enough (`IdentityCache.EmptyKeyOverstays`).
- The token cache is an exact stand-in for validation only with a positive clock skew (the agent uses 30
  seconds). `Session.LeewayIsNeeded` gives, for every skew of zero or less, a token that is served from
  the cache after it has expired.
- Reaching the invalid-command threshold during a control loss does not latch
  (`robot-agent/internal/safety/monitor.go:104-107`): one valid control forgives any number of invalid
  commands (`SafetyRuns.BurstIsForgiven`). `SafetyRuns.BurstLatchesIff` says exactly when a burst latches.
- Control loss is only looked for while the session is active. Once the connection has ended no tick
  reaches the monitor, and a robot that is still moving is not stopped for lost control:
  `Agent.SilentRunStopsIff`, `Agent.LossUnseenAfterEnd`, `Agent.Agent.RunAfterDisconnect`. From a new agent an
  offer, a connection, one motion command and a disconnection lead there (`Agent.LossGoesUnseen`).
- As the window restarts at the first invalid command after its expiry, more than `threshold` invalid
  commands within one window can pass without a stop. `SafetyRuns.BurstStopsIff` says exactly when a burst stops
  the monitor; up to `2 * threshold - 3` commands can pass, as `SafetyRuns.BurstBoundIsTight` shows, and no more,
  as `SafetyRuns.BurstStops` shows.
- A join for a session whose id is the empty string passes the token check of a token with an empty `sid`,
  and the code then takes the peer for being in no room. Leaving, joining another session and disconnecting
  do not take it out of the nameless room: `Signaling.JoinKeepsPlacedIff`, `Signaling.DisconnectKeepsPlacedIff`,
  `Signaling.NamelessSessionSplitsPeer`, `Signaling.NamelessPeerStays`. All other rooms stay in order in
  every reachable state (`Signaling.Server.Run`).
- A session is created with the whole requested scope, not with the actions that the policy allows; they
  are the same exactly when the deciding rule lists them all (`SessionPolicy.ScopeIsAllowedIff`,
  `Gateway.Gateway.CreateSession`). With one rule that allows viewing, a session for viewing and control is
  created (`Gateway.ScopeBeyondPolicy`).
- A refresh revokes the old token before it generates the new one (`services/gateway/src/routes/sessions.ts:160-161`).
  If the generator fails, the session is left without a token for good (`Gateway.Gateway.RunAfterFailedRefresh`).
- A join compares the session with the id that the token's payload claims, and not with the id that the token was
  registered for (`services/gateway/src/routes/signaling.ts:84-90`). `Signaling.OtherRoomIsOpened` shows a join on
  which the two ids differ; `Gateway.Gateway.AdmittedIsOwnIff` says what an admitted token then is.
- The gateway's `index.ts` never hands the registry to the signaling routes, so there the registry part
  of the join check is skipped; the model covers both cases.
- Revoking an operator ends the sessions that have a registered token. A session whose token has expired
  and been cleaned up stays pending, though it can never be given a token again:
  `Gateway.OperatorSessionsThatDie`, `Gateway.NoWayBack`.
- The eviction counter of the revocation cache counts one eviction too many for each `add` into an empty
  cache with a maximum size of zero or less (`phantoms` in the accounts).
- Frames delivered out of order are miscounted as drops, always too many: `FrameTimestamps.GapsAreMissingIff`.
- The control handler never asks whether the monitor is stopped, so a safe-stop by itself does not refuse
  motion; what does is the end of the session. `Manager.Reset` and the monitor's `OnTokenExpired` have no
  caller in the agent, and no code sets a gateway session to `active`.

## Model

| member | source | states |
|---|---|---|
| `SafetyMonitor.Monitor.OnValidControl` | robot-agent/internal/safety/monitor.go:69-82 | the new fields are those of the step function: the count is forgotten, a control loss is released, any other stop stays |
| `SafetyMonitor.Monitor.OnInvalidCommand` | robot-agent/internal/safety/monitor.go:85-108 | the count goes on in a live window or restarts in an expired one, and the callback fires exactly when a running monitor reaches the threshold |
| `SafetyMonitor.Monitor.OnEStop` | robot-agent/internal/safety/monitor.go:111-117 | latches a stop from any state, including a control loss |
| `SafetyMonitor.Monitor.OnTokenExpired` | robot-agent/internal/safety/monitor.go:120-126 | likewise |
| `SafetyMonitor.Monitor.OnRevoked` | robot-agent/internal/safety/monitor.go:129-135 | likewise |
| `SafetyMonitor.Monitor.CheckControlLoss` | robot-agent/internal/safety/monitor.go:139-152 | a running monitor whose last control is older than the timeout stops recoverably; otherwise nothing changes |
| `SafetyMonitor.Monitor.Reset` | robot-agent/internal/safety/monitor.go:155-164 | the state is that of a new monitor |
| `SafetyMonitor.Monitor.Trip` | robot-agent/internal/safety/monitor.go:168-178 | the callback receives a trigger exactly at a running-to-stopped transition |
| `SafetyRuns.InvHolds` | robot-agent/internal/safety/monitor.go:85-164 | on every run, control loss implies stopped, and running implies a count below the limit |
| `SafetyRuns.LatchHolds` | robot-agent/internal/safety/monitor.go:69-178 | a stop other than a control loss survives every run without Reset, and no further callback fires |
| `SafetyRuns.LatchingCallsStopForGood` | robot-agent/internal/safety/monitor.go:111-135 | after an e-stop, expiry or revocation from any state the monitor stays stopped, silently, under every run without Reset |
| `SafetyRuns.StopEndsOnlyByRecoveryOrReset` | robot-agent/internal/safety/monitor.go:69-82 | whatever call ends a stop is Reset, or valid control during a control loss |
| `SafetyRuns.CallbacksAreConserved` | robot-agent/internal/safety/monitor.go:168-178 | on every run, callbacks fired and releases balance with the stopped flag before and after: one callback per transition |
| `SafetyRuns.FirstTriggerFires` | robot-agent/internal/safety/monitor.go:85-178 | an unrelieved run of a running monitor fires its first trigger, which the calls and instants alone determine, and no other; it ends stopped exactly if there is one |
| `SafetyRuns.NoTriggerIff` | robot-agent/internal/safety/monitor.go:85-152 | there is none exactly if there is no latching call, no check later than the timeout, and the count of invalid commands stays below the threshold |
| `SafetyRuns.BurstReachesIff` | robot-agent/internal/safety/monitor.go:85-103 | within one window that count reaches the threshold exactly if c + k or n - k does, for n commands of which the first k fall in the window that was open with c counted |
| `SafetyRuns.BurstStopsIff` | robot-agent/internal/safety/monitor.go:85-108 | a burst of invalid commands within one window stops a running monitor if and only if c + k or n - k reaches the limit, or a latching call or a late check comes too |
| `SafetyRuns.FreshBurstStopsIff` | robot-agent/internal/safety/monitor.go:85-108 | with nothing counted before, if and only if there are as many commands as the limit |
| `SafetyRuns.BurstStops` | robot-agent/internal/safety/monitor.go:85-108 | so max(threshold, 2 * threshold - 2) unrelieved invalid commands within one window leave the monitor stopped, whatever came before |
| `SafetyRuns.BurstBoundIsTight` | robot-agent/internal/safety/monitor.go:90-103 | for every threshold of at least 2 some run of 2 * threshold - 3 such commands leaves it running |
| `SafetyRuns.ControlLossStaysIff` | robot-agent/internal/safety/monitor.go:85-152 | an unrelieved run ends in a control loss exactly if it began in one, or a check later than the timeout came before any latching call and before the count reached the threshold, and no latching call followed; the callback fires at most once |
| `SafetyRuns.LossFirstFires` | robot-agent/internal/safety/monitor.go:85-178 | that condition on the calls and instants is that the callback hears of a control loss and of nothing else |
| `SafetyRuns.StopLastsIff` | robot-agent/internal/safety/monitor.go:104-107 | from a stopped monitor, the stop is a lasting one exactly if it was from the start or a latching call came |
| `SafetyRuns.BurstLatchesIff` | robot-agent/internal/safety/monitor.go:104-107 | a long enough burst leaves a stop that outlasts valid control if and only if no control loss came first, by the same condition, or a latching call came too |
| `SafetyRuns.BurstIsForgiven` | robot-agent/internal/safety/monitor.go:69-108 | during a control loss any number of invalid commands is undone by one valid control |
| `SafetyRuns.ControlLossIsReachable` | robot-agent/internal/safety/monitor.go:139-152 | a new monitor can get into that control loss |
| `SafetyRuns.CountHasWindow` | robot-agent/internal/safety/monitor.go:90-101 | the count is always the number of invalid commands since the one that opened the present window, with no relief in between |
| `SafetyRuns.InvalidStopIsJustified` | robot-agent/internal/safety/monitor.go:103-107 | a stop for invalid commands was preceded by exactly the limit of them, unrelieved and within one window |
| `SafetyRuns.ControlLossIsSound` | robot-agent/internal/safety/monitor.go:139-152 | a control-loss stop means that no valid control and no Reset fell in the timeout before it |
| `SafetyRuns.ControlLossIsTimely` | robot-agent/internal/safety/monitor.go:139-152 | if the monitor is checked at most a period apart, it is stopped by the last control plus timeout plus period |
| `RateLimit.TokenBucket.Refill` | robot-agent/internal/control/ratelimit.go:43-56 | brings the level up to the instant, capped at the burst |
| `RateLimit.TokenBucket.Allow` | robot-agent/internal/control/ratelimit.go:43-64 | admits exactly when, from every earlier request and from the last reset on, the admitted requests plus this one fit in the burst plus the inflow since |
| `RateLimit.TokenBucket.Reset` | robot-agent/internal/control/ratelimit.go:141-151 | the bucket is full and its history starts again |
| `RateLimit.LevelIsLeastCredit` | robot-agent/internal/control/ratelimit.go:43-64 | the level kept by the code is the least, over all earlier instants, of the burst plus the inflow since less the requests admitted since |
| `RateLimit.LevelDecides` | robot-agent/internal/control/ratelimit.go:57-63 | the level reaches one exactly when the admission rule holds |
| `RateLimit.WindowIsBounded` | robot-agent/internal/control/ratelimit.go:30-64 | any window of a faithful run admits at most the burst plus rate times its length |
| `RateLimit.SpacedIsNeverRefused` | robot-agent/internal/control/ratelimit.go:43-64 | requests spaced at least 1/rate apart are all admitted |
| `RateLimit.RateLimiter.Allow` | robot-agent/internal/control/ratelimit.go:115-138 | an e-stop and an unknown type are never limited; drive, key and mouse commands are each decided by the log of their own bucket, and leave the others alone |
| `RateLimit.RateLimiter.Reset` | robot-agent/internal/control/ratelimit.go:141-151 | all four buckets start again |
| `Session.TokenValidator.Validate` | robot-agent/internal/session/token.go:49-89 | returns the declarative verdict: form and signature first, then expiry before not-yet-valid, then audience and session |
| `Session.TokenValidator.ExtractClaims` | robot-agent/internal/session/token.go:92-120 | the claims, or the first mismatch of audience and session |
| `Session.TokenValidator.ExtractScope` | robot-agent/internal/session/token.go:123-141 | the strings of the scope array in order |
| `Session.ScopeIsTheStrings` | robot-agent/internal/session/token.go:123-141 | a scope is extracted exactly when the array holds it as a string |
| `Session.AcceptedInInterval` | robot-agent/internal/session/token.go:49-65 | a token is accepted exactly in the interval from nbf to exp, in seconds, widened by the leeway, for its audience and session |
| `Session.RejectedBecause` | robot-agent/internal/session/token.go:73-103 | the reason for a rejection, each exactly when it applies and no earlier one does: form, signature, expiry, not-yet-valid, date claims that are no numbers, audience, session |
| `Session.AcceptedClaims` | robot-agent/internal/session/token.go:92-141 | each field of an accepted token's claims is the claim of its own name |
| `Session.TokenCache.Set` | robot-agent/internal/session/token_cache.go:38-47 | the entry under this jti is the new one and the others are unchanged |
| `Session.TokenCache.Get` | robot-agent/internal/session/token_cache.go:50-75 | serves an entry exactly for its session, within its time to live and up to its expiry |
| `Session.TokenCache.Invalidate` | robot-agent/internal/session/token_cache.go:78-83 | exactly this entry is gone |
| `Session.TokenCache.InvalidateSession` | robot-agent/internal/session/token_cache.go:86-95 | exactly the session's entries are gone |
| `Session.ServedIsValid` | robot-agent/internal/session/token_cache.go:50-75 | with a positive leeway, what the cache serves validates afresh to the same claims |
| `Session.LeewayIsNeeded` | robot-agent/internal/session/token_cache.go:66-70 | for every leeway of zero or less there is a token for which it does not |
| `Session.Manager.ValidateToken` | robot-agent/internal/session/manager.go:92-134 | on every run, the same Info or error as validating afresh at that instant, whatever the cache holds; a success that was not served from the cache is cached. The Info has the session asked for, the claim "sub" as operator, the manager's robot, the strings of the claim "scope" in order, and the claim "exp" as expiry |
| `Session.Manager.Activate` | robot-agent/internal/session/manager.go:138-157 | succeeds only from pending; an active session refuses, a terminated one never comes back |
| `Session.Manager.Terminate` | robot-agent/internal/session/manager.go:160-179 | the session is terminated and exactly its cached tokens are gone |
| `Session.Manager.Reset` | robot-agent/internal/session/manager.go:182-188 | pending again, with no info |
| `Agent.ValidExactly` | robot-agent/internal/control/validator.go:47-135 | a message is valid exactly if it is in range, dated and not stale; an emergency stop always |
| `Agent.InvalidBecause` | robot-agent/internal/control/validator.go:47-135 | which error it is: a missing date before staleness, then the linear before the angular velocity, the key before the action |
| `Agent.Agent.AcceptedIsOrdered` | robot-agent/internal/control/handler.go:117-171 | the checks and the call of the handlers are those of the written-out order |
| `Agent.Agent.constructor` | robot-agent/cmd/agent/main.go:95-129 | the wired components satisfy the invariant: nothing logged, granted or waiting, a pending session with this validator and robot, a new monitor |
| `Agent.Agent.CallSafety` | robot-agent/cmd/agent/handlers.go:192-235 | the monitor takes its step, and a running-to-stopped transition ends with a hardware stop |
| `Agent.Agent.HandleMotion` | robot-agent/internal/control/handler.go:117-171 | the robot is told exactly what the message orders, or nothing, and the error is the first that applies; an invalid command is reported to the monitor, a refused scope or robot error is not |
| `Agent.Agent.CarryOut` | robot-agent/internal/control/handler.go:117-133 | the call made has the values and the time stamp of the message, whichever of the three motions it is, and success is reported as valid control |
| `Agent.Agent.HandleEStop` | robot-agent/internal/control/handler.go:174-187 | the monitor is latched and the hardware stop issued, however old the message and whatever the scope |
| `Agent.Agent.Dispatch` | robot-agent/internal/control/handler.go:57-114 | every kind of message has the effect on the robot that `Ordered` writes out, that on the monitor that `ReportOf` gives, and the answer that `ErrorOf` gives |
| `Agent.Agent.HandleMessage` | robot-agent/internal/control/handler.go:43-114 | likewise for all messages: a drive message in an active session with teleop:control, dated, not stale and in range logs exactly one motion, Drive(v, w) with its own v, w and t; a key and a mouse message likewise with theirs; any other message logs none. Unreadable ones count as invalid |
| `Agent.Agent.OnOffer` | robot-agent/cmd/agent/handlers.go:22-90 | an offer changes neither session nor monitor; it leaves for activation exactly what validating its token gives, if that and the peer connection succeed |
| `Agent.Agent.OnConnected` | robot-agent/cmd/agent/handlers.go:55-77 | activation with the granted Info and a reset monitor, exactly from a pending session after an accepted offer; otherwise nothing |
| `Agent.Agent.Begin` | robot-agent/cmd/agent/handlers.go:61-73 | a refused activation leaves session and monitor as they were |
| `Agent.Agent.OnConnectionEnded` | robot-agent/cmd/agent/handlers.go:74-76 | the session is terminated if an offer had been accepted, and the monitor is not told |
| `Agent.Agent.OnBye` | robot-agent/cmd/agent/handlers.go:105-108 | the monitor is latched; the session itself goes on |
| `Agent.Agent.OnRevoked` | robot-agent/cmd/agent/handlers.go:111-148 | session terminated and monitor latched, with no motion |
| `Agent.Agent.OnDataMessage` | robot-agent/cmd/agent/handlers.go:150-190 | a pong changes nothing, any other message is handled |
| `Agent.Agent.OnSafetyTick` | robot-agent/cmd/agent/main.go:146-160 | the monitor is checked exactly while the session is active |
| `Agent.Agent.OnShutdown` | robot-agent/cmd/agent/main.go:162-178 | the monitor is latched |
| `Agent.Agent.React` | robot-agent/cmd/agent/handlers.go:22-190 | every event keeps the invariant and takes the step of the agent's view |
| `Agent.Agent.Perform` | robot-agent/cmd/agent/handlers.go:22-190 | every step keeps the invariant: each logged motion happened in an active session, under an Info from a genuine validation with teleop:control in its scope, on a fresh message with its values in range; the monitor is reset at most once ever; session, waiting Info and calls on the monitor are those of the view's step |
| `Agent.Agent.Run` | robot-agent/cmd/agent/handlers.go:22-190 | the same over every run, which ends where the view's steps lead; a terminated session stays terminated and moves the robot no more |
| `Agent.ControlLossIsTimely` | robot-agent/cmd/agent/main.go:146-160 | in every run with the session active, ticks at most a period apart and no event heard as valid control, the monitor is stopped by the last control plus timeout plus period, and stays stopped |
| `Agent.Agent.RunUntilControlLoss` | robot-agent/cmd/agent/main.go:146-160 | the same of the running agent |
| `Agent.SilentRunStopsIff` | robot-agent/cmd/agent/main.go:154-157 | while nothing but ticks is heard, the monitor ends up stopped if and only if it was, or some tick fell later than the timeout in a session still active |
| `Agent.EndedSessionIsDeaf` | robot-agent/cmd/agent/main.go:154-157 | a terminated session stays so; from then on the monitor hears exactly of bye, revocation, shutdown and unreadable messages, and never of a tick |
| `Agent.LossUnseenAfterEnd` | robot-agent/cmd/agent/handlers.go:74-76 | whether a silent run ends stopped is decided by the ticks before the session ended |
| `Agent.Agent.RunAfterDisconnect` | robot-agent/cmd/agent/handlers.go:74-76 | after the connection has ended, the monitor changes only by what is heard without a session; the robot is not moved again, and not stopped for lost control |
| `Agent.LossGoesUnseen` | robot-agent/cmd/agent/handlers.go:55-77 | for every configuration and every token that validates with the control scope, such a run: one motion command, a disconnection, and no later tick stops the robot |
| `Agent.Agent.RunAfterRevocation` | robot-agent/cmd/agent/handlers.go:111-148 | after a revocation, on every run, no motion call is ever made, the session stays terminated and the monitor stays stopped |
| `IdentityCache.Cache.Get` | services/gateway/src/identity/cache.ts:50-62 | on every run in which no set should have given up the empty key: returns v exactly when the key was last set to v, not cleared since, within its time to live, and fewer than the capacity of other keys were set since; on any run, what the map has |
| `IdentityCache.Cache.Set` | services/gateway/src/identity/cache.ts:64-79 | for every key, the empty one too: lookups stay as specified if and only if the set does not oust an empty key that can still be found; if it does, the empty key is found at once although it should not be |
| `IdentityCache.Cache.Clear` | services/gateway/src/identity/cache.ts:81-84 | nothing set before can be found |
| `IdentityCache.Cache.RemoveExpired` | services/gateway/src/identity/cache.ts:25-40 | afterwards every entry is fresh, and no lookup has changed |
| `IdentityCache.Cache.EvictOldest` | services/gateway/src/identity/cache.ts:42-47 | leaves what the recursive eviction leaves |
| `IdentityCache.LedgerIsLastSet` | services/gateway/src/identity/cache.ts:50-79 | the per-key ledger is the last set of the history and the keys set since |
| `IdentityCache.HoldsAnswers` | services/gateway/src/identity/cache.ts:50-62 | the invariant of map and array answers lookups as the ledger does |
| `IdentityCache.HoldsAfterSet` | services/gateway/src/identity/cache.ts:64-79 | refreshing or inserting a key keeps the invariant: duplicate-free, sorted by age, same keys |
| `IdentityCache.EvictionKeepsLast` | services/gateway/src/identity/cache.ts:42-47 | eviction keeps exactly the last capacity - 1 keys in both structures |
| `IdentityCache.EvictionKeepsTwinsIff` | services/gateway/src/identity/cache.ts:42-47 | the two structures stay in step if and only if no empty key is among those that must go |
| `IdentityCache.EvictionLosesEmptyKey` | services/gateway/src/identity/cache.ts:45 | otherwise the empty key stays in the map and is no longer in the array |
| `IdentityCache.OustsIff` | services/gateway/src/identity/cache.ts:42-47 | by the history the empty key should go exactly if by the array it stands among those that making room for an absent key must drop |
| `IdentityCache.OustedStays` | services/gateway/src/identity/cache.ts:45 | it then stays in the map, as it was |
| `IdentityCache.NamedNeverOusts` | services/gateway/src/identity/did-key-resolver.ts:141-142 | if the empty key is never set, lookups never depart |
| `IdentityCache.EmptyKeyOverstays` | services/gateway/src/identity/cache.ts:42-79 | from a new cache for one key, two sets after which the empty key is found although it should not be |
| `IdentityCache.Resolver.Resolve` | services/gateway/src/identity/did-key-resolver.ts:135-144 | on every run, the answer is that of resolving afresh, and a document not found in the cache is put there |
| `RevocationCache.Cache.EvictIfNeeded` | services/gateway/src/tokens/revocation-cache.ts:39-50 | at capacity a tenth goes, at least one, none newer than any entry kept |
| `RevocationCache.Cache.Add` | services/gateway/src/tokens/revocation-cache.ts:53-62 | the entry is there, what went was oldest, and the size never exceeds the maximum or what it was |
| `RevocationCache.Cache.IsRevoked` | services/gateway/src/tokens/revocation-cache.ts:64-80 | true exactly for a live entry; an expired one is dropped and accounted for |
| `RevocationCache.Cache.Remove` | services/gateway/src/tokens/revocation-cache.ts:82-88 | exactly this entry is gone |
| `RevocationCache.Cache.Cleanup` | services/gateway/src/tokens/revocation-cache.ts:90-106 | exactly the unexpired entries are left |
| `RevocationCache.Cache.LoadFromStore` | services/gateway/src/tokens/revocation-cache.ts:116-128 | the unexpired stored entries, later ones over earlier ones |
| `RevocationCache.Cache.constructor` | services/gateway/src/tokens/revocation-cache.ts:33-36 | starts the accounts that every method keeps: insertions = size + evictions + lapses + removals, metric size = map size, hits + misses = lookups |
| `RevocationCache.CacheMetrics.HitRate` | services/gateway/src/tokens/cache-metrics.ts:46-55 | the share of lookups that were hits, between 0 and 1, and 0 when there were none |
| `TokenRegistry.Registry.Register` | services/gateway/src/tokens/token-registry.ts:90-92 | the token is in registry and ledger; a fresh id clashes with no revocation |
| `TokenRegistry.Registry.Revoke` | services/gateway/src/tokens/token-registry.ts:94-100 | found exactly if registered; then gone from registry and ledger and held by the revocation cache |
| `TokenRegistry.Registry.IsValid` | services/gateway/src/tokens/token-registry.ts:102-111 | the ledger's answer, except for a live revocation of a reused id; without reuse exactly the ledger's |
| `TokenRegistry.Registry.GetExpiringSoon` | services/gateway/src/tokens/token-registry.ts:117-125 | every token that expires after now and within the threshold, each once |
| `TokenRegistry.Registry.Cleanup` | services/gateway/src/tokens/token-registry.ts:127-138 | exactly the unexpired tokens and revocations are left, and the ledger does not notice |
| `TokenRegistry.Registry.RevokeBySession` | services/gateway/src/tokens/token-registry.ts:160-167 | exactly the session's tokens are gone and counted; if the revocation cache has room for them, it holds each with its own expiry, the reason and the instant, and otherwise what it held |
| `TokenRegistry.Registry.RevokeByOperator` | services/gateway/src/tokens/token-registry.ts:173-181 | exactly the operator's tokens are gone, remembered likewise, and the answer lists their sessions, each once |
| `TokenRegistry.OthersAreLeft` | services/gateway/src/tokens/token-registry.ts:160-181 | the tokens that stay are those of the other sessions, and of the other operators, as they were |
| `TokenRegistry.RememberedAt` | services/gateway/src/tokens/token-registry.ts:94-100 | what the revocation cache holds, entry by entry, after a list of revocations |
| `TokenRegistry.SessionsOf` | services/gateway/src/tokens/token-registry.ts:173-181 | the sessions of a list of tokens, each once |
| `TokenRegistry.Registry.Perform` | services/gateway/src/tokens/token-registry.ts:90-181 | one operation keeps the registry in agreement with the simple ledger |
| `TokenRegistry.Registry.Run` | services/gateway/src/tokens/token-registry.ts:90-181 | over any run that never reuses a token id, from any loaded revocation cache, every query is answered as by a ledger that knows no cache, eviction or cleanup |
| `ExpiryMonitor.Monitor.Tick` | services/gateway/src/tokens/expiry-monitor.ts:57-80 | warns exactly of the expiring tokens not yet warned about, each once, and remembers exactly the registered ones |
| `ExpiryMonitor.Monitor.WarnEach` | services/gateway/src/tokens/expiry-monitor.ts:60-70 | one warning for each listed token not warned about before |
| `ExpiryMonitor.Monitor.Prune` | services/gateway/src/tokens/expiry-monitor.ts:72-77 | exactly the tokens no longer registered are forgotten |
| `ExpiryRuns.WarnedAtMostOnce` | services/gateway/src/tokens/expiry-monitor.ts:57-80 | on any run with cleanup and revocation, no token is warned about at two ticks |
| `ExpiryRuns.WarnedExactlyOnce` | services/gateway/src/tokens/expiry-monitor.ts:57-80 | a token kept until expiry under ticks at most the threshold apart is warned about at exactly one tick |
| `ExpiryRuns.WarnedBy` | services/gateway/src/tokens/expiry-monitor.ts:57-80 | a tick in the warning span finds or leaves the token warned about |
| `ExpiryRuns.WarningIsRight` | services/gateway/src/tokens/expiry-monitor.ts:60-70 | the warning carries the token's id, session and expiry, and the time that is left, which is positive and at most the threshold |
| `Signaling.InOneRoomAtMost` | services/gateway/src/routes/signaling.ts:56-65 | in every reachable state a peer is in at most one room with a name; while the rooms are in order, in at most one room at all, the one its state names |
| `Signaling.LeavingIsComplete` | services/gateway/src/routes/signaling.ts:56-60 | leaving the named room takes the peer out of every room but the nameless one, and keeps no empty room |
| `Signaling.MovedMembers` | services/gateway/src/routes/signaling.ts:107-111 | an accepted join moves exactly this peer, and leaves it in the nameless room if it is there |
| `Signaling.JoinWritesOneEntry` | services/gateway/src/routes/signaling.ts:62-65 | joining writes the entry of this peer, with its role, in this room, and touches no other |
| `Signaling.LeaveErasesOneEntry` | services/gateway/src/routes/signaling.ts:56-60 | leaving erases the entry of this peer in this room, and touches no other |
| `Signaling.JoinKeepsConfined` | services/gateway/src/routes/signaling.ts:107-111 | every join, for whatever session, keeps all rooms with a name in order |
| `Signaling.JoinKeepsPlacedIff` | services/gateway/src/routes/signaling.ts:95-115 | a join keeps all rooms in order if and only if the peer is not in the nameless room or joins it again |
| `Signaling.LeaveKeepsPlaced` | services/gateway/src/routes/signaling.ts:117-124 | a leave keeps the rooms in order, and takes the peer out of all of them if and only if it is not in the nameless one |
| `Signaling.DisconnectKeepsPlacedIff` | services/gateway/src/routes/signaling.ts:126-137 | a disconnect keeps the rooms in order if and only if the peer is not in the nameless one |
| `Signaling.NamelessSessionSplitsPeer` | services/gateway/src/routes/signaling.ts:95-115 | from a new server, two joins put a peer in two rooms |
| `Signaling.NamelessPeerStays` | services/gateway/src/routes/signaling.ts:117-137 | once it has left and disconnected, it is still in the nameless one |
| `Signaling.OtherRoomIsOpened` | services/gateway/src/routes/signaling.ts:72-93 | a token registered for one session whose payload claims another admits a peer to the other's room |
| `Signaling.TearDownsCompose` | services/gateway/src/routes/signaling.ts:192-205 | tearing down some rooms and then others is tearing down all of them at once: nobody is told twice |
| `Signaling.Server.Connect` | services/gateway/src/routes/signaling.ts:140-145 | a new peer is in no room |
| `Signaling.Server.Broadcast` | services/gateway/src/routes/signaling.ts:39-49 | reaches exactly the open members other than the excluded peer |
| `Signaling.Server.ValidateJoinToken` | services/gateway/src/routes/signaling.ts:72-93 | the exact reason of a refusal; none exactly for a token of this very session that, if there is a registry, is good by the ledger and not held revoked |
| `Signaling.Server.HandleJoin` | services/gateway/src/routes/signaling.ts:95-115 | from any peer, for any session, with any token: refused for exactly the reasons of the token check; a refusal changes no room, an accepted join moves this peer only and tells the others and the peer; the rooms stay in order exactly under the condition above |
| `Signaling.Server.Admit` | services/gateway/src/routes/signaling.ts:101-114 | the rooms, states and messages after the check, for every outcome of it |
| `Signaling.Server.HandleOther` | services/gateway/src/routes/signaling.ts:147-176 | an unreadable message or one of unknown type is answered by its error and changes nothing else |
| `Signaling.Server.HandleRelay` | services/gateway/src/routes/signaling.ts:162-170 | to the open others of the sender's room, or an error to the sender |
| `Signaling.Server.HandleLeave` | services/gateway/src/routes/signaling.ts:117-124 | the peer is in no room but possibly the nameless one, and those left are told |
| `Signaling.Server.HandleDisconnect` | services/gateway/src/routes/signaling.ts:126-137 | likewise, with the state left as it is; the rooms stay in order exactly under the condition above |
| `Signaling.Server.NotifyRevocation` | services/gateway/src/routes/signaling.ts:192-205 | the room is gone, its open members were told and closed, nobody else notices, and stale peer states do no harm |
| `Signaling.Server.TearDown` | services/gateway/src/routes/signaling.ts:197-205 | the room and its sockets, in every reachable state |
| `Signaling.Server.Perform` | services/gateway/src/routes/signaling.ts:139-205 | every event keeps all rooms with a name in order, and the nameless one empty unless it is one that asks to join it |
| `Signaling.Server.Run` | services/gateway/src/routes/signaling.ts:139-205 | so does every run of connections, joins, relays, leaves, disconnections and revocations; if none asks to join the nameless session, all rooms are in order in the end |
| `Signaling.Server.TidyIsInPlace` | services/gateway/src/routes/signaling.ts:95-137 | with nobody in the nameless room, every peer in a room is in the one that its state names |
| `Gateway.Gateway.constructor` | services/gateway/src/routes/sessions.ts:13-17 | establishes the invariant: every registered token belongs to a live session of the same operator and robot, and no session has two |
| `Gateway.Gateway.CreateSession` | services/gateway/src/routes/sessions.ts:101-120 | the scope is the requested one, or viewing and control if none is requested; the reply is decided by generator, credential and policy in force for exactly that scope: one pending session with that scope and one token is added exactly if a token is generated and some allow rule and no deny rule fires, or no policy is configured; otherwise nothing changes. The created scope is what the policy allows if and only if the deciding rule lists all of it |
| `Gateway.ScopeBeyondPolicy` | services/gateway/src/routes/sessions.ts:109-116 | with one rule that allows viewing alone, the default request creates a session whose scope has control and is not what the policy allows |
| `Gateway.Gateway.DeleteSession` | services/gateway/src/routes/sessions.ts:131-141 | 404 for an unknown session, otherwise it is terminated and its token gone |
| `Gateway.Gateway.UpdateSessionState` | services/gateway/src/routes/sessions.ts:175-180 | exactly this session's state changes, if it exists |
| `Gateway.Gateway.EndSession` | services/gateway/src/routes/revocations.ts:23-35 | the session is dead, has no token, and no other session is touched; affected exactly if it existed |
| `Gateway.IsTokenValidForSession` | services/gateway/src/routes/session-policy.ts:27-40 | without a registry true; with one, true exactly for the registered, unexpired token of this session |
| `Gateway.Gateway.Refresh` | services/gateway/src/routes/sessions.ts:143-168 | the reply is decided by session, state, token and generator; success replaces the session's token by one, a generator that fails leaves the session without a token, and any other refusal changes nothing |
| `Gateway.Gateway.RunAfterFailedRefresh` | services/gateway/src/routes/sessions.ts:160-161 | after a refresh for which no token was generated and any further run, the session has no token and every refresh is refused |
| `Gateway.Gateway.Cleanup` | services/gateway/src/tokens/token-registry.ts:127-138 | dropping expired tokens keeps the invariant |
| `Gateway.Gateway.RevokeSession` | services/gateway/src/routes/revocations.ts:23-36 | the session is revoked, its token gone, its room torn down; nothing happens to any other |
| `Gateway.Gateway.RevokeOperatorSessions` | services/gateway/src/routes/revocations.ts:39-51 | exactly the sessions with a token of the operator are revoked and torn down |
| `Gateway.Gateway.CreateRevocation` | services/gateway/src/routes/revocations.ts:65-91 | the reply by authorization and fields; the affected sessions are the named one if it exists and those of the operator, each once, and exactly they are revoked, lose their tokens and their rooms |
| `Gateway.Gateway.HandleSignal` | services/gateway/src/routes/signaling.ts:139-188 | a signaling event may query the shared registry, and changes no session and no token |
| `Gateway.Gateway.Perform` | services/gateway/src/routes/sessions.ts:100-168 | every event, of the routes or of signaling, keeps the invariants and goes onward |
| `Gateway.Gateway.Run` | services/gateway/src/routes/sessions.ts:100-168 | so does every run of routes and signaling over one registry: no session is lost or changes hands, the dead stay dead, a session without a token gets no other, and the rooms stay in order as long as nobody asks to join the nameless session |
| `Gateway.NoWayBack` | services/gateway/src/routes/sessions.ts:143-157 | a session that is dead or without a token is refused every refresh in every later state |
| `Gateway.Gateway.RunWithoutToken` | services/gateway/src/routes/sessions.ts:143-157 | the same after every run of routes and signaling |
| `Gateway.Gateway.AdmittedIsOwnIff` | services/gateway/src/routes/signaling.ts:84-90 | with a shared registry, a join is admitted only on a registered, unexpired token of some live session; the gateway's own check accepts that token for the session joined if and only if it was registered for it |
| `Gateway.OnwardOnward` | services/gateway/src/routes/sessions.ts:100-168 | what every step keeps is kept over steps |
| `Gateway.EndOfSession` | services/gateway/src/routes/revocations.ts:23-35 | ending a session together with its token keeps the invariant; a token implies a session |
| `Gateway.EndOfOperator` | services/gateway/src/routes/revocations.ts:45-49 | ending the operator's sessions together with the operator's tokens keeps the invariant |
| `Gateway.OperatorSessionsThatDie` | services/gateway/src/routes/revocations.ts:45-49 | of the operator's live sessions, exactly those with a token die |
| `Gateway.TokenReplaced` | services/gateway/src/routes/sessions.ts:160-163 | replacing a token keeps one token per session |
| `Gateway.RevokingBoth` | services/gateway/src/routes/revocations.ts:77-83 | revoking a session and then an operator's affects each session once, as the request asks |
| `ConditionEvaluator.GetFieldValue` | services/gateway/src/policy/condition-evaluator.ts:14-28 | the loop follows the dotted path through fields, array elements and inherited properties; anything else on the way is undefined |
| `ConditionEvaluator.SplitJoin` | services/gateway/src/policy/condition-evaluator.ts:18 | splitting undoes joining, so a path finds the nested fields it was written for |
| `ConditionEvaluator.JoinSplit` | services/gateway/src/policy/condition-evaluator.ts:18 | every path is its parts joined, and no part has a dot |
| `ConditionEvaluator.StepMeans` | services/gateway/src/policy/condition-evaluator.ts:21-25 | what each kind of value has under a name: an object its field, an array its length and the element with this index, both and dates else what they inherit, anything else nothing |
| `ConditionEvaluator.IndexIsNumeral` | services/gateway/src/policy/condition-evaluator.ts:21-25 | a name stands for an index exactly if it is the index's decimal numeral |
| `ConditionEvaluator.NestedFieldIsFound` | services/gateway/src/policy/condition-evaluator.ts:14-28 | a path of dot-free names finds the value nested under them |
| `ConditionEvaluator.EvaluateCondition` | services/gateway/src/policy/condition-evaluator.ts:50-79 | a condition holds exactly if its field is there and equal, ordered, member or part as the operator means; an unknown operator never holds |
| `ConditionEvaluator.TestMeans` | services/gateway/src/policy/condition-evaluator.ts:58-78 | the computed tests are those relations: membership by value for `in` and `contains`, being an infix for strings |
| `ConditionEvaluator.EqualityOperators` | services/gateway/src/policy/condition-evaluator.ts:56-62 | `eq` is equality of primitives; `neq` is its complement on a field that is there, and fails like `eq` on one that is not |
| `ConditionEvaluator.OrderOperators` | services/gateway/src/policy/condition-evaluator.ts:66-73 | `gt` and `lte`, `lt` and `gte` exclude each other, and one of them holds exactly when the operands compare |
| `ConditionEvaluator.OrderOperatorsOnNumbers` | services/gateway/src/policy/condition-evaluator.ts:66-73 | on numbers they are the orders they are named after |
| `PolicyEvaluator.Evaluate` | services/gateway/src/policy/policy-evaluator.ts:59-92 | the decision is allow if and only if some allow rule, and no deny rule, lists a requested action and has all its conditions hold as their operators mean; the named rule is least by priority and then position within the deciding effect; reason and allowed actions accordingly |
| `PolicyEvaluator.Pass` | services/gateway/src/policy/policy-evaluator.ts:70-77 | the first rule of the list that has the effect and matches |
| `PolicyEvaluator.FiresMeans` | services/gateway/src/policy/policy-evaluator.ts:21-30 | a rule fires exactly if it has the effect, lists a requested action, and every one of its conditions tests a field that is there and holds as its operator means |
| `PolicyEvaluator.FirstOfInsert` | services/gateway/src/policy/policy-evaluator.ts:67 | how one stable insertion changes the first rule that fires |
| `PolicyEvaluator.FirstSortedDecides` | services/gateway/src/policy/policy-evaluator.ts:66-88 | the first to fire in the stably sorted list is the deciding rule of the unsorted policy |
| `PolicyEvaluator.IntersectionIsCommonPart` | services/gateway/src/policy/policy-evaluator.ts:33-35 | an order-preserving sublist of the request with every common action as often as requested |
| `PolicyEvaluator.CommonPartIsIntersection` | services/gateway/src/policy/policy-evaluator.ts:33-35 | there is no other |
| `PolicyEvaluator.OrderDoesNotMatter` | services/gateway/src/policy/policy-evaluator.ts:59-92 | permuting the rules never changes the decision or the priority of the named rule |
| `PolicyEvaluator.DistinctPrioritiesFixTheRule` | services/gateway/src/policy/policy-evaluator.ts:66-88 | nor the rule itself, if no two that could decide share a priority |
| `PolicyEvaluator.MeaningDetermines` | services/gateway/src/policy/policy-evaluator.ts:59-92 | the declarative meaning has exactly one evaluation |
| `PolicyEvaluator.AllowedActionsAreSafe` | services/gateway/src/policy/policy-evaluator.ts:69-88 | an allowed action was requested, is listed by an allow rule whose conditions hold and by no deny rule whose conditions hold |
| `PolicyEvaluator.MoreDenyAllowsLess` | services/gateway/src/policy/policy-evaluator.ts:69-77 | adding deny rules never allows what was denied |
| `SessionPolicy.PolicyInForce` | services/gateway/src/routes/session-policy.ts:111-124 | the latest version of the default policy in the store's history |
| `SessionPolicy.EvaluateSessionPolicy` | services/gateway/src/routes/session-policy.ts:106-132 | succeeds exactly if no policy is configured, or the one in force allows the request to this credential; for a policy over the six fields of the context, exactly if some allow rule and no deny rule holds of the credential, the robot, the first requested action and the instant; for one rule that allows a list of roles, exactly if the role is in the list. A missing credential is reported before a missing policy, and a denial names the deciding rule, or says that none matched |
| `SessionPolicy.ContextShows` | services/gateway/src/routes/session-policy.ts:73-81 | each of the six paths through the context leads to the value it is named after |
| `SessionPolicy.ContextHasNoMore` | services/gateway/src/routes/session-policy.ts:73-81 | the context has no other fields, and the request is for the whole scope |
| `SessionPolicy.AdmitsIffSpeaks` | services/gateway/src/routes/session-policy.ts:127-131 | for a policy over these fields, admission in terms of the credential and the request alone |
| `SessionPolicy.RoleDecides` | services/gateway/src/routes/session-policy.ts:127-131 | under one rule that allows a list of roles, the role of the credential decides |
| `SessionPolicy.ScopeIsAllowedIff` | services/gateway/src/routes/sessions.ts:109-116 | of an admitted request, the requested scope is the evaluation's allowed actions if and only if the deciding rule lists every requested action |
| `PolicyStore.Store.Get` | services/gateway/src/policy/policy-store.ts:34-36 | the last version |
| `PolicyStore.Store.GetByVersion` | services/gateway/src/policy/policy-store.ts:38-42 | defined exactly for 1 <= v <= n, and then the v-th version |
| `PolicyStore.Store.Create` | services/gateway/src/policy/policy-store.ts:48-71 | an existing id is refused before a full store; otherwise version 1 with the hash of its rules |
| `PolicyStore.Store.Update` | services/gateway/src/policy/policy-store.ts:73-97 | appends one version in which exactly the fields that are given change, each to what is given; unknown ids are refused |
| `PolicyStore.Store.Delete` | services/gateway/src/policy/policy-store.ts:99-104 | exactly this policy is gone from both maps |
| `PolicyStore.Store.GetVersionHistory` | services/gateway/src/policy/policy-store.ts:106-108 | all versions, or none |
| `PolicyStore.Store.Clear` | services/gateway/src/policy/policy-store.ts:114-117 | empty |
| `PolicyStore.Store.Perform` | services/gateway/src/policy/policy-store.ts:48-117 | every operation keeps both maps in agreement, versions numbered from 1, each with the hash of its own rules, and the size within bounds |
| `PolicyStore.Store.Run` | services/gateway/src/policy/policy-store.ts:48-117 | over any run, a policy that is not deleted keeps every version it had, in its place |
| `Percentiles.SortedRank` | robot-agent/internal/metrics/revocation.go:187-196 | element i of a sorted list is at most T exactly when more than i elements are |
| `Percentiles.PercentileCounts` | robot-agent/internal/metrics/revocation.go:187-196 | the value by index is at most T exactly when 100 times the number of durations at most T exceeds p times their number |
| `Percentiles.PercentilesAreOrdered` | robot-agent/internal/metrics/revocation.go:177-179 | that determines the percentile, and percentiles grow with p |
| `Percentiles.SortedStats` | robot-agent/internal/metrics/revocation.go:166-183 | statistics read off the sorted list are those of the unsorted one |
| `Percentiles.PositiveAreTheMeasured` | robot-agent/internal/metrics/revocation.go:154-160 | a duration counts exactly if it is positive and was measured |
| `Percentiles.DurationsBetween` | robot-agent/internal/metrics/revocation.go:55-71 | which two instants each of the five durations lies between |
| `Percentiles.CalculateStats` | robot-agent/internal/metrics/revocation.go:149-184 | the statistics of the positive durations, or zeros if there are none |
| `Percentiles.StatsAreOrdered` | robot-agent/internal/metrics/revocation.go:175-183 | Min <= P50 <= P95 <= P99 <= Max and Min <= Avg <= Max |
| `Percentiles.RevocationCollector.Record` | robot-agent/internal/metrics/revocation.go:103-112 | the collection is the last maxSamples recorded since the last reset |
| `Percentiles.RevocationCollector.Stats` | robot-agent/internal/metrics/revocation.go:115-122 | statistics, over exactly those, of the times from the message to the completed safe-stop |
| `Percentiles.RevocationCollector.SafeStopStats` | robot-agent/internal/metrics/revocation.go:125-132 | likewise of the times from the triggered to the completed safe-stop |
| `Percentiles.RevocationCollector.Count` | robot-agent/internal/metrics/revocation.go:135-139 | how many were recorded, up to maxSamples |
| `Percentiles.RevocationCollector.Reset` | robot-agent/internal/metrics/revocation.go:142-146 | nothing is recorded |
| `FrameTimestamps.TimestampSender.SendFrameTimestamp` | robot-agent/internal/video/timestamp_sender.go:43-69 | message number q is sent for exactly frame q * interval, until the 64-bit counters wrap |
| `FrameTimestamps.TimestampReceiver.HandleMessage` | apps/console/src/hooks/useFrameTimestamps.ts:76-128 | the buffer is the last 100 timestamps, drops are the gaps on this channel plus those of earlier ones, and errors are counted and named |
| `FrameTimestamps.TimestampReceiver.ChangeChannel` | apps/console/src/hooks/useFrameTimestamps.ts:132-135 | counted drops stay, and no gap is counted across channels |
| `FrameTimestamps.GapsAreMissing` | apps/console/src/hooks/useFrameTimestamps.ts:99-104 | for numbers received in order, the gaps add up to the numbers between the first and the last that were not received |
| `FrameTimestamps.GapsAreMissingIff` | apps/console/src/hooks/useFrameTimestamps.ts:99-104 | for messages that each arrive once, the last not numbered below the first, in any order: the gaps count the missing numbers if and only if arrival was in order, and are otherwise too many by at least the number of descents |
| `FrameTimestamps.NothingBetween` | apps/console/src/hooks/useFrameTimestamps.ts:99-104 | if the last is numbered below the first, nothing is between them, and nothing is counted exactly if no number is skipped going up |
| `FrameTimestamps.FallsReach` | apps/console/src/hooks/useFrameTimestamps.ts:99-104 | to reach its extremes and end where it does, a list must fall at least that far |
| `FrameTimestamps.ReorderingIsMiscounted` | apps/console/src/hooks/useFrameTimestamps.ts:99-104 | the shortest list in which nothing is missing and drops are counted |
| `FrameTimestamps.LostAreMissing` | apps/console/src/hooks/useFrameTimestamps.ts:98-118 | the gaps number exactly the messages sent between the first and the last arrival that did not arrive |
| `FrameTimestamps.Stream` | robot-agent/internal/video/timestamp_sender.go:43-69 | from the sender through an in-order lossy channel to the console, the drops counted are exactly the messages lost between the first and the last received |
| `Sorting.StableSortSorts` | services/gateway/src/policy/policy-evaluator.ts:67 | the sort is a sorted permutation |
| `Sorting.StableSortIsStable` | services/gateway/src/policy/policy-evaluator.ts:67 | and keeps the order of elements of equal key |

## Left out

- Session.Manager.constructor: asks for a positive clock skew, without which `Session.LeewayIsNeeded` applies.
- FrameTimestamps.Stream: covers 2^53 frames, beyond which the console's numbers are not exact, and channels that keep order, without which `FrameTimestamps.GapsAreMissingIff` applies.
- WebRTC, WebSocket, HTTP and Fastify plumbing, JWKS fetching, audit publishing and logging: input and output.
- The revocation store's file: a restart is a new registry with any list given to `LoadFromStore`.
- Interleavings below one method, handler or callback, among them two refreshes overlapping at the token generator.
- Expiry checks of the code that run on several readings of the clock within one call: one instant per step.
- Gateway.Gateway.constructor: a gateway whose session routes have no registry at all; signaling and the token check of a refresh are modelled with and without one, and the token generator may be missing or fail, which the framework answers with 500.
- Gateway.Gateway.CreateSession: takes the policy in force at its instant as an input, as `SessionPolicy.PolicyInForce` reads it from the store, and the credential as extracted, if extraction succeeds.
- `lastTransition`, the manager's state callback, periodic start and stop of monitors, `clearWarned`, and the stored revocation records: no other state depends on them.
- Aliasing of arrays and objects handed out by the TypeScript maps (`getVersionHistory` returns the live array, `get` the live session).
- Overflow of Go's 64-bit durations and of their sum, and rounding of JavaScript numbers beyond 2^53.
- Object identity in conditions beyond "not equal to a constant", and NaN.
- Credential parsing, policy validation, DID documents, key decoding, and the other consoles' hooks: record building or library code.
- `safety/state.go`, trigger priorities, configuration and report formatting: one-branch facts.
