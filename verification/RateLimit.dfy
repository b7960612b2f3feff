/**
 Command rate limiting on the robot (robot-agent/internal/control/ratelimit.go). Floating-point
 token counts and seconds are modelled as reals.

 The bucket keeps two numbers. The specification keeps the whole list of requests and says, of
 every one, whether it is admitted: `MayAdmit`. The two agree for every sequence of instants and
 every rate, a negative one included.
 */
module RateLimit {

  datatype Request = Request(at: real, admitted: bool)

  function Admitted(rs: seq<Request>): nat {
    if rs == [] then 0
    else
      var last := |rs| - 1;
      Admitted(rs[..last]) + if rs[last].admitted then 1 else 0
  }

  /** The tokens that have flowed in up to an instant, counted from instant 0. */
  type Inflow = real -> real

  /** What flows in from one instant to another. */
  function Gain(flow: Inflow, from: real, to: real): real {
    flow(to) - flow(from)
  }

  /** A constant inflow of `rate` tokens per second. */
  ghost predicate Steady(flow: Inflow, rate: real) {
    forall a, b {:trigger Elapsed(a, b)} :: Gain(flow, a, b) == Elapsed(a, b) * rate
  }

  function Elapsed(from: real, to: real): real {
    to - from
  }

  lemma {:induction false} SteadyGain(flow: Inflow, rate: real, from: real, to: real)
    requires Steady(flow, rate)
    ensures Gain(flow, from, to) == Elapsed(from, to) * rate
  {
  }

  function Flow(rate: real): Inflow {
    (t: real) => t * rate
  }

  lemma {:induction false} FlowIsSteady(rate: real)
    ensures Steady(Flow(rate), rate)
  {
    forall a, b ensures Gain(Flow(rate), a, b) == Elapsed(a, b) * rate {
      var elapsed := Elapsed(a, b);
      assert b * rate - a * rate == elapsed * rate;
    }
  }

  /** What is left at `now` of a full bucket at instant `at`, when `count` tokens were taken since. */
  function Credit(burst: real, flow: Inflow, at: real, count: nat, now: real): real {
    burst + (flow(now) - flow(at)) - count as real
  }

  /**
   One more request fits at `now`: counted from the start and from every earlier request on,
   the admitted requests and this one stay within the burst plus what flowed in since.
   */
  ghost predicate MayAdmit(burst: real, flow: Inflow, since: real, rs: seq<Request>, now: real) {
    && 1.0 <= burst
    && 1.0 <= Credit(burst, flow, since, Admitted(rs), now)
    && forall i {:trigger Credit(burst, flow, rs[i].at, Admitted(rs[i..]), now)} :: 0 <= i < |rs| ==> 1.0 <= Credit(burst, flow, rs[i].at, Admitted(rs[i..]), now)
  }

  /** `level` is the least credit counted from the start or from some earlier request. */
  ghost predicate IsLevel(burst: real, flow: Inflow, since: real, rs: seq<Request>, now: real, level: real) {
    && level <= Credit(burst, flow, since, Admitted(rs), now)
    && (forall i {:trigger Credit(burst, flow, rs[i].at, Admitted(rs[i..]), now)} :: 0 <= i < |rs| ==> level <= Credit(burst, flow, rs[i].at, Admitted(rs[i..]), now))
    && (|| level == Credit(burst, flow, since, Admitted(rs), now)
        || exists i {:trigger Credit(burst, flow, rs[i].at, Admitted(rs[i..]), now)} :: 0 <= i < |rs| && level == Credit(burst, flow, rs[i].at, Admitted(rs[i..]), now))
  }

  /** Every request in the log was decided as `MayAdmit` says. */
  ghost predicate Faithful(burst: real, flow: Inflow, since: real, rs: seq<Request>) {
    rs == [] ||
    var last := |rs| - 1;
    && Faithful(burst, flow, since, rs[..last])
    && (rs[last].admitted <==> MayAdmit(burst, flow, since, rs[..last], rs[last].at))
  }

  lemma {:induction false} FaithfulAt(burst: real, flow: Inflow, since: real, rs: seq<Request>, n: nat)
    requires Faithful(burst, flow, since, rs) && n < |rs|
    ensures rs[n].admitted <==> MayAdmit(burst, flow, since, rs[..n], rs[n].at)
    decreases |rs|
  {
    var last := |rs| - 1;
    if n < last {
      FaithfulAt(burst, flow, since, rs[..last], n);
      assert rs[..last][..n] == rs[..n];
    }
  }

  function Capped(burst: real, level: real): real {
    if level > burst then burst else level
  }

  /** The tokens at `now`, not yet capped, as the bucket computes them: request by request. */
  ghost function Level(burst: real, flow: Inflow, since: real, rs: seq<Request>, now: real): real {
    if rs == [] then burst + Gain(flow, since, now)
    else
      var last := |rs| - 1;
      var r := rs[last];
      Capped(burst, Level(burst, flow, since, rs[..last], r.at)) - (if r.admitted then 1.0 else 0.0) + Gain(flow, r.at, now)
  }

  /** Time passes: every credit grows by the same amount, so the least one stays the least. */
  lemma {:induction false} LevelFlows(burst: real, flow: Inflow, since: real, rs: seq<Request>, last: real, level: real, now: real)
    requires IsLevel(burst, flow, since, rs, last, level)
    ensures IsLevel(burst, flow, since, rs, now, level + (flow(now) - flow(last)))
  {
    forall i | 0 <= i < |rs|
      ensures Credit(burst, flow, rs[i].at, Admitted(rs[i..]), now)
              == Credit(burst, flow, rs[i].at, Admitted(rs[i..]), last) + (flow(now) - flow(last))
    {
    }
  }

  lemma {:induction false} AdmittedTail(rs: seq<Request>, r: Request, i: nat)
    requires i <= |rs|
    ensures Admitted((rs + [r])[i..]) == Admitted(rs[i..]) + if r.admitted then 1 else 0
  {
    var tail := (rs + [r])[i..];
    assert tail[..|tail| - 1] == rs[i..];
  }

  lemma {:induction false} CreditTakes(burst: real, flow: Inflow, at: real, count: nat, more: nat, now: real)
    ensures Credit(burst, flow, at, count + more, now) == Credit(burst, flow, at, count, now) - more as real
  {
  }

  lemma {:induction false} CreditAtOnce(burst: real, flow: Inflow, at: real, count: nat)
    ensures Credit(burst, flow, at, count, at) == burst - count as real
  {
  }

  /** A request is logged: every credit drops by what it takes, and one counted from it appears. */
  lemma {:induction false} LevelTakes(burst: real, flow: Inflow, since: real, rs: seq<Request>, level: real, r: Request)
    requires IsLevel(burst, flow, since, rs, r.at, level)
    ensures var left := Capped(burst, level) - (if r.admitted then 1.0 else 0.0);
            IsLevel(burst, flow, since, rs + [r], r.at, left)
  {
    var after := rs + [r];
    var taken: nat := if r.admitted then 1 else 0;
    var left := Capped(burst, level) - taken as real;
    AdmittedTail(rs, r, 0);
    assert after[0..] == after && rs[0..] == rs;
    CreditTakes(burst, flow, since, Admitted(rs), taken, r.at);
    forall i | 0 <= i < |rs|
      ensures Credit(burst, flow, after[i].at, Admitted(after[i..]), r.at)
              == Credit(burst, flow, rs[i].at, Admitted(rs[i..]), r.at) - taken as real
    {
      AdmittedTail(rs, r, i);
      CreditTakes(burst, flow, rs[i].at, Admitted(rs[i..]), taken, r.at);
    }
    AdmittedTail(rs, r, |rs|);
    assert rs[|rs|..] == [];
    CreditAtOnce(burst, flow, r.at, taken);
    assert Credit(burst, flow, after[|rs|].at, Admitted(after[|rs|..]), r.at) == burst - taken as real;
    if level <= burst && level != Credit(burst, flow, since, Admitted(rs), r.at) {
      var i :| 0 <= i < |rs| && level == Credit(burst, flow, rs[i].at, Admitted(rs[i..]), r.at);
      assert left == Credit(burst, flow, after[i].at, Admitted(after[i..]), r.at);
    }
  }

  /** Computed request by request, the level is the least credit over the whole log. */
  lemma {:induction false} LevelIsLeastCredit(burst: real, flow: Inflow, since: real, rs: seq<Request>, now: real)
    ensures IsLevel(burst, flow, since, rs, now, Level(burst, flow, since, rs, now))
    decreases |rs|
  {
    if rs != [] {
      var last := |rs| - 1;
      var r := rs[last];
      LevelIsLeastCredit(burst, flow, since, rs[..last], r.at);
      LevelTakes(burst, flow, since, rs[..last], Level(burst, flow, since, rs[..last], r.at), r);
      assert rs[..last] + [r] == rs;
      LevelFlows(burst, flow, since, rs, r.at,
                 Capped(burst, Level(burst, flow, since, rs[..last], r.at)) - (if r.admitted then 1.0 else 0.0), now);
    }
  }

  /** So a token is available exactly when the whole log admits one more request. */
  lemma {:induction false} LevelDecides(burst: real, flow: Inflow, since: real, rs: seq<Request>, now: real)
    requires burst >= 1.0
    ensures Capped(burst, Level(burst, flow, since, rs, now)) >= 1.0 <==> MayAdmit(burst, flow, since, rs, now)
  {
    LevelIsLeastCredit(burst, flow, since, rs, now);
  }

  /** The instant up to which the bucket has been refilled. */
  function LastRefill(since: real, rs: seq<Request>): real {
    if rs == [] then since else rs[|rs| - 1].at
  }

  /** Adding the elapsed time times the rate brings the stored tokens up to `now`. */
  lemma {:induction false} RefillReachesLevel(burst: real, flow: Inflow, rate: real, since: real, rs: seq<Request>, now: real)
    requires Steady(flow, rate)
    ensures var last := LastRefill(since, rs);
            Level(burst, flow, since, rs, last) + Elapsed(last, now) * rate == Level(burst, flow, since, rs, now)
  {
    var last := LastRefill(since, rs);
    SteadyGain(flow, rate, last, now);
    assert Level(burst, flow, since, rs, now) - Level(burst, flow, since, rs, last) == Gain(flow, last, now);
  }

  /** Logging the request that was just decided takes its token and keeps the log faithful. */
  lemma {:induction false} LogGrows(burst: real, flow: Inflow, since: real, rs: seq<Request>, r: Request)
    requires burst >= 1.0 && Faithful(burst, flow, since, rs)
    requires r.admitted <==> Capped(burst, Level(burst, flow, since, rs, r.at)) >= 1.0
    ensures Faithful(burst, flow, since, rs + [r])
    ensures r.admitted <==> MayAdmit(burst, flow, since, rs, r.at)
    ensures LastRefill(since, rs + [r]) == r.at
    ensures Level(burst, flow, since, rs + [r], r.at)
            == Capped(burst, Level(burst, flow, since, rs, r.at)) - (if r.admitted then 1.0 else 0.0)
  {
    LevelDecides(burst, flow, since, rs, r.at);
    assert (rs + [r])[..|rs|] == rs;
    assert Gain(flow, r.at, r.at) == 0.0;
  }

  class TokenBucket {
    const maxTokens: real
    const refillRate: real
    ghost const flow: Inflow
    var tokens: real
    var lastRefill: real
    ghost var since: real
    ghost var requests: seq<Request>

    ghost predicate Valid()
      reads this
    {
      && maxTokens >= 1.0
      && Steady(flow, refillRate)
      && tokens == Level(maxTokens, flow, since, requests, lastRefill)
      && lastRefill == LastRefill(since, requests)
      && Faithful(maxTokens, flow, since, requests)
    }

    constructor (hz: int, burstSize: int, now: real)
      ensures Valid() && since == now && requests == []
      ensures maxTokens == (if burstSize < 1 then 1.0 else burstSize as real) && refillRate == hz as real
    {
      var max := burstSize as real;
      if max < 1.0 {
        max := 1.0;
      }
      FlowIsSteady(hz as real);
      maxTokens, refillRate, flow := max, hz as real, Flow(hz as real);
      tokens, lastRefill := max, now;
      since, requests := now, [];
    }

    /** The first half of a request: refill for the elapsed time, up to the maximum. */
    method Refill(now: real)
      requires Valid()
      modifies this`tokens, this`lastRefill
      ensures lastRefill == now && tokens == Capped(maxTokens, Level(maxTokens, flow, since, requests, now))
    {
      var elapsed := Elapsed(lastRefill, now);
      var refilled := tokens + elapsed * refillRate;
      assert refilled == Level(maxTokens, flow, since, requests, now) by {
        RefillReachesLevel(maxTokens, flow, refillRate, since, requests, now);
      }
      lastRefill := now;
      tokens := refilled;
      if tokens > maxTokens {
        tokens := maxTokens;
      }
    }

    method Allow(now: real) returns (ok: bool)
      requires Valid()
      modifies this
      ensures Valid() && since == old(since)
      ensures ok <==> MayAdmit(maxTokens, flow, since, old(requests), now)
      ensures requests == old(requests) + [Request(now, ok)]
    {
      Refill(now);
      ok := false;
      if tokens >= 1.0 {
        tokens := tokens - 1.0;
        ok := true;
      }
      LogGrows(maxTokens, flow, since, requests, Request(now, ok));
      requests := requests + [Request(now, ok)];
    }

    method Reset(now: real)
      requires Valid()
      modifies this
      ensures Valid() && since == now && requests == [] && tokens == maxTokens
    {
      tokens := maxTokens;
      lastRefill := now;
      since, requests := now, [];
    }
  }

  // ------------------------------------------------- what the log of a bucket obeys

  ghost predicate Nondecreasing(since: real, rs: seq<Request>) {
    && (forall i :: 0 <= i < |rs| ==> since <= rs[i].at)
    && (forall i, j :: 0 <= i < j < |rs| ==> rs[i].at <= rs[j].at)
  }

  ghost predicate Growing(flow: Inflow, since: real, rs: seq<Request>) {
    && (forall i :: 0 <= i < |rs| ==> flow(since) <= flow(rs[i].at))
    && (forall i, j :: 0 <= i < j < |rs| ==> flow(rs[i].at) <= flow(rs[j].at))
  }

  lemma {:induction false} SteadyGrows(flow: Inflow, rate: real, since: real, rs: seq<Request>)
    requires Steady(flow, rate) && rate >= 0.0 && Nondecreasing(since, rs)
    ensures Growing(flow, since, rs)
  {
    forall a, b | a <= b ensures flow(a) <= flow(b) {
      SteadyGain(flow, rate, a, b);
      assert (b - a) * rate >= 0.0;
    }
  }

  lemma {:induction false} AdmittedNext(rs: seq<Request>, i: nat, j: nat)
    requires i <= j < |rs|
    ensures Admitted(rs[i..j + 1]) == Admitted(rs[i..j]) + if rs[j].admitted then 1 else 0
    ensures Admitted(rs[i..i]) == 0
  {
    assert rs[i..j + 1][..j - i] == rs[i..j];
  }

  lemma {:induction false} AdmissionWasJustified(burst: real, flow: Inflow, since: real, rs: seq<Request>, i: nat, j: nat)
    requires Faithful(burst, flow, since, rs)
    requires i < j < |rs| && rs[j].admitted
    ensures 1.0 <= Credit(burst, flow, rs[i].at, Admitted(rs[i..j]), rs[j].at)
  {
    var past := rs[..j];
    FaithfulAt(burst, flow, since, rs, j);
    assert MayAdmit(burst, flow, since, past, rs[j].at);
    assert past[i..] == rs[i..j];
    assert 1.0 <= Credit(burst, flow, past[i].at, Admitted(past[i..]), rs[j].at);
  }

  lemma {:induction false} InflowBoundsWindow(burst: real, flow: Inflow, since: real, rs: seq<Request>, i: nat, j: nat)
    requires burst >= 1.0
    requires Faithful(burst, flow, since, rs) && Growing(flow, since, rs)
    requires i <= j < |rs|
    ensures Admitted(rs[i..j + 1]) as real <= burst + Gain(flow, rs[i].at, rs[j].at)
    decreases j
  {
    AdmittedNext(rs, i, j);
    if i < j && rs[j].admitted {
      AdmissionWasJustified(burst, flow, since, rs, i, j);
    } else if i < j {
      InflowBoundsWindow(burst, flow, since, rs, i, j - 1);
      assert rs[i..j - 1 + 1] == rs[i..j];
    }
  }

  /** From request `i` to request `j` at most the burst plus the inflow of that time is admitted. */
  lemma {:induction false} WindowIsBounded(burst: real, flow: Inflow, rate: real, since: real, rs: seq<Request>, i: nat, j: nat)
    requires burst >= 1.0 && rate >= 0.0 && Steady(flow, rate)
    requires Faithful(burst, flow, since, rs) && Nondecreasing(since, rs)
    requires i <= j < |rs|
    ensures Admitted(rs[i..j + 1]) as real <= burst + Elapsed(rs[i].at, rs[j].at) * rate
  {
    var from, to := rs[i].at, rs[j].at;
    assert Admitted(rs[i..j + 1]) as real <= burst + Gain(flow, from, to) by {
      SteadyGrows(flow, rate, since, rs);
      InflowBoundsWindow(burst, flow, since, rs, i, j);
    }
    SteadyGain(flow, rate, from, to);
  }

  lemma {:induction false} AdmittedAtMostAll(rs: seq<Request>)
    ensures Admitted(rs) <= |rs|
  {
    if rs != [] {
      AdmittedAtMostAll(rs[..|rs| - 1]);
    }
  }

  /** Between successive requests at least one token flows in. */
  ghost predicate Fed(flow: Inflow, rs: seq<Request>) {
    forall i :: 0 < i < |rs| ==> flow(rs[i].at) - flow(rs[i - 1].at) >= 1.0
  }

  lemma {:induction false} FeedAddsUp(flow: Inflow, rs: seq<Request>, i: nat, n: nat)
    requires Fed(flow, rs)
    requires i <= n < |rs|
    ensures flow(rs[n].at) - flow(rs[i].at) >= (n - i) as real
    decreases n
  {
    if i < n {
      FeedAddsUp(flow, rs, i, n - 1);
    }
  }

  /** Seen from request `i`, the feed alone pays for one more request at `n`. */
  lemma {:induction false} FeedPays(burst: real, flow: Inflow, rs: seq<Request>, i: nat, n: nat)
    requires burst >= 1.0 && Fed(flow, rs)
    requires i < n < |rs|
    ensures 1.0 <= Credit(burst, flow, rs[i].at, Admitted(rs[i..n]), rs[n].at)
  {
    AdmittedAtMostAll(rs[i..n]);
    FeedAddsUp(flow, rs, i, n);
  }

  /** Successive requests come at least one refill interval apart. */
  ghost predicate Spaced(rate: real, rs: seq<Request>) {
    forall i :: 0 < i < |rs| ==> Elapsed(rs[i - 1].at, rs[i].at) * rate >= 1.0
  }

  lemma {:induction false} SpacedIsFed(flow: Inflow, rate: real, rs: seq<Request>)
    requires Steady(flow, rate) && Spaced(rate, rs)
    ensures Fed(flow, rs)
  {
    forall i | 0 < i < |rs| ensures flow(rs[i].at) - flow(rs[i - 1].at) >= 1.0 {
      SteadyGain(flow, rate, rs[i - 1].at, rs[i].at);
      assert Gain(flow, rs[i - 1].at, rs[i].at) >= 1.0;
    }
  }

  /** Requests spaced at least one refill interval apart are never refused, whatever the burst size. */
  lemma {:induction false} SpacedIsNeverRefused(burst: real, flow: Inflow, rate: real, since: real, rs: seq<Request>, n: nat)
    requires burst >= 1.0 && rate >= 0.0 && Steady(flow, rate)
    requires Faithful(burst, flow, since, rs) && Nondecreasing(since, rs)
    requires Spaced(rate, rs)
    requires n < |rs|
    ensures rs[n].admitted
  {
    SpacedIsFed(flow, rate, rs);
    SteadyGrows(flow, rate, since, rs);
    FedIsNeverRefused(burst, flow, since, rs, n);
  }

  lemma {:induction false} FedIsNeverRefused(burst: real, flow: Inflow, since: real, rs: seq<Request>, n: nat)
    requires burst >= 1.0 && Fed(flow, rs) && Growing(flow, since, rs)
    requires Faithful(burst, flow, since, rs)
    requires n < |rs|
    ensures rs[n].admitted
  {
    var past := rs[..n];
    AdmittedAtMostAll(past);
    FeedAddsUp(flow, rs, 0, n);
    forall i | 0 <= i < n
      ensures 1.0 <= Credit(burst, flow, past[i].at, Admitted(past[i..]), rs[n].at)
    {
      FeedPays(burst, flow, rs, i, n);
      assert past[i..] == rs[i..n];
    }
    FaithfulAt(burst, flow, since, rs, n);
  }

  // ------------------------------------------------------------------- the limiter

  datatype MessageType = Drive | KVMKey | KVMMouse | EStop | Other(name: string)

  datatype LimiterConfig = LimiterConfig(driveHz: int, kvmHz: int, eStopHz: int, burstSize: int)

  class RateLimiter {
    const drive: TokenBucket
    const key: TokenBucket
    const mouse: TokenBucket
    const eStop: TokenBucket

    ghost predicate Valid()
      reads drive, key, mouse, eStop
    {
      && drive.Valid() && key.Valid() && mouse.Valid() && eStop.Valid()
      && drive != key && drive != mouse && drive != eStop && key != mouse && key != eStop && mouse != eStop
    }

    constructor (cfg: LimiterConfig, now: real)
      ensures Valid() && fresh({drive, key, mouse, eStop})
      ensures drive.requests == key.requests == mouse.requests == eStop.requests == []
      ensures drive.since == key.since == mouse.since == eStop.since == now
      ensures drive.refillRate == cfg.driveHz as real && key.refillRate == mouse.refillRate == cfg.kvmHz as real
      ensures eStop.refillRate == cfg.eStopHz as real
      ensures drive.maxTokens == key.maxTokens == mouse.maxTokens == eStop.maxTokens == (if cfg.burstSize < 1 then 1.0 else cfg.burstSize as real)
    {
      var burstSize := cfg.burstSize;
      if burstSize < 1 {
        burstSize := 1;
      }
      drive := new TokenBucket(cfg.driveHz, burstSize, now);
      key := new TokenBucket(cfg.kvmHz, burstSize, now);
      mouse := new TokenBucket(cfg.kvmHz, burstSize, now);
      eStop := new TokenBucket(cfg.eStopHz, burstSize, now);
    }

    /** The bucket that decides a message type; an e-stop and an unknown type have none. */
    function Deciding(msgType: MessageType): TokenBucket?
    {
      match msgType
      case Drive => drive
      case KVMKey => key
      case KVMMouse => mouse
      case _ => null
    }

    /** The bucket was asked: the answer is that of its log, which now holds this request. */
    twostate predicate Asked(b: TokenBucket, now: real, allowed: bool)
      reads b
    {
      && (allowed <==> MayAdmit(b.maxTokens, b.flow, b.since, old(b.requests), now))
      && b.requests == old(b.requests) + [Request(now, allowed)] && b.since == old(b.since)
    }

    /** An e-stop is never limited; a limited type is decided by the log of its own bucket alone. */
    method Allow(msgType: MessageType, now: real) returns (allowed: bool)
      requires Valid()
      modifies drive, key, mouse
      ensures Valid()
      ensures msgType.EStop? || msgType.Other? ==> allowed
      ensures if msgType.Drive? then Asked(drive, now, allowed) else unchanged(drive)
      ensures if msgType.KVMKey? then Asked(key, now, allowed) else unchanged(key)
      ensures if msgType.KVMMouse? then Asked(mouse, now, allowed) else unchanged(mouse)
    {
      var bucket := Deciding(msgType);
      if msgType == EStop || bucket == null {
        return true;
      }
      allowed := bucket.Allow(now);
    }

    method Reset(now: real)
      requires Valid()
      modifies drive, key, mouse, eStop
      ensures Valid()
      ensures drive.requests == key.requests == mouse.requests == eStop.requests == []
      ensures drive.since == key.since == mouse.since == eStop.since == now
    {
      drive.Reset(now);
      key.Reset(now);
      mouse.Reset(now);
      eStop.Reset(now);
    }
  }
}
