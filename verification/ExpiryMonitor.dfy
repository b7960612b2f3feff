/**
 Near-expiry warnings (services/gateway/src/tokens/expiry-monitor.ts): one tick of the periodic
 check over the token registry, and what its warnings amount to over a whole run of the gateway.
 */
module ExpiryMonitor {
  import TR = TokenRegistry

  datatype Warning = Warning(jti: string, sessionId: string, expiresAt: int, remainingMs: int)

  function WarningFor(e: TR.TokenEntry, now: int): Warning {
    Warning(e.jti, e.sessionId, e.expiresAt, e.expiresAt - now)
  }

  /** The warning has the token's id, session and expiry, and the time that it has left. */
  ghost predicate IsAbout(w: Warning, e: TR.TokenEntry, now: int) {
    w.jti == e.jti && w.sessionId == e.sessionId && w.expiresAt == e.expiresAt && w.remainingMs == e.expiresAt - now
  }

  ghost predicate Expiring(e: TR.TokenEntry, thresholdMs: int, now: int) {
    now < e.expiresAt <= now + thresholdMs
  }

  ghost predicate Warns(out: seq<Warning>, jti: string) {
    exists i :: 0 <= i < |out| && out[i].jti == jti
  }

  /** The warnings of one tick: one for every registered token near its expiry that has not been warned about. */
  ghost predicate TickWarns(tokens: TR.Tokens, warned: set<string>, thresholdMs: int, now: int, out: seq<Warning>) {
    && (forall i, j :: 0 <= i < j < |out| ==> out[i].jti != out[j].jti)
    && (forall i :: 0 <= i < |out| ==> out[i].jti in tokens && IsAbout(out[i], tokens[out[i].jti], now))
    && (forall k :: k in tokens ==> (Warns(out, k) <==> Expiring(tokens[k], thresholdMs, now) && k !in warned))
  }

  class Monitor {
    var warnedTokens: set<string>

    constructor ()
      ensures warnedTokens == {}
    {
      warnedTokens := {};
    }

    /** One firing of the interval timer; `out` is what it hands to the warning callback, in order. */
    method Tick(registry: TR.Registry, thresholdMs: int, now: int) returns (out: seq<Warning>)
      requires TR.Filed(registry.tokens)
      modifies this
      ensures TickWarns(registry.tokens, old(warnedTokens), thresholdMs, now, out)
      ensures forall k :: k in warnedTokens <==> k in registry.tokens && (k in old(warnedTokens) || Warns(out, k))
    {
      var expiring := registry.GetExpiringSoon(thresholdMs, now);
      out := WarnEach(expiring, now);
      SelectedAreWarned(registry.tokens, old(warnedTokens), thresholdMs, now, expiring, out);
      Prune(registry);
    }

    method WarnEach(expiring: seq<TR.TokenEntry>, now: int) returns (out: seq<Warning>)
      requires forall i, j :: 0 <= i < j < |expiring| ==> expiring[i].jti != expiring[j].jti
      modifies this
      ensures Picks(expiring, old(warnedTokens), now, out)
      ensures Tracks(old(warnedTokens), warnedTokens, out)
    {
      out := [];
      for n := 0 to |expiring|
        invariant Picks(expiring[..n], old(warnedTokens), now, out)
        invariant Tracks(old(warnedTokens), warnedTokens, out)
      {
        var entry := expiring[n];
        PickNext(expiring, n, old(warnedTokens), warnedTokens, now, out);
        if entry.jti !in warnedTokens {
          warnedTokens := warnedTokens + {entry.jti};
          out := out + [WarningFor(entry, now)];
        }
      }
      assert expiring[..|expiring|] == expiring;
    }

    /** Forget warned tokens that are no longer registered. */
    method Prune(registry: TR.Registry)
      modifies this
      ensures forall k :: k in warnedTokens <==> k in old(warnedTokens) && k in registry.tokens
    {
      var todo := warnedTokens;
      while todo != {}
        invariant todo <= warnedTokens <= old(warnedTokens)
        invariant forall k :: k in old(warnedTokens) && k !in todo ==> (k in warnedTokens <==> k in registry.tokens)
        decreases |todo|
      {
        var jti :| jti in todo;
        if jti !in registry.tokens {
          warnedTokens := warnedTokens - {jti};
        }
        todo := todo - {jti};
      }
    }
  }

  /** The warning is about a listed token that was not warned about before. */
  ghost predicate About(list: seq<TR.TokenEntry>, warned: set<string>, now: int, w: Warning) {
    exists n :: 0 <= n < |list| && w == WarningFor(list[n], now) && list[n].jti !in warned
  }

  /** One warning for each listed token that was not warned about before. */
  ghost predicate Picks(list: seq<TR.TokenEntry>, warned: set<string>, now: int, out: seq<Warning>) {
    && (forall i, j :: 0 <= i < j < |out| ==> out[i].jti != out[j].jti)
    && (forall i :: 0 <= i < |out| ==> About(list, warned, now, out[i]))
    && (forall n :: 0 <= n < |list| && list[n].jti !in warned ==> Warns(out, list[n].jti))
  }

  lemma {:induction false} AboutLonger(list: seq<TR.TokenEntry>, n: nat, warned: set<string>, now: int, w: Warning)
    requires n < |list|
    ensures About(list[..n], warned, now, w) ==> About(list[..n + 1], warned, now, w)
    ensures list[n].jti !in warned ==> About(list[..n + 1], warned, now, WarningFor(list[n], now))
  {
    var before, after := list[..n], list[..n + 1];
    if About(before, warned, now, w) {
      var m :| 0 <= m < |before| && w == WarningFor(before[m], now) && before[m].jti !in warned;
      assert after[m] == before[m];
    }
    assert after[n] == list[n];
  }

  lemma {:induction false} NotYetPicked(list: seq<TR.TokenEntry>, n: nat, warned: set<string>, now: int, out: seq<Warning>)
    requires forall i, j :: 0 <= i < j < |list| ==> list[i].jti != list[j].jti
    requires n < |list| && Picks(list[..n], warned, now, out)
    ensures !Warns(out, list[n].jti)
  {
  }

  lemma {:induction false} PickSkips(list: seq<TR.TokenEntry>, n: nat, warned: set<string>, now: int, out: seq<Warning>)
    requires n < |list| && Picks(list[..n], warned, now, out) && list[n].jti in warned
    ensures Picks(list[..n + 1], warned, now, out)
  {
    forall i | 0 <= i < |out| ensures About(list[..n + 1], warned, now, out[i]) {
      AboutLonger(list, n, warned, now, out[i]);
    }
    assert list[..n + 1] == list[..n] + [list[n]];
  }

  lemma {:induction false} PickTakes(list: seq<TR.TokenEntry>, n: nat, warned: set<string>, now: int, out: seq<Warning>)
    requires n < |list| && Picks(list[..n], warned, now, out) && list[n].jti !in warned && !Warns(out, list[n].jti)
    ensures Picks(list[..n + 1], warned, now, out + [WarningFor(list[n], now)])
  {
    var w := WarningFor(list[n], now);
    var longer := out + [w];
    WarnsNext(out, w);
    forall i | 0 <= i < |longer| ensures About(list[..n + 1], warned, now, longer[i]) {
      AboutLonger(list, n, warned, now, longer[i]);
    }
    assert list[..n + 1] == list[..n] + [list[n]];
  }

  lemma {:induction false} WarnsNext(out: seq<Warning>, w: Warning)
    ensures forall k :: Warns(out + [w], k) <==> Warns(out, k) || k == w.jti
  {
    var longer := out + [w];
    assert longer[|out|] == w;
    forall k | Warns(out, k) ensures Warns(longer, k) {
      var i :| 0 <= i < |out| && out[i].jti == k;
      assert longer[i].jti == k;
    }
  }

  /** The set has grown by exactly the tokens warned about. */
  ghost predicate Tracks(before: set<string>, after: set<string>, out: seq<Warning>) {
    forall k :: k in after <==> k in before || Warns(out, k)
  }

  lemma {:induction false} PickNext(list: seq<TR.TokenEntry>, n: nat, before: set<string>, warned: set<string>, now: int, out: seq<Warning>)
    requires forall i, j :: 0 <= i < j < |list| ==> list[i].jti != list[j].jti
    requires n < |list| && Picks(list[..n], before, now, out) && Tracks(before, warned, out)
    ensures list[n].jti in warned ==> Picks(list[..n + 1], before, now, out)
    ensures list[n].jti !in warned ==>
              var longer := out + [WarningFor(list[n], now)];
              Picks(list[..n + 1], before, now, longer) && Tracks(before, warned + {list[n].jti}, longer)
  {
    NotYetPicked(list, n, before, now, out);
    if list[n].jti in before {
      PickSkips(list, n, before, now, out);
    } else {
      PickTakes(list, n, before, now, out);
      WarnsNext(out, WarningFor(list[n], now));
    }
  }

  lemma {:induction false} WarnedIsListed(list: seq<TR.TokenEntry>, warned: set<string>, now: int, out: seq<Warning>, jti: string)
    requires Picks(list, warned, now, out) && Warns(out, jti)
    ensures jti !in warned && exists n :: 0 <= n < |list| && list[n].jti == jti
  {
    var i :| 0 <= i < |out| && out[i].jti == jti;
    assert About(list, warned, now, out[i]);
  }

  lemma {:induction false} SelectedAreWarned(tokens: TR.Tokens, warned: set<string>, thresholdMs: int, now: int,
                                             list: seq<TR.TokenEntry>, out: seq<Warning>)
    requires TR.Filed(tokens)
    requires TR.Selects(list, tokens, (e: TR.TokenEntry) => now < e.expiresAt <= now + thresholdMs)
    requires Picks(list, warned, now, out)
    ensures TickWarns(tokens, warned, thresholdMs, now, out)
  {
    forall i | 0 <= i < |out|
      ensures out[i].jti in tokens && IsAbout(out[i], tokens[out[i].jti], now)
    {
      assert About(list, warned, now, out[i]);
    }
    forall k | k in tokens
      ensures Warns(out, k) <==> Expiring(tokens[k], thresholdMs, now) && k !in warned
    {
      if Warns(out, k) {
        WarnedIsListed(list, warned, now, out, k);
        var n :| 0 <= n < |list| && list[n].jti == k;
      } else if Expiring(tokens[k], thresholdMs, now) {
        var n :| 0 <= n < |list| && list[n] == tokens[k];
      }
    }
  }
}

/** Theorems about every run of the gateway's token registry with the expiry monitor ticking. */
module ExpiryRuns {
  import TR = TokenRegistry
  import opened ExpiryMonitor

  /** `used` are the token ids registered so far; ids are never reused. */
  datatype World = World(tokens: TR.Tokens, warned: set<string>, used: set<string>)

  datatype Event =
    | Register(entry: TR.TokenEntry, at: int)
    | Removal(jtis: set<string>, at: int)  // revocations and cleanup
    | Tick(out: seq<Warning>, at: int)

  ghost predicate Next(w: World, e: Event, thresholdMs: int, w': World) {
    match e
    case Register(entry, _) =>
      && entry.jti !in w.used
      && w' == World(w.tokens[entry.jti := entry], w.warned, w.used + {entry.jti})
    case Removal(jtis, _) =>
      w' == w.(tokens := w.tokens - jtis)
    case Tick(out, at) =>
      && TickWarns(w.tokens, w.warned, thresholdMs, at, out)
      && w'.tokens == w.tokens && w'.used == w.used
      && (forall k :: k in w'.warned <==> k in w.tokens && (k in w.warned || Warns(out, k)))
  }

  ghost predicate Known(w: World) {
    w.tokens.Keys <= w.used && w.warned <= w.used
  }

  /** Worlds and the events between them, in order of time. */
  ghost predicate IsRun(ws: seq<World>, es: seq<Event>, thresholdMs: int) {
    && |ws| == |es| + 1
    && Known(ws[0])
    && (forall i :: 0 <= i < |es| ==> Next(ws[i], es[i], thresholdMs, ws[i + 1]))
    && (forall i, j :: 0 <= i < j < |es| ==> es[i].at <= es[j].at)
  }

  ghost predicate WarnedAt(es: seq<Event>, i: int, jti: string) {
    0 <= i < |es| && es[i].Tick? && Warns(es[i].out, jti)
  }

  lemma {:induction false} AllKnown(ws: seq<World>, es: seq<Event>, thresholdMs: int, i: nat)
    requires IsRun(ws, es, thresholdMs) && i < |ws|
    ensures Known(ws[i])
  {
    if i > 0 {
      AllKnown(ws, es, thresholdMs, i - 1);
      assert Next(ws[i - 1], es[i - 1], thresholdMs, ws[i]);
    }
  }

  /** The token has had its warning: it is remembered for as long as the token is registered. */
  ghost predicate Settled(w: World, jti: string) {
    jti in w.used && (jti in w.tokens ==> jti in w.warned)
  }

  lemma {:induction false} SettledStays(ws: seq<World>, es: seq<Event>, thresholdMs: int, jti: string, i: nat, j: nat)
    requires IsRun(ws, es, thresholdMs) && i <= j < |ws|
    requires Settled(ws[i], jti)
    ensures Settled(ws[j], jti)
    decreases j
  {
    if i < j {
      SettledStays(ws, es, thresholdMs, jti, i, j - 1);
      assert Next(ws[j - 1], es[j - 1], thresholdMs, ws[j]);
    }
  }

  /** No token is warned about twice, in one tick or in two. */
  lemma {:induction false} WarnedAtMostOnce(ws: seq<World>, es: seq<Event>, thresholdMs: int, jti: string, i: nat, j: nat)
    requires IsRun(ws, es, thresholdMs)
    requires WarnedAt(es, i, jti) && WarnedAt(es, j, jti)
    ensures i == j
    ensures forall p, q :: 0 <= p < q < |es[i].out| ==> !(es[i].out[p].jti == jti == es[i].out[q].jti)
  {
    var a, b := if i < j then i else j, if i < j then j else i;
    assert Next(ws[i], es[i], thresholdMs, ws[i + 1]);
    if a < b {
      assert Next(ws[a], es[a], thresholdMs, ws[a + 1]);
      assert Next(ws[b], es[b], thresholdMs, ws[b + 1]);
      AllKnown(ws, es, thresholdMs, a);
      assert jti in ws[a].tokens by {
        var p :| 0 <= p < |es[a].out| && es[a].out[p].jti == jti;
      }
      SettledStays(ws, es, thresholdMs, jti, a + 1, b);
    }
  }

  /** Ticks are at most `gap` apart for as long as they come before `until`. */
  ghost predicate TicksUntil(es: seq<Event>, gap: int, until: int) {
    forall i :: 0 <= i < |es| && es[i].Tick? && es[i].at < until ==> TickFollows(es, es[i].at, gap)
  }

  ghost predicate TickFollows(es: seq<Event>, at: int, gap: int) {
    exists j :: 0 <= j < |es| && es[j].Tick? && at < es[j].at <= at + gap
  }

  lemma {:induction false} TickInSpan(es: seq<Event>, gap: int, until: int, i: nat) returns (j: nat)
    requires TicksUntil(es, gap, until)
    requires i < |es| && es[i].Tick? && es[i].at < until
    ensures j < |es| && es[j].Tick? && until <= es[j].at < until + gap
    decreases until - es[i].at
  {
    assert TickFollows(es, es[i].at, gap);
    j :| 0 <= j < |es| && es[j].Tick? && es[i].at < es[j].at <= es[i].at + gap;
    if es[j].at < until {
      j := TickInSpan(es, gap, until, j);
    }
  }

  /** From its registration at `r` until it expires, the token is not removed. */
  ghost predicate KeptUntilExpiry(es: seq<Event>, r: nat, entry: TR.TokenEntry) {
    && r < |es| && es[r].Register? && es[r].entry == entry
    && forall i :: r < i < |es| && es[i].Removal? && entry.jti in es[i].jtis ==> entry.expiresAt <= es[i].at
  }

  lemma {:induction false} StillRegistered(ws: seq<World>, es: seq<Event>, thresholdMs: int, r: nat, entry: TR.TokenEntry, i: nat)
    requires IsRun(ws, es, thresholdMs) && KeptUntilExpiry(es, r, entry)
    requires r < i < |ws| && es[i - 1].at < entry.expiresAt
    ensures entry.jti in ws[i].tokens && ws[i].tokens[entry.jti] == entry
    ensures entry.jti in ws[i].warned ==> exists k :: r < k < i && WarnedAt(es, k, entry.jti)
    decreases i
  {
    assert Next(ws[i - 1], es[i - 1], thresholdMs, ws[i]);
    AllKnown(ws, es, thresholdMs, i - 1);
    if i - 1 > r {
      StillRegistered(ws, es, thresholdMs, r, entry, i - 1);
      if entry.jti in ws[i].warned && entry.jti !in ws[i - 1].warned {
        assert WarnedAt(es, i - 1, entry.jti);
      }
    }
  }

  /**
   A token that is registered before its warning threshold is crossed and kept until it expires is
   warned about, in exactly one tick, with a remaining time in (0, threshold], provided ticking began
   before the threshold was crossed and ticks are at most the threshold apart.
   */
  lemma {:induction false} WarnedExactlyOnce(ws: seq<World>, es: seq<Event>, thresholdMs: int, r: nat, entry: TR.TokenEntry, first: nat)
    returns (k: nat)
    requires IsRun(ws, es, thresholdMs) && KeptUntilExpiry(es, r, entry)
    requires es[r].at < entry.expiresAt - thresholdMs
    requires first < |es| && es[first].Tick? && es[first].at < entry.expiresAt - thresholdMs
    requires TicksUntil(es, thresholdMs, entry.expiresAt - thresholdMs)
    ensures WarnedAt(es, k, entry.jti) && forall j :: WarnedAt(es, j, entry.jti) ==> j == k
    ensures forall p :: 0 <= p < |es[k].out| && es[k].out[p].jti == entry.jti ==>
                          IsAbout(es[k].out[p], entry, es[k].at) && 0 < es[k].out[p].remainingMs <= thresholdMs
  {
    var j := TickInSpan(es, thresholdMs, entry.expiresAt - thresholdMs, first);
    k := WarnedBy(ws, es, thresholdMs, r, entry, j);
    WarningIsRight(ws, es, thresholdMs, r, entry, k);
    forall i | WarnedAt(es, i, entry.jti) ensures i == k {
      WarnedAtMostOnce(ws, es, thresholdMs, entry.jti, i, k);
    }
  }

  lemma {:induction false} InOrder(ws: seq<World>, es: seq<Event>, thresholdMs: int, i: nat, j: nat)
    requires IsRun(ws, es, thresholdMs) && i <= j < |es|
    ensures es[i].at <= es[j].at
  {
  }

  /** A tick within the threshold warns, unless an earlier one did. */
  lemma {:induction false} WarnedBy(ws: seq<World>, es: seq<Event>, thresholdMs: int, r: nat, entry: TR.TokenEntry, j: nat)
    returns (k: nat)
    requires IsRun(ws, es, thresholdMs) && KeptUntilExpiry(es, r, entry)
    requires j < |es| && es[j].Tick? && es[r].at < es[j].at && Expiring(entry, thresholdMs, es[j].at)
    ensures r < k <= j && WarnedAt(es, k, entry.jti) && es[k].at <= es[j].at
  {
    assert r < j && es[j - 1].at <= es[j].at;
    StillRegistered(ws, es, thresholdMs, r, entry, j);
    assert Next(ws[j], es[j], thresholdMs, ws[j + 1]);
    if entry.jti in ws[j].warned {
      k :| r < k < j && WarnedAt(es, k, entry.jti);
    } else {
      k := j;
    }
    InOrder(ws, es, thresholdMs, k, j);
  }

  lemma {:induction false} WarningIsRight(ws: seq<World>, es: seq<Event>, thresholdMs: int, r: nat, entry: TR.TokenEntry, k: nat)
    requires IsRun(ws, es, thresholdMs) && KeptUntilExpiry(es, r, entry)
    requires r < k && WarnedAt(es, k, entry.jti) && es[k].at < entry.expiresAt
    ensures forall p :: 0 <= p < |es[k].out| && es[k].out[p].jti == entry.jti ==>
                          IsAbout(es[k].out[p], entry, es[k].at) && 0 < es[k].out[p].remainingMs <= thresholdMs
  {
    assert es[k - 1].at <= es[k].at;
    StillRegistered(ws, es, thresholdMs, r, entry, k);
    assert Next(ws[k], es[k], thresholdMs, ws[k + 1]);
    assert Expiring(entry, thresholdMs, es[k].at);
  }
}
