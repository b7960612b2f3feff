/**
 The gateway's cache of resolved identities (services/gateway/src/identity/cache.ts): a map and an
 insertion-order array kept side by side, with a time to live and first-in-first-out eviction, and
 the did:key resolver that reads through it (services/gateway/src/identity/did-key-resolver.ts).

 The specification knows nothing of the two structures. `Lookup` reads the whole history of `set`
 and `clear` calls; `Recent` is the step between the two.
 */
module IdentityCache {
  import opened Wrappers
  import opened Collections

  datatype Entry<+T> = Entry(value: T, expiresAt: int)

  datatype Op<+T> = Set(key: string, value: T, at: int) | Clear

  // ------------------------------------------------------------ the specification

  /** The last `set` of `key` that no `clear` has followed. */
  function LastSet<T>(h: seq<Op<T>>, key: string): (r: Option<nat>)
    ensures r.Some? ==> r.value < |h| && h[r.value].Set? && h[r.value].key == key
  {
    if h == [] then None
    else
      var last := |h| - 1;
      match h[last]
      case Clear => None
      case Set(k, _, _) => if k == key then Some(last) else LastSet(h[..last], key)
  }

  /** The other keys set after operation `i`. */
  function OthersSince<T>(h: seq<Op<T>>, i: nat): set<string>
    requires i < |h| && h[i].Set?
  {
    set j | i < j < |h| && h[j].Set? && h[j].key != h[i].key :: h[j].key
  }

  /** What `get(key)` promises at `now`: fresh, and fewer than `cap` other keys set since. */
  function Lookup<T>(h: seq<Op<T>>, cap: int, ttlMs: int, key: string, now: int): Option<T> {
    match LastSet(h, key)
    case None => None
    case Some(i) =>
      if now < h[i].at + ttlMs && |OthersSince(h, i)| < cap then Some(h[i].value) else None
  }

  /** The set of another key by which the empty key, still to be found, should be given up. */
  ghost predicate Ousts<T>(h: seq<Op<T>>, cap: int, ttlMs: int, key: string, value: T, now: int) {
    Lookup(h, cap, ttlMs, "", now).Some? && Lookup(h + [Set(key, value, now)], cap, ttlMs, "", now) == None
  }

  /** Since the last clear no set was such. */
  ghost predicate NeverOusts<T>(h: seq<Op<T>>, cap: int, ttlMs: int)
    decreases |h|
  {
    h == [] ||
    var before := h[..|h| - 1];
    match h[|h| - 1]
    case Clear => true
    case Set(key, value, at) => NeverOusts(before, cap, ttlMs) && !Ousts(before, cap, ttlMs, key, value, at)
  }

  lemma {:induction false} NeverOustsNext<T>(h: seq<Op<T>>, cap: int, ttlMs: int, key: string, value: T, now: int)
    ensures NeverOusts(h + [Set(key, value, now)], cap, ttlMs) <==> NeverOusts(h, cap, ttlMs) && !Ousts(h, cap, ttlMs, key, value, now)
  {
    assert (h + [Set(key, value, now)])[..|h|] == h;
  }

  /** A history in which the empty key is never set. */
  lemma {:induction false} NamedNeverOusts<T>(h: seq<Op<T>>, cap: int, ttlMs: int)
    requires forall i :: 0 <= i < |h| && h[i].Set? ==> h[i].key != ""
    ensures NeverOusts(h, cap, ttlMs) && LastSet(h, "") == None
    decreases |h|
  {
    if h != [] {
      NamedNeverOusts(h[..|h| - 1], cap, ttlMs);
    }
  }

  // ------------------------------------------------- the history, key by key

  /** The last set of one key: its value, its instant, and the other keys set since. */
  datatype Last<+T> = Last(value: T, at: int, younger: set<string>)

  function Note<T>(ledger: map<string, Last<T>>, key: string, value: T, at: int): map<string, Last<T>> {
    map k | k in ledger.Keys + {key} ::
      if k == key then Last(value, at, {}) else ledger[k].(younger := ledger[k].younger + {key})
  }

  /** Every key set since the last clear. */
  function Ledger<T>(h: seq<Op<T>>): map<string, Last<T>> {
    if h == [] then map[]
    else
      var last := |h| - 1;
      match h[last]
      case Clear => map[]
      case Set(k, v, t) => Note(Ledger(h[..last]), k, v, t)
  }

  lemma {:induction false} LedgerOfSet<T>(h: seq<Op<T>>, key: string, value: T, at: int)
    ensures Ledger(h + [Set(key, value, at)]) == Note(Ledger(h), key, value, at)
  {
    assert (h + [Set(key, value, at)])[..|h|] == h;
  }

  lemma {:induction false} LedgerIsLastSet<T>(h: seq<Op<T>>, key: string)
    ensures key in Ledger(h) <==> LastSet(h, key).Some?
    ensures var r := LastSet(h, key);
            r.Some? ==> Ledger(h)[key] == Last(h[r.value].value, h[r.value].at, OthersSince(h, r.value))
    decreases |h|
  {
    if h != [] {
      var last := |h| - 1;
      LedgerIsLastSet(h[..last], key);
      var r := LastSet(h, key);
      if r.Some? {
        if r.value < last {
          assert OthersSince(h, r.value) == OthersSince(h[..last], r.value) + {h[last].key};
        } else {
          assert OthersSince(h, r.value) == {};
        }
      }
    }
  }

  function Answer<T>(ledger: map<string, Last<T>>, cap: int, ttlMs: int, key: string, now: int): Option<T> {
    if key in ledger && now < ledger[key].at + ttlMs && |ledger[key].younger| < cap
    then Some(ledger[key].value) else None
  }

  lemma {:induction false} LedgerAnswersLookup<T>(h: seq<Op<T>>, cap: int, ttlMs: int, key: string, now: int)
    ensures Answer(Ledger(h), cap, ttlMs, key, now) == Lookup(h, cap, ttlMs, key, now)
  {
    LedgerIsLastSet(h, key);
  }

  function IndexOf(order: seq<string>, key: string): (i: int)
    ensures -1 <= i < |order|
    ensures i >= 0 ==> order[i] == key
    ensures i == -1 <==> key !in order
  {
    if order == [] then -1
    else if order[0] == key then 0
    else
      var i := IndexOf(order[1..], key);
      if i == -1 then -1 else i + 1
  }

  function RemoveAt<X>(s: seq<X>, i: nat): seq<X>
    requires i < |s|
  {
    s[..i] + s[i + 1..]
  }

  /** The elements behind position `p`. */
  ghost function Behind(order: seq<string>, p: int): set<string>
    requires 0 <= p < |order|
  {
    set q | p < q < |order| :: order[q]
  }

  lemma {:induction false} BehindCounts(order: seq<string>, p: int)
    requires Distinct(order) && 0 <= p < |order|
    ensures |Behind(order, p)| == |order| - p - 1
    decreases |order| - p
  {
    if p == |order| - 1 {
      assert Behind(order, p) == {};
    } else {
      BehindCounts(order, p + 1);
      assert Behind(order, p) == {order[p + 1]} + Behind(order, p + 1);
    }
  }

  lemma {:induction false} RemovedKeys(order: seq<string>, i: int)
    requires Distinct(order) && 0 <= i < |order|
    ensures Distinct(RemoveAt(order, i))
    ensures (set k | k in RemoveAt(order, i)) == (set k | k in order) - {order[i]}
  {
    var r := RemoveAt(order, i);
    assert forall j :: 0 <= j < |r| ==> r[j] == order[if j < i then j else j + 1];
    forall k | k in order && k != order[i] ensures k in r {
      var j :| 0 <= j < |order| && order[j] == k;
      assert r[if j < i then j else j - 1] == k;
    }
  }

  // --------------------------------------------------------------------- eviction

  /** The array lists exactly the keys of the map, each once. */
  ghost predicate Twins<T>(entries: map<string, Entry<T>>, order: seq<string>) {
    && Distinct(order)
    && entries.Keys == set k | k in order
  }

  /** The eviction loop: an empty key leaves the array but not the map. */
  function Evicted<T>(entries: map<string, Entry<T>>, order: seq<string>, maxSize: int): (r: (map<string, Entry<T>>, seq<string>))
    ensures |r.1| <= |order| && r.1 == order[|order| - |r.1|..]
    ensures r.0.Keys <= entries.Keys && forall k :: k in r.0 ==> r.0[k] == entries[k]
    decreases |order|
  {
    if |entries| >= maxSize && order != [] then
      Evicted(if order[0] != "" then entries - {order[0]} else entries, order[1..], maxSize)
    else (entries, order)
  }

  lemma {:induction false} TwinsHaveOneSize<T>(entries: map<string, Entry<T>>, order: seq<string>)
    requires Twins(entries, order)
    ensures |entries| == |order|
    decreases |order|
  {
    if order != [] {
      var k := order[0];
      assert k in entries.Keys;
      assert (entries - {k}).Keys == set x | x in order[1..];
      TwinsHaveOneSize(entries - {k}, order[1..]);
      assert entries.Keys == (entries - {k}).Keys + {k};
    }
  }

  lemma {:induction false} TwinsWithoutFirst<T>(entries: map<string, Entry<T>>, order: seq<string>)
    requires Twins(entries, order) && order != []
    ensures Twins(entries - {order[0]}, order[1..])
  {
    var rest := order[1..];
    forall k | k in order && k != order[0] ensures k in rest {
      var j :| 0 <= j < |order| && order[j] == k;
      assert rest[j - 1] == k;
    }
    assert order[0] !in rest;
    assert (entries - {order[0]}).Keys == set k | k in rest;
  }

  /** An empty key among those that eviction must drop. */
  ghost predicate EmptyKeyInTheWay(order: seq<string>, maxSize: int) {
    exists p :: 0 <= p < |order| && order[p] == "" && |order| - p >= maxSize
  }

  lemma {:induction false} EmptyKeyInTheWayLater(order: seq<string>, maxSize: int)
    requires order != [] && order[0] != ""
    ensures EmptyKeyInTheWay(order, maxSize) <==> EmptyKeyInTheWay(order[1..], maxSize)
  {
    var rest := order[1..];
    if p :| 0 <= p < |order| && order[p] == "" && |order| - p >= maxSize {
      assert rest[p - 1] == "";
    }
    if p :| 0 <= p < |rest| && rest[p] == "" && |rest| - p >= maxSize {
      assert order[p + 1] == "";
    }
  }

  lemma {:induction false} EvictionStep<T>(entries: map<string, Entry<T>>, order: seq<string>, maxSize: int, n: nat)
    requires Twins(entries, order) && !EmptyKeyInTheWay(order, maxSize)
    requires |order| >= maxSize && |order| > n
    ensures Twins(entries - {order[0]}, order[1..]) && !EmptyKeyInTheWay(order[1..], maxSize)
    ensures LastN(order[1..], n) == LastN(order, n)
    ensures Evicted(entries, order, maxSize) == Evicted(entries - {order[0]}, order[1..], maxSize)
  {
    TwinsHaveOneSize(entries, order);
    assert order[0] != "";
    TwinsWithoutFirst(entries, order);
    EmptyKeyInTheWayLater(order, maxSize);
    LastNOfRest(order, n);
  }

  /** With no empty key in the way, eviction keeps the last `maxSize - 1` keys in both structures. */
  lemma {:induction false} EvictionKeepsLast<T>(entries: map<string, Entry<T>>, order: seq<string>, maxSize: int)
    requires Twins(entries, order)
    requires !EmptyKeyInTheWay(order, maxSize)
    ensures var r := Evicted(entries, order, maxSize);
            Twins(r.0, r.1) && r.1 == LastN(order, Max(1, maxSize) - 1)
    decreases |order|
  {
    if |order| >= maxSize && order != [] {
      EvictionStep(entries, order, maxSize, Max(1, maxSize) - 1);
      EvictionKeepsLast(entries - {order[0]}, order[1..], maxSize);
    } else {
      EvictionEnds(entries, order, maxSize);
      assert |order| <= Max(1, maxSize) - 1;
    }
  }

  lemma {:induction false} EvictionEnds<T>(entries: map<string, Entry<T>>, order: seq<string>, maxSize: int)
    requires Twins(entries, order) && (|order| < maxSize || order == [])
    ensures Evicted(entries, order, maxSize) == (entries, order)
  {
    TwinsHaveOneSize(entries, order);
  }

  lemma {:induction false} LastNOfRest<X>(s: seq<X>, n: nat)
    requires |s| > n
    ensures LastN(s[1..], n) == LastN(s, n)
  {
  }

  /**
   Exactly when eviction keeps the two structures in step: no empty key stands among the keys that
   must go. An empty key there is dropped from the array and stays in the map.
   */
  lemma {:induction false} EvictionKeepsTwinsIff<T>(entries: map<string, Entry<T>>, order: seq<string>, maxSize: int)
    requires Twins(entries, order)
    ensures var r := Evicted(entries, order, maxSize);
            Twins(r.0, r.1) <==> !EmptyKeyInTheWay(order, maxSize)
    decreases |order|
  {
    if !EmptyKeyInTheWay(order, maxSize) {
      EvictionKeepsLast(entries, order, maxSize);
    } else {
      EvictionLosesEmptyKey(entries, order, maxSize);
    }
  }

  lemma {:induction false} EvictionLosesEmptyKey<T>(entries: map<string, Entry<T>>, order: seq<string>, maxSize: int)
    requires Twins(entries, order) && EmptyKeyInTheWay(order, maxSize)
    ensures "" in Evicted(entries, order, maxSize).0 && "" !in Evicted(entries, order, maxSize).1
    decreases |order|
  {
    EvictionGoesOn(entries, order, maxSize);
    if order[0] == "" {
      EmptyKeyStays(entries, order[1..], maxSize);
      SuffixLacks(order[1..], Evicted(entries, order[1..], maxSize).1, "");
    } else {
      TwinsWithoutFirst(entries, order);
      EmptyKeyInTheWayLater(order, maxSize);
      EvictionLosesEmptyKey(entries - {order[0]}, order[1..], maxSize);
    }
  }

  /** An empty key in the way is reached: the loop goes round. */
  lemma {:induction false} EvictionGoesOn<T>(entries: map<string, Entry<T>>, order: seq<string>, maxSize: int)
    requires Twins(entries, order) && EmptyKeyInTheWay(order, maxSize)
    ensures order != []
    ensures Evicted(entries, order, maxSize) == Evicted(if order[0] != "" then entries - {order[0]} else entries, order[1..], maxSize)
    ensures order[0] == "" ==> "" in entries && "" !in order[1..]
  {
    TwinsHaveOneSize(entries, order);
    assert order[0] in entries.Keys;
  }

  lemma {:induction false} SuffixLacks<X>(s: seq<X>, suffix: seq<X>, x: X)
    requires |suffix| <= |s| && suffix == s[|s| - |suffix|..] && x !in s
    ensures x !in suffix
  {
  }

  lemma {:induction false} EmptyKeyStays<T>(entries: map<string, Entry<T>>, order: seq<string>, maxSize: int)
    requires "" in entries
    ensures "" in Evicted(entries, order, maxSize).0
    decreases |order|
  {
    if |entries| >= maxSize && order != [] {
      EmptyKeyStays(if order[0] != "" then entries - {order[0]} else entries, order[1..], maxSize);
    }
  }

  // ------------------------------------------------------------------ the cache

  /** What the map holds for each of its keys is the last set of that key. */
  ghost predicate Recorded<T>(entries: map<string, Entry<T>>, ledger: map<string, Last<T>>, ttlMs: int) {
    forall k :: k in entries ==> k in ledger && entries[k] == Entry(ledger[k].value, ledger[k].at + ttlMs)
  }

  /** Oldest first. */
  ghost predicate ByAge<T>(order: seq<string>, ledger: map<string, Last<T>>) {
    && (forall p :: 0 <= p < |order| ==> order[p] in ledger)
    && (forall p, q :: 0 <= p < q < |order| ==> ledger[order[p]].at <= ledger[order[q]].at)
  }

  /** Behind a fresh key in the array stand exactly the other keys set since. */
  ghost predicate Queued<T>(order: seq<string>, ledger: map<string, Last<T>>, ttlMs: int, now: int) {
    forall p :: 0 <= p < |order| && order[p] in ledger && now < ledger[order[p]].at + ttlMs ==>
                  ledger[order[p]].younger == Behind(order, p)
  }

  /** A fresh key with fewer than `cap` others behind it has not been evicted. */
  ghost predicate Retained<T>(entries: map<string, Entry<T>>, ledger: map<string, Last<T>>, cap: int, ttlMs: int, now: int) {
    forall k :: k in ledger && now < ledger[k].at + ttlMs && |ledger[k].younger| < cap ==> k in entries
  }

  ghost predicate Holds<T>(entries: map<string, Entry<T>>, order: seq<string>, ledger: map<string, Last<T>>,
                           cap: int, ttlMs: int, now: int) {
    && Twins(entries, order)
    && Recorded(entries, ledger, ttlMs)
    && ByAge(order, ledger)
    && Queued(order, ledger, ttlMs, now)
    && Retained(entries, ledger, cap, ttlMs, now)
    && (forall k :: k in ledger ==> ledger[k].at <= now)
    && |order| <= cap
  }

  lemma {:induction false} HoldsLater<T>(entries: map<string, Entry<T>>, order: seq<string>, ledger: map<string, Last<T>>,
                      cap: int, ttlMs: int, before: int, now: int)
    requires Holds(entries, order, ledger, cap, ttlMs, before) && before <= now
    ensures Holds(entries, order, ledger, cap, ttlMs, now)
  {
  }

  lemma {:induction false} QueuedWithoutExpired<T>(order: seq<string>, ledger: map<string, Last<T>>, ttlMs: int, now: int, i: int)
    requires ByAge(order, ledger) && Queued(order, ledger, ttlMs, now)
    requires 0 <= i < |order| && ledger[order[i]].at + ttlMs <= now
    ensures Queued(RemoveAt(order, i), ledger, ttlMs, now)
  {
    var r := RemoveAt(order, i);
    assert forall j :: 0 <= j < |r| ==> r[j] == order[if j < i then j else j + 1];
    forall p | 0 <= p < |r| && now < ledger[r[p]].at + ttlMs
      ensures ledger[r[p]].younger == Behind(r, p)
    {
      assert i <= p;
      SameBehind(order, p + 1, r, p);
    }
  }

  lemma {:induction false} ByAgeWithout<T>(order: seq<string>, ledger: map<string, Last<T>>, i: int)
    requires ByAge(order, ledger) && 0 <= i < |order|
    ensures ByAge(RemoveAt(order, i), ledger)
  {
    var r := RemoveAt(order, i);
    assert forall j :: 0 <= j < |r| ==> r[j] == order[if j < i then j else j + 1];
  }

  /** Deleting an expired key from both structures. */
  lemma {:induction false} HoldsWithoutExpired<T>(entries: map<string, Entry<T>>, order: seq<string>, ledger: map<string, Last<T>>,
                               cap: int, ttlMs: int, now: int, i: int)
    requires Holds(entries, order, ledger, cap, ttlMs, now)
    requires 0 <= i < |order| && order[i] in entries && entries[order[i]].expiresAt <= now
    ensures Holds(entries - {order[i]}, RemoveAt(order, i), ledger, cap, ttlMs, now)
  {
    RemovedKeys(order, i);
    QueuedWithoutExpired(order, ledger, ttlMs, now, i);
    ByAgeWithout(order, ledger, i);
  }

  lemma {:induction false} SameBehind(a: seq<string>, p: int, b: seq<string>, q: int)
    requires 0 <= p < |a| && 0 <= q < |b|
    requires a[p + 1..] == b[q + 1..]
    ensures Behind(a, p) == Behind(b, q)
  {
    assert forall x :: p < x < |a| ==> a[x] == a[p + 1..][x - p - 1];
    assert forall x :: q < x < |b| ==> b[x] == b[q + 1..][x - q - 1];
    forall k | k in Behind(a, p) ensures k in Behind(b, q) {
      var x :| p < x < |a| && a[x] == k;
      assert b[x - p + q] == k;
    }
    forall k | k in Behind(b, q) ensures k in Behind(a, p) {
      var x :| q < x < |b| && b[x] == k;
      assert a[x - q + p] == k;
    }
  }

  /** The answer demanded by the ledger is what the two structures hold for the key. */
  lemma {:induction false} HoldsAnswers<T>(entries: map<string, Entry<T>>, order: seq<string>, ledger: map<string, Last<T>>,
                        cap: int, ttlMs: int, now: int, key: string)
    requires Holds(entries, order, ledger, cap, ttlMs, now)
    ensures Answer(ledger, cap, ttlMs, key, now)
            == if key in entries && now < entries[key].expiresAt then Some(entries[key].value) else None
  {
    if key in entries && now < entries[key].expiresAt {
      var p :| 0 <= p < |order| && order[p] == key;
      BehindCounts(order, p);
    }
  }

  /** Every entry is fresh, as after removeExpired. */
  ghost predicate AllFresh<T>(entries: map<string, Entry<T>>, now: int) {
    forall k :: k in entries ==> now < entries[k].expiresAt
  }

  lemma {:induction false} QueuedAfterRefresh<T>(order: seq<string>, ledger: map<string, Last<T>>, ttlMs: int, now: int, i: int, value: T)
    requires Distinct(order) && ByAge(order, ledger) && Queued(order, ledger, ttlMs, now)
    requires forall p :: 0 <= p < |order| ==> now < ledger[order[p]].at + ttlMs
    requires 0 <= i < |order|
    ensures Queued(RemoveAt(order, i) + [order[i]], Note(ledger, order[i], value, now), ttlMs, now)
  {
    var r := RemoveAt(order, i) + [order[i]];
    var noted := Note(ledger, order[i], value, now);
    forall p | 0 <= p < |r|
      ensures noted[r[p]].younger == Behind(r, p)
    {
      if p < |r| - 1 {
        BehindAfterMove(order, i, p);
        assert r[p] == order[if p < i then p else p + 1];
      } else {
        assert Behind(r, p) == {};
      }
    }
  }

  lemma {:induction false} ByAgeAfterRefresh<T>(order: seq<string>, ledger: map<string, Last<T>>, now: int, i: int, value: T)
    requires Distinct(order) && ByAge(order, ledger)
    requires forall k :: k in ledger ==> ledger[k].at <= now
    requires 0 <= i < |order|
    ensures ByAge(RemoveAt(order, i) + [order[i]], Note(ledger, order[i], value, now))
  {
    var r := RemoveAt(order, i) + [order[i]];
    assert forall j :: 0 <= j < |r| - 1 ==> r[j] == order[if j < i then j else j + 1];
  }

  lemma {:induction false} RetainedAfterNote<T>(entries: map<string, Entry<T>>, ledger: map<string, Last<T>>, cap: int, ttlMs: int, now: int,
                             key: string, value: T)
    requires Retained(entries, ledger, cap, ttlMs, now)
    requires key in entries
    ensures Retained(entries, Note(ledger, key, value, now), cap, ttlMs, now)
  {
    var noted := Note(ledger, key, value, now);
    forall k | k in noted && k != key
      ensures |ledger[k].younger| <= |noted[k].younger|
    {
      SubsetCounts(ledger[k].younger, noted[k].younger);
    }
  }

  lemma {:induction false} RecordedAfterNote<T>(entries: map<string, Entry<T>>, ledger: map<string, Last<T>>, ttlMs: int, now: int,
                             key: string, value: T)
    requires Recorded(entries, ledger, ttlMs)
    ensures Recorded(entries[key := Entry(value, now + ttlMs)], Note(ledger, key, value, now), ttlMs)
  {
  }

  lemma {:induction false} TwinsAfterRefresh<T>(entries: map<string, Entry<T>>, order: seq<string>, i: int, entry: Entry<T>)
    requires Twins(entries, order) && 0 <= i < |order|
    ensures Twins(entries[order[i] := entry], RemoveAt(order, i) + [order[i]])
  {
    RemovedKeys(order, i);
    var r := RemoveAt(order, i);
    assert order[i] !in r by {
      assert order[i] !in (set k | k in order) - {order[i]};
    }
    assert (set k | k in r + [order[i]]) == (set k | k in r) + {order[i]};
  }

  /** `set` of a key that is present: it moves to the end. */
  lemma {:induction false} HoldsAfterRefresh<T>(entries: map<string, Entry<T>>, order: seq<string>, ledger: map<string, Last<T>>,
                             cap: int, ttlMs: int, now: int, i: int, value: T)
    requires Holds(entries, order, ledger, cap, ttlMs, now) && AllFresh(entries, now)
    requires 0 <= i < |order|
    ensures Holds(entries[order[i] := Entry(value, now + ttlMs)], RemoveAt(order, i) + [order[i]],
                  Note(ledger, order[i], value, now), cap, ttlMs, now)
  {
    assert forall p :: 0 <= p < |order| ==> order[p] in entries;
    TwinsAfterRefresh(entries, order, i, Entry(value, now + ttlMs));
    RecordedAfterNote(entries, ledger, ttlMs, now, order[i], value);
    QueuedAfterRefresh(order, ledger, ttlMs, now, i, value);
    ByAgeAfterRefresh(order, ledger, now, i, value);
    RetainedAfterNote(entries, ledger, cap, ttlMs, now, order[i], value);
  }

  lemma {:induction false} BehindAfterMove(order: seq<string>, i: int, p: int)
    requires Distinct(order) && 0 <= i < |order| && 0 <= p < |order| - 1
    ensures var r := RemoveAt(order, i) + [order[i]];
            Behind(r, p) == Behind(order, if p < i then p else p + 1) + {order[i]}
  {
    var r := RemoveAt(order, i) + [order[i]];
    var q := if p < i then p else p + 1;
    assert forall j :: 0 <= j < |r| - 1 ==> r[j] == order[if j < i then j else j + 1];
    assert r[|r| - 1] == order[i];
    forall k | k in Behind(order, q) ensures k in Behind(r, p) {
      var x :| q < x < |order| && order[x] == k;
      assert r[if x < i then x else if x == i then |r| - 1 else x - 1] == k;
    }
  }

  lemma {:induction false} QueuedAfterInsert<T>(order: seq<string>, ledger: map<string, Last<T>>, ttlMs: int, now: int,
                             tail: seq<string>, key: string, value: T)
    requires ByAge(order, ledger) && Queued(order, ledger, ttlMs, now)
    requires forall p :: 0 <= p < |order| ==> now < ledger[order[p]].at + ttlMs
    requires |tail| <= |order| && tail == order[|order| - |tail|..] && key !in order
    ensures Queued(tail + [key], Note(ledger, key, value, now), ttlMs, now)
  {
    var r := tail + [key];
    var noted := Note(ledger, key, value, now);
    var d := |order| - |tail|;
    forall p | 0 <= p < |r|
      ensures noted[r[p]].younger == Behind(r, p)
    {
      if p < |tail| {
        assert r[p] == order[d + p];
        assert order[d + p + 1..] == tail[p + 1..];
        SameBehind(order, d + p, tail, p);
        BehindAfterAppend(tail, key, p);
      } else {
        assert Behind(r, p) == {};
      }
    }
  }

  /** A key with fewer than `cap` others behind it, the new one included, is among the last `cap - 1`. */
  lemma {:induction false} SurvivesInsert(order: seq<string>, p: int, key: string, cap: int)
    requires Distinct(order) && 0 <= p < |order| && key !in order && cap >= 1
    requires |Behind(order, p) + {key}| < cap
    ensures order[p] in LastN(order, cap - 1)
  {
    BehindCounts(order, p);
    assert key !in Behind(order, p);
    var tail := LastN(order, cap - 1);
    assert tail[p - (|order| - |tail|)] == order[p];
  }

  lemma {:induction false} RetainedAfterInsert<T>(entries: map<string, Entry<T>>, order: seq<string>, ledger: map<string, Last<T>>,
                               cap: int, ttlMs: int, now: int, kept: map<string, Entry<T>>, tail: seq<string>, key: string, value: T)
    requires Twins(entries, order) && Queued(order, ledger, ttlMs, now) && Retained(entries, ledger, cap, ttlMs, now)
    requires cap >= 1 && key !in order
    requires Twins(kept, tail) && tail == LastN(order, cap - 1)
    ensures Retained(kept[key := Entry(value, now + ttlMs)], Note(ledger, key, value, now), cap, ttlMs, now)
  {
    var noted := Note(ledger, key, value, now);
    forall k | k in noted && now < noted[k].at + ttlMs && |noted[k].younger| < cap && k != key
      ensures k in kept.Keys
    {
      SubsetCounts(ledger[k].younger, noted[k].younger);
      assert k in entries.Keys;
      var p :| 0 <= p < |order| && order[p] == k;
      SurvivesInsert(order, p, key, cap);
    }
  }

  /** `set` of an absent key: the oldest keys make room for it. */
  lemma {:induction false} HoldsAfterInsert<T>(entries: map<string, Entry<T>>, order: seq<string>, ledger: map<string, Last<T>>,
                            cap: int, ttlMs: int, now: int, kept: map<string, Entry<T>>, tail: seq<string>, key: string, value: T)
    requires Holds(entries, order, ledger, cap, ttlMs, now) && AllFresh(entries, now)
    requires cap >= 1 && key !in entries
    requires Twins(kept, tail) && tail == LastN(order, cap - 1)
    requires forall k :: k in kept ==> k in entries && kept[k] == entries[k]
    ensures Holds(kept[key := Entry(value, now + ttlMs)], tail + [key],
                  Note(ledger, key, value, now), cap, ttlMs, now)
  {
    var d := |order| - |tail|;
    assert forall p :: 0 <= p < |order| ==> order[p] in entries;
    assert tail == order[d..];
    RecordedAfterNote(kept, ledger, ttlMs, now, key, value);
    QueuedAfterInsert(order, ledger, ttlMs, now, tail, key, value);
    RetainedAfterInsert(entries, order, ledger, cap, ttlMs, now, kept, tail, key, value);
    assert forall p :: 0 <= p < |tail| ==> tail[p] == order[d + p];
    ByAgeAfterInsert(tail, ledger, key, value, now);
    TwinsAfterInsert(kept, tail, key, Entry(value, now + ttlMs));
  }

  lemma {:induction false} ByAgeAfterInsert<T>(tail: seq<string>, ledger: map<string, Last<T>>, key: string, value: T, now: int)
    requires ByAge(tail, ledger) && key !in tail
    requires forall k :: k in ledger ==> ledger[k].at <= now
    ensures ByAge(tail + [key], Note(ledger, key, value, now))
  {
  }

  lemma {:induction false} TwinsAfterInsert<T>(kept: map<string, Entry<T>>, tail: seq<string>, key: string, entry: Entry<T>)
    requires Twins(kept, tail) && key !in kept
    ensures Twins(kept[key := entry], tail + [key])
  {
    assert key !in tail;
    assert (set k | k in tail + [key]) == (set k | k in tail) + {key};
  }

  /** What `set` leaves of the two structures before it writes the key: the key or the oldest ones are gone. */
  function Room<T>(entries: map<string, Entry<T>>, order: seq<string>, maxSize: int, key: string): (map<string, Entry<T>>, seq<string>) {
    var i := IndexOf(order, key);
    if i != -1 then (entries, RemoveAt(order, i)) else Evicted(entries, order, maxSize)
  }

  lemma {:induction false} HoldsAfterEviction<T>(entries: map<string, Entry<T>>, order: seq<string>, ledger: map<string, Last<T>>,
                              maxSize: int, ttlMs: int, now: int, key: string, value: T)
    requires Holds(entries, order, ledger, Max(1, maxSize), ttlMs, now) && AllFresh(entries, now)
    requires key !in entries && !EmptyKeyInTheWay(order, maxSize)
    ensures var (kept, rest) := Evicted(entries, order, maxSize);
            Holds(kept[key := Entry(value, now + ttlMs)], rest + [key], Note(ledger, key, value, now), Max(1, maxSize), ttlMs, now)
  {
    var evicted := Evicted(entries, order, maxSize);
    EvictionKeepsLast(entries, order, maxSize);
    HoldsAfterInsert(entries, order, ledger, Max(1, maxSize), ttlMs, now, evicted.0, evicted.1, key, value);
  }

  /** `set`, as long as the empty key is not in the way. */
  lemma {:induction false} HoldsAfterSet<T>(entries: map<string, Entry<T>>, order: seq<string>, ledger: map<string, Last<T>>,
                         maxSize: int, ttlMs: int, now: int, key: string, value: T)
    requires Holds(entries, order, ledger, Max(1, maxSize), ttlMs, now) && AllFresh(entries, now)
    requires key in order || !EmptyKeyInTheWay(order, maxSize)
    ensures var (kept, rest) := Room(entries, order, maxSize, key);
            Holds(kept[key := Entry(value, now + ttlMs)], rest + [key], Note(ledger, key, value, now), Max(1, maxSize), ttlMs, now)
  {
    var i := IndexOf(order, key);
    if i != -1 {
      HoldsAfterRefresh(entries, order, ledger, Max(1, maxSize), ttlMs, now, i, value);
    } else {
      KeysAreTwins(entries, order, key);
      HoldsAfterEviction(entries, order, ledger, maxSize, ttlMs, now, key, value);
    }
  }

  lemma {:induction false} KeysAreTwins<T>(entries: map<string, Entry<T>>, order: seq<string>, key: string)
    requires Twins(entries, order)
    ensures key in entries <==> key in order
  {
    assert key in entries.Keys <==> key in order;
  }

  lemma {:induction false} FreshHasAge<T>(entries: map<string, Entry<T>>, order: seq<string>, ledger: map<string, Last<T>>, cap: int,
                                          ttlMs: int, now: int, p: int)
    requires Holds(entries, order, ledger, cap, ttlMs, now) && AllFresh(entries, now) && 0 <= p < |order|
    ensures order[p] in ledger && now < ledger[order[p]].at + ttlMs && ttlMs > 0
    ensures ledger[order[p]].younger == Behind(order, p) && |Behind(order, p)| == |order| - p - 1
    ensures Answer(ledger, cap, ttlMs, order[p], now).Some?
  {
    assert order[p] in entries;
    BehindCounts(order, p);
    HoldsAnswers(entries, order, ledger, cap, ttlMs, now, order[p]);
  }

  /** After a set, the empty key counts one more key younger than itself, if that key was not yet behind it. */
  lemma {:induction false} EmptyKeyAnswer<T>(order: seq<string>, ledger: map<string, Last<T>>, cap: int, ttlMs: int, now: int,
                                             key: string, value: T, p: int)
    requires Distinct(order) && 0 <= p < |order| <= cap && order[p] == "" && key != ""
    requires "" in ledger && now < ledger[""].at + ttlMs
    requires ledger[""].younger == Behind(order, p) && |Behind(order, p)| == |order| - p - 1
    ensures Answer(Note(ledger, key, value, now), cap, ttlMs, "", now).Some? <==> key in order || |order| - p < cap
  {
    YoungerWith(order, key, p);
    assert Note(ledger, key, value, now)[""].younger == Behind(order, p) + {key};
  }

  lemma {:induction false} YoungerWith(order: seq<string>, key: string, p: int)
    requires Distinct(order) && 0 <= p < |order| && order[p] != key && |Behind(order, p)| == |order| - p - 1
    ensures |Behind(order, p) + {key}| == |Behind(order, p)| + if key in Behind(order, p) then 0 else 1
    ensures key in order && key !in Behind(order, p) ==> p > 0
    ensures key in Behind(order, p) ==> key in order
  {
    var younger := Behind(order, p);
    if key in younger {
      assert younger + {key} == younger;
    }
    if key in order && key !in younger {
      var q :| 0 <= q < |order| && order[q] == key;
      assert q < p;
    }
  }

  /** In terms of the array: the empty key is among those that making room for an absent key must drop. */
  lemma {:induction false} OustsIff<T>(entries: map<string, Entry<T>>, order: seq<string>, h: seq<Op<T>>, maxSize: int, ttlMs: int,
                                       now: int, key: string, value: T)
    requires Holds(entries, order, Ledger(h), Max(1, maxSize), ttlMs, now) && AllFresh(entries, now)
    ensures Ousts(h, Max(1, maxSize), ttlMs, key, value, now) <==> key !in order && EmptyKeyInTheWay(order, maxSize)
  {
    var cap := Max(1, maxSize);
    LedgerAnswersLookup(h, cap, ttlMs, "", now);
    LedgerAnswersLookup(h + [Op.Set(key, value, now)], cap, ttlMs, "", now);
    LedgerOfSet(h, key, value, now);
    HoldsAnswers(entries, order, Ledger(h), cap, ttlMs, now, "");
    if "" in order {
      var p :| 0 <= p < |order| && order[p] == "";
      FreshHasAge(entries, order, Ledger(h), cap, ttlMs, now, p);
      if key != "" {
        EmptyKeyAnswer(order, Ledger(h), cap, ttlMs, now, key, value, p);
      }
    } else {
      assert "" !in entries;
    }
  }

  /** What the code does then: the empty key stays in the map, as it was. */
  lemma {:induction false} OustedStays<T>(entries: map<string, Entry<T>>, order: seq<string>, maxSize: int, key: string)
    requires Twins(entries, order) && key !in order && EmptyKeyInTheWay(order, maxSize)
    ensures var kept := Room(entries, order, maxSize, key).0;
            "" in entries && "" in kept && kept[""] == entries[""] && key != ""
  {
    TwinsHaveOneSize(entries, order);
    EvictionLosesEmptyKey(entries, order, maxSize);
  }

  // ------------------------------------------------------ the invariant, under a seal

  /** The structures are in step with the history; what that means is looked into only where `Asked` is mentioned. */
  ghost predicate InStep<T>(entries: map<string, Entry<T>>, order: seq<string>, h: seq<Op<T>>, cap: int, ttlMs: int, now: int) {
    forall b {:trigger Asked(b)} :: Asked(b) ==> Holds(entries, order, Ledger(h), cap, ttlMs, now)
  }

  ghost predicate Asked(b: bool) {
    b
  }

  lemma {:induction false} LookInto<T>(entries: map<string, Entry<T>>, order: seq<string>, h: seq<Op<T>>, cap: int, ttlMs: int, now: int)
    requires InStep(entries, order, h, cap, ttlMs, now)
    ensures Holds(entries, order, Ledger(h), cap, ttlMs, now)
  {
    assert Asked(true);
  }

  lemma {:induction false} InStepLater<T>(entries: map<string, Entry<T>>, order: seq<string>, h: seq<Op<T>>, cap: int, ttlMs: int,
                                          before: int, now: int)
    requires InStep(entries, order, h, cap, ttlMs, before) && before <= now
    ensures InStep(entries, order, h, cap, ttlMs, now)
  {
    LookInto(entries, order, h, cap, ttlMs, before);
    HoldsLater(entries, order, Ledger(h), cap, ttlMs, before, now);
  }

  lemma {:induction false} InStepWithoutExpired<T>(entries: map<string, Entry<T>>, order: seq<string>, h: seq<Op<T>>, cap: int, ttlMs: int,
                                                   now: int, key: string)
    requires InStep(entries, order, h, cap, ttlMs, now) && key in entries && entries[key].expiresAt <= now
    ensures var i := IndexOf(order, key);
            i != -1 && InStep(entries - {key}, RemoveAt(order, i), h, cap, ttlMs, now)
  {
    LookInto(entries, order, h, cap, ttlMs, now);
    KeysAreTwins(entries, order, key);
    HoldsWithoutExpired(entries, order, Ledger(h), cap, ttlMs, now, IndexOf(order, key));
  }

  lemma {:induction false} InStepAnswers<T>(entries: map<string, Entry<T>>, order: seq<string>, h: seq<Op<T>>, cap: int, ttlMs: int,
                                            now: int, key: string)
    requires InStep(entries, order, h, cap, ttlMs, now)
    ensures Lookup(h, cap, ttlMs, key, now)
            == if key in entries && now < entries[key].expiresAt then Some(entries[key].value) else None
  {
    LookInto(entries, order, h, cap, ttlMs, now);
    HoldsAnswers(entries, order, Ledger(h), cap, ttlMs, now, key);
    LedgerAnswersLookup(h, cap, ttlMs, key, now);
  }

  /** What a set does to structures in step: it keeps them so, or the empty key as it was. */
  lemma {:induction false} InStepAfterSet<T>(entries: map<string, Entry<T>>, order: seq<string>, h: seq<Op<T>>, maxSize: int, cap: int,
                                             ttlMs: int, now: int, key: string, value: T)
    requires cap == Max(1, maxSize) && !Ousts(h, cap, ttlMs, key, value, now)
    requires InStep(entries, order, h, cap, ttlMs, now) && AllFresh(entries, now)
    ensures var room := Room(entries, order, maxSize, key);
            InStep(room.0[key := Entry(value, now + ttlMs)], room.1 + [key], h + [Op.Set(key, value, now)], cap, ttlMs, now)
  {
    LookInto(entries, order, h, cap, ttlMs, now);
    OustsIff(entries, order, h, maxSize, ttlMs, now, key, value);
    HoldsAfterSet(entries, order, Ledger(h), maxSize, ttlMs, now, key, value);
    LedgerOfSet(h, key, value, now);
  }

  lemma {:induction false} EmptyKeyAfterSet<T>(entries: map<string, Entry<T>>, order: seq<string>, h: seq<Op<T>>, maxSize: int, cap: int,
                                               ttlMs: int, now: int, key: string, value: T)
    requires cap == Max(1, maxSize) && Ousts(h, cap, ttlMs, key, value, now)
    requires InStep(entries, order, h, cap, ttlMs, now) && AllFresh(entries, now)
    ensures "" in entries && now < entries[""].expiresAt && key != ""
    ensures "" in Room(entries, order, maxSize, key).0 && Room(entries, order, maxSize, key).0[""] == entries[""]
  {
    LookInto(entries, order, h, cap, ttlMs, now);
    OustsIff(entries, order, h, maxSize, ttlMs, now, key, value);
    OustedStays(entries, order, maxSize, key);
  }

  /** The structures are in step with the history, if no set of it should have given the empty key up. */
  ghost predicate Soundly<T>(entries: map<string, Entry<T>>, order: seq<string>, h: seq<Op<T>>, cap: int, ttlMs: int, now: int) {
    NeverOusts(h, cap, ttlMs) ==> InStep(entries, order, h, cap, ttlMs, now)
  }

  lemma {:induction false} SoundlyAfterSet<T>(entries: map<string, Entry<T>>, order: seq<string>, h: seq<Op<T>>, maxSize: int, cap: int,
                                              ttlMs: int, now: int, key: string, value: T)
    requires cap == Max(1, maxSize) && AllFresh(entries, now)
    requires Soundly(entries, order, h, cap, ttlMs, now)
    ensures var room := Room(entries, order, maxSize, key);
            Soundly(room.0[key := Entry(value, now + ttlMs)], room.1 + [key], h + [Op.Set(key, value, now)], cap, ttlMs, now)
  {
    NeverOustsNext(h, cap, ttlMs, key, value, now);
    if NeverOusts(h + [Op.Set(key, value, now)], cap, ttlMs) {
      InStepAfterSet(entries, order, h, maxSize, cap, ttlMs, now, key, value);
    }
  }

  lemma {:induction false} BehindAfterAppend(order: seq<string>, key: string, p: int)
    requires 0 <= p < |order|
    ensures Behind(order + [key], p) == Behind(order, p) + {key}
  {
    var r := order + [key];
    assert r[|order|] == key;
    forall k | k in Behind(order, p) ensures k in Behind(r, p) {
      var x :| p < x < |order| && order[x] == k;
      assert r[x] == k;
    }
  }

  class Cache<T> {
    const maxSize: int
    const ttlMs: int
    var entries: map<string, Entry<T>>
    var insertionOrder: seq<string>
    ghost var history: seq<Op<T>>
    ghost var clock: int

    /** The number of keys that fit; the code never refuses the newest one. */
    ghost function Capacity(): nat {
      Max(1, maxSize)
    }

    /** No set since the last clear should have given the empty key up. */
    ghost predicate Sound()
      reads this
    {
      NeverOusts(history, Capacity(), ttlMs)
    }

    ghost predicate Valid()
      reads this
    {
      Soundly(entries, insertionOrder, history, Capacity(), ttlMs, clock)
    }

    /** What the map has for the key. */
    ghost function Found(key: string, now: int): Option<T>
      reads this
    {
      if key in entries && now < entries[key].expiresAt then Some(entries[key].value) else None
    }

    constructor (maxSize: int, ttlMs: int, now: int)
      ensures Valid() && clock == now && history == []
      ensures this.maxSize == maxSize && this.ttlMs == ttlMs
    {
      this.maxSize, this.ttlMs := maxSize, ttlMs;
      entries, insertionOrder := map[], [];
      history, clock := [], now;
    }

    ghost method Advance(now: int)
      requires Valid() && clock <= now
      modifies this`clock
      ensures Valid() && clock == now
    {
      if Sound() {
        InStepLater(entries, insertionOrder, history, Capacity(), ttlMs, clock, now);
      }
      clock := now;
    }

    /** Delete an expired key from both structures. */
    method Forget(key: string)
      requires Valid() && key in entries && entries[key].expiresAt <= clock
      modifies this`entries, this`insertionOrder
      ensures Valid() && entries == old(entries) - {key}
    {
      if Sound() {
        InStepWithoutExpired(entries, insertionOrder, history, Capacity(), ttlMs, clock, key);
      }
      entries := entries - {key};
      var idx := IndexOf(insertionOrder, key);
      if idx != -1 {
        insertionOrder := RemoveAt(insertionOrder, idx);
      }
    }

    method RemoveExpired(now: int)
      requires Valid() && now == clock
      modifies this`entries, this`insertionOrder
      ensures Valid() && AllFresh(entries, now)
      ensures forall k :: old(Found(k, now)) == Found(k, now)
    {
      var keysToRemove := set k | k in entries && entries[k].expiresAt <= now;
      while keysToRemove != {}
        invariant Valid()
        invariant forall k :: old(Found(k, now)) == Found(k, now)
        invariant forall k :: k in keysToRemove <==> k in entries && entries[k].expiresAt <= now
        decreases |keysToRemove|
      {
        var key :| key in keysToRemove;
        Forget(key);
        keysToRemove := keysToRemove - {key};
      }
    }

    method Expire(now: int)
      requires Valid() && clock <= now
      modifies this`entries, this`insertionOrder, this`clock
      ensures Valid() && clock == now && AllFresh(entries, now)
      ensures forall k :: old(Found(k, now)) == Found(k, now)
    {
      Advance(now);
      RemoveExpired(now);
    }

    method EvictOldest()
      modifies this`entries, this`insertionOrder
      ensures entries == Evicted(old(entries), old(insertionOrder), maxSize).0
      ensures insertionOrder == Evicted(old(entries), old(insertionOrder), maxSize).1
    {
      while |entries| >= maxSize && |insertionOrder| > 0
        invariant Evicted(entries, insertionOrder, maxSize) == Evicted(old(entries), old(insertionOrder), maxSize)
        decreases |insertionOrder|
      {
        var oldest := insertionOrder[0];
        insertionOrder := insertionOrder[1..];
        if oldest != "" {
          entries := entries - {oldest};
        }
      }
    }

    method MakeRoom(key: string)
      modifies this`entries, this`insertionOrder
      ensures (entries, insertionOrder) == Room(old(entries), old(insertionOrder), maxSize, key)
    {
      var existingIdx := IndexOf(insertionOrder, key);
      if existingIdx != -1 {
        insertionOrder := RemoveAt(insertionOrder, existingIdx);
      } else {
        EvictOldest();
      }
    }

    /** The answer is the specified one as long as no set should have given the empty key up. */
    method Get(key: string, now: int) returns (r: Option<T>)
      requires Valid() && clock <= now
      modifies this
      ensures Valid() && clock == now && history == old(history)
      ensures r == old(Found(key, now))
      ensures Sound() ==> r == Lookup(history, Capacity(), ttlMs, key, now)
    {
      Advance(now);
      FoundIsLookup(key, now);
      if key !in entries {
        return None;
      }
      var entry := entries[key];
      if entry.expiresAt <= now {
        Forget(key);
        return None;
      }
      return Some(entry.value);
    }

    lemma {:induction false} FoundIsLookup(key: string, now: int)
      requires Valid() && clock == now
      ensures Sound() ==> Found(key, now) == Lookup(history, Capacity(), ttlMs, key, now)
    {
      if Sound() {
        InStepAnswers(entries, insertionOrder, history, Capacity(), ttlMs, now, key);
      }
    }

    /**
     The cache stays sound exactly if this set does not oust the empty key. If it does, the answer for
     the empty key is at once not the specified one: it can still be found.
     */
    method Set(key: string, value: T, now: int)
      requires Valid() && clock <= now
      modifies this
      ensures Valid() && clock == now && history == old(history) + [Op.Set(key, value, now)]
      ensures Sound() <==> old(Sound()) && !Ousts(old(history), Capacity(), ttlMs, key, value, now)
      ensures old(Sound()) && !Sound() ==>
                && Lookup(history, Capacity(), ttlMs, "", now) == None
                && Found("", now).Some? && Found("", now) == Lookup(old(history), Capacity(), ttlMs, "", now)
    {
      Expire(now);
      FoundIsLookup("", now);
      NeverOustsNext(history, Capacity(), ttlMs, key, value, now);
      Put(key, value, now);
    }

    /** `set` once the expired entries are gone. */
    method Put(key: string, value: T, now: int)
      requires Valid() && clock == now && AllFresh(entries, now)
      modifies this`entries, this`insertionOrder, this`history
      ensures Valid() && history == old(history) + [Op.Set(key, value, now)]
      ensures old(Sound()) && Ousts(old(history), Capacity(), ttlMs, key, value, now) ==>
                Found("", now).Some? && Found("", now) == old(Found("", now))
    {
      SoundlyAfterSet(entries, insertionOrder, history, maxSize, Capacity(), ttlMs, now, key, value);
      if Sound() && Ousts(history, Capacity(), ttlMs, key, value, now) {
        EmptyKeyAfterSet(entries, insertionOrder, history, maxSize, Capacity(), ttlMs, now, key, value);
      }
      Store(key, value, now);
    }

    /** Make room for the key and write it. */
    method Store(key: string, value: T, now: int)
      modifies this`entries, this`insertionOrder, this`history
      ensures entries == Room(old(entries), old(insertionOrder), maxSize, key).0[key := Entry(value, now + ttlMs)]
      ensures insertionOrder == Room(old(entries), old(insertionOrder), maxSize, key).1 + [key]
      ensures history == old(history) + [Op.Set(key, value, now)]
    {
      MakeRoom(key);
      entries := entries[key := Entry(value, now + ttlMs)];
      insertionOrder := insertionOrder + [key];
      history := history + [Op.Set(key, value, now)];
    }

    method Clear()
      requires Valid()
      modifies this
      ensures Valid() && clock == old(clock) && history == old(history) + [Op.Clear]
    {
      entries := map[];
      insertionOrder := [];
      history := history + [Op.Clear];
    }
  }

  /** In a cache for one key, another key set while the empty one is fresh ousts it. */
  lemma {:induction false} SecondSetOusts<T>(ttlMs: int, first: T, at: int, key: string, second: T, now: int)
    requires key != "" && now < at + ttlMs
    ensures NeverOusts([Op.Set("", first, at)], 1, ttlMs)
    ensures Ousts([Op.Set("", first, at)], 1, ttlMs, key, second, now)
  {
    var h := [Op.Set("", first, at)];
    assert [] + h == h;
    NeverOustsNext([], 1, ttlMs, "", first, at);
    assert OthersSince(h, 0) == {};
    var longer := h + [Op.Set(key, second, now)];
    assert longer[..1] == h && longer[1].Set?;
    assert OthersSince(longer, 0) == {key};
  }

  /**
   The specification fails on two sets from a new cache: the key set first should have made room for the
   second, and is still found because it is empty.
   */
  method EmptyKeyOverstays<T>(maxSize: int, ttlMs: int, first: T, at: int, key: string, second: T, now: int) returns (cache: Cache<T>, r: Option<T>)
    requires maxSize <= 1 && key != "" && at <= now < at + ttlMs
    ensures cache.Valid() && !cache.Sound() && cache.history == [Op.Set("", first, at), Op.Set(key, second, now)]
    ensures Lookup(cache.history, cache.Capacity(), ttlMs, "", now) == None
    ensures r == Some(first)
  {
    cache := new Cache(maxSize, ttlMs, at);
    assert !Ousts<T>([], 1, ttlMs, "", first, at);
    cache.Set("", first, at);
    SecondSetOusts(ttlMs, first, at, key, second, now);
    cache.Set(key, second, now);
    r := cache.Get("", now);
  }

  /** Everything ever cached is what resolving its key gives. */
  ghost predicate AllResolved<Doc>(h: seq<Op<Doc>>, resolve: string -> Option<Doc>) {
    forall i :: 0 <= i < |h| && h[i].Set? ==> resolve(h[i].key) == Some(h[i].value)
  }

  lemma {:induction false} FoundIsResolved<Doc>(h: seq<Op<Doc>>, resolve: string -> Option<Doc>, cap: int, ttlMs: int, key: string, now: int)
    requires AllResolved(h, resolve) && Lookup(h, cap, ttlMs, key, now).Some?
    ensures Lookup(h, cap, ttlMs, key, now) == resolve(key)
  {
  }

  /** The empty string is not a DID, so it is never cached. */
  lemma {:induction false} ResolvedIsNamed<Doc>(h: seq<Op<Doc>>, resolve: string -> Option<Doc>, cap: int, ttlMs: int)
    requires AllResolved(h, resolve) && resolve("") == None
    ensures NeverOusts(h, cap, ttlMs)
  {
    NamedNeverOusts(h, cap, ttlMs);
  }

  lemma {:induction false} ResolvedNext<Doc>(h: seq<Op<Doc>>, resolve: string -> Option<Doc>, key: string, value: Doc, now: int)
    requires AllResolved(h, resolve) && resolve(key) == Some(value)
    ensures AllResolved(h + [Op.Set(key, value, now)], resolve)
  {
  }

  /** The did:key resolver: it answers from the cache when it can. */
  class Resolver<Doc> {
    /** Resolution without a cache: a document, or none when the DID is invalid or unsupported. */
    const resolveDIDKey: string -> Option<Doc>
    const cache: Cache<Doc>

    ghost predicate Valid()
      reads this, cache
    {
      && cache.Valid()
      && resolveDIDKey("") == None
      && AllResolved(cache.history, resolveDIDKey)
    }

    constructor (resolveDIDKey: string -> Option<Doc>, maxSize: int, ttlMs: int, now: int)
      requires resolveDIDKey("") == None
      ensures Valid() && fresh(cache) && cache.clock == now && this.resolveDIDKey == resolveDIDKey
    {
      this.resolveDIDKey := resolveDIDKey;
      cache := new Cache(maxSize, ttlMs, now);
    }

    /** On every run and whatever the cache holds, the answer is that of resolving afresh. */
    method Resolve(did: string, now: int) returns (document: Option<Doc>)
      requires Valid() && cache.clock <= now
      modifies cache
      ensures Valid() && cache.clock == now
      ensures document == resolveDIDKey(did)
      ensures cache.history ==
              if Lookup(old(cache.history), cache.Capacity(), cache.ttlMs, did, now) == None && document.Some?
              then old(cache.history) + [Op.Set(did, document.value, now)] else old(cache.history)
    {
      ResolvedIsNamed(cache.history, resolveDIDKey, cache.Capacity(), cache.ttlMs);
      document := cache.Get(did, now);
      if document.Some? {
        FoundIsResolved(cache.history, resolveDIDKey, cache.Capacity(), cache.ttlMs, did, now);
      } else {
        document := resolveDIDKey(did);
        if document.Some? {
          ResolvedNext(cache.history, resolveDIDKey, did, document.value, now);
          cache.Set(did, document.value, now);
        }
      }
    }

    method ClearCache()
      requires Valid()
      modifies cache
      ensures Valid() && cache.clock == old(cache.clock)
    {
      cache.Clear();
    }
  }
}
