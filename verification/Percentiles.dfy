/**
 Statistics of revocation timing (robot-agent/internal/metrics/revocation.go): the bounded collection
 of measurements, and percentiles by index into the sorted durations against counting.
 */
module Percentiles {
  import opened Wrappers
  import opened Collections
  import opened Sorting

  /** The instants of one revocation; an instant that was never set is None. */
  datatype RevocationTimestamps = RevocationTimestamps(
    sessionId: string, messageReceived: Option<int>, handlerStarted: Option<int>, transportClosed: Option<int>,
    sessionTerminated: Option<int>, safeStopTriggered: Option<int>, safeStopCompleted: Option<int>, hardwareStopIssued: Option<int>)

  datatype PropagationTimes = PropagationTimes(
    total: int, handlerProcessing: int, transportTeardown: int, sessionTeardown: int, safeStopExecution: int)

  function Duration(start: Option<int>, end: Option<int>): int {
    if start == None || end == None then 0 else end.value - start.value
  }

  function Calculate(t: RevocationTimestamps): PropagationTimes {
    PropagationTimes(
      Duration(t.messageReceived, t.safeStopCompleted),
      Duration(t.handlerStarted, t.safeStopTriggered),
      Duration(t.handlerStarted, t.transportClosed),
      Duration(t.transportClosed, t.sessionTerminated),
      Duration(t.safeStopTriggered, t.safeStopCompleted))
  }

  /** The time from one instant to another, if both were set. */
  ghost function Between(start: Option<int>, end: Option<int>): int {
    match (start, end)
    case (Some(s), Some(e)) => e - s
    case _ => 0
  }

  /** Which two instants each duration lies between. */
  lemma {:induction false} DurationsBetween(t: RevocationTimestamps)
    ensures Calculate(t).total == Between(t.messageReceived, t.safeStopCompleted)
    ensures Calculate(t).handlerProcessing == Between(t.handlerStarted, t.safeStopTriggered)
    ensures Calculate(t).transportTeardown == Between(t.handlerStarted, t.transportClosed)
    ensures Calculate(t).sessionTeardown == Between(t.transportClosed, t.sessionTerminated)
    ensures Calculate(t).safeStopExecution == Between(t.safeStopTriggered, t.safeStopCompleted)
  {
  }

  datatype RevocationStats = RevocationStats(count: nat, p50: int, p95: int, p99: int, min: int, max: int, avg: int)

  const NO_STATS := RevocationStats(0, 0, 0, 0, 0, 0, 0)

  // ------------------------------------------------------------- counting and adding up

  function Identity(): int -> int {
    (d: int) => d
  }

  /** How many of the durations are at most `limit`. */
  function AtMost(durations: seq<int>, limit: int): (n: nat)
    ensures n <= |durations|
  {
    if durations == [] then 0
    else (if durations[0] <= limit then 1 else 0) + AtMost(durations[1..], limit)
  }

  function Sum(durations: seq<int>): int {
    if durations == [] then 0 else durations[0] + Sum(durations[1..])
  }

  lemma {:induction false} AtMostInsert(x: int, s: seq<int>, limit: int)
    ensures AtMost(Insert(x, s, Identity()), limit) == AtMost([x] + s, limit)
    decreases |s|
  {
    assert ([x] + s)[1..] == s;
    if s != [] && x > s[0] {
      AtMostInsert(x, s[1..], limit);
      assert ([x] + s[1..])[1..] == s[1..];
      assert ([s[0]] + Insert(x, s[1..], Identity()))[1..] == Insert(x, s[1..], Identity());
    }
  }

  /** Sorting does not change how many are at most the limit. */
  lemma {:induction false} AtMostSorted(s: seq<int>, limit: int)
    ensures AtMost(StableSort(s, Identity()), limit) == AtMost(s, limit)
    decreases |s|
  {
    if s != [] {
      var rest := StableSort(s[1..], Identity());
      AtMostSorted(s[1..], limit);
      AtMostInsert(s[0], rest, limit);
      assert ([s[0]] + rest)[1..] == rest;
    }
  }

  lemma {:induction false} SumInsert(x: int, s: seq<int>)
    ensures Sum(Insert(x, s, Identity())) == x + Sum(s)
    decreases |s|
  {
    if s == [] || x <= s[0] {
      assert ([x] + s)[1..] == s;
    } else {
      SumInsert(x, s[1..]);
      assert ([s[0]] + Insert(x, s[1..], Identity()))[1..] == Insert(x, s[1..], Identity());
    }
  }

  lemma {:induction false} SumSorted(s: seq<int>)
    ensures Sum(StableSort(s, Identity())) == Sum(s)
    decreases |s|
  {
    if s != [] {
      SumSorted(s[1..]);
      SumInsert(s[0], StableSort(s[1..], Identity()));
    }
  }

  lemma {:induction false} SumNext(s: seq<int>, i: nat)
    requires i < |s|
    ensures Sum(s[..i + 1]) == Sum(s[..i]) + s[i]
    decreases i
  {
    if i == 0 {
      assert s[..1] == [s[0]];
    } else {
      SumNext(s[1..], i - 1);
      assert s[..i + 1][1..] == s[1..][..i];
      assert s[..i][1..] == s[1..][..i - 1];
    }
  }

  /** In a sorted list, element `i` is at most the limit exactly when more than `i` elements are. */
  lemma {:induction false} SortedRank(s: seq<int>, i: nat, limit: int)
    requires SortedBy(s, Identity()) && i < |s|
    ensures s[i] <= limit <==> AtMost(s, limit) > i
    decreases |s|
  {
    var tail := s[1..];
    assert SortedBy(tail, Identity()) by {
      forall j, k | 0 <= j < k < |tail| ensures Identity()(tail[j]) <= Identity()(tail[k]) {
        assert Identity()(s[j + 1]) <= Identity()(s[k + 1]);
      }
    }
    assert i > 0 ==> Identity()(s[0]) <= Identity()(s[i]);
    if |s| > 1 {
      assert Identity()(s[0]) <= Identity()(s[1]);
      SortedRank(tail, if i == 0 || s[0] > limit then 0 else i - 1, limit);
    }
  }

  // ------------------------------------------------------------- percentiles

  /** The p-th percentile of sorted durations, by index. */
  function Percentile(sorted: seq<int>, p: nat): int {
    if |sorted| == 0 then 0
    else
      var idx := p * |sorted| / 100;
      sorted[if idx >= |sorted| then |sorted| - 1 else idx]
  }

  /** `x` is the least value at or below which lies more than a share of p hundredths of the durations. */
  ghost predicate IsPercentile(durations: seq<int>, p: nat, x: int) {
    forall limit :: x <= limit <==> 100 * AtMost(durations, limit) > p * |durations|
  }

  lemma {:induction false} RankOfShare(p: nat, n: nat, count: nat)
    requires p < 100 && n > 0
    ensures p * n / 100 < n
    ensures count > p * n / 100 <==> 100 * count > p * n
  {
    assert p * n <= 99 * n;
  }

  lemma {:induction false} PercentileRank(sorted: seq<int>, p: nat, limit: int)
    requires SortedBy(sorted, Identity()) && sorted != [] && p < 100
    ensures Percentile(sorted, p) <= limit <==> 100 * AtMost(sorted, limit) > p * |sorted|
  {
    RankOfShare(p, |sorted|, AtMost(sorted, limit));
    SortedRank(sorted, p * |sorted| / 100, limit);
  }

  lemma {:induction false} PercentileCounts(durations: seq<int>, p: nat)
    requires durations != [] && p < 100
    ensures IsPercentile(durations, p, Percentile(StableSort(durations, Identity()), p))
  {
    var sorted := StableSort(durations, Identity());
    StableSortSorts(durations, Identity());
    forall limit
      ensures Percentile(sorted, p) <= limit <==> 100 * AtMost(durations, limit) > p * |durations|
    {
      PercentileRank(sorted, p, limit);
      AtMostSorted(durations, limit);
    }
  }

  /** There is only one such value, and it grows with p. */
  lemma {:induction false} PercentilesAreOrdered(durations: seq<int>, p: nat, q: nat, x: int, y: int)
    requires p <= q && IsPercentile(durations, p, x) && IsPercentile(durations, q, y)
    ensures x <= y
    ensures p == q ==> x == y
  {
    assert y <= y && x <= x;
    SharesGrow(p, q, |durations|);
    assert x <= y <==> 100 * AtMost(durations, y) > p * |durations|;
    assert y <= x <==> 100 * AtMost(durations, x) > q * |durations|;
  }

  lemma {:induction false} SharesGrow(p: nat, q: nat, n: nat)
    requires p <= q
    ensures p * n <= q * n
  {
  }

  // ------------------------------------------------------------- the statistics

  ghost predicate IsLeast(durations: seq<int>, x: int) {
    x in durations && forall d :: d in durations ==> x <= d
  }

  ghost predicate IsGreatest(durations: seq<int>, x: int) {
    x in durations && forall d :: d in durations ==> d <= x
  }

  /** What the statistics of some durations are, in whatever order the durations come. */
  ghost predicate IsStats(durations: seq<int>, stats: RevocationStats) {
    && stats.count == |durations| > 0
    && IsPercentile(durations, 50, stats.p50)
    && IsPercentile(durations, 95, stats.p95)
    && IsPercentile(durations, 99, stats.p99)
    && IsLeast(durations, stats.min) && IsGreatest(durations, stats.max)
    && stats.avg == Sum(durations) / |durations|
  }

  /** The durations that count: the positive ones. */
  function Positive(measurements: seq<RevocationTimestamps>, extract: RevocationTimestamps -> int): seq<int> {
    if measurements == [] then []
    else
      var last := |measurements| - 1;
      var d := extract(measurements[last]);
      Positive(measurements[..last], extract) + if d > 0 then [d] else []
  }

  lemma {:induction false} PositiveOfSame(measurements: seq<RevocationTimestamps>, f: RevocationTimestamps -> int, g: RevocationTimestamps -> int)
    requires forall t :: f(t) == g(t)
    ensures Positive(measurements, f) == Positive(measurements, g)
    decreases |measurements|
  {
    if measurements != [] {
      PositiveOfSame(measurements[..|measurements| - 1], f, g);
    }
  }

  lemma {:induction false} PositiveAreTheMeasured(measurements: seq<RevocationTimestamps>, extract: RevocationTimestamps -> int, d: int)
    ensures d in Positive(measurements, extract) <==> d > 0 && exists m :: m in measurements && extract(m) == d
    decreases |measurements|
  {
    if measurements != [] {
      var last := |measurements| - 1;
      assert measurements == measurements[..last] + [measurements[last]];
      PositiveAreTheMeasured(measurements[..last], extract, d);
    }
  }

  lemma {:induction false} Extremes(durations: seq<int>)
    requires durations != []
    ensures var sorted := StableSort(durations, Identity());
            IsLeast(durations, sorted[0]) && IsGreatest(durations, sorted[|sorted| - 1])
  {
    var sorted := StableSort(durations, Identity());
    StableSortSorts(durations, Identity());
    assert sorted[0] in multiset(sorted) && sorted[|sorted| - 1] in multiset(sorted);
    forall d | d in durations ensures sorted[0] <= d <= sorted[|sorted| - 1] {
      assert d in multiset(sorted);
      var i :| 0 <= i < |sorted| && sorted[i] == d;
      assert i > 0 ==> Identity()(sorted[0]) <= Identity()(sorted[i]);
      assert i < |sorted| - 1 ==> Identity()(sorted[i]) <= Identity()(sorted[|sorted| - 1]);
    }
  }

  lemma {:induction false} SortedStats(durations: seq<int>, total: int)
    requires durations != [] && total == Sum(StableSort(durations, Identity()))
    ensures var s := StableSort(durations, Identity());
            IsStats(durations, RevocationStats(|s|, Percentile(s, 50), Percentile(s, 95), Percentile(s, 99), s[0], s[|s| - 1], total / |s|))
  {
    PercentileCounts(durations, 50);
    PercentileCounts(durations, 95);
    PercentileCounts(durations, 99);
    Extremes(durations);
    SumSorted(durations);
  }

  method KeepPositive(measurements: seq<RevocationTimestamps>, extract: RevocationTimestamps -> int) returns (durations: seq<int>)
    ensures durations == Positive(measurements, extract)
  {
    durations := [];
    for i := 0 to |measurements|
      invariant durations == Positive(measurements[..i], extract)
    {
      assert measurements[..i + 1][..i] == measurements[..i];
      var d := extract(measurements[i]);
      if d > 0 {
        durations := durations + [d];
      }
    }
    assert measurements[..|measurements|] == measurements;
  }

  method Total(durations: seq<int>) returns (total: int)
    ensures total == Sum(durations)
  {
    total := 0;
    for i := 0 to |durations|
      invariant total == Sum(durations[..i])
    {
      SumNext(durations, i);
      total := total + durations[i];
    }
    assert durations[..|durations|] == durations;
  }

  method CalculateStats(measurements: seq<RevocationTimestamps>, extract: RevocationTimestamps -> int) returns (stats: RevocationStats)
    ensures var durations := Positive(measurements, extract);
            if durations == [] then stats == RevocationStats(0, 0, 0, 0, 0, 0, 0) else IsStats(durations, stats)
  {
    if |measurements| == 0 {
      return NO_STATS;
    }
    var durations := KeepPositive(measurements, extract);
    if |durations| == 0 {
      return NO_STATS;
    }
    var sorted := StableSort(durations, Identity());
    var total := Total(sorted);
    SortedStats(durations, total);
    return RevocationStats(|sorted|, Percentile(sorted, 50), Percentile(sorted, 95), Percentile(sorted, 99),
                           sorted[0], sorted[|sorted| - 1], total / |sorted|);
  }

  lemma {:induction false} OneMore(a: int, n: int)
    ensures a * n == a + a * (n - 1)
  {
  }

  lemma {:induction false} SumBounds(durations: seq<int>, low: int, high: int)
    requires forall d :: d in durations ==> low <= d <= high
    ensures low * |durations| <= Sum(durations) <= high * |durations|
    decreases |durations|
  {
    if durations != [] {
      assert forall d :: d in durations[1..] ==> d in durations;
      SumBounds(durations[1..], low, high);
      assert durations[0] in durations;
      OneMore(low, |durations|);
      OneMore(high, |durations|);
    }
  }

  lemma {:induction false} QuotientBounds(sum: int, n: int, low: int, high: int)
    requires n > 0 && low * n <= sum <= high * n
    ensures low <= sum / n <= high
  {
    var q := sum / n;
    assert q * n <= sum < (q + 1) * n;
    MultiplesOrdered(low, q + 1, n);
    MultiplesOrdered(q, high + 1, n);
  }

  lemma {:induction false} MultiplesOrdered(a: int, b: int, n: int)
    requires n > 0 && a * n < b * n
    ensures a < b
  {
  }

  lemma {:induction false} AtMostNone(durations: seq<int>, limit: int)
    requires forall d :: d in durations ==> limit < d
    ensures AtMost(durations, limit) == 0
    decreases |durations|
  {
    if durations != [] {
      assert durations[0] in durations && forall d :: d in durations[1..] ==> d in durations;
      AtMostNone(durations[1..], limit);
    }
  }

  lemma {:induction false} AtMostAll(durations: seq<int>, limit: int)
    requires forall d :: d in durations ==> d <= limit
    ensures AtMost(durations, limit) == |durations|
    decreases |durations|
  {
    if durations != [] {
      assert durations[0] in durations && forall d :: d in durations[1..] ==> d in durations;
      AtMostAll(durations[1..], limit);
    }
  }

  /** The statistics are in order, and all within the least and the greatest duration. */
  lemma {:induction false} StatsAreOrdered(durations: seq<int>, stats: RevocationStats)
    requires IsStats(durations, stats)
    ensures stats.min <= stats.p50 <= stats.p95 <= stats.p99 <= stats.max
    ensures stats.min <= stats.avg <= stats.max
  {
    PercentilesAreOrdered(durations, 50, 95, stats.p50, stats.p95);
    PercentilesAreOrdered(durations, 95, 99, stats.p95, stats.p99);
    AtMostNone(durations, stats.min - 1);
    AtMostAll(durations, stats.max);
    assert !(stats.p50 <= stats.min - 1);
    assert stats.p99 <= stats.max;
    SumBounds(durations, stats.min, stats.max);
    QuotientBounds(Sum(durations), |durations|, stats.min, stats.max);
  }

  // ------------------------------------------------------------- the collector

  class RevocationCollector {
    const maxSamples: nat
    var measurements: seq<RevocationTimestamps>
    ghost var recorded: seq<RevocationTimestamps>  // everything recorded since the last reset

    ghost predicate Valid()
      reads this
    {
      maxSamples > 0 && measurements == LastN(recorded, maxSamples)
    }

    constructor (maxSamples: int)
      ensures Valid() && recorded == [] && this.maxSamples == if maxSamples <= 0 then 1000 else maxSamples
    {
      this.maxSamples := if maxSamples <= 0 then 1000 else maxSamples;
      measurements, recorded := [], [];
    }

    method Record(ts: RevocationTimestamps)
      requires Valid()
      modifies this
      ensures Valid() && recorded == old(recorded) + [ts]
    {
      if |measurements| >= maxSamples {
        measurements := measurements[1..];
      }
      measurements := measurements + [ts];
      recorded := recorded + [ts];
    }

    /** Statistics of the total times of the last `maxSamples` revocations. */
    method Stats() returns (stats: RevocationStats)
      requires Valid()
      ensures var durations := Positive(LastN(recorded, maxSamples), (t: RevocationTimestamps) => Between(t.messageReceived, t.safeStopCompleted));
              if durations == [] then stats == RevocationStats(0, 0, 0, 0, 0, 0, 0) else IsStats(durations, stats)
    {
      PositiveOfSame(measurements, (t: RevocationTimestamps) => Calculate(t).total,
                     (t: RevocationTimestamps) => Between(t.messageReceived, t.safeStopCompleted));
      stats := CalculateStats(measurements, (t: RevocationTimestamps) => Calculate(t).total);
    }

    method SafeStopStats() returns (stats: RevocationStats)
      requires Valid()
      ensures var durations := Positive(LastN(recorded, maxSamples), (t: RevocationTimestamps) => Between(t.safeStopTriggered, t.safeStopCompleted));
              if durations == [] then stats == RevocationStats(0, 0, 0, 0, 0, 0, 0) else IsStats(durations, stats)
    {
      PositiveOfSame(measurements, (t: RevocationTimestamps) => Calculate(t).safeStopExecution,
                     (t: RevocationTimestamps) => Between(t.safeStopTriggered, t.safeStopCompleted));
      stats := CalculateStats(measurements, (t: RevocationTimestamps) => Calculate(t).safeStopExecution);
    }

    method Count() returns (n: nat)
      requires Valid()
      ensures n == if |recorded| < maxSamples then |recorded| else maxSamples
    {
      return |measurements|;
    }

    method Reset()
      requires Valid()
      modifies this
      ensures Valid() && recorded == []
    {
      measurements, recorded := [], [];
    }
  }
}
