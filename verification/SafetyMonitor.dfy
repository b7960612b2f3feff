/**
 The robot agent's safety monitor (robot-agent/internal/safety/monitor.go): a latching safe-stop,
 a recoverable control loss, and a window of invalid commands that restarts at the first invalid
 command after its expiry.

 `Step` says what one call does to the monitor's fields and which trigger, if any, it hands to the
 safe-stop callback. The class `Monitor` is the imperative monitor, proved against `Step`. The
 lemmas in module `SafetyRuns` are about whole runs of `Step`.
 */
module SafetyMonitor {
  import opened Wrappers

  datatype Trigger = EStop | ControlLoss | InvalidCmds | TokenExpired | Revoked

  datatype Config = Config(controlLossTimeout: int, invalidCmdThreshold: int, invalidCmdTimeWindow: int)

  /** The calls that other components make on the monitor. */
  datatype Call = OnValidControl | OnInvalidCommand | OnEStop | OnTokenExpired | OnRevoked | CheckControlLoss | Reset

  datatype State = State(
    lastControlTime: int,
    invalidCmdCount: int,
    firstInvalidCmdTime: int,
    stopped: bool,
    inControlLoss: bool)

  /** The zero `time.Time`; it is never compared, because it goes with an invalid-command count of 0. */
  const ZERO_TIME := 0

  function Init(now: int): State {
    State(now, 0, ZERO_TIME, false, false)
  }

  /** A running monitor becomes stopped and reports the trigger; a stopped one ignores it. */
  function TriggerSafeStop(s: State, trigger: Trigger): (State, Option<Trigger>) {
    if s.stopped then (s, None) else (s.(stopped := true), Some(trigger))
  }

  predicate WindowExpired(cfg: Config, s: State, now: int) {
    && cfg.invalidCmdTimeWindow > 0
    && s.invalidCmdCount > 0
    && now - s.firstInvalidCmdTime > cfg.invalidCmdTimeWindow
  }

  /** The bookkeeping of an invalid command: restart an expired window, then count. */
  function CountInvalid(cfg: Config, s: State, now: int): State {
    var startsWindow := WindowExpired(cfg, s, now) || s.invalidCmdCount == 0;
    if startsWindow
    then s.(invalidCmdCount := 1, firstInvalidCmdTime := now)
    else s.(invalidCmdCount := s.invalidCmdCount + 1)
  }

  function Step(cfg: Config, s: State, call: Call, now: int): (State, Option<Trigger>) {
    match call
    case OnValidControl =>
      (State(now, 0, ZERO_TIME, s.stopped && !s.inControlLoss, false), None)
    case OnInvalidCommand =>
      var counted := CountInvalid(cfg, s, now);
      if counted.invalidCmdCount >= cfg.invalidCmdThreshold
      then TriggerSafeStop(counted, InvalidCmds)
      else (counted, None)
    case OnEStop => TriggerSafeStop(s.(inControlLoss := false), EStop)
    case OnTokenExpired => TriggerSafeStop(s.(inControlLoss := false), TokenExpired)
    case OnRevoked => TriggerSafeStop(s.(inControlLoss := false), Revoked)
    case CheckControlLoss =>
      if !s.stopped && now - s.lastControlTime > cfg.controlLossTimeout
      then TriggerSafeStop(s.(inControlLoss := true), ControlLoss)
      else (s, None)
    case Reset => (Init(now), None)
  }

  /**
   The monitor object. Each method returns the trigger it hands to the safe-stop callback, if it
   calls it; every method makes that call last, so returning it and calling it afterwards agree.
   */
  class Monitor {
    const cfg: Config
    var lastControlTime: int
    var invalidCmdCount: int
    var firstInvalidCmdTime: int
    var stopped: bool
    var inControlLoss: bool

    function Abs(): State
      reads this
    {
      State(lastControlTime, invalidCmdCount, firstInvalidCmdTime, stopped, inControlLoss)
    }

    constructor (cfg: Config, now: int)
      ensures this.cfg == cfg && Abs() == Init(now)
    {
      this.cfg := cfg;
      lastControlTime := now;
      invalidCmdCount, firstInvalidCmdTime := 0, ZERO_TIME;
      stopped, inControlLoss := false, false;
    }

    method Trip(trigger: Trigger) returns (fired: Option<Trigger>)
      modifies this
      ensures (Abs(), fired) == TriggerSafeStop(old(Abs()), trigger)
    {
      if stopped { return None; }
      stopped := true;
      fired := Some(trigger);
    }

    method OnValidControl(now: int) returns (fired: Option<Trigger>)
      modifies this
      ensures (Abs(), fired) == Step(cfg, old(Abs()), Call.OnValidControl, now)
    {
      lastControlTime := now;
      invalidCmdCount := 0;
      firstInvalidCmdTime := ZERO_TIME;
      if inControlLoss {
        inControlLoss := false;
        stopped := false;
      }
      fired := None;
    }

    method OnInvalidCommand(now: int) returns (fired: Option<Trigger>)
      modifies this
      ensures (Abs(), fired) == Step(cfg, old(Abs()), Call.OnInvalidCommand, now)
    {
      var windowExpired :=
        cfg.invalidCmdTimeWindow > 0 && invalidCmdCount > 0 && now - firstInvalidCmdTime > cfg.invalidCmdTimeWindow;
      if windowExpired {
        invalidCmdCount := 0;
      }
      if invalidCmdCount == 0 {
        firstInvalidCmdTime := now;
      }
      invalidCmdCount := invalidCmdCount + 1;
      fired := None;
      if invalidCmdCount >= cfg.invalidCmdThreshold {
        fired := Trip(InvalidCmds);
      }
    }

    method OnEStop() returns (fired: Option<Trigger>)
      modifies this
      ensures forall now :: (Abs(), fired) == Step(cfg, old(Abs()), Call.OnEStop, now)
    {
      inControlLoss := false;
      fired := Trip(EStop);
    }

    method OnTokenExpired() returns (fired: Option<Trigger>)
      modifies this
      ensures forall now :: (Abs(), fired) == Step(cfg, old(Abs()), Call.OnTokenExpired, now)
    {
      inControlLoss := false;
      fired := Trip(TokenExpired);
    }

    method OnRevoked() returns (fired: Option<Trigger>)
      modifies this
      ensures forall now :: (Abs(), fired) == Step(cfg, old(Abs()), Call.OnRevoked, now)
    {
      inControlLoss := false;
      fired := Trip(Revoked);
    }

    method CheckControlLoss(now: int) returns (fired: Option<Trigger>)
      modifies this
      ensures (Abs(), fired) == Step(cfg, old(Abs()), Call.CheckControlLoss, now)
    {
      if stopped { return None; }
      var elapsed := now - lastControlTime;
      fired := None;
      if elapsed > cfg.controlLossTimeout {
        inControlLoss := true;
        fired := Trip(ControlLoss);
      }
    }

    method Reset(now: int)
      modifies this
      ensures (Abs(), None) == Step(cfg, old(Abs()), Call.Reset, now)
    {
      invalidCmdCount := 0;
      firstInvalidCmdTime := ZERO_TIME;
      lastControlTime := now;
      stopped := false;
      inControlLoss := false;
    }
  }
}

/** Theorems about every run of the safety monitor. */
module SafetyRuns {
  import opened Wrappers
  import opened SafetyMonitor

  /** A call together with the instant at which it is made. */
  datatype Event = Event(call: Call, now: int)

  type Run = seq<Event>

  /** The state after the calls of `run`, made from `s`. */
  function Final(cfg: Config, s: State, run: Run): State {
    if run == [] then s
    else
      var last := |run| - 1;
      Step(cfg, Final(cfg, s, run[..last]), run[last].call, run[last].now).0
  }

  /** What the `i`-th call of `run` hands to the safe-stop callback. */
  function FiredAt(cfg: Config, s: State, run: Run, i: nat): Option<Trigger>
    requires i < |run|
  {
    Step(cfg, Final(cfg, s, run[..i]), run[i].call, run[i].now).1
  }

  /** The triggers handed to the safe-stop callback over `run`, in order. */
  function Fired(cfg: Config, s: State, run: Run): seq<Trigger> {
    if run == [] then []
    else
      var last := |run| - 1;
      Fired(cfg, s, run[..last]) +
      match FiredAt(cfg, s, run, last) { case None => [] case Some(t) => [t] }
  }

  ghost predicate Contains(run: Run, call: Call) {
    exists i :: 0 <= i < |run| && run[i].call == call
  }

  /** No valid control and no Reset: nothing in the run can end a stop. */
  ghost predicate Unrelieved(run: Run) {
    forall i :: 0 <= i < |run| ==> run[i].call != OnValidControl && run[i].call != Reset
  }

  lemma {:induction false} UnrelievedPrefix(run: Run, n: nat)
    requires Unrelieved(run) && n <= |run|
    ensures Unrelieved(run[..n])
  {
  }

  lemma {:induction false} UnrelievedSuffix(run: Run, n: nat)
    requires Unrelieved(run) && n <= |run|
    ensures Unrelieved(run[n..])
  {
    assert forall j :: 0 <= j < |run| - n ==> run[n..][j] == run[n + j];
  }

  ghost predicate NoReset(run: Run) {
    forall i :: 0 <= i < |run| ==> run[i].call != Reset
  }

  /** Instants never go back, starting from `from`. */
  ghost predicate Nondecreasing(from: int, run: Run) {
    && (forall i :: 0 <= i < |run| ==> from <= run[i].now)
    && (forall i, j :: 0 <= i < j < |run| ==> run[i].now <= run[j].now)
  }

  function InvalidCount(run: Run): nat {
    if run == [] then 0
    else
      var last := |run| - 1;
      InvalidCount(run[..last]) + if run[last].call == OnInvalidCommand then 1 else 0
  }

  lemma {:induction false} FinalConcat(cfg: Config, s: State, a: Run, b: Run)
    ensures Final(cfg, s, a + b) == Final(cfg, Final(cfg, s, a), b)
    decreases |b|
  {
    if b == [] {
      assert a + b == a;
    } else {
      var last := |b| - 1;
      assert (a + b)[..|a + b| - 1] == a + b[..last];
      FinalConcat(cfg, s, a, b[..last]);
    }
  }

  lemma {:induction false} FinalOne(cfg: Config, s: State, e: Event)
    ensures Final(cfg, s, [e]) == Step(cfg, s, e.call, e.now).0
  {
    assert [e][..0] == [];
  }

  // ---------------------------------------------------------------- invariant

  /** The number of invalid commands in one window at which the monitor stops. */
  function Limit(cfg: Config): int {
    Max(1, cfg.invalidCmdThreshold)
  }

  /** A control loss is a stop, and a running monitor has not yet counted up to its limit. */
  ghost predicate Inv(cfg: Config, s: State) {
    && (s.inControlLoss ==> s.stopped)
    && s.invalidCmdCount >= 0
    && (!s.stopped ==> s.invalidCmdCount < Limit(cfg))
  }

  lemma {:induction false} InvHolds(cfg: Config, s: State, run: Run)
    requires Inv(cfg, s)
    ensures Inv(cfg, Final(cfg, s, run))
    decreases |run|
  {
    if run != [] {
      InvHolds(cfg, s, run[..|run| - 1]);
    }
  }

  // ------------------------------------------------------------------ latching

  /** A stop that is not a control loss survives every run without Reset, silently. */
  lemma {:induction false} LatchHolds(cfg: Config, s: State, run: Run)
    requires s.stopped && !s.inControlLoss
    requires NoReset(run)
    ensures Final(cfg, s, run).stopped && !Final(cfg, s, run).inControlLoss
    ensures Fired(cfg, s, run) == []
    decreases |run|
  {
    if run != [] {
      LatchHolds(cfg, s, run[..|run| - 1]);
    }
  }

  /**
   An e-stop, a revocation or a token expiry stops the monitor from any state, a control loss
   included, and nothing but a Reset ends that stop.
   */
  lemma {:induction false} LatchingCallsStopForGood(cfg: Config, s: State, e: Event, run: Run)
    requires e.call in {OnEStop, OnRevoked, OnTokenExpired}
    requires NoReset(run)
    ensures Final(cfg, s, [e] + run).stopped
    ensures Fired(cfg, Final(cfg, s, [e]), run) == []
  {
    FinalConcat(cfg, s, [e], run);
    FinalOne(cfg, s, e);
    LatchHolds(cfg, Final(cfg, s, [e]), run);
  }

  /** A stop ends at call `i` of a run only by Reset, or by valid control during a control loss. */
  lemma {:induction false} StopEndsOnlyByRecoveryOrReset(cfg: Config, s: State, run: Run, i: nat)
    requires i < |run|
    requires Final(cfg, s, run[..i]).stopped && !Final(cfg, s, run[..i + 1]).stopped
    ensures run[i].call == Reset
            || (run[i].call == OnValidControl && Final(cfg, s, run[..i]).inControlLoss)
  {
    assert run[..i + 1][..i] == run[..i];
  }

  /** The number of calls in `run` that turn a stopped monitor back into a running one. */
  function Releases(cfg: Config, s: State, run: Run): nat {
    if run == [] then 0
    else
      var last := |run| - 1;
      var before := Final(cfg, s, run[..last]);
      Releases(cfg, s, run[..last]) +
      if (run[last].call == Reset && before.stopped) || (run[last].call == OnValidControl && before.inControlLoss) then 1 else 0
  }

  function Bit(b: bool): int {
    if b then 1 else 0
  }

  /**
   The callback is called exactly when a running monitor becomes stopped: over any run, the number
   of calls to it is the number of stops that were ended plus the change in the stopped flag.
   */
  lemma {:induction false} CallbacksAreConserved(cfg: Config, s: State, run: Run)
    requires Inv(cfg, s)
    ensures |Fired(cfg, s, run)| + Bit(s.stopped) == Releases(cfg, s, run) + Bit(Final(cfg, s, run).stopped)
    decreases |run|
  {
    if run != [] {
      var prefix := run[..|run| - 1];
      CallbacksAreConserved(cfg, s, prefix);
      InvHolds(cfg, s, prefix);
    }
  }

  // --------------------------------------------------------- invalid commands

  /** Every invalid command of the run is made within one window of length `window`. */
  ghost predicate InvalidWithin(run: Run, start: int, window: int) {
    forall i :: 0 <= i < |run| && run[i].call == OnInvalidCommand ==> start <= run[i].now <= start + window
  }

  /** How many invalid commands, close together, always stop the monitor. */
  function BurstBound(cfg: Config): int {
    if cfg.invalidCmdTimeWindow <= 0 then Limit(cfg) else Max(Limit(cfg), 2 * Limit(cfg) - 2)
  }

  // The count and its window depend on the invalid commands and their instants alone.

  /** The count and the window after the invalid commands of a run, whatever else it holds. */
  function Tally(cfg: Config, s: State, run: Run): State {
    if run == [] then s
    else
      var last := |run| - 1;
      var before := Tally(cfg, s, run[..last]);
      if run[last].call == OnInvalidCommand then CountInvalid(cfg, before, run[last].now) else before
  }

  lemma {:induction false} TallyIsKept(cfg: Config, s: State, run: Run)
    requires Unrelieved(run)
    ensures Final(cfg, s, run).invalidCmdCount == Tally(cfg, s, run).invalidCmdCount
    ensures Final(cfg, s, run).firstInvalidCmdTime == Tally(cfg, s, run).firstInvalidCmdTime
    decreases |run|
  {
    if run != [] {
      UnrelievedPrefix(run, |run| - 1);
      TallyIsKept(cfg, s, run[..|run| - 1]);
    }
  }

  /** The command falls in the window that was open at the start, or windows are disabled. */
  predicate InOldWindow(cfg: Config, s: State, e: Event) {
    cfg.invalidCmdTimeWindow <= 0 || (s.invalidCmdCount > 0 && e.now - s.firstInvalidCmdTime <= cfg.invalidCmdTimeWindow)
  }

  /** How many invalid commands come before the first that falls outside the old window. */
  function OldCount(cfg: Config, s: State, run: Run): (k: nat)
    ensures k <= InvalidCount(run)
  {
    if run == [] then 0
    else
      var last := |run| - 1;
      var before := OldCount(cfg, s, run[..last]);
      if run[last].call == OnInvalidCommand && before == InvalidCount(run[..last]) && InOldWindow(cfg, s, run[last]) then before + 1 else before
  }

  /** Where the tally stands: the old count goes on, or a new window holds all the later commands. */
  ghost predicate TallyStands(cfg: Config, s: State, start: int, n: nat, k: nat, tally: State) {
    if k == n then
      && tally.invalidCmdCount == s.invalidCmdCount + n
      && (s.invalidCmdCount > 0 ==> tally.firstInvalidCmdTime == s.firstInvalidCmdTime)
      && (cfg.invalidCmdTimeWindow > 0 && s.invalidCmdCount == 0 ==> n == 0)
    else
      && cfg.invalidCmdTimeWindow > 0 && tally.invalidCmdCount == n - k
      && start <= tally.firstInvalidCmdTime <= start + cfg.invalidCmdTimeWindow
  }

  lemma {:induction false} TallyNext(cfg: Config, s: State, start: int, n: nat, k: nat, tally: State, e: Event)
    requires s.invalidCmdCount >= 0 && k <= n && TallyStands(cfg, s, start, n, k, tally)
    requires cfg.invalidCmdTimeWindow <= 0 || start <= e.now <= start + cfg.invalidCmdTimeWindow
    requires e.call == OnInvalidCommand
    ensures TallyStands(cfg, s, start, n + 1, if k == n && InOldWindow(cfg, s, e) then k + 1 else k, CountInvalid(cfg, tally, e.now))
  {
  }

  lemma {:induction false} TallyOfBurst(cfg: Config, s: State, run: Run, start: int)
    requires s.invalidCmdCount >= 0
    requires cfg.invalidCmdTimeWindow <= 0 || InvalidWithin(run, start, cfg.invalidCmdTimeWindow)
    ensures TallyStands(cfg, s, start, InvalidCount(run), OldCount(cfg, s, run), Tally(cfg, s, run))
    decreases |run|
  {
    if run != [] {
      var prefix := run[..|run| - 1];
      TallyOfBurst(cfg, s, prefix, start);
      if run[|run| - 1].call == OnInvalidCommand {
        TallyNext(cfg, s, start, InvalidCount(prefix), OldCount(cfg, s, prefix), Tally(cfg, s, prefix), run[|run| - 1]);
      }
    }
  }

  /** At some invalid command of the run the tally is at the threshold. */
  ghost predicate ReachesLimit(cfg: Config, s: State, run: Run) {
    exists j :: 0 <= j < |run| && ReachesAt(cfg, s, run, j)
  }

  ghost predicate ReachesAt(cfg: Config, s: State, run: Run, j: nat)
    requires j < |run|
  {
    run[j].call == OnInvalidCommand && Tally(cfg, s, run[..j + 1]).invalidCmdCount >= cfg.invalidCmdThreshold
  }

  lemma {:induction false} ReachesNext(cfg: Config, s: State, run: Run)
    requires run != []
    ensures ReachesLimit(cfg, s, run) <==> ReachesLimit(cfg, s, run[..|run| - 1]) || ReachesAt(cfg, s, run, |run| - 1)
  {
    var n := |run| - 1;
    forall j | 0 <= j < n ensures ReachesAt(cfg, s, run[..n], j) <==> ReachesAt(cfg, s, run, j) {
      assert run[..n][..j + 1] == run[..j + 1];
    }
  }

  /** In numbers: with the old count, or in the new window, enough commands have come together. */
  lemma {:induction false} BurstReachesIff(cfg: Config, s: State, run: Run, start: int)
    requires 0 <= s.invalidCmdCount < Limit(cfg)
    requires cfg.invalidCmdTimeWindow <= 0 || InvalidWithin(run, start, cfg.invalidCmdTimeWindow)
    ensures var n, k := InvalidCount(run), OldCount(cfg, s, run);
            ReachesLimit(cfg, s, run) <==> s.invalidCmdCount + k >= Limit(cfg) || n - k >= Limit(cfg)
    decreases |run|
  {
    if run != [] {
      var prefix := run[..|run| - 1];
      BurstReachesIff(cfg, s, prefix, start);
      ReachesNext(cfg, s, run);
      TallyOfBurst(cfg, s, run, start);
      assert run[..|run|] == run;
    }
  }

  // ------------------------------------------- what stops a running monitor, from the input alone

  predicate IsLatching(call: Call) {
    call == OnEStop || call == OnRevoked || call == OnTokenExpired
  }

  ghost predicate HasLatching(run: Run) {
    exists i :: 0 <= i < |run| && IsLatching(run[i].call)
  }

  lemma {:induction false} HasLatchingNext(run: Run, e: Event)
    ensures HasLatching(run + [e]) <==> HasLatching(run) || IsLatching(e.call)
  {
    var longer := run + [e];
    assert longer[|run|] == e;
    if i :| 0 <= i < |run| && IsLatching(run[i].call) {
      assert longer[i] == run[i];
    }
  }

  /** A check later than the timeout. */
  predicate IsLateCheck(cfg: Config, s: State, e: Event) {
    e.call == CheckControlLoss && e.now - s.lastControlTime > cfg.controlLossTimeout
  }

  ghost predicate HasLateCheck(cfg: Config, s: State, run: Run) {
    exists i :: 0 <= i < |run| && IsLateCheck(cfg, s, run[i])
  }

  lemma {:induction false} HasLateCheckNext(cfg: Config, s: State, run: Run, e: Event)
    ensures HasLateCheck(cfg, s, run + [e]) <==> HasLateCheck(cfg, s, run) || IsLateCheck(cfg, s, e)
  {
    var longer := run + [e];
    assert longer[|run|] == e;
    if i :| 0 <= i < |run| && IsLateCheck(cfg, s, run[i]) {
      assert longer[i] == run[i];
    }
  }

  /** The trigger that an event brings to a monitor that is still running, with this tally before it. */
  function TriggerOf(cfg: Config, s: State, tally: State, e: Event): Option<Trigger> {
    match e.call
    case OnEStop => Some(EStop)
    case OnTokenExpired => Some(TokenExpired)
    case OnRevoked => Some(Revoked)
    case OnInvalidCommand => if CountInvalid(cfg, tally, e.now).invalidCmdCount >= cfg.invalidCmdThreshold then Some(InvalidCmds) else None
    case CheckControlLoss => if IsLateCheck(cfg, s, e) then Some(ControlLoss) else None
    case OnValidControl => None
    case Reset => None
  }

  /** The first trigger of a run: a function of its calls and instants. */
  function FirstTrigger(cfg: Config, s: State, run: Run): Option<Trigger> {
    if run == [] then None
    else
      var last := |run| - 1;
      var first := FirstTrigger(cfg, s, run[..last]);
      if first.Some? then first else TriggerOf(cfg, s, Tally(cfg, s, run[..last]), run[last])
  }

  lemma {:induction false} TriggerFires(cfg: Config, s: State, now: State, tally: State, e: Event)
    requires !now.stopped && now.lastControlTime == s.lastControlTime
    requires now.invalidCmdCount == tally.invalidCmdCount && now.firstInvalidCmdTime == tally.firstInvalidCmdTime
    requires e.call != OnValidControl && e.call != Reset
    ensures Step(cfg, now, e.call, e.now).1 == TriggerOf(cfg, s, tally, e)
    ensures Step(cfg, now, e.call, e.now).0.stopped <==> TriggerOf(cfg, s, tally, e).Some?
  {
  }

  lemma {:induction false} StoppedIsSilent(cfg: Config, now: State, e: Event)
    requires now.stopped && e.call != OnValidControl && e.call != Reset
    ensures Step(cfg, now, e.call, e.now).1 == None && Step(cfg, now, e.call, e.now).0.stopped
  {
  }

  function Triggers(first: Option<Trigger>): seq<Trigger> {
    match first { case None => [] case Some(t) => [t] }
  }

  /** A running monitor without relief fires its first trigger, and no other; it ends stopped exactly if there is one. */
  lemma {:induction false} FirstTriggerFires(cfg: Config, s: State, run: Run)
    requires !s.stopped && Unrelieved(run)
    ensures Fired(cfg, s, run) == Triggers(FirstTrigger(cfg, s, run))
    ensures Final(cfg, s, run).stopped <==> FirstTrigger(cfg, s, run).Some?
    decreases |run|
  {
    if run != [] {
      var n := |run| - 1;
      var now := Final(cfg, s, run[..n]);
      UnrelievedPrefix(run, n);
      FirstTriggerFires(cfg, s, run[..n]);
      UnrelievedKeeps(cfg, s, run[..n]);
      TallyIsKept(cfg, s, run[..n]);
      if now.stopped {
        StoppedIsSilent(cfg, now, run[n]);
      } else {
        TriggerFires(cfg, s, now, Tally(cfg, s, run[..n]), run[n]);
      }
    }
  }

  lemma {:induction false} TriggerOfIff(cfg: Config, s: State, run: Run)
    requires run != [] && Unrelieved(run)
    ensures var n := |run| - 1;
            var trigger := TriggerOf(cfg, s, Tally(cfg, s, run[..n]), run[n]);
            && (trigger == Some(ControlLoss) <==> IsLateCheck(cfg, s, run[n]))
            && (trigger.Some? <==> IsLatching(run[n].call) || IsLateCheck(cfg, s, run[n]) || ReachesAt(cfg, s, run, n))
  {
    assert run[..|run|] == run;
  }

  /** No trigger: no latching call, no late check, and the tally stays below the threshold. */
  lemma {:induction false} NoTriggerIff(cfg: Config, s: State, run: Run)
    requires Unrelieved(run)
    ensures FirstTrigger(cfg, s, run) == None <==> !HasLatching(run) && !HasLateCheck(cfg, s, run) && !ReachesLimit(cfg, s, run)
    decreases |run|
  {
    if run != [] {
      var n := |run| - 1;
      assert run == run[..n] + [run[n]];
      UnrelievedPrefix(run, n);
      NoTriggerIff(cfg, s, run[..n]);
      TriggerOfIff(cfg, s, run);
      HasLatchingNext(run[..n], run[n]);
      HasLateCheckNext(cfg, s, run[..n], run[n]);
      ReachesNext(cfg, s, run);
    }
  }

  /**
   What a burst does, exactly: within one window, without relief, `n` invalid commands of which `k` come
   before the window that was open has run out stop a running monitor that has counted `c` if and only
   if c + k or n - k reaches the limit, or a latching call or a late check comes too.
   */
  lemma {:induction false} BurstStopsIff(cfg: Config, s: State, run: Run, start: int)
    requires Inv(cfg, s) && !s.stopped && Unrelieved(run)
    requires cfg.invalidCmdTimeWindow <= 0 || InvalidWithin(run, start, cfg.invalidCmdTimeWindow)
    ensures var c, n, k := s.invalidCmdCount, InvalidCount(run), OldCount(cfg, s, run);
            Final(cfg, s, run).stopped <==>
            c + k >= Limit(cfg) || n - k >= Limit(cfg) || HasLatching(run) || HasLateCheck(cfg, s, run)
  {
    FirstTriggerFires(cfg, s, run);
    NoTriggerIff(cfg, s, run);
    BurstReachesIff(cfg, s, run, start);
  }

  /** No command falls in the old window if there is none, and every one does if windows are disabled. */
  lemma {:induction false} OldCountAtEnds(cfg: Config, s: State, run: Run)
    ensures cfg.invalidCmdTimeWindow <= 0 ==> OldCount(cfg, s, run) == InvalidCount(run)
    ensures cfg.invalidCmdTimeWindow > 0 && s.invalidCmdCount == 0 ==> OldCount(cfg, s, run) == 0
    decreases |run|
  {
    if run != [] {
      OldCountAtEnds(cfg, s, run[..|run| - 1]);
    }
  }

  /** With nothing counted before it, a burst stops the monitor exactly if it is as long as the limit. */
  lemma {:induction false} FreshBurstStopsIff(cfg: Config, s: State, run: Run, start: int)
    requires Inv(cfg, s) && !s.stopped && s.invalidCmdCount == 0 && Unrelieved(run)
    requires cfg.invalidCmdTimeWindow <= 0 || InvalidWithin(run, start, cfg.invalidCmdTimeWindow)
    requires !HasLatching(run) && !HasLateCheck(cfg, s, run)
    ensures Final(cfg, s, run).stopped <==> InvalidCount(run) >= Limit(cfg)
  {
    BurstStopsIff(cfg, s, run, start);
    OldCountAtEnds(cfg, s, run);
  }

  /**
   So any burst of `BurstBound` invalid commands within one window, with no valid control and no
   Reset among them, leaves the monitor stopped, whatever was counted before it.
   */
  lemma {:induction false} BurstStops(cfg: Config, s: State, run: Run, start: int)
    requires Inv(cfg, s)
    requires Unrelieved(run)
    requires cfg.invalidCmdTimeWindow <= 0 || InvalidWithin(run, start, cfg.invalidCmdTimeWindow)
    requires InvalidCount(run) >= BurstBound(cfg)
    ensures Final(cfg, s, run).stopped
  {
    if s.stopped {
      UnrelievedKeeps(cfg, s, run);
    } else {
      BurstStopsIff(cfg, s, run, start);
      OldCountAtEnds(cfg, s, run);
    }
  }

  function Repeat(e: Event, n: nat): Run
  {
    seq(n, _ => e)
  }

  lemma {:induction false} RepeatCounts(at: int, n: nat)
    ensures InvalidCount(Repeat(Event(OnInvalidCommand, at), n)) == n
  {
    if n > 0 {
      assert Repeat(Event(OnInvalidCommand, at), n)[..n - 1] == Repeat(Event(OnInvalidCommand, at), n - 1);
      RepeatCounts(at, n - 1);
    }
  }

  /** Invalid commands at one instant, then at another that is out of the old window. */
  lemma {:induction false} TwoPartBurst(cfg: Config, s: State, first: int, m: nat, second: int, n: nat)
    requires s.invalidCmdCount > 0 && cfg.invalidCmdTimeWindow > 0
    requires first - s.firstInvalidCmdTime <= cfg.invalidCmdTimeWindow < second - s.firstInvalidCmdTime
    ensures var burst := Repeat(Event(OnInvalidCommand, first), m) + Repeat(Event(OnInvalidCommand, second), n);
            InvalidCount(burst) == m + n && OldCount(cfg, s, burst) == m
    decreases m + n
  {
    var early, late := Repeat(Event(OnInvalidCommand, first), m), Repeat(Event(OnInvalidCommand, second), n);
    var burst := early + late;
    if n > 0 {
      assert burst[..m + n - 1] == early + Repeat(Event(OnInvalidCommand, second), n - 1);
      TwoPartBurst(cfg, s, first, m, second, n - 1);
    } else if m > 0 {
      assert burst == early && burst[..m - 1] == Repeat(Event(OnInvalidCommand, first), m - 1) + late;
      TwoPartBurst(cfg, s, first, m - 1, second, 0);
    }
  }

  /**
   The bound cannot be lowered: for every threshold from 2 on and every enabled window there is a
   reachable state from which one command fewer, all within one window, leaves the monitor running.
   */
  lemma {:induction false} BurstBoundIsTight(cfg: Config) returns (before: Run, burst: Run)
    requires cfg.invalidCmdThreshold >= 2 && cfg.invalidCmdTimeWindow > 0
    ensures InvalidCount(burst) == 2 * cfg.invalidCmdThreshold - 3
    ensures Unrelieved(burst) && InvalidWithin(burst, 1, cfg.invalidCmdTimeWindow)
    ensures !Final(cfg, Final(cfg, Init(0), before), burst).stopped
  {
    var t, w := cfg.invalidCmdThreshold, cfg.invalidCmdTimeWindow;
    before := [Event(OnInvalidCommand, 0)];
    FinalOne(cfg, Init(0), before[0]);
    var s := Final(cfg, Init(0), before);
    burst := Repeat(Event(OnInvalidCommand, 1), t - 2) + Repeat(Event(OnInvalidCommand, w + 1), t - 1);
    TwoPartBurst(cfg, s, 1, t - 2, w + 1, t - 1);
    BurstStopsIff(cfg, s, burst, 1);
  }

  // ------------------------------------------------- what a stop is worth afterwards

  /** By the input: a control loss holds at the start, or a late check comes before any latching call and before the tally reaches the threshold. */
  ghost predicate LossFirst(cfg: Config, s: State, run: Run) {
    s.inControlLoss || (!s.stopped && exists i :: 0 <= i < |run| && LossAt(cfg, s, run, i))
  }

  ghost predicate LossAt(cfg: Config, s: State, run: Run, i: nat)
    requires i < |run|
  {
    IsLateCheck(cfg, s, run[i]) && !HasLatching(run[..i]) && !ReachesLimit(cfg, s, run[..i])
  }

  lemma {:induction false} LossAtIff(cfg: Config, s: State, run: Run)
    requires Unrelieved(run)
    ensures FirstTrigger(cfg, s, run) == Some(ControlLoss) <==> exists i :: 0 <= i < |run| && LossAt(cfg, s, run, i)
    decreases |run|
  {
    if run != [] {
      var n := |run| - 1;
      UnrelievedPrefix(run, n);
      LossAtIff(cfg, s, run[..n]);
      NoTriggerIff(cfg, s, run[..n]);
      TriggerOfIff(cfg, s, run);
      LossAtNext(cfg, s, run);
      if FirstTrigger(cfg, s, run[..n]) != None && IsLateCheck(cfg, s, run[n]) && LossAt(cfg, s, run, n) {
        LateCheckIsLoss(cfg, s, run[..n]);
      }
    }
  }

  lemma {:induction false} LossAtNext(cfg: Config, s: State, run: Run)
    requires run != []
    ensures var n := |run| - 1;
            (exists i :: 0 <= i < |run| && LossAt(cfg, s, run, i)) <==>
            (exists i :: 0 <= i < n && LossAt(cfg, s, run[..n], i)) || LossAt(cfg, s, run, n)
  {
    var n := |run| - 1;
    forall i | 0 <= i < n ensures LossAt(cfg, s, run[..n], i) <==> LossAt(cfg, s, run, i) {
      assert run[..n][..i] == run[..i];
    }
  }

  /** If neither a latching call nor the threshold came, the first trigger can only be a control loss. */
  lemma {:induction false} LateCheckIsLoss(cfg: Config, s: State, run: Run)
    requires Unrelieved(run) && !HasLatching(run) && !ReachesLimit(cfg, s, run)
    ensures FirstTrigger(cfg, s, run) in {None, Some(ControlLoss)}
    decreases |run|
  {
    if run != [] {
      var n := |run| - 1;
      assert run == run[..n] + [run[n]];
      UnrelievedPrefix(run, n);
      HasLatchingNext(run[..n], run[n]);
      ReachesNext(cfg, s, run);
      LateCheckIsLoss(cfg, s, run[..n]);
      TriggerOfIff(cfg, s, run);
    }
  }

  /** That is what the callback then hears. */
  lemma {:induction false} LossFirstFires(cfg: Config, s: State, run: Run)
    requires Unrelieved(run)
    ensures LossFirst(cfg, s, run) <==> s.inControlLoss || (!s.stopped && Fired(cfg, s, run) == [ControlLoss])
  {
    if !s.stopped {
      FirstTriggerFires(cfg, s, run);
      LossAtIff(cfg, s, run);
      assert FirstTrigger(cfg, s, run) == Some(ControlLoss) <==> Triggers(FirstTrigger(cfg, s, run)) == [ControlLoss];
    }
  }

  /** Where an unrelieved run from `s` stands that has fired these triggers and had a latching call or not. */
  ghost predicate LossView(s: State, fired: seq<Trigger>, latched: bool, now: State) {
    && (now.inControlLoss <==> (s.inControlLoss || fired == [ControlLoss]) && !latched)
    && |fired| == (if now.stopped && !s.stopped then 1 else 0)
    && (s.stopped || latched ==> now.stopped)
  }

  lemma {:induction false} LossViewNext(cfg: Config, s: State, fired: seq<Trigger>, latched: bool, now: State, e: Event)
    requires Inv(cfg, s) && Inv(cfg, now) && LossView(s, fired, latched, now)
    requires e.call != OnValidControl && e.call != Reset
    ensures var (next, trigger) := Step(cfg, now, e.call, e.now);
            LossView(s, fired + (match trigger case None => [] case Some(t) => [t]), latched || IsLatching(e.call), next)
  {
    var (next, trigger) := Step(cfg, now, e.call, e.now);
    assert trigger.Some? ==> fired == [] && fired + [trigger.value] == [trigger.value];
    assert trigger == None ==> fired + [] == fired;
  }

  /**
   Without relief the monitor stops at most once, and it ends in a control loss exactly if a control
   loss stopped it first and no e-stop, revocation or token expiry followed. Invalid commands, however
   many, do not turn a control loss into a stop that lasts.
   */
  lemma {:induction false} ControlLossStaysIff(cfg: Config, s: State, run: Run)
    requires Inv(cfg, s) && Unrelieved(run)
    ensures Final(cfg, s, run).inControlLoss <==> LossFirst(cfg, s, run) && !HasLatching(run)
    ensures |Fired(cfg, s, run)| == if Final(cfg, s, run).stopped && !s.stopped then 1 else 0
  {
    LossViewHolds(cfg, s, run);
    LossFirstFires(cfg, s, run);
  }

  lemma {:induction false} LossViewHolds(cfg: Config, s: State, run: Run)
    requires Inv(cfg, s) && Unrelieved(run)
    ensures LossView(s, Fired(cfg, s, run), HasLatching(run), Final(cfg, s, run))
    decreases |run|
  {
    if run != [] {
      var last := |run| - 1;
      var prefix := run[..last];
      assert run == prefix + [run[last]];
      LossViewHolds(cfg, s, prefix);
      InvHolds(cfg, s, prefix);
      LossViewNext(cfg, s, Fired(cfg, s, prefix), HasLatching(prefix), Final(cfg, s, prefix), run[last]);
      HasLatchingNext(prefix, run[last]);
    }
  }

  /** In a stopped monitor: the stop lasts exactly if it did from the start or a latching call came. */
  lemma {:induction false} StopLastsIff(cfg: Config, s: State, run: Run)
    requires Inv(cfg, s) && s.stopped && Unrelieved(run)
    ensures !Final(cfg, s, run).inControlLoss <==> !s.inControlLoss || HasLatching(run)
  {
    ControlLossStaysIff(cfg, s, run);
  }

  /**
   A burst that is long enough leaves the monitor stopped; the stop outlasts valid control if and only
   if no control loss came first, or a latching call came too.
   */
  lemma {:induction false} BurstLatchesIff(cfg: Config, s: State, run: Run, start: int, now: int)
    requires Inv(cfg, s) && Unrelieved(run)
    requires cfg.invalidCmdTimeWindow <= 0 || InvalidWithin(run, start, cfg.invalidCmdTimeWindow)
    requires InvalidCount(run) >= BurstBound(cfg)
    ensures Final(cfg, s, run).stopped
    ensures Final(cfg, s, run + [Event(OnValidControl, now)]).stopped <==> !LossFirst(cfg, s, run) || HasLatching(run)
  {
    BurstStops(cfg, s, run, start);
    ControlLossStaysIff(cfg, s, run);
    FinalConcat(cfg, s, run, [Event(OnValidControl, now)]);
    FinalOne(cfg, Final(cfg, s, run), Event(OnValidControl, now));
  }

  /** During a control loss, any number of invalid commands is forgiven by one valid control. */
  lemma {:induction false} BurstIsForgiven(cfg: Config, s: State, n: nat, at: int, now: int)
    requires Inv(cfg, s) && s.inControlLoss
    ensures var burst := Repeat(Event(OnInvalidCommand, at), n);
            && Final(cfg, s, burst).stopped && InvalidCount(burst) == n
            && !Final(cfg, s, burst + [Event(OnValidControl, now)]).stopped
            && Final(cfg, s, burst + [Event(OnValidControl, now)]).invalidCmdCount == 0
  {
    var burst := Repeat(Event(OnInvalidCommand, at), n);
    RepeatCounts(at, n);
    StopLastsIff(cfg, s, burst);
    UnrelievedKeeps(cfg, s, burst);
    FinalConcat(cfg, s, burst, [Event(OnValidControl, now)]);
    FinalOne(cfg, Final(cfg, s, burst), Event(OnValidControl, now));
  }

  /** The control loss that a burst finds can be one that the monitor reached by itself. */
  lemma {:induction false} ControlLossIsReachable(cfg: Config, created: int) returns (e: Event)
    ensures var s := Final(cfg, Init(created), [e]);
            Inv(cfg, s) && s.inControlLoss
  {
    e := Event(CheckControlLoss, created + Max(0, cfg.controlLossTimeout) + 1);
    FinalOne(cfg, Init(created), e);
  }

  /**
   `m` is where the window that the state counts began: since then there were exactly as many
   invalid commands as counted, uninterrupted, each within the window.
   */
  ghost predicate WindowBeganAt(cfg: Config, run: Run, m: nat, s: State) {
    && m < |run|
    && run[m] == Event(OnInvalidCommand, s.firstInvalidCmdTime)
    && Unrelieved(run[m..])
    && InvalidCount(run[m..]) == s.invalidCmdCount
    && (cfg.invalidCmdTimeWindow > 0 ==>
          forall i :: m <= i < |run| && run[i].call == OnInvalidCommand ==>
                        run[i].now - s.firstInvalidCmdTime <= cfg.invalidCmdTimeWindow)
  }

  lemma {:induction false} CountHasWindow(cfg: Config, created: int, run: Run) returns (m: nat)
    ensures Final(cfg, Init(created), run).invalidCmdCount >= 0
    ensures Final(cfg, Init(created), run).invalidCmdCount > 0 ==>
              WindowBeganAt(cfg, run, m, Final(cfg, Init(created), run))
    decreases |run|
  {
    m := 0;
    if run != [] {
      var last := |run| - 1;
      var past := run[..last];
      assert run == past + [run[last]];
      var before := Final(cfg, Init(created), past);
      m := CountHasWindow(cfg, created, past);
      if run[last].call == OnInvalidCommand && (WindowExpired(cfg, before, run[last].now) || before.invalidCmdCount == 0) {
        m := last;
        WindowBegins(cfg, past, run[last], before);
      } else if before.invalidCmdCount > 0 {
        WindowGoesOn(cfg, past, run[last], m, before);
      }
    }
  }

  lemma {:induction false} WindowBegins(cfg: Config, past: Run, e: Event, before: State)
    requires e.call == OnInvalidCommand && (WindowExpired(cfg, before, e.now) || before.invalidCmdCount == 0)
    ensures WindowBeganAt(cfg, past + [e], |past|, Step(cfg, before, e.call, e.now).0)
  {
    var run := past + [e];
    assert run[|past|..] == [e];
    assert [e][..0] == [];
    assert InvalidCount([e]) == 1;
  }

  lemma {:induction false} WindowGoesOn(cfg: Config, past: Run, e: Event, m: nat, before: State)
    requires WindowBeganAt(cfg, past, m, before) && before.invalidCmdCount > 0
    requires e.call == OnInvalidCommand ==> !WindowExpired(cfg, before, e.now)
    ensures var s := Step(cfg, before, e.call, e.now).0;
            s.invalidCmdCount > 0 ==> WindowBeganAt(cfg, past + [e], m, s)
  {
    var run := past + [e];
    assert run[m..] == past[m..] + [e];
    assert run[m..][..|past| - m] == past[m..];
  }

  /**
   A monitor that an invalid command stops has seen, since some invalid command `m`, exactly
   `Limit` of them, with no valid control and no Reset between, all within one window.
   */
  lemma {:induction false} InvalidStopIsJustified(cfg: Config, created: int, run: Run) returns (m: nat)
    requires run != []
    requires FiredAt(cfg, Init(created), run, |run| - 1) == Some(InvalidCmds)
    ensures m < |run| && run[m].call == OnInvalidCommand && run[|run| - 1].call == OnInvalidCommand
    ensures Unrelieved(run[m..]) && InvalidCount(run[m..]) == Limit(cfg)
    ensures cfg.invalidCmdTimeWindow > 0 ==> run[|run| - 1].now - run[m].now <= cfg.invalidCmdTimeWindow
  {
    InvHolds(cfg, Init(created), run[..|run| - 1]);
    m := CountHasWindow(cfg, created, run);
  }

  // -------------------------------------------------------------- control loss

  /** One call in order of time: the control time does not go back, and valid control and Reset set it. */
  lemma {:induction false} LastControlTimeNext(cfg: Config, created: int, run: Run)
    requires run != [] && Nondecreasing(created, run)
    ensures var last := |run| - 1;
            var before, after := Final(cfg, Init(created), run[..last]), Final(cfg, Init(created), run);
            && Nondecreasing(created, run[..last])
            && (run[last].call in {OnValidControl, Reset} ==> after.lastControlTime == run[last].now)
            && (run[last].call !in {OnValidControl, Reset} ==> after.lastControlTime == before.lastControlTime)
            && (last > 0 ==> run[..last][last - 1].now <= run[last].now)
  {
  }

  lemma {:induction false} LastControlTimeIsPast(cfg: Config, created: int, run: Run)
    requires Nondecreasing(created, run)
    ensures created <= Final(cfg, Init(created), run).lastControlTime
    ensures Final(cfg, Init(created), run).lastControlTime <= if run == [] then created else run[|run| - 1].now
    decreases |run|
  {
    if run != [] {
      LastControlTimeNext(cfg, created, run);
      LastControlTimeIsPast(cfg, created, run[..|run| - 1]);
    }
  }

  /** The last control time is at least every instant of valid control or Reset so far. */
  lemma {:induction false} LastControlTimeCovers(cfg: Config, created: int, run: Run, i: nat)
    requires Nondecreasing(created, run)
    requires i < |run| && run[i].call in {OnValidControl, Reset}
    ensures run[i].now <= Final(cfg, Init(created), run).lastControlTime
    decreases |run|
  {
    var last := |run| - 1;
    LastControlTimeNext(cfg, created, run);
    if i < last {
      assert run[..last][i] == run[i];
      LastControlTimeCovers(cfg, created, run[..last], i);
      LastControlTimeIsPast(cfg, created, run[..last]);
    }
  }

  /** A control-loss stop at `now` means that no valid control and no Reset fell in the timeout before it. */
  lemma {:induction false} ControlLossIsSound(cfg: Config, created: int, run: Run)
    requires run != [] && Nondecreasing(created, run)
    requires FiredAt(cfg, Init(created), run, |run| - 1) == Some(ControlLoss)
    ensures run[|run| - 1].now - created > cfg.controlLossTimeout
    ensures forall i :: 0 <= i < |run| && run[i].call in {OnValidControl, Reset} ==>
                          run[|run| - 1].now - run[i].now > cfg.controlLossTimeout
  {
    var last := |run| - 1;
    LastControlTimeIsPast(cfg, created, run[..last]);
    forall i | 0 <= i < |run| && run[i].call in {OnValidControl, Reset}
      ensures run[last].now - run[i].now > cfg.controlLossTimeout
    {
      LastControlTimeCovers(cfg, created, run[..last], i);
    }
  }

  /** Some check falls in every span of length `period` that lies between `from` and `to`. */
  ghost predicate ChecksEvery(run: Run, period: int, from: int, to: int) {
    forall a {:trigger InSpan(run, a, period)} :: from <= a && a + period <= to ==> InSpan(run, a, period)
  }

  ghost predicate InSpan(run: Run, a: int, period: int) {
    exists i :: 0 <= i < |run| && run[i].call == CheckControlLoss && a < run[i].now <= a + period
  }

  /** Without relief, a stop persists and the control time does not move. */
  lemma {:induction false} UnrelievedKeeps(cfg: Config, s: State, run: Run)
    requires Unrelieved(run)
    ensures Final(cfg, s, run).lastControlTime == s.lastControlTime
    ensures s.stopped ==> Final(cfg, s, run).stopped
    decreases |run|
  {
    if run != [] {
      UnrelievedPrefix(run, |run| - 1);
      UnrelievedKeeps(cfg, s, run[..|run| - 1]);
    }
  }

  /**
   When checks are at most `period` apart and there is no control after `s.lastControlTime`, the
   monitor is stopped at the latest `period` after the timeout has run out.
   */
  lemma {:induction false} ControlLossIsTimely(cfg: Config, s: State, run: Run, period: int)
    requires Unrelieved(run) && cfg.controlLossTimeout >= 0
    requires ChecksEvery(run, period, s.lastControlTime, s.lastControlTime + cfg.controlLossTimeout + period)
    ensures exists i :: 0 <= i < |run| && run[i].now <= s.lastControlTime + cfg.controlLossTimeout + period
                        && Final(cfg, s, run[..i + 1]).stopped
    ensures Final(cfg, s, run).stopped
  {
    var deadline := s.lastControlTime + cfg.controlLossTimeout;
    assert InSpan(run, deadline, period);
    var i :| 0 <= i < |run| && run[i].call == CheckControlLoss && deadline < run[i].now <= deadline + period;
    LateCheckStops(cfg, s, run, i);
    StopPersists(cfg, s, run, i + 1);
  }

  lemma {:induction false} LateCheckStops(cfg: Config, s: State, run: Run, i: nat)
    requires Unrelieved(run) && i < |run| && IsLateCheck(cfg, s, run[i])
    ensures Final(cfg, s, run[..i + 1]).stopped
  {
    UnrelievedPrefix(run, i);
    UnrelievedKeeps(cfg, s, run[..i]);
    assert run[..i + 1][..i] == run[..i];
  }

  lemma {:induction false} StopPersists(cfg: Config, s: State, run: Run, n: nat)
    requires Unrelieved(run) && n <= |run| && Final(cfg, s, run[..n]).stopped
    ensures Final(cfg, s, run).stopped
  {
    assert run == run[..n] + run[n..];
    FinalConcat(cfg, s, run[..n], run[n..]);
    UnrelievedSuffix(run, n);
    UnrelievedKeeps(cfg, Final(cfg, s, run[..n]), run[n..]);
  }
}
