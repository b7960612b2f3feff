/**
 Control messages and their validation on the robot (robot-agent/internal/control/validator.go and
 the message types that robot-agent/internal/control/handler.go dispatches on).
 */
module Control {
  import opened Wrappers

  const MILLISECOND := 1_000_000

  const SCOPE_CONTROL := "teleop:control"

  datatype Message =
    | DriveMessage(v: real, w: real, t: int)
    | KVMKeyMessage(key: string, action: string, modifiers: seq<string>, t: int)
    | KVMMouseMessage(dx: int, dy: int, buttons: int, scroll: int, t: int)
    | EStopMessage(t: int)

  /** What decoding a data-channel message yields; `BadBody` is a known type whose fields do not decode. */
  datatype Data = NotJSON | Pong | Ping | UnknownType | BadBody | Body(msg: Message)

  datatype RobotCall =
    | Drive(v: real, w: real)
    | SendKey(key: string, action: string, modifiers: seq<string>)
    | SendMouse(dx: int, dy: int, buttons: int, scroll: int)
    | EStop

  datatype ValidationError = OutOfRange(field: string) | StaleCommand | InvalidTimestamp | MissingField(field: string) | InvalidValue(field: string)

  datatype HandlerError =
    | ErrInvalidJSON | ErrSessionRevoked | ErrUnknownType | ErrScopeNotAllowed | ErrRobot | ErrInvalid(e: ValidationError)

  /** A message that moves the robot or acts on its desktop. */
  predicate IsMotion(m: Message) {
    !m.EStopMessage?
  }

  function CallOf(m: Message): RobotCall {
    match m
    case DriveMessage(v, w, _) => Drive(v, w)
    case KVMKeyMessage(key, action, modifiers, _) => SendKey(key, action, modifiers)
    case KVMMouseMessage(dx, dy, buttons, scroll, _) => SendMouse(dx, dy, buttons, scroll)
    case EStopMessage(_) => EStop
  }

  function CheckStale(t: int, staleThreshold: int, now: int): Option<ValidationError> {
    if t == 0 then Some(InvalidTimestamp)
    else if now - t * MILLISECOND > staleThreshold then Some(StaleCommand)
    else None
  }

  function Validate(m: Message, staleThreshold: int, now: int): Option<ValidationError> {
    if m.EStopMessage? then None
    else
      var stale := CheckStale(m.t, staleThreshold, now);
      if stale.Some? then stale
      else
        match m
        case DriveMessage(v, w, _) =>
          if v < -1.0 || v > 1.0 then Some(OutOfRange("v"))
          else if w < -1.0 || w > 1.0 then Some(OutOfRange("w"))
          else None
        case KVMKeyMessage(key, action, _, _) =>
          if key == "" then Some(MissingField("key"))
          else if action != "down" && action != "up" then Some(InvalidValue("action"))
          else None
        case _ => None
  }
}

/**
 The robot agent as one machine: the data-channel handler (robot-agent/internal/control/handler.go),
 the signaling and connection callbacks (robot-agent/cmd/agent/handlers.go) and the safety tick
 (robot-agent/cmd/agent/main.go), over the session manager and the safety monitor. Each callback is
 one atomic step; its instant is a parameter and instants never go back.
 */
module Agent {
  import opened Wrappers
  import opened Control
  import S = Session
  import SM = SafetyMonitor
  import SR = SafetyRuns

  /** A call on the robot, with the session at that moment and the time stamp of the message behind it. */
  datatype Logged = Logged(call: RobotCall, at: int, stamp: int, state: S.State, info: Option<S.Info>)

  /** A successful validation: which token was validated, for which session, when, and what came of it. */
  datatype Grant = Grant(sessionID: string, token: string, at: int, info: S.Info)

  function Motions(log: seq<Logged>): seq<Logged> {
    if log == [] then []
    else
      var last := |log| - 1;
      Motions(log[..last]) + if log[last].call == EStop then [] else [log[last]]
  }

  lemma {:induction false} MotionsSnoc(log: seq<Logged>, entry: Logged)
    ensures Motions(log + [entry]) == Motions(log) + if entry.call == EStop then [] else [entry]
  {
    assert (log + [entry])[..|log|] == log;
  }

  predicate WellFormedCall(call: RobotCall) {
    match call
    case Drive(v, w) => -1.0 <= v <= 1.0 && -1.0 <= w <= 1.0
    case SendKey(key, action, _) => key != "" && action in {"down", "up"}
    case _ => true
  }

  /** Validation accepts exactly what is in range, dated and not stale; an emergency stop always. */
  lemma {:induction false} ValidExactly(m: Message, staleThreshold: int, now: int)
    ensures Validate(m, staleThreshold, now) == None <==>
            !IsMotion(m) || (m.t != 0 && now - m.t * MILLISECOND <= staleThreshold && WellFormedCall(CallOf(m)))
  {
  }

  /** The message is dated, and not older than the threshold; its date is in milliseconds. */
  ghost predicate Fresh(t: int, staleThreshold: int, now: int) {
    t != 0 && now - t * 1_000_000 <= staleThreshold
  }

  /**
   What the robot is told to do when a message arrives, written out for every kind of message: the motion
   that it names, with the values and the time stamp that it names, or nothing.
   */
  ghost function Ordered(state: S.State, info: Option<S.Info>, data: Data, now: int, staleThreshold: int): seq<Logged> {
    if state != S.Active || info == None || "teleop:control" !in info.value.scope then []
    else
      match data
      case Body(DriveMessage(v, w, t)) =>
        if Fresh(t, staleThreshold, now) && -1.0 <= v <= 1.0 && -1.0 <= w <= 1.0
        then [Logged(Drive(v, w), now, t, state, info)] else []
      case Body(KVMKeyMessage(key, action, modifiers, t)) =>
        if Fresh(t, staleThreshold, now) && key != "" && (action == "down" || action == "up")
        then [Logged(SendKey(key, action, modifiers), now, t, state, info)] else []
      case Body(KVMMouseMessage(dx, dy, buttons, scroll, t)) =>
        if Fresh(t, staleThreshold, now)
        then [Logged(SendMouse(dx, dy, buttons, scroll), now, t, state, info)] else []
      case _ => []
  }

  /** Why a message is refused: of several reasons, the first in this order. */
  lemma {:induction false} InvalidBecause(m: Message, staleThreshold: int, now: int)
    ensures m.EStopMessage? ==> Validate(m, staleThreshold, now) == None
    ensures IsMotion(m) && m.t == 0 ==> Validate(m, staleThreshold, now) == Some(InvalidTimestamp)
    ensures IsMotion(m) && m.t != 0 && !Fresh(m.t, staleThreshold, now) ==> Validate(m, staleThreshold, now) == Some(StaleCommand)
    ensures m.DriveMessage? && Fresh(m.t, staleThreshold, now) ==>
              Validate(m, staleThreshold, now) == if !(-1.0 <= m.v <= 1.0) then Some(OutOfRange("v"))
                                                  else if !(-1.0 <= m.w <= 1.0) then Some(OutOfRange("w")) else None
    ensures m.KVMKeyMessage? && Fresh(m.t, staleThreshold, now) ==>
              Validate(m, staleThreshold, now) == if m.key == "" then Some(MissingField("key"))
                                                  else if m.action !in {"down", "up"} then Some(InvalidValue("action")) else None
    ensures m.KVMMouseMessage? && Fresh(m.t, staleThreshold, now) ==> Validate(m, staleThreshold, now) == None
  {
  }

  /** What the handler answers. */
  ghost function ErrorOf(state: S.State, info: Option<S.Info>, data: Data, robotOk: bool, now: int, staleThreshold: int): Option<HandlerError> {
    if data.NotJSON? then Some(ErrInvalidJSON)
    else if state != S.Active then Some(ErrSessionRevoked)
    else
      match data
      case BadBody => Some(ErrInvalidJSON)
      case Ping => None
      case Body(EStopMessage(_)) => if robotOk then None else Some(ErrRobot)
      case Body(msg) =>
        if info == None || "teleop:control" !in info.value.scope then Some(ErrScopeNotAllowed)
        else
          (match Validate(msg, staleThreshold, now)
           case Some(e) => Some(ErrInvalid(e))
           case None => if robotOk then None else Some(ErrRobot))
      case _ => Some(ErrUnknownType)
  }

  /** The call was made in an active session whose scope, granted by a validated token, allows it, on a fresh and valid message. */
  ghost predicate Justified(entry: Logged, grants: set<Grant>, staleThreshold: int) {
    && entry.state == S.Active
    && (exists g :: g in grants && entry.info == Some(g.info))
    && SCOPE_CONTROL in entry.info.value.scope
    && entry.stamp != 0 && entry.at - entry.stamp * MILLISECOND <= staleThreshold
    && WellFormedCall(entry.call)
  }

  ghost predicate AllJustified(log: seq<Logged>, grants: set<Grant>, staleThreshold: int) {
    forall i :: 0 <= i < |log| && log[i].call != EStop ==> Justified(log[i], grants, staleThreshold)
  }

  ghost predicate Granted(info: Option<S.Info>, grants: set<Grant>) {
    info.Some? ==> exists g :: g in grants && g.info == info.value
  }

  function ResetCount(run: SR.Run): nat {
    if run == [] then 0
    else
      var last := |run| - 1;
      ResetCount(run[..last]) + if run[last].call == SM.Reset then 1 else 0
  }

  lemma {:induction false} RunSnoc(cfg: SM.Config, s: SM.State, run: SR.Run, e: SR.Event)
    ensures SR.Final(cfg, s, run + [e]) == SM.Step(cfg, SR.Final(cfg, s, run), e.call, e.now).0
    ensures ResetCount(run + [e]) == ResetCount(run) + if e.call == SM.Reset then 1 else 0
  {
    assert (run + [e])[..|run|] == run;
  }

  datatype Event =
    | Offer(sessionID: string, token: string, peerOk: bool)
    | Connected
    | ConnectionEnded
    | Bye(sessionID: string)
    | RevokedMessage(sessionID: string)
    | DataMessage(data: Data, robotOk: bool)
    | SafetyTick
    | Shutdown

  datatype TimedEvent = TimedEvent(event: Event, now: int)

  // ------------------------------------------------- the agent as seen from its monitor

  /** What the monitor hears of a message; a refused scope, a dead session and a failing robot are not reported. */
  function ReportOf(state: S.State, info: Option<S.Info>, data: Data, robotOk: bool, now: int, staleThreshold: int): Option<SM.Call> {
    if data.NotJSON? then Some(SM.OnInvalidCommand)
    else if state != S.Active then None
    else if data.Ping? then Some(SM.OnValidControl)
    else if !data.Body? then Some(SM.OnInvalidCommand)
    else if !IsMotion(data.msg) then Some(SM.OnEStop)
    else if info == None || SCOPE_CONTROL !in info.value.scope then None
    else if Validate(data.msg, staleThreshold, now).Some? then Some(SM.OnInvalidCommand)
    else if robotOk then Some(SM.OnValidControl)
    else None
  }

  /** The session, the Info waiting for a connection, and every call made on the monitor. */
  datatype View = View(state: S.State, info: Option<S.Info>, pending: Option<S.Info>, heard: SR.Run)

  /** What does not change: the staleness threshold, and what validating a token afresh gives. */
  datatype Setting = Setting(staleThreshold: int, validated: (string, string, int) -> Option<S.Info>)

  /** The call on the monitor that an event leads to, if any. */
  function Hears(v: View, e: TimedEvent, setting: Setting): Option<SM.Call> {
    match e.event
    case Offer(_, _, _) => None
    case Connected => if v.pending.Some? && v.state == S.Pending then Some(SM.Reset) else None
    case ConnectionEnded => None
    case Bye(_) => Some(SM.OnRevoked)
    case RevokedMessage(_) => Some(SM.OnRevoked)
    case DataMessage(data, robotOk) =>
      if data.Pong? then None else ReportOf(v.state, v.info, data, robotOk, e.now, setting.staleThreshold)
    case SafetyTick => if v.state == S.Active then Some(SM.CheckControlLoss) else None
    case Shutdown => Some(SM.OnRevoked)
  }

  function Heard(v: View, e: TimedEvent, setting: Setting): SR.Run {
    match Hears(v, e, setting) { case None => [] case Some(call) => [SR.Event(call, e.now)] }
  }

  function Next(v: View, e: TimedEvent, setting: Setting): View {
    var heard := v.heard + Heard(v, e, setting);
    match e.event
    case Offer(sessionID, token, peerOk) =>
      var info := setting.validated(sessionID, token, e.now);
      View(v.state, v.info, if v.state != S.Terminated && info.Some? && peerOk then info else v.pending, heard)
    case Connected =>
      if v.pending.Some? && v.state == S.Pending then View(S.Active, v.pending, v.pending, heard) else v
    case ConnectionEnded =>
      if v.pending.Some? then View(S.Terminated, None, v.pending, heard) else v
    case RevokedMessage(_) => View(S.Terminated, None, v.pending, heard)
    case _ => v.(heard := heard)
  }

  lemma {:induction false} MessageStep(v: View, data: Data, robotOk: bool, now: int, setting: Setting)
    ensures Next(v, TimedEvent(DataMessage(data, robotOk), now), setting)
            == if data.Pong? then v
               else v.(heard := v.heard + match ReportOf(v.state, v.info, data, robotOk, now, setting.staleThreshold)
                                          case None => []
                                          case Some(call) => [SR.Event(call, now)])
  {
    assert v.heard + [] == v.heard;
  }

  function After(v: View, es: seq<TimedEvent>, setting: Setting): View
    decreases |es|
  {
    if es == [] then v else Next(After(v, es[..|es| - 1], setting), es[|es| - 1], setting)
  }

  lemma {:induction false} AfterNext(v: View, es: seq<TimedEvent>, n: nat, setting: Setting)
    requires n < |es|
    ensures After(v, es[..n + 1], setting) == Next(After(v, es[..n], setting), es[n], setting)
  {
    assert es[..n + 1][..n] == es[..n];
  }

  // ------------------------------------------------------- control loss, over whole runs

  /** The monitor after everything it heard. */
  function MonitorOf(cfg: SM.Config, created: int, v: View): SM.State {
    SR.Final(cfg, SM.Init(created), v.heard)
  }

  lemma {:induction false} MonitorNext(cfg: SM.Config, created: int, v: View, e: TimedEvent, setting: Setting)
    ensures MonitorOf(cfg, created, Next(v, e, setting)) ==
            match Hears(v, e, setting)
            case None => MonitorOf(cfg, created, v)
            case Some(call) => SM.Step(cfg, MonitorOf(cfg, created, v), call, e.now).0
  {
    match Hears(v, e, setting)
    case None =>
      assert v.heard + [] == v.heard;
    case Some(call) =>
      RunSnoc(cfg, SM.Init(created), v.heard, SR.Event(call, e.now));
  }

  /** What the monitor hears of the `i`-th event of a run. */
  ghost function HearsAt(v: View, es: seq<TimedEvent>, i: nat, setting: Setting): Option<SM.Call>
    requires i < |es|
  {
    Hears(After(v, es[..i], setting), es[i], setting)
  }

  ghost predicate ActiveAt(v: View, es: seq<TimedEvent>, i: nat, setting: Setting)
    requires i <= |es|
  {
    After(v, es[..i], setting).state == S.Active
  }

  /** The session is active at every event of the run. */
  ghost predicate ActiveThroughout(v: View, es: seq<TimedEvent>, setting: Setting) {
    forall i {:trigger ActiveAt(v, es, i, setting)} :: 0 <= i < |es| ==> ActiveAt(v, es, i, setting)
  }

  /** No event of the run is one that the monitor hears of as valid control. */
  ghost predicate NoControl(v: View, es: seq<TimedEvent>, setting: Setting) {
    forall i {:trigger HearsAt(v, es, i, setting)} :: 0 <= i < |es| ==> HearsAt(v, es, i, setting) != Some(SM.OnValidControl)
  }

  /** Some tick falls in every span of length `period` between `from` and `to`. */
  ghost predicate TicksEvery(es: seq<TimedEvent>, period: int, from: int, to: int) {
    forall a {:trigger TickIn(es, a, period)} :: from <= a && a + period <= to ==> TickIn(es, a, period)
  }

  ghost predicate TickIn(es: seq<TimedEvent>, a: int, period: int) {
    exists i :: 0 <= i < |es| && es[i].event.SafetyTick? && a < es[i].now <= a + period
  }

  /** One event in an active session that is not heard as control: a stop persists, and a late tick stops the monitor. */
  lemma {:induction false} CalmStep(cfg: SM.Config, created: int, v: View, e: TimedEvent, setting: Setting)
    requires v.state == S.Active && Hears(v, e, setting) != Some(SM.OnValidControl)
    ensures var before, after := MonitorOf(cfg, created, v), MonitorOf(cfg, created, Next(v, e, setting));
            && after.lastControlTime == before.lastControlTime
            && (before.stopped ==> after.stopped)
            && (e.event.SafetyTick? && e.now - before.lastControlTime > cfg.controlLossTimeout ==> after.stopped)
  {
    MonitorNext(cfg, created, v, e, setting);
    HearsTickIff(v, e, setting);
    var call := Hears(v, e, setting);
    if call.Some? {
      ActiveHearsNoReset(v, e, setting);
      CalmCall(cfg, MonitorOf(cfg, created, v), call.value, e.now);
    }
  }

  lemma {:induction false} ActiveHearsNoReset(v: View, e: TimedEvent, setting: Setting)
    requires v.state == S.Active
    ensures Hears(v, e, setting) != Some(SM.Reset)
  {
  }

  lemma {:induction false} CalmCall(cfg: SM.Config, s: SM.State, call: SM.Call, now: int)
    requires call != SM.OnValidControl && call != SM.Reset
    ensures var after := SM.Step(cfg, s, call, now).0;
            && after.lastControlTime == s.lastControlTime
            && (s.stopped ==> after.stopped)
            && (call == SM.CheckControlLoss ==> (after.stopped <==> s.stopped || now - s.lastControlTime > cfg.controlLossTimeout))
  {
  }

  /** A stop persists and the control time does not move. */
  ghost predicate Calm(before: SM.State, after: SM.State) {
    after.lastControlTime == before.lastControlTime && (before.stopped ==> after.stopped)
  }

  lemma {:induction false} CalmChain(states: seq<SM.State>, m: nat, n: nat)
    requires m <= n < |states|
    requires forall i {:trigger states[i]} :: 0 <= i < |states| - 1 ==> Calm(states[i], states[i + 1])
    ensures Calm(states[m], states[n])
    decreases n - m
  {
    if m < n {
      CalmChain(states, m, n - 1);
      assert Calm(states[n - 1], states[n - 1 + 1]);
    }
  }

  /** The monitor after the first `n` events. */
  ghost function MonitorAt(cfg: SM.Config, created: int, v: View, es: seq<TimedEvent>, n: nat, setting: Setting): SM.State
    requires n <= |es|
  {
    MonitorOf(cfg, created, After(v, es[..n], setting))
  }

  lemma {:induction false} CalmAt(cfg: SM.Config, created: int, v: View, es: seq<TimedEvent>, n: nat, setting: Setting)
    requires n < |es| && ActiveThroughout(v, es, setting) && NoControl(v, es, setting)
    ensures var before, after := MonitorAt(cfg, created, v, es, n, setting), MonitorAt(cfg, created, v, es, n + 1, setting);
            && Calm(before, after)
            && (es[n].event.SafetyTick? && es[n].now - before.lastControlTime > cfg.controlLossTimeout ==> after.stopped)
  {
    assert ActiveAt(v, es, n, setting) && HearsAt(v, es, n, setting) != Some(SM.OnValidControl);
    AfterNext(v, es, n, setting);
    CalmStep(cfg, created, After(v, es[..n], setting), es[n], setting);
  }

  /** In an active session without control, a stop persists and the control time does not move. */
  lemma {:induction false} NoControlKeeps(cfg: SM.Config, created: int, v: View, es: seq<TimedEvent>, m: nat, n: nat, setting: Setting)
    requires m <= n <= |es| && ActiveThroughout(v, es, setting) && NoControl(v, es, setting)
    ensures Calm(MonitorAt(cfg, created, v, es, m, setting), MonitorAt(cfg, created, v, es, n, setting))
  {
    var states := seq(|es| + 1, i requires 0 <= i <= |es| => MonitorAt(cfg, created, v, es, i, setting));
    forall i | 0 <= i < |es| ensures Calm(states[i], states[i + 1]) {
      CalmAt(cfg, created, v, es, i, setting);
    }
    CalmChain(states, m, n);
  }

  /** The run stops the monitor at one of its events, not later than the deadline. */
  ghost predicate StoppedBy(cfg: SM.Config, created: int, v: View, es: seq<TimedEvent>, setting: Setting, deadline: int) {
    exists k :: 0 <= k < |es| && es[k].now <= deadline && MonitorOf(cfg, created, After(v, es[..k + 1], setting)).stopped
  }

  /**
   If the session stays active with ticks at most `period` apart and there is no valid control after the
   last one, the monitor is stopped by that control plus the timeout plus the period, and stays stopped.
   */
  lemma {:induction false} ControlLossIsTimely(cfg: SM.Config, created: int, v: View, es: seq<TimedEvent>, setting: Setting, period: int)
    requires cfg.controlLossTimeout >= 0
    requires ActiveThroughout(v, es, setting) && NoControl(v, es, setting)
    requires var last := MonitorOf(cfg, created, v).lastControlTime;
             TicksEvery(es, period, last, last + cfg.controlLossTimeout + period)
    ensures StoppedBy(cfg, created, v, es, setting, MonitorOf(cfg, created, v).lastControlTime + cfg.controlLossTimeout + period)
    ensures MonitorOf(cfg, created, After(v, es, setting)).stopped
  {
    var deadline := MonitorOf(cfg, created, v).lastControlTime + cfg.controlLossTimeout;
    assert TickIn(es, deadline, period);
    var i :| 0 <= i < |es| && es[i].event.SafetyTick? && deadline < es[i].now <= deadline + period;
    NoControlKeeps(cfg, created, v, es, 0, i, setting);
    assert es[..0] == [] && es[..|es|] == es;
    CalmAt(cfg, created, v, es, i, setting);
    NoControlKeeps(cfg, created, v, es, i + 1, |es|, setting);
  }

  // ---------------------------------------------------- when nothing but ticks is heard

  /** The monitor hears of nothing but ticks. */
  ghost predicate Silent(v: View, es: seq<TimedEvent>, setting: Setting) {
    forall i {:trigger HearsAt(v, es, i, setting)} :: 0 <= i < |es| ==> HearsAt(v, es, i, setting) in {None, Some(SM.CheckControlLoss)}
  }

  /** The `i`-th event is a tick in an active session, after the instant. */
  ghost predicate LateTick(v: View, es: seq<TimedEvent>, i: nat, setting: Setting, after: int) {
    i < |es| && es[i].event.SafetyTick? && ActiveAt(v, es, i, setting) && es[i].now > after
  }

  ghost predicate SomeLateTick(v: View, es: seq<TimedEvent>, n: nat, setting: Setting, after: int) {
    exists i: nat :: i < n && LateTick(v, es, i, setting, after)
  }

  /** The control time does not move, and the stopped flag is set exactly if it was or a tick is late. */
  ghost predicate Ticked(before: SM.State, after: SM.State, late: bool) {
    after.lastControlTime == before.lastControlTime && (after.stopped <==> before.stopped || late)
  }

  lemma {:induction false} TickedTwice(a: SM.State, b: SM.State, c: SM.State, earlier: bool, late: bool)
    requires Ticked(a, b, earlier) && Ticked(b, c, late)
    ensures Ticked(a, c, earlier || late)
  {
  }

  lemma {:induction false} SomeLateTickNext(v: View, es: seq<TimedEvent>, n: nat, setting: Setting, after: int)
    ensures SomeLateTick(v, es, n + 1, setting, after) <==> SomeLateTick(v, es, n, setting, after) || LateTick(v, es, n, setting, after)
  {
  }

  /**
   Control-loss detection, exactly: while nothing but ticks is heard, the monitor ends up stopped if and
   only if it was stopped, or some tick fell later than the timeout in a session that was still active.
   */
  lemma {:induction false} SilentRunStopsIff(cfg: SM.Config, created: int, v: View, es: seq<TimedEvent>, setting: Setting)
    requires Silent(v, es, setting)
    ensures var before, after := MonitorOf(cfg, created, v), MonitorOf(cfg, created, After(v, es, setting));
            && after.lastControlTime == before.lastControlTime
            && (after.stopped <==> before.stopped || SomeLateTick(v, es, |es|, setting, before.lastControlTime + cfg.controlLossTimeout))
  {
    SilentUpTo(cfg, created, v, es, |es|, setting);
    assert es[..|es|] == es;
  }

  lemma {:induction false} SilentUpTo(cfg: SM.Config, created: int, v: View, es: seq<TimedEvent>, n: nat, setting: Setting)
    requires n <= |es| && Silent(v, es, setting)
    ensures var before := MonitorOf(cfg, created, v);
            Ticked(before, MonitorAt(cfg, created, v, es, n, setting),
                   SomeLateTick(v, es, n, setting, before.lastControlTime + cfg.controlLossTimeout))
    decreases n
  {
    var before := MonitorOf(cfg, created, v);
    if n == 0 {
      assert es[..0] == [];
    } else {
      var deadline := before.lastControlTime + cfg.controlLossTimeout;
      SilentUpTo(cfg, created, v, es, n - 1, setting);
      SilentAt(cfg, created, v, es, n - 1, setting, deadline);
      SomeLateTickNext(v, es, n - 1, setting, deadline);
      TickedTwice(before, MonitorAt(cfg, created, v, es, n - 1, setting), MonitorAt(cfg, created, v, es, n, setting),
                  SomeLateTick(v, es, n - 1, setting, deadline), LateTick(v, es, n - 1, setting, deadline));
    }
  }

  /** One event of a silent run stops the monitor exactly if it is a late tick. */
  lemma {:induction false} SilentAt(cfg: SM.Config, created: int, v: View, es: seq<TimedEvent>, n: nat, setting: Setting, deadline: int)
    requires n < |es| && Silent(v, es, setting)
    requires deadline == MonitorAt(cfg, created, v, es, n, setting).lastControlTime + cfg.controlLossTimeout
    ensures var before, after := MonitorAt(cfg, created, v, es, n, setting), MonitorAt(cfg, created, v, es, n + 1, setting);
            Ticked(before, after, LateTick(v, es, n, setting, deadline))
  {
    assert HearsAt(v, es, n, setting) in {None, Some(SM.CheckControlLoss)};
    AfterNext(v, es, n, setting);
    SilentStep(cfg, created, After(v, es[..n], setting), es[n], setting);
  }

  lemma {:induction false} SilentStep(cfg: SM.Config, created: int, v: View, e: TimedEvent, setting: Setting)
    requires Hears(v, e, setting) in {None, Some(SM.CheckControlLoss)}
    ensures var before, after := MonitorOf(cfg, created, v), MonitorOf(cfg, created, Next(v, e, setting));
            Ticked(before, after, e.event.SafetyTick? && v.state == S.Active && e.now > before.lastControlTime + cfg.controlLossTimeout)
  {
    MonitorNext(cfg, created, v, e, setting);
    HearsTickIff(v, e, setting);
    CalmCall(cfg, MonitorOf(cfg, created, v), SM.CheckControlLoss, e.now);
  }

  lemma {:induction false} HearsTickIff(v: View, e: TimedEvent, setting: Setting)
    ensures Hears(v, e, setting) == Some(SM.CheckControlLoss) <==> e.event.SafetyTick? && v.state == S.Active
  {
  }

  // ----------------------------------------------------------- after the session has ended

  /** The events that the monitor hears of in an ended session: none of them is a tick. */
  predicate Audible(e: Event) {
    e.Bye? || e.RevokedMessage? || e.Shutdown? || (e.DataMessage? && e.data.NotJSON?)
  }

  /**
   A terminated session stays so, and from then on the monitor hears exactly of the audible events: no
   tick ever reaches it again.
   */
  lemma {:induction false} EndedSessionIsDeaf(v: View, es: seq<TimedEvent>, setting: Setting)
    requires v.state == S.Terminated
    ensures After(v, es, setting).state == S.Terminated && v.heard <= After(v, es, setting).heard
    ensures After(v, es, setting).heard == v.heard <==> forall i :: 0 <= i < |es| ==> !Audible(es[i].event)
    ensures forall i :: |v.heard| <= i < |After(v, es, setting).heard| ==>
                          After(v, es, setting).heard[i].call in {SM.OnRevoked, SM.OnInvalidCommand}
    decreases |es|
  {
    if es != [] {
      var n := |es| - 1;
      EndedSessionIsDeaf(v, es[..n], setting);
      var before := After(v, es[..n], setting);
      assert Hears(before, es[n], setting).Some? <==> Audible(es[n].event);
      assert forall i :: 0 <= i < n ==> es[..n][i] == es[i];
    }
  }

  /**
   So a control loss that the monitor has not seen when the session ends is never seen: whether a
   silent run ends stopped is decided by the ticks before the session ended, at event `k`.
   */
  lemma {:induction false} LossUnseenAfterEnd(cfg: SM.Config, created: int, v: View, es: seq<TimedEvent>, k: nat, setting: Setting)
    requires Silent(v, es, setting) && k <= |es| && After(v, es[..k], setting).state == S.Terminated
    ensures var before := MonitorOf(cfg, created, v);
            MonitorOf(cfg, created, After(v, es, setting)).stopped
            <==> before.stopped || SomeLateTick(v, es, k, setting, before.lastControlTime + cfg.controlLossTimeout)
  {
    SilentRunStopsIff(cfg, created, v, es, setting);
    LateTicksEnd(v, es, k, setting, MonitorOf(cfg, created, v).lastControlTime + cfg.controlLossTimeout);
  }

  /** No tick is late once the session has ended. */
  lemma {:induction false} LateTicksEnd(v: View, es: seq<TimedEvent>, k: nat, setting: Setting, deadline: int)
    requires k <= |es| && After(v, es[..k], setting).state == S.Terminated
    ensures SomeLateTick(v, es, |es|, setting, deadline) <==> SomeLateTick(v, es, k, setting, deadline)
  {
    forall i | k <= i < |es| ensures !LateTick(v, es, i, setting, deadline) {
      assert es[..i] == es[..k] + es[k..i];
      AfterConcat(v, es[..k], es[k..i], setting);
      EndedSessionIsDeaf(After(v, es[..k], setting), es[k..i], setting);
    }
  }

  lemma {:induction false} AfterConcat(v: View, a: seq<TimedEvent>, b: seq<TimedEvent>, setting: Setting)
    ensures After(v, a + b, setting) == After(After(v, a, setting), b, setting)
    decreases |b|
  {
    if b == [] {
      assert a + b == a;
    } else {
      assert (a + b)[..|a + b| - 1] == a + b[..|b| - 1];
      AfterConcat(v, a, b[..|b| - 1], setting);
    }
  }

  class Agent {
    const sessionMgr: S.Manager
    const safety: SM.Monitor
    const staleThreshold: int
    /** The session info captured by the connection callback of the latest accepted offer. */
    var pending: Option<S.Info>

    ghost const created: int
    ghost var clock: int
    ghost var log: seq<Logged>         // every call on the robot
    ghost var grants: set<Grant>       // every successful token validation
    ghost var safetyRun: SR.Run        // every call on the safety monitor

    ghost function Repr(): set<object> {
      {this, sessionMgr, sessionMgr.tokenCache, safety}
    }

    /** Validating a token from scratch. */
    ghost function Validated(sessionID: string, token: string, now: int): Option<S.Info> {
      if sessionMgr.validator == null then None
      else
        match sessionMgr.validator.Verdict(token, sessionID, now)
        case Ok(claims) => Some(sessionMgr.ClaimsToInfo(claims))
        case Err(_) => None
    }

    ghost function TheSetting(): Setting {
      Setting(staleThreshold, (sessionID, token, now) => Validated(sessionID, token, now))
    }

    ghost function Seen(): View
      reads this, sessionMgr
    {
      View(sessionMgr.state, sessionMgr.info, pending, safetyRun)
    }

    /** The step is that of the view. */
    twostate predicate Steps(e: TimedEvent)
      reads this, sessionMgr
    {
      Seen() == Next(old(Seen()), e, TheSetting())
    }

    /** Every grant is a token that validated, from scratch, at that instant. */
    ghost predicate Genuine(g: Grant) {
      && sessionMgr.validator != null
      && var r := sessionMgr.validator.Verdict(g.token, g.sessionID, g.at);
      && r.Ok? && g.info == sessionMgr.ClaimsToInfo(r.value)
    }

    ghost predicate SessionOk()
      reads Repr()
    {
      && sessionMgr.Valid() && sessionMgr.clock <= clock
      && (forall g :: g in grants ==> Genuine(g))
      && Granted(pending, grants) && Granted(sessionMgr.info, grants)
    }

    /** The monitor is where the recorded run of calls takes it. */
    ghost predicate SafetyLinked()
      reads this, safety
    {
      safety.Abs() == SR.Final(safety.cfg, SM.Init(created), safetyRun)
    }

    ghost predicate SafetyOk()
      reads Repr()
    {
      && SafetyLinked()
      && ResetCount(safetyRun) <= 1
      && (sessionMgr.state == S.Pending ==> ResetCount(safetyRun) == 0)
    }

    ghost predicate Valid()
      reads Repr()
    {
      && SessionOk()
      && SafetyOk()
      && AllJustified(log, grants, staleThreshold)
    }

    /** The session is over and the monitor holds a stop that only a Reset could end. */
    ghost predicate Latched()
      reads Repr()
    {
      sessionMgr.state == S.Terminated && safety.stopped && !safety.inControlLoss
    }

    constructor (robotID: string, validator: S.TokenValidator?, cfg: SM.Config, staleThreshold: int, now: int)
      requires validator != null ==> validator.clockSkew > 0
      ensures Valid() && fresh(Repr())
      ensures clock == created == now && log == [] && grants == {} && pending == None
      ensures sessionMgr.state == S.Pending && sessionMgr.validator == validator && sessionMgr.robotID == robotID
      ensures safety.cfg == cfg && safety.Abs() == SM.Init(now) && safetyRun == []
      ensures this.staleThreshold == staleThreshold
    {
      sessionMgr := new S.Manager(robotID, validator, now);
      safety := new SM.Monitor(cfg, now);
      this.staleThreshold := staleThreshold;
      pending := None;
      created, clock := now, now;
      log, grants, safetyRun := [], {}, [];
    }

    // -------------------------------------------------------------- safety calls

    method CallMonitor(call: SM.Call, now: int) returns (fired: Option<SM.Trigger>)
      requires call != SM.Reset
      modifies safety
      ensures (safety.Abs(), fired) == SM.Step(safety.cfg, old(safety.Abs()), call, now)
    {
      match call {
        case OnValidControl => fired := safety.OnValidControl(now);
        case OnInvalidCommand => fired := safety.OnInvalidCommand(now);
        case OnEStop => fired := safety.OnEStop();
        case OnTokenExpired => fired := safety.OnTokenExpired();
        case OnRevoked => fired := safety.OnRevoked();
        case CheckControlLoss => fired := safety.CheckControlLoss(now);
      }
    }

    /** A call on the monitor, recorded. */
    method TellMonitor(call: SM.Call, now: int) returns (fired: Option<SM.Trigger>)
      requires SafetyLinked() && call != SM.Reset
      modifies this`safetyRun, safety
      ensures SafetyLinked() && ResetCount(safetyRun) == ResetCount(old(safetyRun))
      ensures (safety.Abs(), fired) == SM.Step(safety.cfg, old(safety.Abs()), call, now)
      ensures safetyRun == old(safetyRun) + [SR.Event(call, now)]
    {
      fired := CallMonitor(call, now);
      RunSnoc(safety.cfg, SM.Init(created), safetyRun, SR.Event(call, now));
      safetyRun := safetyRun + [SR.Event(call, now)];
    }

    /** A call on the monitor and, when it fires, the safe-stop callback, which halts the hardware. */
    method CallSafety(call: SM.Call, now: int)
      requires Valid() && call != SM.Reset
      modifies this`log, this`safetyRun, safety
      ensures Valid()
      ensures safety.Abs() == SM.Step(safety.cfg, old(safety.Abs()), call, now).0
      ensures safetyRun == old(safetyRun) + [SR.Event(call, now)]
      ensures Motions(log) == Motions(old(log))
      ensures old(log) <= log
      ensures safety.stopped && !old(safety.stopped) ==> log != [] && log[|log| - 1].call == EStop
      ensures old(Latched()) ==> Latched()
    {
      var fired := TellMonitor(call, now);
      if fired.Some? {
        CallRobot(EStop, 0, now);
      }
    }

    method CallRobot(call: RobotCall, stamp: int, now: int)
      requires AllJustified(log, grants, staleThreshold)
      requires call != EStop ==>
                 Justified(Logged(call, now, stamp, sessionMgr.state, sessionMgr.info), grants, staleThreshold)
      modifies this`log
      ensures AllJustified(log, grants, staleThreshold)
      ensures log == old(log) + [Logged(call, now, stamp, sessionMgr.state, sessionMgr.info)]
      ensures Motions(log) == Motions(old(log)) + if call == EStop then [] else [log[|log| - 1]]
    {
      MotionsSnoc(log, Logged(call, now, stamp, sessionMgr.state, sessionMgr.info));
      log := log + [Logged(call, now, stamp, sessionMgr.state, sessionMgr.info)];
    }

    // -------------------------------------------------------------- the handler

    predicate HasControl()
      reads sessionMgr
    {
      sessionMgr.HasScope(SCOPE_CONTROL)
    }

    /** The message is a motion command that the handler must carry out. */
    predicate Accepts(data: Data, now: int)
      reads sessionMgr
    {
      && data.Body? && IsMotion(data.msg)
      && sessionMgr.state == S.Active && HasControl()
      && Validate(data.msg, staleThreshold, now) == None
    }

    /** The motion, if any, that a message orders. */
    ghost function Orders(data: Data, now: int): seq<Logged>
      reads sessionMgr
    {
      Ordered(sessionMgr.state, sessionMgr.info, data, now, staleThreshold)
    }

    ghost function Error(data: Data, robotOk: bool, now: int): Option<HandlerError>
      reads sessionMgr
    {
      ErrorOf(sessionMgr.state, sessionMgr.info, data, robotOk, now, staleThreshold)
    }

    /** The code's own checks let through exactly what is ordered, and its call is the one ordered. */
    lemma {:induction false} AcceptedIsOrdered(data: Data, now: int)
      ensures Orders(data, now) == if Accepts(data, now)
                                   then [Logged(CallOf(data.msg), now, data.msg.t, sessionMgr.state, sessionMgr.info)] else []
    {
      if data.Body? {
        ValidExactly(data.msg, staleThreshold, now);
      }
    }

    /** What the monitor hears of a message. */
    ghost function Report(data: Data, robotOk: bool, now: int): Option<SM.Call>
      reads sessionMgr
    {
      ReportOf(sessionMgr.state, sessionMgr.info, data, robotOk, now, staleThreshold)
    }

    /** The effect of one message on the robot and on the monitor. */
    twostate predicate Handled(data: Data, robotOk: bool, now: int)
      reads Repr()
    {
      && old(log) <= log
      && Motions(log) == Motions(old(log)) + old(Orders(data, now))
      && safetyRun == old(safetyRun) + (match old(Report(data, robotOk, now)) case None => [] case Some(call) => [SR.Event(call, now)])
      && (safety.stopped && !old(safety.stopped) ==> log != [] && log[|log| - 1].call == EStop)
      && (old(Latched()) ==> Latched())
    }

    /**
     The three motion handlers: they differ only in the checks of `Validate` and in the call. An
     invalid command is reported to the monitor, a refused scope and a robot error are not.
     */
    method HandleMotion(msg: Message, robotOk: bool, now: int) returns (err: Option<HandlerError>)
      requires Valid() && IsMotion(msg) && sessionMgr.state == S.Active
      modifies this`log, this`safetyRun, safety
      ensures Valid() && Handled(Body(msg), robotOk, now)
      ensures err == old(Error(Body(msg), robotOk, now))
    {
      AcceptedIsOrdered(Body(msg), now);
      if !HasControl() {
        err := Some(ErrScopeNotAllowed);
      } else {
        var invalid := Validate(msg, staleThreshold, now);
        if invalid.Some? {
          CallSafety(SM.OnInvalidCommand, now);
          err := Some(ErrInvalid(invalid.value));
        } else {
          err := CarryOut(msg, robotOk, now);
        }
      }
    }

    method CarryOut(msg: Message, robotOk: bool, now: int) returns (err: Option<HandlerError>)
      requires Valid() && IsMotion(msg) && Accepts(Body(msg), now)
      modifies this`log, this`safetyRun, safety
      ensures Valid() && Handled(Body(msg), robotOk, now)
      ensures err == if robotOk then None else Some(ErrRobot)
    {
      AcceptedIsOrdered(Body(msg), now);
      CallRobot(CallOf(msg), msg.t, now);
      if robotOk {
        CallSafety(SM.OnValidControl, now);
        err := None;
      } else {
        err := Some(ErrRobot);
      }
    }

    /** An e-stop is never stale and needs no scope; the monitor is told before the hardware. */
    method HandleEStop(msg: Message, robotOk: bool, now: int) returns (err: Option<HandlerError>)
      requires Valid() && msg.EStopMessage? && sessionMgr.state == S.Active
      modifies this`log, this`safetyRun, safety
      ensures Valid() && Handled(Body(msg), robotOk, now)
      ensures safety.stopped && !safety.inControlLoss && log != [] && log[|log| - 1].call == EStop
      ensures err == if robotOk then None else Some(ErrRobot)
    {
      CallSafety(SM.OnEStop, now);
      CallRobot(EStop, 0, now);
      err := if robotOk then None else Some(ErrRobot);
    }

    method Dispatch(data: Data, robotOk: bool, now: int) returns (err: Option<HandlerError>)
      requires Valid() && sessionMgr.state == S.Active && !data.NotJSON?
      modifies this`log, this`safetyRun, safety
      ensures Valid() && Handled(data, robotOk, now)
      ensures err == old(Error(data, robotOk, now))
    {
      if data.BadBody? {
        CallSafety(SM.OnInvalidCommand, now);
        err := Some(ErrInvalidJSON);
      } else if data.Ping? {
        CallSafety(SM.OnValidControl, now);
        err := None;
      } else if data.Body? {
        if data.msg.EStopMessage? {
          err := HandleEStop(data.msg, robotOk, now);
        } else {
          err := HandleMotion(data.msg, robotOk, now);
        }
      } else {
        CallSafety(SM.OnInvalidCommand, now);
        err := Some(ErrUnknownType);
      }
    }

    method HandleMessage(data: Data, robotOk: bool, now: int) returns (err: Option<HandlerError>)
      requires Valid()
      modifies this`log, this`safetyRun, safety
      ensures Valid() && Handled(data, robotOk, now)
      ensures err == old(Error(data, robotOk, now))
    {
      if data.NotJSON? {
        CallSafety(SM.OnInvalidCommand, now);
        err := Some(ErrInvalidJSON);
      } else if sessionMgr.state != S.Active {
        err := Some(ErrSessionRevoked);
      } else {
        err := Dispatch(data, robotOk, now);
      }
    }

    // --------------------------------------------------------------- the callbacks

    /** What every step of the agent keeps. */
    twostate predicate Kept()
      reads Repr()
    {
      && old(log) <= log && old(grants) <= grants
      && (old(sessionMgr.state) == S.Terminated ==>
            sessionMgr.state == S.Terminated && Motions(log) == Motions(old(log)))
      && (old(Latched()) ==> Latched())
    }

    /** A step in which the monitor stops ends with a hardware stop. */
    twostate predicate Halts()
      reads Repr()
    {
      safety.stopped && !old(safety.stopped) ==> log != [] && log[|log| - 1].call == EStop
    }

    method OnOffer(sessionID: string, token: string, peerOk: bool, now: int)
      requires Valid() && clock == now
      modifies this`grants, this`pending, sessionMgr`clock, sessionMgr.tokenCache
      ensures Valid() && Kept() && Halts()
      ensures safetyRun == old(safetyRun) && log == old(log)
      ensures sessionMgr.state == old(sessionMgr.state) && sessionMgr.info == old(sessionMgr.info)
      ensures var r := old(sessionMgr.Uncached(sessionID, token, now));
              pending == if r.Ok? && peerOk then Some(r.value) else old(pending)
      ensures Steps(TimedEvent(Offer(sessionID, token, peerOk), now))
    {
      var r := CheckToken(sessionID, token, now);
      if r.Err? {
        return;
      }
      grants := grants + {Grant(sessionID, token, now, r.value)};
      if !peerOk {
        return;
      }
      pending := Some(r.value);
    }

    method CheckToken(sessionID: string, token: string, now: int) returns (r: Result<S.Info, S.Error>)
      requires sessionMgr.Valid() && sessionMgr.clock <= now
      modifies sessionMgr`clock, sessionMgr.tokenCache
      ensures sessionMgr.Valid() && sessionMgr.clock == now
      ensures r == old(sessionMgr.Uncached(sessionID, token, now))
    {
      r := sessionMgr.ValidateToken(sessionID, token, now);
    }

    /** The peer connection reports `connected`. */
    method OnConnected(now: int)
      requires Valid() && clock == now
      modifies this`safetyRun, safety, sessionMgr
      ensures Valid() && Kept() && Halts()
      ensures pending == old(pending) && log == old(log)
      ensures if old(pending).Some? && old(sessionMgr.state) == S.Pending
              then sessionMgr.state == S.Active && sessionMgr.info == old(pending) && safety.Abs() == SM.Init(now)
              else unchanged(sessionMgr`state, sessionMgr`info) && safetyRun == old(safetyRun)
      ensures Steps(TimedEvent(Connected, now))
    {
      if pending.Some? {
        Begin(pending.value, now);
      }
    }

    method Begin(info: S.Info, now: int)
      requires Valid() && clock == now && pending == Some(info)
      modifies this`safetyRun, safety, sessionMgr
      ensures Valid()
      ensures if old(sessionMgr.state) == S.Pending
              then
                && sessionMgr.state == S.Active && sessionMgr.info == Some(info) && safety.Abs() == SM.Init(now)
                && safetyRun == old(safetyRun) + [SR.Event(SM.Reset, now)]
              else unchanged(sessionMgr`state, sessionMgr`info) && unchanged(safety) && safetyRun == old(safetyRun)
    {
      var err := sessionMgr.Activate(info);
      if err == None {
        ResetSafety(now);
      }
    }

    method ResetSafety(now: int)
      requires SafetyLinked() && ResetCount(safetyRun) == 0
      modifies this`safetyRun, safety
      ensures SafetyLinked() && ResetCount(safetyRun) == 1 && safety.Abs() == SM.Init(now)
      ensures safetyRun == old(safetyRun) + [SR.Event(SM.Reset, now)]
    {
      RunSnoc(safety.cfg, SM.Init(created), safetyRun, SR.Event(SM.Reset, now));
      safety.Reset(now);
      safetyRun := safetyRun + [SR.Event(SM.Reset, now)];
    }

    /** The peer connection reports `failed` or `closed`. */
    method OnConnectionEnded(now: int)
      requires Valid() && clock == now
      modifies sessionMgr, sessionMgr.tokenCache
      ensures Valid() && Kept() && Halts()
      ensures pending == old(pending) && log == old(log) && safetyRun == old(safetyRun)
      ensures sessionMgr.state == if old(pending).Some? then S.Terminated else old(sessionMgr.state)
      ensures Steps(TimedEvent(ConnectionEnded, now))
    {
      if pending == None {
        return;
      }
      sessionMgr.Terminate();
    }

    method OnBye(sessionID: string, now: int)
      requires Valid() && clock == now
      modifies this`log, this`safetyRun, safety
      ensures Valid() && Kept() && Halts()
      ensures safety.stopped && !safety.inControlLoss && unchanged(sessionMgr)
      ensures pending == old(pending) && safetyRun == old(safetyRun) + [SR.Event(SM.OnRevoked, now)]
      ensures Steps(TimedEvent(Bye(sessionID), now))
    {
      CallSafety(SM.OnRevoked, now);
    }

    method OnRevoked(sessionID: string, now: int)
      requires Valid() && clock == now
      modifies this`log, this`safetyRun, safety, sessionMgr, sessionMgr.tokenCache
      ensures Valid() && Kept() && Halts()
      ensures Latched() && Motions(log) == Motions(old(log))
      ensures pending == old(pending) && safetyRun == old(safetyRun) + [SR.Event(SM.OnRevoked, now)]
      ensures Steps(TimedEvent(RevokedMessage(sessionID), now))
    {
      sessionMgr.Terminate();
      CallSafety(SM.OnRevoked, now);
    }

    method OnDataMessage(data: Data, robotOk: bool, now: int)
      requires Valid() && clock == now
      modifies this`log, this`safetyRun, safety
      ensures Valid() && Kept() && Halts()
      ensures unchanged(sessionMgr) && pending == old(pending)
      ensures !data.Pong? ==> Handled(data, robotOk, now)
      ensures data.Pong? ==> log == old(log) && safetyRun == old(safetyRun)
      ensures Steps(TimedEvent(DataMessage(data, robotOk), now))
    {
      MessageStep(Seen(), data, robotOk, now, TheSetting());
      if !data.Pong? {
        Deliver(data, robotOk, now);
      }
    }

    /** A message for the handler, as one step of the agent. */
    method Deliver(data: Data, robotOk: bool, now: int)
      requires Valid()
      modifies this`log, this`safetyRun, safety
      ensures Valid() && Kept() && Handled(data, robotOk, now)
    {
      if sessionMgr.state == S.Terminated {
        assert Orders(data, now) == [];
      }
      var _ := HandleMessage(data, robotOk, now);
    }

    method OnSafetyTick(now: int)
      requires Valid() && clock == now
      modifies this`log, this`safetyRun, safety
      ensures Valid() && Kept() && Halts()
      ensures unchanged(sessionMgr) && pending == old(pending) && Motions(log) == Motions(old(log))
      ensures safetyRun == old(safetyRun) + if old(sessionMgr.state) == S.Active then [SR.Event(SM.CheckControlLoss, now)] else []
      ensures Steps(TimedEvent(SafetyTick, now))
    {
      if sessionMgr.state == S.Active {
        CallSafety(SM.CheckControlLoss, now);
      }
    }

    method OnShutdown(now: int)
      requires Valid() && clock == now
      modifies this`log, this`safetyRun, safety
      ensures Valid() && Kept() && Halts()
      ensures safety.stopped && !safety.inControlLoss && unchanged(sessionMgr)
      ensures pending == old(pending) && safetyRun == old(safetyRun) + [SR.Event(SM.OnRevoked, now)]
      ensures Steps(TimedEvent(Shutdown, now))
    {
      CallSafety(SM.OnRevoked, now);
    }

    // -------------------------------------------------------------------- whole runs

    ghost method Advance(now: int)
      requires Valid() && clock <= now
      modifies this`clock
      ensures Valid() && clock == now
    {
      clock := now;
    }

    /** One event at its instant. */
    method Perform(e: TimedEvent)
      requires Valid() && clock <= e.now
      modifies Repr()
      ensures Valid() && clock == e.now && Kept() && Halts() && Steps(e)
    {
      Advance(e.now);
      React(e.event, e.now);
    }

    method React(e: Event, now: int)
      requires Valid() && clock == now
      modifies this`log, this`safetyRun, this`grants, this`pending, safety, sessionMgr, sessionMgr.tokenCache
      ensures Valid() && Kept() && Halts() && Steps(TimedEvent(e, now))
    {
      match e {
        case Offer(sessionID, token, peerOk) => OnOffer(sessionID, token, peerOk, now);
        case Connected => OnConnected(now);
        case ConnectionEnded => OnConnectionEnded(now);
        case Bye(sessionID) => OnBye(sessionID, now);
        case RevokedMessage(sessionID) => OnRevoked(sessionID, now);
        case DataMessage(data, robotOk) => OnDataMessage(data, robotOk, now);
        case SafetyTick => OnSafetyTick(now);
        case Shutdown => OnShutdown(now);
      }
    }

    /** Any sequence of events, at instants that never go back: the agent does what its view does. */
    method Run(events: seq<TimedEvent>)
      requires Valid()
      requires forall i :: 0 <= i < |events| ==> clock <= events[i].now
      requires forall i, j :: 0 <= i < j < |events| ==> events[i].now <= events[j].now
      modifies Repr()
      ensures Valid() && Kept()
      ensures Seen() == After(old(Seen()), events, TheSetting())
    {
      ghost var v := Seen();
      for n := 0 to |events|
        invariant Valid() && Kept()
        invariant forall i :: n <= i < |events| ==> clock <= events[i].now
        invariant Seen() == After(v, events[..n], TheSetting())
      {
        AfterNext(v, events, n, TheSetting());
        Perform(events[n]);
      }
      assert events[..|events|] == events;
    }

    /** In any run from here that stays in an active session, hears of no control and has ticks close enough, the robot is stopped. */
    method RunUntilControlLoss(events: seq<TimedEvent>, period: int)
      requires Valid() && safety.cfg.controlLossTimeout >= 0
      requires forall i :: 0 <= i < |events| ==> clock <= events[i].now
      requires forall i, j :: 0 <= i < j < |events| ==> events[i].now <= events[j].now
      requires ActiveThroughout(Seen(), events, TheSetting()) && NoControl(Seen(), events, TheSetting())
      requires TicksEvery(events, period, safety.lastControlTime, safety.lastControlTime + safety.cfg.controlLossTimeout + period)
      modifies Repr()
      ensures Valid() && safety.stopped
      ensures StoppedBy(safety.cfg, created, old(Seen()), events, TheSetting(),
                        old(safety.lastControlTime) + safety.cfg.controlLossTimeout + period)
    {
      ControlLossIsTimely(safety.cfg, created, Seen(), events, TheSetting(), period);
      Run(events);
    }

    /**
     After the connection has ended, no tick reaches the monitor: a robot that is still moving is not
     stopped for lost control, however long it takes.
     */
    method RunAfterDisconnect(now: int, events: seq<TimedEvent>)
      requires Valid() && clock <= now && pending.Some?
      requires forall i :: 0 <= i < |events| ==> now <= events[i].now
      requires forall i, j :: 0 <= i < j < |events| ==> events[i].now <= events[j].now
      modifies Repr()
      ensures Valid() && sessionMgr.state == S.Terminated && Motions(log) == Motions(old(log))
      ensures safetyRun == old(safetyRun) <==> forall i :: 0 <= i < |events| ==> !Audible(events[i].event)
      ensures (forall i :: 0 <= i < |events| ==> !Audible(events[i].event)) ==> safety.Abs() == old(safety.Abs())
    {
      Advance(now);
      OnConnectionEnded(now);
      EndedSessionIsDeaf(Seen(), events, TheSetting());
      Run(events);
    }

    /**
     After a revocation the robot is never moved again, whatever happens: the session stays
     terminated and the monitor stays stopped.
     */
    method RunAfterRevocation(sessionID: string, now: int, events: seq<TimedEvent>)
      requires Valid() && clock <= now
      requires forall i :: 0 <= i < |events| ==> now <= events[i].now
      requires forall i, j :: 0 <= i < j < |events| ==> events[i].now <= events[j].now
      modifies Repr()
      ensures Valid() && Latched()
      ensures Motions(log) == Motions(old(log))
    {
      Advance(now);
      OnRevoked(sessionID, now);
      Run(events);
    }
  }

  /** A new agent that is offered a token with the control scope, and connected. */
  method Connect(robotID: string, validator: S.TokenValidator, cfg: SM.Config, staleThreshold: int,
                 sessionID: string, token: string, now: int)
    returns (agent: Agent)
    requires validator.clockSkew > 0
    requires var r := validator.Verdict(token, sessionID, now); r.Ok? && SCOPE_CONTROL in r.value.scope
    ensures agent.Valid() && fresh(agent.Repr()) && agent.clock == now && agent.staleThreshold == staleThreshold
    ensures agent.sessionMgr.state == S.Active && agent.HasControl() && agent.pending.Some?
    ensures agent.log == [] && agent.safety.Abs() == SM.Init(now)
  {
    agent := new Agent(robotID, validator, cfg, staleThreshold, now);
    agent.OnOffer(sessionID, token, true, now);
    agent.OnConnected(now);
  }

  /** One motion command in an active session is carried out and keeps the monitor running. */
  method DriveOnce(agent: Agent, now: int, stamp: int)
    requires agent.Valid() && agent.clock == now && agent.safety.Abs() == SM.Init(now) && agent.log == []
    requires agent.sessionMgr.state == S.Active && agent.HasControl()
    requires stamp != 0 && now - stamp * MILLISECOND <= agent.staleThreshold
    modifies agent`log, agent`safetyRun, agent.safety
    ensures agent.Valid() && agent.safety.Abs() == SM.Init(now)
    ensures |Motions(agent.log)| == 1 && Motions(agent.log)[0].call == Drive(1.0, 0.0)
  {
    ghost var run := agent.safetyRun;
    var data := Body(DriveMessage(1.0, 0.0, stamp));
    agent.OnDataMessage(data, true, now);
    RunSnoc(agent.safety.cfg, SM.Init(agent.created), run, SR.Event(SM.OnValidControl, now));
  }

  /**
   A control loss can go unseen, for every configuration and every token that validates with the control
   scope: the robot is sent one motion command, the connection ends, and no tick ever stops the robot.
   */
  method LossGoesUnseen(robotID: string, validator: S.TokenValidator, cfg: SM.Config, staleThreshold: int,
                        sessionID: string, token: string, now: int, stamp: int, end: int, ticks: seq<TimedEvent>)
    returns (agent: Agent)
    requires validator.clockSkew > 0
    requires var r := validator.Verdict(token, sessionID, now); r.Ok? && SCOPE_CONTROL in r.value.scope
    requires stamp != 0 && now - stamp * MILLISECOND <= staleThreshold
    requires now <= end && forall i :: 0 <= i < |ticks| ==> ticks[i].event.SafetyTick? && end <= ticks[i].now
    requires forall i, j :: 0 <= i < j < |ticks| ==> ticks[i].now <= ticks[j].now
    ensures agent.Valid() && agent.sessionMgr.state == S.Terminated
    ensures |Motions(agent.log)| == 1 && Motions(agent.log)[0].call == Drive(1.0, 0.0)
    ensures !agent.safety.stopped && agent.safety.lastControlTime == now
  {
    agent := Connect(robotID, validator, cfg, staleThreshold, sessionID, token, now);
    DriveOnce(agent, now, stamp);
    agent.RunAfterDisconnect(end, ticks);
  }
}
