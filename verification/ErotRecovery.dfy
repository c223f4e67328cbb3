/** The GPIO-driven ERoT resource: its recovery monitor and the line it listens to, beside
    the check of the AP. Event handlers are functions from state to state; what the
    hardware and the bus answer comes with the event. */
module ErotRecovery {
  import opened Outcomes
  import opened ApBootCheck

  datatype Config = Config(
    ap: ApConfig,
    polling: bool,
    activeHigh: bool,
    hideWhenHealthy: bool,
    hasTarget: bool)

  datatype Reason = Refresh | FatalErrorAssert | FatalErrorDeassert

  datatype ErotObject = Hidden | Healthy | PoweredOff | InRecovery

  /** `commits`, `exits` and `restarts` count the recovery errors committed, the recovery
      exits and the restarts of the MCTP target. */
  datatype Recovery = Recovery(
    inRecovery: bool,
    commits: nat,
    exits: nat,
    restarts: nat,
    exitByVdm: bool,
    active: bool,
    timer: bool,
    query: bool)

  datatype Line = Line(held: bool, last: Option<int>, eventOn: bool, retryTimer: bool)

  datatype Gpio = Gpio(cfg: Config, chassisOff: bool, erot: ErotObject, check: Check, rec: Recovery, line: Line)

  /** The outcome of one registration of the GPIO event. */
  datatype Registration = Registration(found: bool, requested: bool, value: Option<int>, fdOk: bool)

  /** What a re-evaluation after recovery meets: the level, if it can be read, and the
      probe over the crisis bus, which is true unless it says "not in recovery". */
  datatype Look = Look(level: Option<int>, probe: bool)

  // ---- The recovery monitor ----

  function Discover(cfg: Config, r: Recovery): Recovery {
    if cfg.hasTarget then r.(restarts := r.restarts + 1) else r
  }

  function StartMonitor(cfg: Config, r: Recovery): Recovery {
    if cfg.polling then Discover(cfg, r.(active := true, timer := true)) else r
  }

  function StopMonitor(r: Recovery): Recovery {
    r.(active := false, timer := false)
  }

  function EnterRecovery(cfg: Config, r: Recovery): Recovery {
    StartMonitor(cfg, r.(commits := r.commits + (if r.inRecovery then 0 else 1), inRecovery := true))
  }

  function LeaveRecovery(cfg: Config, r: Recovery): Recovery {
    if r.inRecovery then Discover(cfg, StopMonitor(r).(exits := r.exits + 1, inRecovery := false)) else r
  }

  /** The restart before an AP check is skipped when leaving recovery already restarted. */
  function NotInRecovery(cfg: Config, r: Recovery, reason: Reason): Recovery {
    if reason == FatalErrorAssert && cfg.ap.hasAP && !r.inRecovery then Discover(cfg, r) else LeaveRecovery(cfg, r)
  }

  function CheckAfterProbe(cfg: Config, c: Check, reason: Reason): Check {
    match reason
    case FatalErrorDeassert => Stop(c).(published := NoObject)
    case FatalErrorAssert => if cfg.ap.hasAP then ApBootCheck.Start(cfg.ap, c) else c
    case Refresh => c
  }

  function UpdateErotHealth(g: Gpio, reason: Reason, probe: bool): Gpio {
    if g.chassisOff then g.(erot := PoweredOff)
    else if probe then g.(erot := ErotObject.InRecovery, rec := EnterRecovery(g.cfg, g.rec))
    else g.(erot := if g.cfg.hideWhenHealthy then Hidden else Healthy,
            check := CheckAfterProbe(g.cfg, g.check, reason),
            rec := NotInRecovery(g.cfg, g.rec, reason))
  }

  predicate IsActive(cfg: Config, value: int) {
    (value != 0) == cfg.activeHigh
  }

  function ReasonOf(cfg: Config, value: int): Reason {
    if IsActive(cfg, value) then FatalErrorAssert else FatalErrorDeassert
  }

  /** With no line to read, the last polled value stands in; with neither, asserted. */
  function Reevaluate(g: Gpio, look: Look): Gpio {
    var value := if g.line.held then look.level else g.line.last;
    UpdateErotHealth(g, if value.Some? then ReasonOf(g.cfg, value.value) else FatalErrorAssert, look.probe)
  }

  function Retrigger(g: Gpio): Gpio {
    g.(rec := Discover(g.cfg, g.rec))
  }

  function ExitAnswered(g: Gpio, reply: Reply, look: Look): Gpio {
    if !g.rec.active then g
    else if reply == Lost || |reply.payload| < 1 then Retrigger(g)
    else Reevaluate(g, look)
  }

  function CheckExitByVdm(g: Gpio, present: bool, sync: Option<Reply>, look: Look): Gpio {
    if !g.cfg.ap.hasHelper then
      var e := g.(rec := g.rec.(exitByVdm := false));
      if present then Reevaluate(e, look) else Retrigger(e)
    else if g.rec.query then g
    else if sync.Some? then ExitAnswered(g, sync.value, look)
    else g.(rec := g.rec.(query := true))
  }

  function RunMonitor(g: Gpio, present: bool, sync: Option<Reply>, look: Look): Gpio {
    if !g.rec.active then g
    else if g.rec.exitByVdm then CheckExitByVdm(g, present, sync, look)
    else if present then Reevaluate(g, look)
    else Retrigger(g)
  }

  /** An added object counts when it is this ERoT's MCTP endpoint. */
  function EndpointAdded(g: Gpio, ours: bool, present: bool, sync: Option<Reply>, look: Look): Gpio {
    if !g.rec.active || !ours then g
    else if g.rec.exitByVdm then CheckExitByVdm(g, present, sync, look)
    else Reevaluate(g, look)
  }

  // ---- The line ----

  function ClearLine(l: Line): Line {
    l.(eventOn := false, held := false, last := None)
  }

  /** Only a first sample and a sample that differs from the last one are reported. */
  function PollReport(g: Gpio, found: bool, sample: Option<int>): Option<Reason> {
    if (!g.line.held && !found) || sample.None? || g.line.last == sample then None
    else Some(ReasonOf(g.cfg, sample.value))
  }

  function LineAfterPoll(l: Line, found: bool, sample: Option<int>): Line {
    if !l.held && !found then l
    else if sample.None? then ClearLine(l)
    else l.(held := true, last := sample)
  }

  function Poll(g: Gpio, found: bool, sample: Option<int>, probe: bool): Gpio {
    var report := PollReport(g, found, sample);
    var n := g.(line := LineAfterPoll(g.line, found, sample));
    if report.Some? then UpdateErotHealth(n, report.value, probe) else n
  }

  function Register(g: Gpio, reg: Registration, probe: bool): Gpio {
    if !reg.found || !reg.requested then g.(line := ClearLine(g.line))
    else
      var l := g.(line := g.line.(held := true));
      var a := if reg.value.Some? && IsActive(g.cfg, reg.value.value)
               then UpdateErotHealth(l, FatalErrorAssert, probe) else l;
      a.(line := if reg.fdOk then a.line.(eventOn := true) else ClearLine(a.line))
  }

  function StopRetry(g: Gpio): Gpio {
    g.(line := g.line.(retryTimer := false))
  }

  function StartRetry(g: Gpio): Gpio {
    g.(line := g.line.(retryTimer := true))
  }

  function RetryRegistration(g: Gpio, reg: Registration, probe: bool): Gpio {
    if g.line.eventOn then StopRetry(g)
    else
      var r := Register(g, reg, probe);
      if r.line.eventOn then StopRetry(r) else r
  }

  function Edge(g: Gpio, rising: bool, probe: bool): Gpio {
    UpdateErotHealth(g, if rising == g.cfg.activeHigh then FatalErrorAssert else FatalErrorDeassert, probe)
  }

  function UpdateHealth(g: Gpio, found: bool, sample: Option<int>, probe: bool): Gpio {
    if g.cfg.polling then Poll(g, found, sample, probe) else UpdateErotHealth(g, Refresh, probe)
  }

  // ---- Events ----

  datatype Event =
    | PollTick(found: bool, sample: Option<int>, probe: bool)
    | LineEdge(rising: bool, probe: bool)
    | LineGone
    | RetryTick(reg: Registration, probe: bool)
    | RefreshHealth(found: bool, sample: Option<int>, probe: bool)
    | ChassisPower(off: bool)
    | ApTick(sync: Option<Reply>)
    | ApReply(reply: Reply)
    | MonitorTick(present: bool, sync: Option<Reply>, look: Look)
    | Added(ours: bool, present: bool, sync: Option<Reply>, look: Look)
    | ExitReply(reply: Reply, look: Look)

  /** Timers tick only while armed, replies come only to queries in flight, and each
      monitor mode has its own line events. */
  predicate CanHappen(g: Gpio, e: Event) {
    match e
    case PollTick(_, _, _) => g.cfg.polling
    case LineEdge(_, _) => !g.cfg.polling && g.line.eventOn
    case LineGone => !g.cfg.polling && g.line.eventOn
    case RetryTick(_, _) => !g.cfg.polling && g.line.retryTimer
    case RefreshHealth(_, _, _) => true
    case ChassisPower(_) => true
    case ApTick(_) => g.check.timer
    case ApReply(_) => g.check.query
    case MonitorTick(_, _, _) => g.rec.timer
    case Added(_, _, _, _) => true
    case ExitReply(_, _) => g.rec.query
  }

  function Next(g: Gpio, e: Event): Gpio {
    match e
    case PollTick(found, sample, probe) => Poll(g, found, sample, probe)
    case LineEdge(rising, probe) => Edge(g, rising, probe)
    case LineGone => StartRetry(g.(line := ClearLine(g.line)))
    case RetryTick(reg, probe) => RetryRegistration(g, reg, probe)
    case RefreshHealth(found, sample, probe) => UpdateHealth(g, found, sample, probe)
    case ChassisPower(off) => g.(chassisOff := off)
    case ApTick(sync) => g.(check := RunQuery(g.cfg.ap, g.check, sync))
    case ApReply(reply) => g.(check := Answered(g.cfg.ap, g.check.(query := false), reply))
    case MonitorTick(present, sync, look) => RunMonitor(g, present, sync, look)
    case Added(ours, present, sync, look) => EndpointAdded(g, ours, present, sync, look)
    case ExitReply(reply, look) => ExitAnswered(g.(rec := g.rec.(query := false)), reply, look)
  }

  function Blank(cfg: Config, exitByVdm: bool): Gpio {
    Gpio(cfg, false, Hidden, IDLE, Recovery(false, 0, 0, 0, exitByVdm, false, false, false),
         Line(false, None, false, false))
  }

  /** The state the constructor leaves behind. */
  function Start(cfg: Config, exitByVdm: bool, reg: Registration, probe: bool): Gpio {
    var blank := Blank(cfg, exitByVdm);
    if cfg.polling then blank.(line := blank.line.(held := reg.found && reg.requested))
    else
      var r := Register(blank, reg, probe);
      if r.line.eventOn then r else StartRetry(r)
  }

  /** What a health update does, item by item: `off` leaves everything but the object
      alone, and otherwise the probe decides about recovery. */
  lemma UpdateMeaning(g: Gpio, reason: Reason, probe: bool)
    requires ApBootCheck.Inv(g.cfg.ap, g.check)
    ensures var n := UpdateErotHealth(g, reason, probe);
            var off, left := g.chassisOff, !g.chassisOff && !probe && g.rec.inRecovery;
            var starts := !off && !probe && reason == FatalErrorAssert && g.cfg.ap.hasAP;
            && n.rec.inRecovery == (if off then g.rec.inRecovery else probe)
            && n.rec.commits == g.rec.commits + (if !off && probe && !g.rec.inRecovery then 1 else 0)
            && n.rec.exits == g.rec.exits + (if left then 1 else 0)
            && n.rec.restarts == g.rec.restarts
                                 + (if g.cfg.hasTarget && (left || starts || (!off && probe && g.cfg.polling))
                                    then 1 else 0)
            && (starts && g.cfg.ap.hasHelper ==> n.check.active && n.check.timer && n.check.unavailable == 0)
            && (!off && !probe && reason == FatalErrorDeassert ==> !n.check.active && n.check.published == NoObject)
            && (off || probe || reason == Refresh ==> n.check == g.check)
            && n.erot == (if off then PoweredOff else if probe then ErotObject.InRecovery
                          else if g.cfg.hideWhenHealthy then Hidden else Healthy)
  {}

  // ---- What every handler keeps ----

  /** Errors committed and recoveries left differ by one exactly while in recovery, and
      the monitor with its timer runs exactly then, and only in polling mode. */
  ghost predicate RecoveryInv(cfg: Config, r: Recovery) {
    && r.commits - r.exits == (if r.inRecovery then 1 else 0)
    && r.active == r.timer == (cfg.polling && r.inRecovery)
  }

  /** In interrupt mode the line is listened to, or a retry is armed, never both. */
  ghost predicate LineInv(cfg: Config, l: Line) {
    && (!cfg.polling ==> l.eventOn == l.held == !l.retryTimer)
    && (!l.held ==> l.last == None)
  }

  ghost predicate Inv(g: Gpio) {
    && ApBootCheck.Inv(g.cfg.ap, g.check)
    && RecoveryInv(g.cfg, g.rec)
    && LineInv(g.cfg, g.line)
    && (g.erot != PoweredOff ==> (g.erot == ErotObject.InRecovery <==> g.rec.inRecovery))
  }

  /** All but the line: the part of the invariant that a health update is about. */
  ghost predicate HealthInv(g: Gpio) {
    && ApBootCheck.Inv(g.cfg.ap, g.check)
    && RecoveryInv(g.cfg, g.rec)
    && (g.erot != PoweredOff ==> (g.erot == ErotObject.InRecovery <==> g.rec.inRecovery))
  }

  /** A step keeps the health invariant and the configuration, and restarts the MCTP
      target at most once. */
  ghost predicate HealthStep(g: Gpio, n: Gpio) {
    && HealthInv(n) && n.cfg == g.cfg && n.chassisOff == g.chassisOff
    && g.rec.restarts <= n.rec.restarts <= g.rec.restarts + 1
  }

  lemma CheckAfterProbeKeeps(cfg: Config, c: Check, reason: Reason)
    requires ApBootCheck.Inv(cfg.ap, c)
    ensures ApBootCheck.Inv(cfg.ap, CheckAfterProbe(cfg, c, reason))
  {
    StartKeeps(cfg.ap, c);
  }

  lemma UpdateKeeps(g: Gpio, reason: Reason, probe: bool)
    requires HealthInv(g)
    ensures HealthStep(g, UpdateErotHealth(g, reason, probe))
    ensures UpdateErotHealth(g, reason, probe).line == g.line
  {
    hide ApBootCheck.Inv, CheckAfterProbe;
    CheckAfterProbeKeeps(g.cfg, g.check, reason);
  }

  lemma ReevaluateKeeps(g: Gpio, look: Look)
    requires HealthInv(g)
    ensures HealthStep(g, Reevaluate(g, look)) && Reevaluate(g, look).line == g.line
  {
    hide UpdateErotHealth, HealthInv;
    var value := if g.line.held then look.level else g.line.last;
    UpdateKeeps(g, if value.Some? then ReasonOf(g.cfg, value.value) else FatalErrorAssert, look.probe);
  }

  lemma ExitAnsweredKeeps(g: Gpio, reply: Reply, look: Look)
    requires HealthInv(g)
    ensures HealthStep(g, ExitAnswered(g, reply, look)) && ExitAnswered(g, reply, look).line == g.line
  {
    hide Reevaluate, ApBootCheck.Inv;
    ReevaluateKeeps(g, look);
  }

  lemma CheckExitByVdmKeeps(g: Gpio, present: bool, sync: Option<Reply>, look: Look)
    requires HealthInv(g)
    ensures var n := CheckExitByVdm(g, present, sync, look); HealthStep(g, n) && n.line == g.line
  {
    hide Reevaluate, ApBootCheck.Inv, ExitAnswered;
    ReevaluateKeeps(g.(rec := g.rec.(exitByVdm := false)), look);
    if sync.Some? {
      ExitAnsweredKeeps(g, sync.value, look);
    }
  }

  lemma MonitorKeeps(g: Gpio, ours: bool, present: bool, sync: Option<Reply>, look: Look)
    requires HealthInv(g)
    ensures var n := RunMonitor(g, present, sync, look); HealthStep(g, n) && n.line == g.line
    ensures var n := EndpointAdded(g, ours, present, sync, look); HealthStep(g, n) && n.line == g.line
  {
    hide Reevaluate, ApBootCheck.Inv, CheckExitByVdm;
    ReevaluateKeeps(g, look);
    CheckExitByVdmKeeps(g, present, sync, look);
  }

  lemma PollKeeps(g: Gpio, found: bool, sample: Option<int>, probe: bool)
    requires Inv(g) && g.cfg.polling
    ensures Inv(Poll(g, found, sample, probe)) && HealthStep(g, Poll(g, found, sample, probe))
  {
    hide UpdateErotHealth, ApBootCheck.Inv, RecoveryInv;
    var n := g.(line := LineAfterPoll(g.line, found, sample));
    var report := PollReport(g, found, sample);
    if report.Some? {
      UpdateKeeps(n, report.value, probe);
    }
  }

  lemma RegisterKeeps(g: Gpio, reg: Registration, probe: bool)
    requires HealthInv(g) && !g.cfg.polling && !g.line.eventOn && g.line.last == None
    ensures var n := Register(g, reg, probe);
            && HealthStep(g, n) && n.line.last == None
            && n.line.eventOn == n.line.held == (reg.found && reg.requested && reg.fdOk)
            && n.line.retryTimer == g.line.retryTimer
  {
    hide UpdateErotHealth, ApBootCheck.Inv, RecoveryInv;
    UpdateKeeps(g.(line := g.line.(held := true)), FatalErrorAssert, probe);
  }

  lemma StartEstablishes(cfg: Config, exitByVdm: bool, reg: Registration, probe: bool)
    ensures Inv(Start(cfg, exitByVdm, reg, probe)) && Start(cfg, exitByVdm, reg, probe).cfg == cfg
  {
    if !cfg.polling {
      RegisterKeeps(Blank(cfg, exitByVdm), reg, probe);
    }
  }

  lemma LineEventKeeps(g: Gpio, e: Event)
    requires Inv(g) && CanHappen(g, e)
    requires e.PollTick? || e.LineEdge? || e.LineGone? || e.RetryTick? || e.RefreshHealth? || e.ChassisPower?
    ensures Inv(Next(g, e)) && Next(g, e).cfg == g.cfg && Next(g, e).rec.restarts <= g.rec.restarts + 1
  {
    hide UpdateErotHealth, ApBootCheck.Inv, RecoveryInv, Poll, Register;
    match e
    case PollTick(found, sample, probe) =>
      PollKeeps(g, found, sample, probe);
    case LineEdge(rising, probe) =>
      UpdateKeeps(g, if rising == g.cfg.activeHigh then FatalErrorAssert else FatalErrorDeassert, probe);
    case RetryTick(reg, probe) =>
      RegisterKeeps(g, reg, probe);
    case RefreshHealth(found, sample, probe) =>
      if g.cfg.polling {
        PollKeeps(g, found, sample, probe);
      } else {
        UpdateKeeps(g, Refresh, probe);
      }
    case _ =>
  }

  lemma QueryEventKeeps(g: Gpio, e: Event)
    requires Inv(g) && CanHappen(g, e)
    requires e.ApTick? || e.ApReply? || e.MonitorTick? || e.Added? || e.ExitReply?
    ensures Inv(Next(g, e)) && Next(g, e).cfg == g.cfg && Next(g, e).rec.restarts <= g.rec.restarts + 1
  {
    hide ApBootCheck.Inv, RunMonitor, EndpointAdded, ExitAnswered, RunQuery, Answered;
    match e
    case ApTick(sync) =>
      NextKeeps(g.cfg.ap, g.check, Tick(sync));
    case ApReply(reply) =>
      NextKeeps(g.cfg.ap, g.check, Replied(reply));
    case MonitorTick(present, sync, look) =>
      MonitorKeeps(g, true, present, sync, look);
    case Added(ours, present, sync, look) =>
      MonitorKeeps(g, ours, present, sync, look);
    case ExitReply(reply, look) =>
      ExitAnsweredKeeps(g.(rec := g.rec.(query := false)), reply, look);
  }

  // ---- Whole runs ----

  ghost function Run(g: Gpio, events: seq<Event>): Gpio {
    if events == [] then g else Next(Run(g, events[..|events| - 1]), events[|events| - 1])
  }

  ghost predicate Possible(g: Gpio, events: seq<Event>) {
    events != [] ==>
      var before := events[..|events| - 1];
      Possible(g, before) && CanHappen(Run(g, before), events[|events| - 1])
  }

  /** Over every run, the invariants hold and no event restarts the MCTP target twice. */
  lemma {:induction false} RunKeeps(g: Gpio, events: seq<Event>)
    requires Inv(g) && Possible(g, events)
    ensures Inv(Run(g, events)) && Run(g, events).cfg == g.cfg
    ensures Run(g, events).rec.restarts <= g.rec.restarts + |events|
  {
    hide Inv, Next, CanHappen;
    if events != [] {
      var before, e := events[..|events| - 1], events[|events| - 1];
      RunKeeps(g, before);
      if e.ApTick? || e.ApReply? || e.MonitorTick? || e.Added? || e.ExitReply? {
        QueryEventKeeps(Run(g, before), e);
      } else {
        LineEventKeeps(Run(g, before), e);
      }
    }
  }

  /** From construction on: an active AP check always has something that will wake it;
      recoveries entered minus recoveries left is one in recovery and zero outside; the
      monitor runs exactly in recovery in polling mode and never in interrupt mode; and in
      interrupt mode the line is listened to unless a retry is armed. */
  lemma RecoveryAccounting(cfg: Config, exitByVdm: bool, reg: Registration, probe: bool, events: seq<Event>)
    requires Possible(Start(cfg, exitByVdm, reg, probe), events)
    ensures var n := Run(Start(cfg, exitByVdm, reg, probe), events);
            && (n.check.active ==> n.check.timer || n.check.query)
            && (!n.check.active ==> !n.check.timer && n.check.retries == 0)
            && n.check.retries <= cfg.ap.maxRetries && n.check.unavailable <= cfg.ap.maxRetries + 1
            && n.rec.commits - n.rec.exits == (if n.rec.inRecovery then 1 else 0)
            && n.rec.active == n.rec.timer == (cfg.polling && n.rec.inRecovery)
            && (!cfg.polling ==> n.line.eventOn == !n.line.retryTimer)
  {
    hide Start;
    StartEstablishes(cfg, exitByVdm, reg, probe);
    RunKeeps(Start(cfg, exitByVdm, reg, probe), events);
  }
}
