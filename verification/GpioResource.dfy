/** The ERoT resource as the source keeps it: fields that the timers', the line's and the
    bus's callbacks update in place. */
module GpioResource {
  import opened Bytes
  import opened Outcomes
  import opened ApBootCheck
  import opened ErotRecovery

  /** `chassisOff` is the base resource's view of the chassis; `gpioEvent`, the timers and
      the two query coroutines are kept as whether they are armed or in flight. */
  class GPIOResource {
    const cfg: Config
    var chassisOff: bool
    var erot: ErotObject
    var isFirmwareInRecovery: bool
    var vdmExitCheck: bool
    var lastGpioValue: Option<int>
    var gpioLine: bool
    var gpioEvent: bool
    var gpioRetryTimer: bool
    var apObject: ApObject
    var apBootStatusRetryTimer: bool
    var apBootStatusCheckActive: bool
    var apBootStatusQueryRetryCount: nat
    var apBootStatusCo: bool
    var erotRecoveryMonitorTimer: bool
    var erotRecoveryMonitorActive: bool
    var erotExitCheckCo: bool
    ghost var unavailable: nat
    ghost var verdict: Option<Verdict>
    ghost var commits: nat
    ghost var exits: nat
    ghost var restarts: nat

    ghost function ApAbs(): Check
      reads this
    {
      Check(apObject, apBootStatusCheckActive, apBootStatusQueryRetryCount, apBootStatusRetryTimer, apBootStatusCo,
            unavailable, verdict)
    }

    ghost function RecoveryAbs(): Recovery
      reads this
    {
      Recovery(isFirmwareInRecovery, commits, exits, restarts, vdmExitCheck, erotRecoveryMonitorActive,
               erotRecoveryMonitorTimer, erotExitCheckCo)
    }

    ghost function LineAbs(): Line
      reads this
    {
      Line(gpioLine, lastGpioValue, gpioEvent, gpioRetryTimer)
    }

    ghost function Abs(): Gpio
      reads this
    {
      Gpio(cfg, chassisOff, erot, ApAbs(), RecoveryAbs(), LineAbs())
    }

    constructor (config: Config, exitByVdm: bool, reg: Registration, probe: bool)
      ensures cfg == config && Abs() == ErotRecovery.Start(config, exitByVdm, reg, probe)
    {
      cfg := config;
      chassisOff := false;
      erot := Hidden;
      isFirmwareInRecovery := false;
      vdmExitCheck := exitByVdm;
      lastGpioValue := None;
      gpioLine := false;
      gpioEvent := false;
      gpioRetryTimer := false;
      apObject := NoObject;
      apBootStatusRetryTimer := false;
      apBootStatusCheckActive := false;
      apBootStatusQueryRetryCount := 0;
      apBootStatusCo := false;
      erotRecoveryMonitorTimer := false;
      erotRecoveryMonitorActive := false;
      erotExitCheckCo := false;
      unavailable, verdict, commits, exits, restarts := 0, None, 0, 0, 0;
      new;
      assert Abs() == Blank(config, exitByVdm);
      if config.polling {
        var ready := RequestGPIOInputLine(reg.found && reg.requested);
      } else {
        var registered := RegisterGPIOEvent(reg, probe);
        if !registered {
          StartGPIOEventRetry();
        }
      }
    }

    // ---- The AP boot-status check ----

    method DisarmAPBootStatusTimer()
      modifies this
      ensures Abs() == old(Abs()).(check := old(ApAbs()).(timer := false))
    {
      apBootStatusRetryTimer := false;
    }

    method StopAPBootStatusCheck()
      modifies this
      ensures Abs() == old(Abs()).(check := Stop(old(ApAbs())))
    {
      apBootStatusCheckActive := false;
      apBootStatusQueryRetryCount := 0;
      DisarmAPBootStatusTimer();
    }

    method ScheduleAPBootStatusQuery()
      modifies this
      ensures Abs() == old(Abs()).(check := Schedule(cfg.ap, old(ApAbs())))
    {
      if !apBootStatusCheckActive || !cfg.ap.hasAP {
        return;
      }
      apBootStatusRetryTimer := true;
    }

    method StartAPBootStatusCheck()
      modifies this
      ensures Abs() == old(Abs()).(check := ApBootCheck.Start(cfg.ap, old(ApAbs())))
    {
      if !cfg.ap.hasAP || !cfg.ap.hasHelper {
        return;
      }
      StopAPBootStatusCheck();
      apBootStatusQueryRetryCount := 0;
      apBootStatusCheckActive := true;
      unavailable, verdict := 0, None;
      ScheduleAPBootStatusQuery();
    }

    method MarkAPUnhealthy()
      modifies this
      ensures Abs() == old(Abs()).(check := Stop(old(ApAbs()).(published := Unhealthy, verdict := Some(Failed))))
    {
      apObject := Unhealthy;
      verdict := Some(Failed);
      StopAPBootStatusCheck();
    }

    method HandleAPBootStatusUnavailable()
      modifies this
      ensures Abs() == old(Abs()).(check := Unavailable(cfg.ap, old(ApAbs())))
    {
      if !apBootStatusCheckActive || !cfg.ap.hasAP {
        return;
      }
      unavailable := unavailable + 1;
      if apBootStatusQueryRetryCount >= cfg.ap.maxRetries {
        apObject := Degraded;
        verdict := Some(Unresolved);
        StopAPBootStatusCheck();
        return;
      }
      apBootStatusQueryRetryCount := apBootStatusQueryRetryCount + 1;
      ScheduleAPBootStatusQuery();
    }

    method HandleAPBootStatus(status: seq<Byte>)
      modifies this
      ensures Abs() == old(Abs()).(check := OnStatus(cfg.ap, old(ApAbs()), status))
    {
      hide BootStatus.GetBit, BootStatus.FatalCode, Unavailable;
      var fatalErrorCode := BootStatus.GetAPFatalErrorCode(status);
      if fatalErrorCode.None? {
        HandleAPBootStatusUnavailable();
        return;
      }
      if fatalErrorCode.value != 0 {
        MarkAPUnhealthy();
        return;
      }
      if BootStatus.GetBit(status, BootStatus.BOOT_COMPLETE_TIMEOUT_BIT) {
        MarkAPUnhealthy();
        return;
      }
      if BootStatus.GetBit(status, BootStatus.BOOT_COMPLETE_BIT) {
        apObject := NoObject;
        verdict := Some(Booted);
        StopAPBootStatusCheck();
        return;
      }
      HandleAPBootStatusUnavailable();
    }

    /** The query coroutine from its reply on. */
    method FinishAPBootStatusQuery(reply: Reply)
      modifies this
      ensures Abs() == old(Abs()).(check := Answered(cfg.ap, old(ApAbs()), reply))
    {
      hide OnStatus, Unavailable;
      if !apBootStatusCheckActive || !cfg.ap.hasAP {
        return;
      }
      if reply == Lost || |reply.payload| <= 1 {
        HandleAPBootStatusUnavailable();
        return;
      }
      HandleAPBootStatus(reply.payload[1..]);
    }

    method RunAPBootStatusQuery(sync: Option<Reply>)
      modifies this
      ensures Abs() == old(Abs()).(check := RunQuery(cfg.ap, old(ApAbs()), sync))
    {
      hide Answered;
      DisarmAPBootStatusTimer();
      if !apBootStatusCheckActive || !cfg.ap.hasAP || !cfg.ap.hasHelper {
        return;
      }
      if apBootStatusCo {
        return;
      }
      if sync.Some? {
        FinishAPBootStatusQuery(sync.value);
      } else {
        apBootStatusCo := true;
      }
    }

    // ---- The recovery monitor ----

    method TriggerMctpDiscovery()
      modifies this
      ensures Abs() == old(Abs()).(rec := Discover(cfg, old(RecoveryAbs())))
    {
      if !cfg.hasTarget {
        return;
      }
      restarts := restarts + 1;
    }

    method StartERoTRecoveryMonitor()
      modifies this
      ensures Abs() == old(Abs()).(rec := StartMonitor(cfg, old(RecoveryAbs())))
    {
      if !cfg.polling {
        return;
      }
      erotRecoveryMonitorActive := true;
      if !erotRecoveryMonitorTimer {
        erotRecoveryMonitorTimer := true;
      }
      TriggerMctpDiscovery();
    }

    method StopERoTRecoveryMonitor()
      modifies this
      ensures Abs() == old(Abs()).(rec := StopMonitor(old(RecoveryAbs())))
    {
      erotRecoveryMonitorActive := false;
      if !erotRecoveryMonitorTimer {
        return;
      }
      erotRecoveryMonitorTimer := false;
    }

    /** `probe` is the crisis-bus probe's answer: true unless it says "not in recovery". */
    method UpdateERoTHealth(reason: Reason, probe: bool)
      modifies this
      ensures Abs() == UpdateErotHealth(old(Abs()), reason, probe)
    {
      hide EnterRecovery, NotInRecovery, CheckAfterProbe;
      if chassisOff {
        erot := PoweredOff;
        return;
      }
      if probe {
        EnterRecoveryMode();
        return;
      }
      UpdateOutOfRecovery(reason);
    }

    /** Only the transition into recovery commits the error. */
    method EnterRecoveryMode()
      modifies this
      ensures Abs() == old(Abs()).(erot := ErotObject.InRecovery, rec := EnterRecovery(cfg, old(RecoveryAbs())))
    {
      hide StartMonitor;
      if !isFirmwareInRecovery {
        commits := commits + 1;
      }
      isFirmwareInRecovery := true;
      erot := ErotObject.InRecovery;
      StartERoTRecoveryMonitor();
    }

    /** The rest of a health update once the probe says that the ERoT is not in recovery. */
    method UpdateOutOfRecovery(reason: Reason)
      modifies this
      ensures Abs() == old(Abs()).(erot := if cfg.hideWhenHealthy then Hidden else Healthy,
                                   check := CheckAfterProbe(cfg, old(ApAbs()), reason),
                                   rec := NotInRecovery(cfg, old(RecoveryAbs()), reason))
    {
      hide Stop, ApBootCheck.Start;
      if reason == FatalErrorDeassert {
        StopAPBootStatusCheck();
        apObject := NoObject;
        assert ApAbs() == Stop(old(ApAbs())).(published := NoObject);
      }
      var systemTargetRestarted := LeaveRecoveryMode();
      erot := if cfg.hideWhenHealthy then Hidden else Healthy;
      if reason == FatalErrorAssert && cfg.ap.hasAP {
        if cfg.hasTarget && !systemTargetRestarted {
          TriggerMctpDiscovery();
        }
        StartAPBootStatusCheck();
      }
    }

    method LeaveRecoveryMode() returns (systemTargetRestarted: bool)
      modifies this
      ensures Abs() == old(Abs()).(rec := LeaveRecovery(cfg, old(RecoveryAbs())))
      ensures systemTargetRestarted <==> old(isFirmwareInRecovery) && cfg.hasTarget
    {
      systemTargetRestarted := false;
      if isFirmwareInRecovery {
        StopERoTRecoveryMonitor();
        if cfg.hasTarget {
          restarts := restarts + 1;
          systemTargetRestarted := true;
        }
        exits := exits + 1;
        isFirmwareInRecovery := false;
      }
    }

    method ReevaluateERoTHealthAfterRecovery(look: Look)
      modifies this
      ensures Abs() == Reevaluate(old(Abs()), look)
    {
      hide UpdateErotHealth;
      var reason := FatalErrorAssert;
      var value := if gpioLine then look.level else lastGpioValue;
      if value.Some? {
        reason := if IsActive(cfg, value.value) then FatalErrorAssert else FatalErrorDeassert;
      }
      UpdateERoTHealth(reason, look.probe);
    }

    method RunERoTRecoveryMonitor(present: bool, sync: Option<Reply>, look: Look)
      modifies this
      ensures Abs() == RunMonitor(old(Abs()), present, sync, look)
      decreases vdmExitCheck, 1
    {
      hide Reevaluate;
      if !erotRecoveryMonitorActive {
        return;
      }
      if vdmExitCheck {
        RunERoTExitVdmCheck(present, sync, look);
        return;
      }
      if present {
        ReevaluateERoTHealthAfterRecovery(look);
        return;
      }
      TriggerMctpDiscovery();
    }

    /** Without the helper the endpoint check takes over for good. */
    method RunERoTExitVdmCheck(present: bool, sync: Option<Reply>, look: Look)
      requires vdmExitCheck && erotRecoveryMonitorActive
      modifies this
      ensures Abs() == CheckExitByVdm(old(Abs()), present, sync, look)
      decreases vdmExitCheck, 0
    {
      hide Reevaluate;
      if !cfg.ap.hasHelper {
        vdmExitCheck := false;
        RunERoTRecoveryMonitor(present, sync, look);
        return;
      }
      if erotExitCheckCo {
        return;
      }
      if sync.Some? {
        FinishERoTExitQuery(sync.value, look);
      } else {
        erotExitCheckCo := true;
      }
    }

    /** The exit query's coroutine from its reply on. */
    method FinishERoTExitQuery(reply: Reply, look: Look)
      modifies this
      ensures Abs() == ExitAnswered(old(Abs()), reply, look)
    {
      hide Reevaluate;
      if !erotRecoveryMonitorActive {
        return;
      }
      if reply == Lost || |reply.payload| < 1 {
        TriggerMctpDiscovery();
        return;
      }
      ReevaluateERoTHealthAfterRecovery(look);
    }

    method OnERoTEndpointAdded(ours: bool, present: bool, sync: Option<Reply>, look: Look)
      modifies this
      ensures Abs() == EndpointAdded(old(Abs()), ours, present, sync, look)
    {
      hide Reevaluate, CheckExitByVdm;
      if !erotRecoveryMonitorActive || !ours {
        return;
      }
      if vdmExitCheck {
        RunERoTExitVdmCheck(present, sync, look);
        return;
      }
      ReevaluateERoTHealthAfterRecovery(look);
    }

    // ---- The line ----

    method ClearGPIOEvent()
      modifies this
      ensures Abs() == old(Abs()).(line := ClearLine(old(LineAbs())))
    {
      gpioEvent := false;
      gpioLine := false;
      lastGpioValue := None;
    }

    method RegisterGPIOEvent(reg: Registration, probe: bool) returns (ok: bool)
      modifies this
      ensures Abs() == Register(old(Abs()), reg, probe)
      ensures ok <==> reg.found && reg.requested && reg.fdOk
    {
      hide UpdateErotHealth;
      gpioLine := reg.found;
      if !reg.found || !reg.requested {
        gpioLine := false;
        ClearGPIOEvent();
        return false;
      }
      if reg.value.Some? && IsActive(cfg, reg.value.value) {
        UpdateERoTHealth(FatalErrorAssert, probe);
      }
      if !reg.fdOk {
        ClearGPIOEvent();
        return false;
      }
      gpioEvent := true;
      return true;
    }

    method StartGPIOEventRetry()
      modifies this
      ensures Abs() == StartRetry(old(Abs()))
    {
      if gpioRetryTimer {
        return;
      }
      gpioRetryTimer := true;
    }

    method StopGPIOEventRetry()
      modifies this
      ensures Abs() == StopRetry(old(Abs()))
    {
      if !gpioRetryTimer {
        return;
      }
      gpioRetryTimer := false;
    }

    method RetryGPIOEventRegistration(reg: Registration, probe: bool)
      modifies this
      ensures Abs() == RetryRegistration(old(Abs()), reg, probe)
    {
      hide UpdateErotHealth;
      if gpioEvent {
        StopGPIOEventRetry();
        return;
      }
      var registered := RegisterGPIOEvent(reg, probe);
      if !registered {
        return;
      }
      StopGPIOEventRetry();
    }

    /** `rising` is None when reading the event says that the line is gone. */
    method WaitForGPIOEvent(rising: Option<bool>, probe: bool)
      modifies this
      ensures Abs() == if rising.Some? then Edge(old(Abs()), rising.value, probe)
                       else ErotRecovery.Next(old(Abs()), LineGone)
    {
      hide UpdateErotHealth;
      if rising.None? {
        ClearGPIOEvent();
        StartGPIOEventRetry();
        return;
      }
      var fatalErrorAsserted := (rising.value && cfg.activeHigh) || (!rising.value && !cfg.activeHigh);
      UpdateERoTHealth(if fatalErrorAsserted then FatalErrorAssert else FatalErrorDeassert, probe);
    }

    method RequestGPIOInputLine(found: bool) returns (ready: bool)
      modifies this
      ensures ready == (old(gpioLine) || found)
      ensures Abs() == old(Abs()).(line := old(LineAbs()).(held := ready))
    {
      if gpioLine {
        return true;
      }
      gpioLine := found;
      return found;
    }

    /** `sample` is None when reading the line fails. */
    method PollGpio(found: bool, sample: Option<int>, probe: bool)
      modifies this
      ensures Abs() == Poll(old(Abs()), found, sample, probe)
    {
      hide UpdateErotHealth;
      var ready := RequestGPIOInputLine(found);
      if !ready {
        return;
      }
      if sample.None? {
        ClearGPIOEvent();
        return;
      }
      var value := sample.value;
      var previousValue := lastGpioValue;
      var changed := previousValue.Some? && previousValue.value != value;
      lastGpioValue := Some(value);
      if previousValue.None? {
        if IsActive(cfg, value) {
          UpdateERoTHealth(FatalErrorAssert, probe);
        } else {
          UpdateERoTHealth(FatalErrorDeassert, probe);
        }
        return;
      }
      if changed {
        UpdateERoTHealth(if IsActive(cfg, value) then FatalErrorAssert else FatalErrorDeassert, probe);
      }
    }

    method UpdateHealth(found: bool, sample: Option<int>, probe: bool)
      modifies this
      ensures Abs() == ErotRecovery.UpdateHealth(old(Abs()), found, sample, probe)
    {
      hide UpdateErotHealth, Poll;
      if cfg.polling {
        PollGpio(found, sample, probe);
      } else {
        UpdateERoTHealth(Refresh, probe);
      }
    }

    /** One turn of the event loop: every invariant survives it. */
    method Dispatch(e: Event)
      requires ErotRecovery.Inv(Abs()) && ErotRecovery.CanHappen(Abs(), e)
      modifies this
      ensures Abs() == ErotRecovery.Next(old(Abs()), e) && ErotRecovery.Inv(Abs())
    {
      hide ErotRecovery.Inv, UpdateErotHealth, Poll, Register, RunMonitor, EndpointAdded, ExitAnswered;
      hide RunQuery, Answered;
      if e.ApTick? || e.ApReply? || e.MonitorTick? || e.Added? || e.ExitReply? {
        QueryEventKeeps(Abs(), e);
      } else {
        LineEventKeeps(Abs(), e);
      }
      match e
      case PollTick(found, sample, probe) => PollGpio(found, sample, probe);
      case LineEdge(rising, probe) => WaitForGPIOEvent(Some(rising), probe);
      case LineGone => WaitForGPIOEvent(None, false);
      case RetryTick(reg, probe) => RetryGPIOEventRegistration(reg, probe);
      case RefreshHealth(found, sample, probe) => UpdateHealth(found, sample, probe);
      case ChassisPower(off) => chassisOff := off;
      case ApTick(sync) => RunAPBootStatusQuery(sync);
      case ApReply(reply) =>
        apBootStatusCo := false;
        FinishAPBootStatusQuery(reply);
      case MonitorTick(present, sync, look) => RunERoTRecoveryMonitor(present, sync, look);
      case Added(ours, present, sync, look) => OnERoTEndpointAdded(ours, present, sync, look);
      case ExitReply(reply, look) =>
        erotExitCheckCo := false;
        FinishERoTExitQuery(reply, look);
    }
  }
}
