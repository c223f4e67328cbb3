/** What the ERoT resource's events come to, said by the line's polarity, the sample, the
    reply and the probe. */
module ErotMeaning {
  import opened Bytes
  import opened Outcomes
  import opened ErotRecovery
  import ApBootCheck

  // ---- Which update an event issues ----

  /** Assertion and deassertion by polarity. */
  lemma ReasonByLevel(cfg: Config, value: int)
    ensures ReasonOf(cfg, value) == FatalErrorAssert
            <==> (cfg.activeHigh && value != 0) || (!cfg.activeHigh && value == 0)
    ensures ReasonOf(cfg, value) != Refresh
  {}

  /** A poll that reads a first or a changed value issues the update of its level; any other
      issues none. */
  lemma PollMeaning(g: Gpio, found: bool, sample: Option<int>, probe: bool)
    ensures var n := Poll(g, found, sample, probe);
            var seen := (g.line.held || found) && sample.Some?;
            if seen && g.line.last != sample
            then n == UpdateErotHealth(g.(line := g.line.(held := true, last := sample)),
                                       if g.cfg.activeHigh == (sample.value != 0) then FatalErrorAssert
                                       else FatalErrorDeassert, probe)
            else n.check == g.check && n.rec == g.rec && n.erot == g.erot
  {
    hide UpdateErotHealth;
  }

  /** A registration issues an assertion exactly when the line it got is at its active level,
      and never a deassertion. */
  lemma RegisterMeaning(g: Gpio, reg: Registration, probe: bool)
    ensures var n := Register(g, reg, probe);
            var held := g.(line := g.line.(held := true));
            var asserts := reg.found && reg.requested && reg.value.Some?
                           && g.cfg.activeHigh == (reg.value.value != 0);
            var u := if asserts then UpdateErotHealth(held, FatalErrorAssert, probe) else g;
            n.check == u.check && n.rec == u.rec && n.erot == u.erot
  {
    hide UpdateErotHealth;
  }

  /** A re-evaluation goes by the line when one is held, otherwise by the last sample, and
      takes the worst when there is neither or the line cannot be read. */
  lemma ReevaluateMeaning(g: Gpio, look: Look)
    ensures Reevaluate(g, look) == UpdateErotHealth(g, ReasonSeen(g, look), look.probe)
  {
    hide UpdateErotHealth;
  }

  predicate Asserts(cfg: Config, level: Option<int>) {
    level == None || cfg.activeHigh == (level.value != 0)
  }

  function ReasonSeen(g: Gpio, look: Look): Reason {
    if Asserts(g.cfg, if g.line.held then look.level else g.line.last) then FatalErrorAssert else FatalErrorDeassert
  }

  /** A rising edge is a sample of 1, a falling edge a sample of 0. */
  lemma EdgeMeaning(g: Gpio, rising: bool, probe: bool)
    ensures Edge(g, rising, probe)
            == UpdateErotHealth(g, if g.cfg.activeHigh == rising then FatalErrorAssert else FatalErrorDeassert, probe)
    ensures g.line.held && g.line.last == None ==>
              Edge(g, rising, probe) == Poll(g, true, Some(if rising then 1 else 0), probe).(line := g.line)
  {
    var value := if rising then 1 else 0;
    ReasonByLevel(g.cfg, value);
    if g.line.held && g.line.last == None {
      assert Poll(g, true, Some(value), probe)
             == UpdateErotHealth(g.(line := g.line.(last := Some(value))), ReasonOf(g.cfg, value), probe);
    }
  }

  /** A refresh polls in polling mode, and otherwise probes without touching the check. */
  lemma RefreshMeaning(g: Gpio, found: bool, sample: Option<int>, probe: bool)
    ensures var n := Next(g, RefreshHealth(found, sample, probe));
            if g.cfg.polling then n == Next(g, PollTick(found, sample, probe))
            else n.check == g.check && n.line == g.line
  {}

  /** The line that construction leaves: held in polling mode exactly when it was found and
      requested, listened to in interrupt mode exactly when the event was set up too. */
  lemma StartMeaning(cfg: Config, exitByVdm: bool, reg: Registration, probe: bool)
    ensures var s := Start(cfg, exitByVdm, reg, probe);
            && (cfg.polling ==> (s.line.held <==> reg.found && reg.requested) && !s.line.eventOn && !s.line.retryTimer)
            && (!cfg.polling ==> (s.line.eventOn <==> reg.found && reg.requested && reg.fdOk))
            && s.rec.exitByVdm == exitByVdm
  {
    if !cfg.polling {
      RegisterKeeps(Blank(cfg, exitByVdm), reg, probe);
    }
  }

  // ---- How recovery ends ----

  /** The monitor's events by which the ERoT is seen to be back: its endpoint is present or
      added, or it answers. With the exit check by VDM only an answer counts, unless there is
      no helper to ask with. */
  predicate SeesErot(g: Gpio, e: Event) {
    var byVdm := g.rec.exitByVdm && g.cfg.ap.hasHelper;
    match e
    case MonitorTick(present, sync, _) => if byVdm then AnswersNow(g, sync) else present
    case Added(ours, present, sync, _) =>
      ours && (if byVdm then AnswersNow(g, sync) else if g.rec.exitByVdm then present else true)
    case ExitReply(reply, _) => IsAnswer(reply)
    case _ => false
  }

  predicate IsAnswer(reply: ApBootCheck.Reply) {
    reply.Message? && |reply.payload| >= 1
  }

  predicate AnswersNow(g: Gpio, sync: Option<ApBootCheck.Reply>) {
    !g.rec.query && sync.Some? && IsAnswer(sync.value)
  }

  predicate IsMonitorEvent(e: Event) {
    e.MonitorTick? || e.Added? || e.ExitReply?
  }

  /** An ERoT that is seen is evaluated again by the level of its line, whatever the event;
      without a helper the exit check falls back to the endpoint for good. */
  lemma SeenIsEvaluated(g: Gpio, e: Event)
    requires CanHappen(g, e) && g.rec.active && SeesErot(g, e)
    ensures var r := if e.ExitReply? then g.rec.(query := false)
                     else g.rec.(exitByVdm := g.rec.exitByVdm && g.cfg.ap.hasHelper);
            Next(g, e) == UpdateErotHealth(g.(rec := r), ReasonSeen(g, e.look), e.look.probe)
  {
    hide UpdateErotHealth, Reevaluate;
    var r := if e.ExitReply? then g.rec.(query := false)
             else g.rec.(exitByVdm := g.rec.exitByVdm && g.cfg.ap.hasHelper);
    ReevaluateMeaning(g.(rec := r), e.look);
  }

  /** In recovery, a monitor event ends it exactly when the ERoT is seen, the chassis is on
      and the probe says so; the exit is counted then. */
  lemma RecoveryEndsBy(g: Gpio, e: Event)
    requires Inv(g) && CanHappen(g, e) && g.rec.active && IsMonitorEvent(e)
    ensures var n := Next(g, e);
            var ends := SeesErot(g, e) && !g.chassisOff && !e.look.probe;
            n.rec.inRecovery == !ends && n.rec.exits == g.rec.exits + (if ends then 1 else 0)
  {
    hide Reevaluate, Inv, LineInv;
    ReevaluationEnds(g, e.look);
    ReevaluationEnds(g.(rec := g.rec.(exitByVdm := false)), e.look);
    ReevaluationEnds(g.(rec := g.rec.(query := false)), e.look);
    assert g.rec.inRecovery by { ActiveInRecovery(g); }
  }

  lemma ActiveInRecovery(g: Gpio)
    requires Inv(g) && g.rec.active
    ensures g.rec.inRecovery
  {}

  lemma ReevaluationEnds(g: Gpio, look: Look)
    ensures var n := Reevaluate(g, look);
            var ends := g.rec.inRecovery && !g.chassisOff && !look.probe;
            && n.rec.exits == g.rec.exits + (if ends then 1 else 0)
            && (g.rec.inRecovery ==> n.rec.inRecovery == !ends)
  {}

  /** Nothing that the monitor sees matters outside recovery, or in interrupt mode. */
  lemma MonitorIsQuietOutside(g: Gpio, e: Event)
    requires Inv(g) && CanHappen(g, e) && !g.rec.active && IsMonitorEvent(e)
    ensures Next(g, e) == g.(rec := g.rec.(query := if e.ExitReply? then false else g.rec.query))
  {}

  /** While the ERoT is not seen, discovery is triggered again: by a tick that finds nothing,
      by a query that fails, and by its endpoint when that does not count; but not while a
      query is in flight. Other endpoints do nothing. */
  lemma MonitorTriggers(g: Gpio, e: Event)
    requires Inv(g) && CanHappen(g, e) && g.rec.active && IsMonitorEvent(e) && !SeesErot(g, e)
    ensures var n := Next(g, e);
            var asks := !e.ExitReply? && g.rec.exitByVdm && g.cfg.ap.hasHelper && (g.rec.query || e.sync.None?);
            if e.Added? && !e.ours then n == g
            else
              && n.rec.restarts == g.rec.restarts + (if g.cfg.hasTarget && !asks then 1 else 0)
              && (asks ==> n.rec.query)
              && n.check == g.check && n.erot == g.erot
  {}

  // ---- The AP's verdict at the resource ----

  /** The reply to the query in flight decides about an active check, by its bits. */
  lemma ApReplyDecides(g: Gpio, reply: ApBootCheck.Reply)
    requires Inv(g) && g.check.active && g.check.query
    ensures var v := Next(g, ApReply(reply)).check.verdict;
            var readable := reply != ApBootCheck.Lost && |reply.payload| > 4;
            && (v == Some(ApBootCheck.Failed) <==>
                readable && exists k | 27 <= k < 32 :: BitOf(BigEndian(reply.payload[1..]), k))
            && (v == Some(ApBootCheck.Booted) <==>
                readable && (forall k | 27 <= k < 32 :: !BitOf(BigEndian(reply.payload[1..]), k))
                && BitOf(BigEndian(reply.payload[1..]), 5))
  {
    hide BitOf, BigEndian, ApBootCheck.Answered;
    ApBootCheck.VerdictOfReply(g.cfg.ap, g.check, reply);
  }

  /** A tick of the check's timer sends a query, unless one is in flight. */
  lemma ApTickQueries(g: Gpio)
    requires Inv(g) && g.check.timer
    ensures var n := Next(g, ApTick(None)).check; n == g.check.(timer := false, query := true)
    ensures forall sync :: g.check.query ==> Next(g, ApTick(sync)).check == g.check.(timer := false)
  {}
}
