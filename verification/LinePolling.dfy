/** What polling a line reports, as a run-length compression of what it samples. */
module LinePolling {
  import opened Outcomes
  import opened ErotRecovery
  import ApBootCheck

  /** The events that poll the line: the timer's ticks, and health refreshes, which poll too
      in polling mode. */
  predicate IsPoll(e: Event) {
    e.PollTick? || e.RefreshHealth?
  }

  /** What a poll sees of the line: nothing while there is no line, or when reading fails. */
  function Reading(g: Gpio, e: Event): Option<int>
    requires IsPoll(e)
  {
    if !g.line.held && !e.found then None else e.sample
  }

  /** The readings that the polls of a run make, whatever happens between them. */
  ghost function Readings(g: Gpio, events: seq<Event>): seq<Option<int>> {
    if events == [] then []
    else
      var before, e := events[..|events| - 1], events[|events| - 1];
      Readings(g, before) + (if IsPoll(e) then [Reading(Run(g, before), e)] else [])
  }

  /** The updates that the polls of a run issue. */
  ghost function Reports(g: Gpio, events: seq<Event>): seq<Reason> {
    if events == [] then []
    else
      var before, e := events[..|events| - 1], events[|events| - 1];
      Reports(g, before) + (if IsPoll(e) then Listed(PollReport(Run(g, before), e.found, e.sample)) else [])
  }

  function Listed<T>(o: Option<T>): seq<T> {
    if o.Some? then [o.value] else []
  }

  function Last(readings: seq<Option<int>>): Option<int> {
    if readings == [] then None else readings[|readings| - 1]
  }

  /** FATAL_ERROR is asserted by a non-zero value of an active-high line, and by zero on an
      active-low one. */
  function Level(cfg: Config, value: int): Reason {
    if (cfg.activeHigh && value != 0) || (!cfg.activeHigh && value == 0) then FatalErrorAssert else FatalErrorDeassert
  }

  function Change(cfg: Config, before: Option<int>, reading: Option<int>): seq<Reason> {
    if reading.Some? && reading != before then [Level(cfg, reading.value)] else []
  }

  /** The level of each reading that succeeded and differs from the one just before it;
      a failed reading differs from every value. */
  function Changes(cfg: Config, readings: seq<Option<int>>): seq<Reason> {
    if readings == [] then []
    else
      var before := readings[..|readings| - 1];
      Changes(cfg, before) + Change(cfg, Last(before), readings[|readings| - 1])
  }

  lemma UpdateLeavesLine(g: Gpio, reason: Reason, probe: bool)
    ensures UpdateErotHealth(g, reason, probe).line == g.line && UpdateErotHealth(g, reason, probe).cfg == g.cfg
  {}

  lemma PollLine(g: Gpio, e: Event)
    requires IsPoll(e) && g.cfg.polling && (!g.line.held ==> g.line.last == None)
    ensures var n := Next(g, e);
            && n.cfg == g.cfg && n.line.last == Reading(g, e) && (!n.line.held ==> n.line.last == None)
  {
    hide UpdateErotHealth;
    var report := PollReport(g, e.found, e.sample);
    if report.Some? {
      UpdateLeavesLine(g.(line := LineAfterPoll(g.line, e.found, e.sample)), report.value, e.probe);
    }
  }

  lemma ReevaluateLeavesLine(g: Gpio, look: Look)
    ensures Reevaluate(g, look).line == g.line && Reevaluate(g, look).cfg == g.cfg
  {
    hide UpdateErotHealth;
    var value := if g.line.held then look.level else g.line.last;
    UpdateLeavesLine(g, if value.Some? then ReasonOf(g.cfg, value.value) else FatalErrorAssert, look.probe);
  }

  lemma ExitLeavesLine(g: Gpio, present: bool, sync: Option<ApBootCheck.Reply>, reply: ApBootCheck.Reply, look: Look)
    ensures var n := ExitAnswered(g, reply, look); n.line == g.line && n.cfg == g.cfg
    ensures var n := CheckExitByVdm(g, present, sync, look); n.line == g.line && n.cfg == g.cfg
  {
    hide Reevaluate;
    ReevaluateLeavesLine(g, look);
    ReevaluateLeavesLine(g.(rec := g.rec.(exitByVdm := false)), look);
  }

  /** In polling mode no event but a poll touches the line. */
  lemma OthersLeaveLine(g: Gpio, e: Event)
    requires g.cfg.polling && CanHappen(g, e) && !IsPoll(e)
    ensures Next(g, e).line == g.line && Next(g, e).cfg == g.cfg
  {
    hide Reevaluate, ExitAnswered, CheckExitByVdm, ApBootCheck.RunQuery, ApBootCheck.Answered;
    match e
    case MonitorTick(present, sync, look) =>
      ReevaluateLeavesLine(g, look);
      ExitLeavesLine(g, present, sync, ApBootCheck.Lost, look);
    case Added(ours, present, sync, look) =>
      ReevaluateLeavesLine(g, look);
      ExitLeavesLine(g, present, sync, ApBootCheck.Lost, look);
    case ExitReply(reply, look) =>
      ExitLeavesLine(g.(rec := g.rec.(query := false)), false, None, reply, look);
    case _ =>
  }

  /** Over every run in polling mode, with any other events between the polls: from a line
      that has no sample yet, the updates issued are the changes in what was read. */
  lemma {:induction false} PollingReportsChanges(g: Gpio, events: seq<Event>)
    requires g.cfg.polling && g.line.last == None && Possible(g, events)
    ensures Reports(g, events) == Changes(g.cfg, Readings(g, events))
    ensures var n := Run(g, events);
            n.cfg == g.cfg && n.line.last == Last(Readings(g, events)) && (!n.line.held ==> n.line.last == None)
  {
    hide Next, CanHappen, PollReport, Changes, Change, Last, Reading;
    if events == [] {
      NothingRead(g.cfg);
    } else {
      var before, e := events[..|events| - 1], events[|events| - 1];
      var n := Run(g, before);
      PollingReportsChanges(g, before);
      if IsPoll(e) {
        PollLine(n, e);
        PollIsChange(n, e);
        ChangesSnoc(g.cfg, Readings(g, before), Reading(n, e));
        LastSnoc(Readings(g, before), Reading(n, e));
      } else {
        OthersLeaveLine(n, e);
        assert Reports(g, before) + [] == Reports(g, before) && Readings(g, before) + [] == Readings(g, before);
      }
    }
  }

  lemma NothingRead(cfg: Config)
    ensures Changes(cfg, []) == [] && Last([]) == None
  {}

  lemma LastSnoc(readings: seq<Option<int>>, x: Option<int>)
    ensures Last(readings + [x]) == x
  {}

  lemma PollIsChange(g: Gpio, e: Event)
    requires IsPoll(e) && (!g.line.held ==> g.line.last == None)
    ensures Listed(PollReport(g, e.found, e.sample)) == Change(g.cfg, g.line.last, Reading(g, e))
  {}

  /** A new resource in polling mode has no sample yet. */
  lemma StartHasNoSample(cfg: Config, exitByVdm: bool, reg: Registration, probe: bool)
    requires cfg.polling
    ensures Start(cfg, exitByVdm, reg, probe).line.last == None && Start(cfg, exitByVdm, reg, probe).cfg == cfg
  {}

  lemma AppendSnoc<T>(a: seq<T>, b: seq<T>, x: T)
    ensures a + (b + [x]) == (a + b) + [x]
  {}

  lemma Reassociate<T>(a: seq<T>, b: seq<T>, c: seq<T>)
    ensures a + b + c == a + (b + c)
  {}

  /** A lost line starts the compression over. */
  lemma {:induction false} LossRestarts(cfg: Config, a: seq<Option<int>>, b: seq<Option<int>>)
    ensures Changes(cfg, (a + [None]) + b) == Changes(cfg, a) + Changes(cfg, b)
    decreases |b|
  {
    var lost := a + [None];
    if b == [] {
      ChangesSnoc(cfg, a, None);
      assert lost + b == lost;
    } else {
      hide Changes, Change, Last;
      var before, x := b[..|b| - 1], b[|b| - 1];
      assert b == before + [x];
      LossRestarts(cfg, a, before);
      LastIsNone(a);
      SnocAfterLoss(cfg, lost, before, x);
      ChangesSnoc(cfg, before, x);
      Reassociate(Changes(cfg, a), Changes(cfg, before), Change(cfg, Last(before), x));
    }
  }

  lemma LastIsNone(a: seq<Option<int>>)
    ensures Last(a + [None]) == None
  {}

  lemma SnocAfterLoss(cfg: Config, lost: seq<Option<int>>, before: seq<Option<int>>, x: Option<int>)
    requires lost != [] && Last(lost) == None
    ensures Changes(cfg, lost + (before + [x])) == Changes(cfg, lost + before) + Change(cfg, Last(before), x)
  {
    AppendSnoc(lost, before, x);
    ChangesSnoc(cfg, lost + before, x);
    assert Last(lost + before) == Last(before);
  }

  lemma ChangesSnoc(cfg: Config, readings: seq<Option<int>>, x: Option<int>)
    ensures Changes(cfg, readings + [x]) == Changes(cfg, readings) + Change(cfg, Last(readings), x)
  {
    assert (readings + [x])[..|readings|] == readings;
  }

  /** Each run of equal neighbours shrunk to one. */
  function Dedup(values: seq<int>): seq<int> {
    if |values| <= 1 then values
    else if values[0] == values[1] then Dedup(values[1..])
    else [values[0]] + Dedup(values[1..])
  }

  function Levels(cfg: Config, values: seq<int>): (r: seq<Reason>)
    ensures |r| == |values|
  {
    seq(|values|, i requires 0 <= i < |values| => Level(cfg, values[i]))
  }

  function Read(values: seq<int>): seq<Option<int>> {
    seq(|values|, i requires 0 <= i < |values| => Some(values[i]))
  }

  lemma {:induction false} DedupSnoc(values: seq<int>, v: int)
    requires values != []
    ensures Dedup(values + [v]) == if values[|values| - 1] == v then Dedup(values) else Dedup(values) + [v]
    ensures Dedup(values) != [] && Dedup(values)[|Dedup(values)| - 1] == values[|values| - 1]
  {
    var all := values + [v];
    assert all[1..] == values[1..] + [v];
    if |values| > 1 {
      DedupSnoc(values[1..], v);
    } else {
      assert Dedup([v]) == [v];
    }
  }

  lemma {:induction false} DedupAlternates(values: seq<int>)
    ensures forall i: nat | i + 1 < |Dedup(values)| :: Dedup(values)[i] != Dedup(values)[i + 1]
    ensures forall v | v in Dedup(values) :: v in values
    ensures values != [] ==> Dedup(values) != [] && Dedup(values)[0] == values[0]
  {
    if |values| > 1 {
      DedupAlternates(values[1..]);
    }
  }

  lemma LevelsSnoc(cfg: Config, values: seq<int>, v: int)
    ensures Levels(cfg, values + [v]) == Levels(cfg, values) + [Level(cfg, v)]
    ensures Read(values + [v]) == Read(values) + [Some(v)]
  {}

  lemma OneReading(cfg: Config, v: int)
    ensures Changes(cfg, Read([v])) == Levels(cfg, [v])
  {
    assert Read([v])[..0] == [];
  }

  /** While the line is not lost, the reports are the levels of the samples with adjacent
      repeats removed. */
  lemma {:induction false} ChangesAreDedup(cfg: Config, values: seq<int>)
    ensures Changes(cfg, Read(values)) == Levels(cfg, Dedup(values))
  {
    if values == [] {
    } else if |values| == 1 {
      OneReading(cfg, values[0]);
      assert values == [values[0]];
    } else {
      hide Changes, Dedup, Levels;
      var before, v := values[..|values| - 1], values[|values| - 1];
      ChangesAreDedup(cfg, before);
      assert values == before + [v];
      LevelsSnoc(cfg, before, v);
      DedupSnoc(before, v);
      LevelsSnoc(cfg, Dedup(before), v);
      ChangesSnoc(cfg, Read(before), Some(v));
      assert Last(Read(before)) == Some(before[|before| - 1]);
    }
  }

  /** For a line of zeros and ones the compression is exact: reports alternate, and the
      last one names the level of the last sample. */
  lemma BitReportsAlternate(cfg: Config, values: seq<int>)
    requires forall v | v in values :: v == 0 || v == 1
    ensures var reports := Changes(cfg, Read(values));
            && (forall i: nat | i + 1 < |reports| :: reports[i] != reports[i + 1])
            && (values != [] ==> reports != [])
            && (values != [] ==>
                  (reports[|reports| - 1] == FatalErrorAssert <==> cfg.activeHigh == (values[|values| - 1] != 0)))
  {
    ChangesAreDedup(cfg, values);
    DedupAlternates(values);
    var d := Dedup(values);
    forall i: nat | i + 1 < |d|
      ensures Levels(cfg, d)[i] != Levels(cfg, d)[i + 1]
    {
      assert d[i] in values && d[i + 1] in values;
    }
    if values != [] {
      DedupSnoc(values, 0);
    }
  }
}
