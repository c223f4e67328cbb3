/** What the progress objects of one SPI object say about its operations, over whole runs. */
module SpiOutcomes {
  import opened Outcomes
  import opened FlashromSpi

  /** How an operation ended: its process ended, well or not and with the dump opened or not,
      or it was aborted. */
  datatype Ending = Ended(ok: bool, fd: Option<int>) | Aborted

  datatype Record = Record(index: nat, op: Operation, ending: Option<Ending>)

  /** Only a process that ended well completes an operation, and a read needs its dump. */
  predicate Good(op: Operation, ending: Ending) {
    ending.Ended? && ending.ok && (op == Read ==> ending.fd.Some?)
  }

  predicate Succeeds(c: Conditions) {
    !c.portInUse && c.hostOff && c.devNum && c.chip
  }

  /** The operations of a run, in the order they were started, from its events alone. */
  function Records(events: seq<Event>): seq<Record> {
    if events == [] then []
    else
      var before, e := Records(events[..|events| - 1]), events[|events| - 1];
      match e
      case Start(op, c, index) => if Succeeds(c) then before + [Record(index, op, None)] else before
      case ProgressTick(_) => before
      case Exit(_, ok, fd) => EndLast(before, Ended(ok, fd))
      case Abort => EndLast(before, Aborted)
  }

  function EndLast(records: seq<Record>, ending: Ending): (r: seq<Record>)
    ensures |r| == |records|
  {
    if records == [] then []
    else records[..|records| - 1] + [records[|records| - 1].(ending := Some(ending))]
  }

  /** What a progress object has to say about its operation. */
  ghost predicate Shows(p: Progress, r: Record) {
    && p.index == r.index
    && (p.status == InProgress <==> r.ending == None)
    && (p.status == Completed <==> r.ending.Some? && Good(r.op, r.ending.value))
    && (p.status == Failed <==> r.ending.Some? && !Good(r.op, r.ending.value))
    && p.readFd == (if r.op == Read && r.ending.Some? && Good(r.op, r.ending.value)
                    then r.ending.value.fd.value else -1)
  }

  /** The retained objects are those of the last operations, each showing its own. */
  ghost predicate ShowsLast(history: seq<Progress>, records: seq<Record>) {
    && |history| <= |records|
    && (|records| <= MAX_PROGRESS_HISTORY ==> |history| == |records|)
    && (|records| >= MAX_PROGRESS_HISTORY ==> |history| == MAX_PROGRESS_HISTORY)
    && forall k: nat | k < |history| :: Shows(history[k], records[|records| - |history| + k])
  }

  function RunningOf(records: seq<Record>): Option<Operation> {
    if records == [] || records[|records| - 1].ending.Some? then None else Some(records[|records| - 1].op)
  }

  /** The outcome of one exit: Completed exactly when the process ended well and, for a read,
      the dump could be opened; otherwise Failed. */
  lemma ExitOutcome(s: Spi, op: Operation, ok: bool, fd: Option<int>)
    requires s.history != [] && CanHappen(s, Exit(op, ok, fd))
    ensures var n := Next(s, Exit(op, ok, fd));
            && n.history != [] && n.running == None
            && Last(n).status == (if ok && (op == Read ==> fd.Some?) then Completed else Failed)
            && Last(n).readFd == (if ok && op == Read && fd.Some? then fd.value else Last(s).readFd)
  {}

  /** An abort is a failure. */
  lemma AbortOutcome(s: Spi)
    requires s.history != []
    ensures var n := Next(s, Abort);
            n.history != [] && n.running == None && Last(n).status == Failed && Last(n).readFd == Last(s).readFd
  {}

  /** When only the newest object and the last record change, and match, all still match. */
  lemma LastShows(h: seq<Progress>, n: seq<Progress>, records: seq<Record>, r: Record)
    requires ShowsLast(h, records) && h != [] && |n| == |h| && n[..|n| - 1] == h[..|h| - 1]
    requires Shows(n[|n| - 1], r)
    ensures ShowsLast(n, records[..|records| - 1] + [r])
  {
    hide Shows;
    var after := records[..|records| - 1] + [r];
    forall k: nat | k < |n|
      ensures Shows(n[k], after[|after| - |n| + k])
    {
      if k < |n| - 1 {
        assert n[k] == n[..|n| - 1][k] == h[..|h| - 1][k] == h[k];
        assert Shows(h[k], records[|records| - |h| + k]);
      }
    }
  }

  lemma NewestShows(history: seq<Progress>, records: seq<Record>)
    requires ShowsLast(history, records) && records != []
    ensures history != [] && Shows(history[|history| - 1], records[|records| - 1])
  {
    hide Shows;
    assert Shows(history[|history| - 1], records[|records| - |history| + (|history| - 1)]);
  }

  lemma EndShows(s: Spi, records: seq<Record>, e: Event, ending: Ending)
    requires ShowsLast(s.history, records) && s.running == RunningOf(records) && s.running.Some?
    requires CanHappen(s, e)
    requires (e == Abort && ending == Aborted) || (e.Exit? && ending == Ended(e.ok, e.fd))
    ensures ShowsLast(Next(s, e).history, EndLast(records, ending))
    ensures Next(s, e).running == RunningOf(EndLast(records, ending))
  {
    hide ShowsLast, Next;
    NewestShows(s.history, records);
    EndTouchesLast(s, e);
    if e.Exit? {
      ExitOutcome(s, e.op, e.ok, e.fd);
    } else {
      AbortOutcome(s);
    }
    LastShows(s.history, Next(s, e).history, records, records[|records| - 1].(ending := Some(ending)));
  }

  /** An end touches the newest object only, and leaves its number. */
  lemma EndTouchesLast(s: Spi, e: Event)
    requires s.history != [] && (e.Exit? || e.Abort?)
    ensures var n := Next(s, e).history;
            && |n| == |s.history| && n[..|n| - 1] == s.history[..|n| - 1]
            && n[|n| - 1].index == Last(s).index
  {
    hide SetLast;
  }

  lemma StartShows(s: Spi, records: seq<Record>, op: Operation, c: Conditions, index: nat)
    requires ShowsLast(s.history, records) && s.running == RunningOf(records)
    requires CanHappen(s, Start(op, c, index))
    ensures var n := Next(s, Start(op, c, index));
            var r := if Succeeds(c) then records + [Record(index, op, None)] else records;
            ShowsLast(n.history, r) && n.running == RunningOf(r)
  {
    if Succeeds(c) {
      hide ShowsLast, Next, Pop;
      StartAppends(s, op, c, index);
      AppendShows(s.history, records, Progress(index, InProgress, 10, -1), Record(index, op, None));
    }
  }

  lemma PopKeepsLast(h: seq<Progress>, records: seq<Record>)
    requires ShowsLast(h, records)
    ensures var kept := Pop(h, MAX_PROGRESS_HISTORY);
            && |kept| <= |records| && |kept| <= 2 && (|records| <= 2 ==> |kept| == |records|)
            && (|records| >= 2 ==> |kept| == 2)
            && forall k: nat | k < |kept| :: Shows(kept[k], records[|records| - |kept| + k])
  {
    hide Shows;
    var kept := Pop(h, MAX_PROGRESS_HISTORY);
    forall k: nat | k < |kept|
      ensures Shows(kept[k], records[|records| - |kept| + k])
    {
      var d := |h| - |kept|;
      assert kept[k] == h[d + k];
      assert Shows(h[d + k], records[|records| - |h| + (d + k)]);
    }
  }

  lemma AppendShows(h: seq<Progress>, records: seq<Record>, p: Progress, r: Record)
    requires ShowsLast(h, records) && Shows(p, r)
    ensures ShowsLast(Pop(h, MAX_PROGRESS_HISTORY) + [p], records + [r])
  {
    hide Shows, Pop;
    PopKeepsLast(h, records);
    var kept := Pop(h, MAX_PROGRESS_HISTORY);
    var n, after := kept + [p], records + [r];
    forall k: nat | k < |n|
      ensures Shows(n[k], after[|after| - |n| + k])
    {
      if k < |kept| {
        assert n[k] == kept[k] && after[|after| - |n| + k] == records[|records| - |kept| + k];
      }
    }
  }

  /** A successful start drops the oldest object when there are three, and adds one. */
  lemma StartAppends(s: Spi, op: Operation, c: Conditions, index: nat)
    requires Succeeds(c)
    ensures var n := Next(s, Start(op, c, index));
            && n.history == Pop(s.history, MAX_PROGRESS_HISTORY) + [Progress(index, InProgress, 10, -1)]
            && n.running == Some(op)
  {}

  lemma TickShows(s: Spi, records: seq<Record>, portInUse: bool)
    requires ShowsLast(s.history, records)
    ensures var n := Next(s, ProgressTick(portInUse)); ShowsLast(n.history, records) && n.running == s.running
  {
    if s.history != [] {
      hide ShowsLast, Next;
      RecordsNotEmpty(s.history, records);
      NewestShows(s.history, records);
      TickTouchesLast(s, portInUse);
      LastShows(s.history, Next(s, ProgressTick(portInUse)).history, records, records[|records| - 1]);
      assert records[..|records| - 1] + [records[|records| - 1]] == records;
    }
  }

  lemma RecordsNotEmpty(history: seq<Progress>, records: seq<Record>)
    requires ShowsLast(history, records) && history != []
    ensures records != []
  {}

  lemma TickTouchesLast(s: Spi, portInUse: bool)
    requires s.history != []
    ensures var n := Next(s, ProgressTick(portInUse));
            && n.running == s.running && |n.history| == |s.history|
            && n.history[..|n.history| - 1] == s.history[..|s.history| - 1]
            && Last(n).index == Last(s).index && Last(n).status == Last(s).status && Last(n).readFd == Last(s).readFd
  {
    hide SetLast;
  }

  /** Over every run from the first start on, with one end for each operation: the retained
      objects are those of the last three operations in their order. Each is in progress
      while its own operation runs, Completed exactly when that operation ended well, Failed
      otherwise, and it offers a descriptor exactly when it is a completed read, its own. */
  lemma {:induction false} HistoryShowsOperations(events: seq<Event>)
    requires Possible(IDLE, events)
    ensures ShowsLast(Run(IDLE, events).history, Records(events))
    ensures Run(IDLE, events).running == RunningOf(Records(events))
  {
    if events != [] {
      hide ShowsLast, Next, CanHappen;
      var before, e := events[..|events| - 1], events[|events| - 1];
      HistoryShowsOperations(before);
      var s, records := Run(IDLE, before), Records(before);
      match e
      case Start(op, c, index) => StartShows(s, records, op, c, index);
      case ProgressTick(portInUse) => TickShows(s, records, portInUse);
      case Exit(op, ok, fd) =>
        RunsWhenEnding(s, e);
        EndShows(s, records, e, Ended(ok, fd));
      case Abort =>
        RunsWhenEnding(s, e);
        EndShows(s, records, e, Aborted);
    }
  }

  lemma RunsWhenEnding(s: Spi, e: Event)
    requires CanHappen(s, e) && (e.Exit? || e.Abort?)
    ensures s.running.Some?
  {}

  /** An erase whose process fails is shown as failed. */
  lemma FailedErase()
    ensures var run := [Start(Erase, READY, 0), Exit(Erase, false, None)];
            Possible(IDLE, run) && Run(IDLE, run).history == [Progress(0, Failed, 100, -1)]
  {
    var first, run := [Start(Erase, READY, 0)], [Start(Erase, READY, 0), Exit(Erase, false, None)];
    assert run[..1] == first && first[..0] == [];
    assert Run(IDLE, first) == Next(IDLE, Start(Erase, READY, 0));
    StartAppends(IDLE, Erase, READY, 0);
    assert Run(IDLE, first).history == [Progress(0, InProgress, 10, -1)];
  }

  // ---- The dump files ----

  /** A dump is added by a read that completes, and the oldest one is dropped by a read start
      that gets past the host's power and the device number; nothing else touches them. */
  lemma DumpsChangeBy(s: Spi, e: Event)
    requires CanHappen(s, e)
    ensures var n := Next(s, e);
            var room := e.Start? && e.op == Read && !e.c.portInUse && e.c.hostOff && e.c.devNum;
            n.dumps == if room && |s.dumps| >= 3 then s.dumps[1..]
                       else if e.Exit? && e.op == Read && e.ok && e.fd.Some?
                       then s.dumps + [Dump(s.dumpFile, e.fd.value)]
                       else s.dumps
  {}
}
