/** Flash operations over one SPI object: its progress objects, its dump files, and the
    table of USB ports that the objects share. */
module FlashromSpi {
  import opened Outcomes

  const MAX_PROGRESS_HISTORY := 3
  const MAX_SPI_DUMPS := 3

  datatype Operation = Erase | Read | Write
  datatype Status = InProgress | Completed | Failed

  /** `readFd` is -1 until a read has completed. */
  datatype Progress = Progress(index: nat, status: Status, percent: nat, readFd: int)

  /** A dump file, named after its progress object, with its descriptor. */
  datatype Dump = Dump(index: nat, fd: int)

  /** `dumpFile` is the number in the name of the last read's dump file, `openFds` holds the
      dump descriptors that are open, `tick` says whether the progress timer is armed. */
  datatype Spi = Spi(
    running: Option<Operation>,
    history: seq<Progress>,
    dumpFile: nat,
    dumps: seq<Dump>,
    openFds: set<int>,
    currentProgress: nat,
    tick: bool)

  const IDLE := Spi(None, [], 0, [], {}, 0, false)

  /** What a start meets: whether the port is in use, the host is off, the device number
      can be read and a chip is detected. */
  datatype Conditions = Conditions(portInUse: bool, hostOff: bool, devNum: bool, chip: bool)

  datatype Event =
    | Start(op: Operation, c: Conditions, index: nat)
    | ProgressTick(portInUse: bool)
    | Exit(op: Operation, ok: bool, fd: Option<int>)
    | Abort

  function Pop<T>(s: seq<T>, max: nat): seq<T> {
    if |s| >= max && s != [] then s[1..] else s
  }

  function Evict(s: Spi): Spi {
    if |s.dumps| >= MAX_SPI_DUMPS then s.(dumps := s.dumps[1..], openFds := s.openFds - {s.dumps[0].fd}) else s
  }

  function SetLast(history: seq<Progress>, p: Progress): (h: seq<Progress>)
    requires history != []
    ensures |h| == |history| && h[|h| - 1] == p && h[..|h| - 1] == history[..|history| - 1]
  {
    history[..|history| - 1] + [p]
  }

  function Last(s: Spi): Progress
    requires s.history != []
  {
    s.history[|s.history| - 1]
  }

  function UpdateProgress(s: Spi, portInUse: bool): Spi {
    if !portInUse || s.currentProgress >= 100 then s
    else
      var percent := s.currentProgress + 10;
      s.(currentProgress := percent, tick := percent < 100,
         history := if s.history == [] then [] else SetLast(s.history, Last(s).(percent := percent)))
  }

  function Begin(s: Spi, op: Operation, index: nat): Spi {
    UpdateProgress(
      s.(running := Some(op),
         history := Pop(s.history, MAX_PROGRESS_HISTORY) + [Progress(index, InProgress, 0, -1)],
         dumpFile := if op == Read then index else s.dumpFile,
         currentProgress := 0),
      true)
  }

  function StartOperation(s: Spi, op: Operation, c: Conditions, index: nat): Spi {
    if c.portInUse || !c.hostOff || !c.devNum then s
    else
      var e := if op == Read then Evict(s) else s;
      if c.chip then Begin(e, op, index) else e
  }

  function FinishOperation(s: Spi, status: Status): Spi {
    s.(running := None, tick := false,
       history := if s.history == [] then [] else SetLast(s.history, Last(s).(status := status, percent := 100)))
  }

  function KeepDump(s: Spi, fd: int): Spi {
    s.(dumps := s.dumps + [Dump(s.dumpFile, fd)], openFds := s.openFds + {fd},
       history := if s.history == [] then [] else SetLast(s.history, Last(s).(readFd := fd)))
  }

  /** The process's end, which knows the operation the process was started for. `fd` is the
      dump file's descriptor if it can be opened. */
  function OnExit(s: Spi, op: Operation, ok: bool, fd: Option<int>): Spi {
    if !ok then FinishOperation(s, Failed)
    else if op != Read then FinishOperation(s, Completed)
    else if fd.None? then FinishOperation(s, Failed)
    else FinishOperation(KeepDump(s, fd.value), Completed)
  }

  function Next(s: Spi, e: Event): Spi {
    match e
    case Start(op, c, index) => StartOperation(s, op, c, index)
    case ProgressTick(portInUse) => UpdateProgress(s, portInUse)
    case Exit(op, ok, fd) => OnExit(s, op, ok, fd)
    case Abort => FinishOperation(s, Failed)
  }

  /** One end for each operation: an exit, or an abort for a timeout or a host that is
      turned on. While an operation runs its port is in use; `SpiSystem` proves that of the
      objects together. */
  predicate CanHappen(s: Spi, e: Event) {
    match e
    case Start(_, c, _) => s.running.Some? ==> c.portInUse
    case ProgressTick(portInUse) => s.tick && portInUse
    case Exit(op, _, fd) => s.running == Some(op) && (fd.Some? ==> fd.value >= 0 && fd.value !in s.openFds)
    case Abort => s.running.Some?
  }

  // ---- Progress objects and dump files stay in step ----

  function DumpOf(p: Progress): seq<Dump> {
    if p.readFd >= 0 then [Dump(p.index, p.readFd)] else []
  }

  /** The dumps that the retained progress objects name, oldest first. */
  function Named(history: seq<Progress>): seq<Dump> {
    if history == [] then [] else Named(history[..|history| - 1]) + DumpOf(history[|history| - 1])
  }

  predicate IsSuffix<T(==)>(a: seq<T>, b: seq<T>) {
    |a| <= |b| && b[|b| - |a|..] == a
  }

  ghost predicate Distinct(dumps: seq<Dump>) {
    forall i: nat, j: nat | i < j < |dumps| :: dumps[i].fd != dumps[j].fd
  }

  ghost predicate FdsOpen(s: Spi) {
    && Distinct(s.dumps)
    && (forall d | d in s.dumps :: d.fd in s.openFds)
    && (forall f | f in s.openFds :: exists d :: d in s.dumps && d.fd == f)
  }

  /** The dumps named by the history are the newest dump files, and neither queue is longer
      than three; a running read has made room for its dump. */
  ghost predicate DumpInv(s: Spi) {
    && |s.history| <= MAX_PROGRESS_HISTORY && |s.dumps| <= MAX_SPI_DUMPS
    && IsSuffix(Named(s.history), s.dumps)
    && (s.running == Some(Read) ==> |s.dumps| < MAX_SPI_DUMPS && s.history != [] && Last(s).index == s.dumpFile)
    && (s.running.Some? ==> s.history != [] && Last(s).readFd == -1)
  }

  /** Every retained progress object that offers a dump has its own file, still open. */
  ghost predicate Agree(s: Spi) {
    forall p | p in s.history && p.readFd >= 0 :: Dump(p.index, p.readFd) in s.dumps && p.readFd in s.openFds
  }

  lemma NamedSnoc(h: seq<Progress>, p: Progress)
    ensures Named(h + [p]) == Named(h) + DumpOf(p)
  {
    assert (h + [p])[..|h|] == h;
  }

  lemma {:induction false} NamedCons(h: seq<Progress>)
    requires h != []
    ensures Named(h) == DumpOf(h[0]) + Named(h[1..])
    decreases |h|
  {
    hide DumpOf;
    var init, p := h[..|h| - 1], h[|h| - 1];
    if init == [] {
      assert h[1..] == [] && Named(init) == [];
    } else {
      NamedCons(init);
      assert h[1..] == init[1..] + [p];
      NamedSnoc(init[1..], p);
    }
  }

  lemma {:induction false} NamedSize(h: seq<Progress>)
    ensures |Named(h)| <= |h|
    ensures |Named(h)| == |h| <==> forall p | p in h :: p.readFd >= 0
    ensures forall p | p in h && p.readFd >= 0 :: Dump(p.index, p.readFd) in Named(h)
  {
    if h != [] {
      var init, p := h[..|h| - 1], h[|h| - 1];
      NamedSize(init);
      assert h == init + [p];
      assert forall x | x in init :: x in h;
    }
  }

  lemma SuffixPop<T>(a: seq<T>, b: seq<T>, first: seq<T>)
    requires IsSuffix(first + a, b)
    ensures IsSuffix(a, b)
    ensures first != [] ==> |a| < |b|
  {
    assert (first + a)[|first|..] == a;
    assert b[|b| - |a|..] == b[|b| - |first + a|..][|first|..];
  }

  lemma SuffixTail<T>(a: seq<T>, b: seq<T>)
    requires IsSuffix(a, b) && |a| < |b|
    ensures IsSuffix(a, b[1..])
  {
    assert b[1..][|b| - 1 - |a|..] == b[|b| - |a|..];
  }

  lemma SuffixSnoc<T>(a: seq<T>, b: seq<T>, x: T)
    requires IsSuffix(a, b)
    ensures IsSuffix(a + [x], b + [x])
  {
    assert (b + [x])[|b| - |a|..] == b[|b| - |a|..] + [x];
  }

  /** A read start that evicts a dump and then finds no chip, while all three retained
      progress objects offer a dump. */
  predicate Spoils(s: Spi, e: Event) {
    && e.Start? && e.op == Read && !e.c.portInUse && e.c.hostOff && e.c.devNum && !e.c.chip
    && |s.history| == MAX_PROGRESS_HISTORY && forall p | p in s.history :: p.readFd >= 0
  }

  lemma SetLastNamed(h: seq<Progress>, p: Progress)
    requires h != []
    ensures Named(SetLast(h, p)) == Named(h[..|h| - 1]) + DumpOf(p)
    ensures p.index == h[|h| - 1].index && p.readFd == h[|h| - 1].readFd ==> Named(SetLast(h, p)) == Named(h)
  {
    NamedSnoc(h[..|h| - 1], p);
  }

  lemma FinishKeepsNamed(s: Spi, status: Status)
    ensures Named(FinishOperation(s, status).history) == Named(s.history)
  {
    if s.history != [] {
      SetLastNamed(s.history, Last(s).(status := status, percent := 100));
    }
  }

  lemma ProgressKeepsNamed(s: Spi, portInUse: bool)
    ensures Named(UpdateProgress(s, portInUse).history) == Named(s.history)
  {
    if s.history != [] {
      SetLastNamed(s.history, Last(s).(percent := s.currentProgress + 10));
    }
  }

  lemma EvictKeeps(s: Spi)
    requires DumpInv(s) && s.running.None?
    ensures var n := Evict(s);
            && |n.dumps| < MAX_SPI_DUMPS && n.history == s.history && n.running.None?
            && (IsSuffix(Named(n.history), n.dumps) <==> |Named(s.history)| < MAX_SPI_DUMPS)
            && (|s.dumps| == MAX_SPI_DUMPS ==> n.dumps == s.dumps[1..])
            && (|s.dumps| < MAX_SPI_DUMPS ==> n == s)
  {
    if |s.dumps| >= MAX_SPI_DUMPS && |Named(s.history)| < |s.dumps| {
      SuffixTail(Named(s.history), s.dumps);
    }
  }

  lemma PoppedNamed(s: Spi)
    requires DumpInv(s)
    ensures var h := Pop(s.history, MAX_PROGRESS_HISTORY);
            |h| < MAX_PROGRESS_HISTORY && IsSuffix(Named(h), s.dumps) && |Named(h)| <= |h|
  {
    var h := Pop(s.history, MAX_PROGRESS_HISTORY);
    NamedSize(h);
    if |s.history| == MAX_PROGRESS_HISTORY {
      NamedCons(s.history);
      SuffixPop(Named(h), s.dumps, DumpOf(s.history[0]));
    }
  }

  lemma BeginNamed(s: Spi, op: Operation, index: nat)
    ensures var n := Begin(s, op, index);
            var h := Pop(s.history, MAX_PROGRESS_HISTORY);
            && Named(n.history) == Named(h) && |n.history| == |h| + 1 && Last(n).readFd == -1
            && Last(n).index == index && (op == Read ==> n.dumpFile == index)
            && n.dumps == s.dumps && n.running == Some(op)
  {
    hide Named, SetLast, Pop;
    var h := Pop(s.history, MAX_PROGRESS_HISTORY);
    var newest := Progress(index, InProgress, 0, -1);
    NamedSnoc(h, newest);
    assert Named(h) + DumpOf(newest) == Named(h);
    ProgressKeepsNamed(s.(running := Some(op), history := h + [newest],
                          dumpFile := if op == Read then index else s.dumpFile, currentProgress := 0), true);
  }

  lemma BeginKeeps(s: Spi, op: Operation, index: nat)
    requires DumpInv(s) && s.running.None?
    ensures var e := if op == Read then Evict(s) else s; DumpInv(Begin(e, op, index))
  {
    hide Named, IsSuffix, Begin, Pop;
    var e := if op == Read then Evict(s) else s;
    PoppedNamed(s);
    if op == Read && |s.dumps| == MAX_SPI_DUMPS {
      SuffixTail(Named(Pop(s.history, MAX_PROGRESS_HISTORY)), s.dumps);
    }
    BeginNamed(e, op, index);
  }

  lemma KeepDumpKeeps(s: Spi, fd: int)
    requires DumpInv(s) && s.running == Some(Read) && fd >= 0
    ensures var k := KeepDump(s, fd);
            && IsSuffix(Named(k.history), k.dumps)
            && |k.history| <= MAX_PROGRESS_HISTORY && |k.dumps| <= MAX_SPI_DUMPS
  {
    hide SetLast, IsSuffix;
    var newest := Last(s).(readFd := fd);
    SetLastNamed(s.history, newest);
    var older := Named(s.history[..|s.history| - 1]);
    assert Named(s.history) == older + DumpOf(Last(s)) == older;
    SuffixSnoc(older, s.dumps, Dump(newest.index, fd));
  }

  lemma ExitKeeps(s: Spi, op: Operation, ok: bool, fd: Option<int>)
    requires DumpInv(s) && CanHappen(s, Exit(op, ok, fd))
    ensures DumpInv(OnExit(s, op, ok, fd))
  {
    hide Named, IsSuffix, SetLast, KeepDump;
    FinishKeepsNamed(s, Failed);
    FinishKeepsNamed(s, Completed);
    if ok && op == Read && fd.Some? {
      KeepDumpKeeps(s, fd.value);
      FinishKeepsNamed(KeepDump(s, fd.value), Completed);
    }
  }

  lemma StartKeeps(s: Spi, op: Operation, c: Conditions, index: nat)
    requires DumpInv(s) && CanHappen(s, Start(op, c, index)) && !Spoils(s, Start(op, c, index))
    ensures DumpInv(StartOperation(s, op, c, index))
  {
    hide Named, IsSuffix, Begin;
    if !(c.portInUse || !c.hostOff || !c.devNum) {
      if c.chip {
        BeginKeeps(s, op, index);
      } else if op == Read {
        NamedSize(s.history);
        EvictKeeps(s);
      }
    }
  }

  lemma TickKeeps(s: Spi, portInUse: bool)
    requires DumpInv(s)
    ensures DumpInv(UpdateProgress(s, portInUse))
  {
    hide Named, IsSuffix, SetLast;
    ProgressKeepsNamed(s, portInUse);
  }

  lemma FinishKeeps(s: Spi, status: Status)
    requires DumpInv(s)
    ensures DumpInv(FinishOperation(s, status))
  {
    hide Named, IsSuffix, SetLast;
    FinishKeepsNamed(s, status);
  }

  /** Every event keeps the queues in step, except the start that `Spoils` describes. */
  lemma NextKeeps(s: Spi, e: Event)
    requires DumpInv(s) && CanHappen(s, e) && !Spoils(s, e)
    ensures DumpInv(Next(s, e))
  {
    hide DumpInv, StartOperation, UpdateProgress, OnExit, FinishOperation;
    match e
    case Start(op, c, index) => StartKeeps(s, op, c, index);
    case ProgressTick(portInUse) => TickKeeps(s, portInUse);
    case Exit(op, ok, fd) => ExitKeeps(s, op, ok, fd);
    case Abort => FinishKeeps(s, Failed);
  }

  lemma FdsKept(s: Spi, e: Event)
    requires FdsOpen(s) && CanHappen(s, e)
    ensures FdsOpen(Next(s, e))
  {
    match e
    case Start(op, c, index) =>
      EvictFds(s);
    case Exit(op, ok, fd) =>
      if fd.Some? {
        KeepFds(s, fd.value);
      }
    case _ =>
  }

  lemma EvictFds(s: Spi)
    requires FdsOpen(s)
    ensures FdsOpen(Evict(s))
  {
    var n := Evict(s);
    if |s.dumps| >= MAX_SPI_DUMPS {
      forall f | f in n.openFds
        ensures exists d :: d in n.dumps && d.fd == f
      {
        var d :| d in s.dumps && d.fd == f;
        assert s.dumps == [s.dumps[0]] + n.dumps;
      }
    }
  }

  lemma KeepFds(s: Spi, fd: int)
    requires FdsOpen(s) && fd !in s.openFds
    ensures FdsOpen(KeepDump(s, fd))
  {
    var n := KeepDump(s, fd);
    var d := Dump(s.dumpFile, fd);
    assert d in n.dumps;
    forall f | f in n.openFds
      ensures exists x :: x in n.dumps && x.fd == f
    {
      if f != fd {
        var x :| x in s.dumps && x.fd == f;
        assert x in n.dumps;
      }
    }
    forall i: nat | i < |s.dumps|
      ensures s.dumps[i].fd != fd
    {
      assert s.dumps[i] in s.dumps;
    }
  }

  lemma InStepAgrees(s: Spi)
    requires DumpInv(s) && FdsOpen(s)
    ensures Agree(s)
  {
    NamedSize(s.history);
    forall p | p in s.history && p.readFd >= 0
      ensures Dump(p.index, p.readFd) in s.dumps && p.readFd in s.openFds
    {
      var d := Dump(p.index, p.readFd);
      assert d in Named(s.history);
      assert d in s.dumps[|s.dumps| - |Named(s.history)|..];
    }
  }

  /** The start that `Spoils` describes, from three dumps, closes the oldest object's dump
      and leaves the object behind: agreement is then lost, every time. */
  lemma SpoilsAgreement(s: Spi, e: Event)
    requires DumpInv(s) && FdsOpen(s) && Spoils(s, e)
    ensures !Agree(Next(s, e))
  {
    NamedSize(s.history);
    NamedCons(s.history);
    var n := Next(s, e);
    var p := s.history[0];
    assert p in s.history;
    assert Named(s.history) == s.dumps;
    assert s.dumps[0] == Dump(p.index, p.readFd);
    assert p.readFd !in n.openFds;
  }

  // ---- Whole runs ----

  ghost function Run(s: Spi, events: seq<Event>): Spi {
    if events == [] then s else Next(Run(s, events[..|events| - 1]), events[|events| - 1])
  }

  ghost predicate Possible(s: Spi, events: seq<Event>) {
    events != [] ==>
      var before := events[..|events| - 1];
      Possible(s, before) && CanHappen(Run(s, before), events[|events| - 1])
  }

  ghost predicate NoneSpoils(s: Spi, events: seq<Event>) {
    events != [] ==>
      var before := events[..|events| - 1];
      NoneSpoils(s, before) && !Spoils(Run(s, before), events[|events| - 1])
  }

  lemma IdleIsInStep()
    ensures DumpInv(IDLE) && FdsOpen(IDLE)
  {}

  lemma {:induction false} RunStaysInStep(events: seq<Event>)
    requires Possible(IDLE, events) && NoneSpoils(IDLE, events)
    ensures DumpInv(Run(IDLE, events)) && FdsOpen(Run(IDLE, events))
  {
    if events == [] {
      IdleIsInStep();
    } else {
      hide Next, CanHappen, Spoils, DumpInv, FdsOpen;
      var before, e := events[..|events| - 1], events[|events| - 1];
      RunStaysInStep(before);
      NextKeeps(Run(IDLE, before), e);
      FdsKept(Run(IDLE, before), e);
    }
  }

  /** Over every run from the first start on, with one end for each operation: as long as no
      start spoils it, every offered dump is its own open file, and both queues hold at most
      three. */
  lemma RunAgrees(events: seq<Event>)
    requires Possible(IDLE, events) && NoneSpoils(IDLE, events)
    ensures var n := Run(IDLE, events);
            Agree(n) && |n.history| <= MAX_PROGRESS_HISTORY && |n.dumps| <= MAX_SPI_DUMPS
  {
    hide Next, CanHappen, Spoils, Agree, FdsOpen;
    RunStaysInStep(events);
    InStepAgrees(Run(IDLE, events));
  }

  /** After such a run, the next event keeps agreement exactly when it does not spoil it. */
  lemma AgreementExactly(before: seq<Event>, e: Event)
    requires Possible(IDLE, before + [e]) && NoneSpoils(IDLE, before)
    ensures Agree(Run(IDLE, before + [e])) <==> !Spoils(Run(IDLE, before), e)
  {
    hide Next, CanHappen, Spoils, Agree, FdsOpen, DumpInv;
    assert (before + [e])[..|before|] == before;
    RunStaysInStep(before);
    if Spoils(Run(IDLE, before), e) {
      SpoilsAgreement(Run(IDLE, before), e);
    } else {
      RunAgrees(before + [e]);
    }
  }

  // ---- A run that spoils agreement ----

  const READY := Conditions(false, true, true, true)
  const NO_CHIP := Conditions(false, true, true, false)

  /** `k` reads from the first start on, each of which completes with a descriptor. */
  function Reads(k: nat): seq<Event> {
    if k == 0 then [] else Reads(k - 1) + [Start(Read, READY, k - 1), Exit(Read, true, Some(k - 1))]
  }

  lemma RunTwo(s: Spi, events: seq<Event>, a: Event, b: Event)
    ensures Run(s, events + [a, b]) == Next(Next(Run(s, events), a), b)
    ensures Possible(s, events) && CanHappen(Run(s, events), a) && CanHappen(Next(Run(s, events), a), b) ==>
              Possible(s, events + [a, b])
    ensures NoneSpoils(s, events) && !Spoils(Run(s, events), a) && !Spoils(Next(Run(s, events), a), b) ==>
              NoneSpoils(s, events + [a, b])
  {
    hide Next, CanHappen, Spoils;
    assert (events + [a, b])[..|events| + 1] == events + [a];
    assert (events + [a])[..|events|] == events;
  }

  /** `k` reads are done: as many objects, as many dumps, each object offers one. */
  ghost predicate HasRead(s: Spi, k: nat) {
    && s.running.None? && |s.history| == |s.dumps| == k
    && (forall p | p in s.history :: p.readFd >= 0) && (forall f | f in s.openFds :: f < k)
  }

  lemma OneRead(s: Spi, k: nat)
    requires HasRead(s, k) && k < MAX_PROGRESS_HISTORY
    ensures var a, b := Start(Read, READY, k), Exit(Read, true, Some(k));
            && CanHappen(s, a) && CanHappen(Next(s, a), b) && !Spoils(s, a) && !Spoils(Next(s, a), b)
            && HasRead(Next(Next(s, a), b), k + 1)
  {
    var n := Next(Next(s, Start(Read, READY, k)), Exit(Read, true, Some(k)));
    assert n.history[..k] == s.history;
    assert n.history == n.history[..k] + [n.history[k]];
  }

  lemma NothingRead()
    ensures Reads(0) == [] && Possible(IDLE, []) && NoneSpoils(IDLE, []) && HasRead(Run(IDLE, []), 0)
  {}

  lemma {:induction false} ReadsRun(k: nat)
    requires k <= MAX_PROGRESS_HISTORY
    ensures Possible(IDLE, Reads(k)) && NoneSpoils(IDLE, Reads(k)) && HasRead(Run(IDLE, Reads(k)), k)
  {
    hide Next, CanHappen, Spoils, HasRead, Possible, NoneSpoils, Run;
    if k == 0 {
      NothingRead();
    } else {
      ReadsRun(k - 1);
      OneRead(Run(IDLE, Reads(k - 1)), k - 1);
      RunTwo(IDLE, Reads(k - 1), Start(Read, READY, k - 1), Exit(Read, true, Some(k - 1)));
    }
  }

  /** The start that spoils agreement happens: after three complete reads, a read that finds
      no chip. From then on an object offers a descriptor that is closed. */
  lemma SpoilingRun()
    ensures var e := Start(Read, NO_CHIP, 3);
            && Possible(IDLE, Reads(3) + [e]) && NoneSpoils(IDLE, Reads(3))
            && Spoils(Run(IDLE, Reads(3)), e) && !Agree(Run(IDLE, Reads(3) + [e]))
  {
    var e := Start(Read, NO_CHIP, 3);
    assert Possible(IDLE, Reads(3) + [e]) && NoneSpoils(IDLE, Reads(3)) && Spoils(Run(IDLE, Reads(3)), e) by {
      ReadsRun(3);
      assert (Reads(3) + [e])[..|Reads(3)|] == Reads(3);
    }
    hide Possible, NoneSpoils, Run, Spoils, Agree, Reads;
    AgreementExactly(Reads(3), e);
  }

  // ---- Progress ----

  predicate Done(p: Progress) {
    p.status != InProgress && p.percent == 100
  }

  ghost predicate OlderDone(history: seq<Progress>) {
    forall p | p in history[..|history| - (if history == [] then 0 else 1)] :: Done(p)
  }

  /** The newest object alone is in progress, and only while an operation runs; it shows
      the current progress, in tens; the timer is armed until it shows 100. */
  ghost predicate ProgressInv(s: Spi) {
    && OlderDone(s.history)
    && s.currentProgress <= 100 && s.currentProgress % 10 == 0
    && (s.running.Some? ==>
          s.history != [] && Last(s).status == InProgress && Last(s).percent == s.currentProgress)
    && (s.running.None? && s.history != [] ==> Done(Last(s)))
    && s.tick == (s.running.Some? && s.currentProgress < 100)
  }

  lemma BeginProgress(s: Spi, op: Operation, index: nat)
    requires ProgressInv(s) && s.running.None?
    ensures ProgressInv(Begin(s, op, index)) && Last(Begin(s, op, index)).percent == 10
  {
    var h := Pop(s.history, MAX_PROGRESS_HISTORY);
    var all := h + [Progress(index, InProgress, 0, -1)];
    assert all[..|all| - 1] == h;
    forall p | p in h
      ensures Done(p)
    {
      assert p in s.history;
      assert s.history == s.history[..|s.history| - 1] + [Last(s)];
    }
  }

  /** Progress never falls, rises by ten while an operation runs, and ends at 100. */
  lemma ProgressRises(s: Spi, e: Event)
    requires ProgressInv(s) && CanHappen(s, e)
    ensures ProgressInv(Next(s, e))
    ensures var n := Next(s, e);
            s.running.Some? ==>
              && n.history != []
              && (n.running.Some? ==> Last(n).percent == Last(s).percent + (if e.ProgressTick? then 10 else 0))
              && (n.running.None? ==> Last(n).percent == 100 >= Last(s).percent && Last(n).status != InProgress)
  {
    hide SetLast, Begin, UpdateProgress, FinishOperation, KeepDump;
    match e
    case Start(op, c, index) =>
      if s.running.None? {
        BeginProgress(if op == Read then Evict(s) else s, op, index);
      }
    case ProgressTick(portInUse) => TickProgress(s);
    case Exit(op, ok, fd) =>
      FinishProgress(s, Failed);
      FinishProgress(s, Completed);
      if s.running.Some? && fd.Some? {
        KeepDumpProgress(s, fd.value);
        FinishProgress(KeepDump(s, fd.value), Completed);
      }
    case Abort => FinishProgress(s, Failed);
  }

  lemma TickProgress(s: Spi)
    requires ProgressInv(s) && s.tick
    ensures var n := UpdateProgress(s, true);
            ProgressInv(n) && n.running == s.running && Last(n).percent == Last(s).percent + 10
  {
    hide SetLast;
  }

  lemma KeepDumpProgress(s: Spi, fd: int)
    requires ProgressInv(s) && s.running.Some?
    ensures var n := KeepDump(s, fd);
            ProgressInv(n) && n.running == s.running && n.history != [] && Last(n).percent == Last(s).percent
  {
    hide SetLast;
  }

  lemma FinishProgress(s: Spi, status: Status)
    requires ProgressInv(s) && status != InProgress
    ensures var n := FinishOperation(s, status);
            && ProgressInv(n) && n.running.None?
            && (s.history != [] ==> n.history != [] && Done(Last(n)))
  {
    hide SetLast;
  }

  /** Over every run, from the first start on. */
  lemma {:induction false} RunProgress(events: seq<Event>)
    requires Possible(IDLE, events)
    ensures ProgressInv(Run(IDLE, events))
  {
    hide ProgressInv, Next, CanHappen;
    if events == [] {
      IdleShowsNothing();
    } else {
      RunProgress(events[..|events| - 1]);
      ProgressRises(Run(IDLE, events[..|events| - 1]), events[|events| - 1]);
    }
  }

  lemma IdleShowsNothing()
    ensures ProgressInv(IDLE)
  {}
}
