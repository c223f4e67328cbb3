/** The table of USB ports that SPI objects share, and the object that uses it. */
module SpiPorts {
  import opened Outcomes
  import opened FlashromSpi

  // ---- Exclusive use of a port ----

  /** An operation: the object it was started on and the number of the start. */
  datatype Op = Op(owner: nat, number: nat)

  /** The port of each SPI object, the operations that are live, the ports marked as in use
      and the number of starts so far. */
  datatype Ports = Ports(port: seq<string>, live: set<Op>, inUse: set<string>, starts: nat)

  /** An end comes from the timeout, the host's power or the process of one operation. */
  datatype PortEvent = Begin(i: nat) | End(op: Op)

  predicate InRange(s: Ports, e: PortEvent) {
    match e
    case Begin(i) => i < |s.port|
    case End(op) => op.owner < |s.port|
  }

  /** The end of an operation releases its object's port, whoever holds it by then. */
  function Step(s: Ports, e: PortEvent): Ports
    requires InRange(s, e)
  {
    match e
    case Begin(i) =>
      if s.port[i] in s.inUse then s
      else s.(live := s.live + {Op(i, s.starts)}, inUse := s.inUse + {s.port[i]}, starts := s.starts + 1)
    case End(op) => s.(live := s.live - {op}, inUse := s.inUse - {s.port[op.owner]})
  }

  ghost predicate LiveOn(s: Ports, op: Op, port: string) {
    op in s.live && op.owner < |s.port| && s.port[op.owner] == port
  }

  /** A port is marked exactly when one operation on it is live. */
  ghost predicate Exclusive(s: Ports) {
    && (forall op | op in s.live :: op.owner < |s.port| && op.number < s.starts)
    && (forall p :: p in s.inUse <==> exists op :: LiveOn(s, op, p))
    && (forall p, a, b | LiveOn(s, a, p) && LiveOn(s, b, p) :: a == b)
  }

  lemma BeginKeeps(s: Ports, i: nat)
    requires Exclusive(s) && i < |s.port|
    ensures Exclusive(Step(s, Begin(i)))
  {
    var n := Step(s, Begin(i));
    var port := s.port[i];
    if port !in s.inUse {
      assert forall op :: LiveOn(s, op, port) ==> port in s.inUse;
      assert LiveOn(n, Op(i, s.starts), port);
      assert forall op, p | LiveOn(s, op, p) :: LiveOn(n, op, p);
      assert forall op, p | LiveOn(n, op, p) :: LiveOn(s, op, p) || (op == Op(i, s.starts) && p == port);
    }
  }

  /** The end of an operation keeps exclusive use exactly when that operation is live, or
      none is live on its port. A second end is harmful exactly while another operation is
      live there, of the same object or of another. */
  lemma EndKeepsExactly(s: Ports, op: Op)
    requires Exclusive(s) && op.owner < |s.port|
    ensures Exclusive(Step(s, End(op))) <==> op in s.live || forall x :: !LiveOn(s, x, s.port[op.owner])
  {
    var n := Step(s, End(op));
    var port := s.port[op.owner];
    if op in s.live {
      assert LiveOn(s, op, port);
      assert forall x, p | LiveOn(n, x, p) :: LiveOn(s, x, p) && x != op;
      assert forall x, p | LiveOn(s, x, p) && x != op :: LiveOn(n, x, p);
    } else {
      assert n.live == s.live;
      assert forall x, p :: LiveOn(n, x, p) <==> LiveOn(s, x, p);
      if x :| LiveOn(s, x, port) {
        assert LiveOn(n, x, port) && port !in n.inUse;
      }
    }
  }

  ghost predicate AllInRange(s: Ports, events: seq<PortEvent>) {
    forall e | e in events :: InRange(s, e)
  }

  ghost function Run(s: Ports, events: seq<PortEvent>): (n: Ports)
    requires AllInRange(s, events)
    ensures n.port == s.port
  {
    if events == [] then s
    else
      var e := events[|events| - 1];
      assert e in events;
      Step(Run(s, events[..|events| - 1]), e)
  }

  /** One end for each operation that began. */
  ghost predicate OneEndEach(s: Ports, events: seq<PortEvent>)
    requires AllInRange(s, events)
  {
    events != [] ==>
      var before, e := events[..|events| - 1], events[|events| - 1];
      OneEndEach(s, before) && (e.End? ==> e.op in Run(s, before).live)
  }

  lemma {:induction false} RunKeepsExclusive(s: Ports, events: seq<PortEvent>)
    requires Exclusive(s) && AllInRange(s, events) && OneEndEach(s, events)
    ensures Exclusive(Run(s, events))
  {
    hide Exclusive, Step;
    if events != [] {
      var before, e := events[..|events| - 1], events[|events| - 1];
      assert e in events;
      RunKeepsExclusive(s, before);
      match e
      case Begin(i) => BeginKeeps(Run(s, before), i);
      case End(op) => EndKeepsExactly(Run(s, before), op);
    }
  }

  lemma RunSnoc(s: Ports, events: seq<PortEvent>, e: PortEvent)
    requires AllInRange(s, events) && InRange(s, e)
    ensures AllInRange(s, events + [e]) && Run(s, events + [e]) == Step(Run(s, events), e)
  {
    assert (events + [e])[..|events|] == events;
  }

  /** Two objects on one port; object 0 runs an operation that ends. */
  const SHARED := Ports(["1-2", "1-2"], {}, {}, 0)

  /** The run in which object `next` starts after the first operation's end, that end comes
      once more, and object 0 starts again. */
  function SecondEnd(next: nat): seq<PortEvent> {
    [Begin(0)] + [End(Op(0, 0))] + [Begin(next)] + [End(Op(0, 0))] + [Begin(0)]
  }

  /** A second end after another operation has started frees a port that is in use, and lets
      a third operation start on it; it does not matter which object the other is of. */
  lemma SecondEndFreesPort(next: nat)
    requires next < 2
    ensures Exclusive(SHARED) && AllInRange(SHARED, SecondEnd(next))
    ensures var n := Run(SHARED, SecondEnd(next));
            LiveOn(n, Op(next, 1), "1-2") && LiveOn(n, Op(0, 2), "1-2") && !Exclusive(n)
  {
    assert [Begin(0)] == [] + [Begin(0)];
    RunSnoc(SHARED, [], Begin(0));
    RunSnoc(SHARED, [Begin(0)], End(Op(0, 0)));
    RunSnoc(SHARED, [Begin(0)] + [End(Op(0, 0))], Begin(next));
    RunSnoc(SHARED, [Begin(0)] + [End(Op(0, 0))] + [Begin(next)], End(Op(0, 0)));
    RunSnoc(SHARED, [Begin(0)] + [End(Op(0, 0))] + [Begin(next)] + [End(Op(0, 0))], Begin(0));
    var n := Run(SHARED, SecondEnd(next));
    assert LiveOn(n, Op(next, 1), "1-2") && LiveOn(n, Op(0, 2), "1-2");
  }

  // ---- The objects as the source keeps them ----

  class PortTable {
    var usbPortInUse: map<string, bool>

    function IsUsbInUse(usbPort: string): bool
      reads this
    {
      usbPort in usbPortInUse && usbPortInUse[usbPort]
    }

    constructor ()
      ensures forall p :: !IsUsbInUse(p)
    {
      usbPortInUse := map[];
    }

    method MarkUsbInUse(usbPort: string) returns (ok: bool)
      modifies this
      ensures ok == !old(IsUsbInUse(usbPort)) && IsUsbInUse(usbPort)
      ensures forall p | p != usbPort :: IsUsbInUse(p) == old(IsUsbInUse(p))
    {
      if IsUsbInUse(usbPort) {
        return false;
      }
      usbPortInUse := usbPortInUse[usbPort := true];
      return true;
    }

    method ReleaseUsb(usbPort: string)
      modifies this
      ensures !IsUsbInUse(usbPort)
      ensures forall p | p != usbPort :: IsUsbInUse(p) == old(IsUsbInUse(p))
    {
      usbPortInUse := usbPortInUse[usbPort := false];
    }
  }

  datatype SpiFailureReason = NoFailure | Unavailable | HostPowerNotOff

  /** `operation` is the operation whose process and timeout timer are live. */
  class SpiObject {
    const ports: PortTable
    const usbPort: string
    var operation: Option<Operation>
    var progressHistory: seq<Progress>
    var dumpFile: nat
    var dumpFiles: seq<Dump>
    var currentProgress: nat
    var progressTimer: bool
    ghost var openFds: set<int>

    ghost function Abs(): Spi
      reads this
    {
      Spi(operation, progressHistory, dumpFile, dumpFiles, openFds, currentProgress, progressTimer)
    }

    constructor (ports: PortTable, usbPort: string)
      ensures this.ports == ports && this.usbPort == usbPort && Abs() == IDLE
    {
      this.ports, this.usbPort := ports, usbPort;
      operation, progressHistory, dumpFile, dumpFiles := None, [], 0, [];
      currentProgress, progressTimer := 0, false;
      openFds := {};
    }

    /** Makes room for one more dump file. */
    method CheckDumpFiles()
      modifies this`dumpFiles, this`openFds
      ensures Abs() == Evict(old(Abs()))
    {
      if |dumpFiles| >= MAX_SPI_DUMPS {
        openFds := openFds - {dumpFiles[0].fd};
        dumpFiles := dumpFiles[1..];
      }
    }

    method UpdateProgress()
      modifies this`currentProgress, this`progressHistory, this`progressTimer
      ensures Abs() == FlashromSpi.UpdateProgress(old(Abs()), ports.IsUsbInUse(usbPort))
    {
      if !ports.IsUsbInUse(usbPort) || currentProgress >= 100 {
        return;
      }
      currentProgress := currentProgress + 10;
      if progressHistory != [] {
        var last := progressHistory[|progressHistory| - 1];
        progressHistory := progressHistory[..|progressHistory| - 1] + [last.(percent := currentProgress)];
      }
      progressTimer := currentProgress < 100;
    }

    /** `index` is the shared counter's value at the call. */
    method StartSpiOperation(op: Operation, hostOff: bool, devNum: bool, chip: bool, index: nat)
        returns (r: SpiFailureReason)
      modifies this, ports
      ensures var c := Conditions(old(ports.IsUsbInUse(usbPort)), hostOff, devNum, chip);
              Abs() == StartOperation(old(Abs()), op, c, index)
      ensures r == NoFailure <==> !old(ports.IsUsbInUse(usbPort)) && hostOff && devNum && chip
      ensures r == HostPowerNotOff <==> !old(ports.IsUsbInUse(usbPort)) && !hostOff
      ensures ports.IsUsbInUse(usbPort) == (old(ports.IsUsbInUse(usbPort)) || r == NoFailure)
      ensures forall p | p != usbPort :: ports.IsUsbInUse(p) == old(ports.IsUsbInUse(p))
    {
      hide Evict, FlashromSpi.UpdateProgress;
      if ports.IsUsbInUse(usbPort) {
        return Unavailable;
      }
      if !hostOff {
        return HostPowerNotOff;
      }
      if !devNum {
        return Unavailable;
      }
      if op == Read {
        CheckDumpFiles();
      }
      var marked := ports.MarkUsbInUse(usbPort);
      if !chip {
        ports.ReleaseUsb(usbPort);
        return Unavailable;
      }
      if |progressHistory| >= MAX_PROGRESS_HISTORY {
        progressHistory := progressHistory[1..];
      }
      progressHistory := progressHistory + [Progress(index, InProgress, 0, -1)];
      currentProgress := 0;
      operation := Some(op);
      if op == Read {
        dumpFile := index;
      }
      UpdateProgress();
      return NoFailure;
    }

    /** An end releases the port whoever holds it. */
    method FinishSpiOperation(status: Status)
      modifies this, ports
      ensures Abs() == FinishOperation(old(Abs()), status)
      ensures !ports.IsUsbInUse(usbPort)
      ensures forall p | p != usbPort :: ports.IsUsbInUse(p) == old(ports.IsUsbInUse(p))
    {
      if progressHistory != [] {
        var last := progressHistory[|progressHistory| - 1];
        progressHistory := progressHistory[..|progressHistory| - 1] + [last.(status := status, percent := 100)];
      }
      ports.ReleaseUsb(usbPort);
      progressTimer := false;
      operation := None;
    }

    /** The wait handler of a process started for `op`: `fd` is the dump file's descriptor if
        it can be opened. It does not ask whether the operation has been ended before. */
    method OnProcessExit(op: Operation, ok: bool, fd: Option<int>)
      modifies this, ports
      ensures Abs() == OnExit(old(Abs()), op, ok, fd)
      ensures !ports.IsUsbInUse(usbPort)
      ensures forall p | p != usbPort :: ports.IsUsbInUse(p) == old(ports.IsUsbInUse(p))
    {
      hide FinishOperation;
      if !ok {
        FinishSpiOperation(Failed);
        return;
      }
      if op == Read {
        if fd.None? {
          FinishSpiOperation(Failed);
          return;
        }
        dumpFiles := dumpFiles + [Dump(dumpFile, fd.value)];
        openFds := openFds + {fd.value};
        if progressHistory != [] {
          var last := progressHistory[|progressHistory| - 1];
          progressHistory := progressHistory[..|progressHistory| - 1] + [last.(readFd := fd.value)];
        }
      }
      FinishSpiOperation(Completed);
    }
  }
}
