/** The SPI objects together: each with its own state, all with one table of ports. */
module SpiSystem {
  import opened Outcomes
  import F = FlashromSpi

  /** `starts` is the shared counter that numbers the operations. */
  datatype System = System(port: seq<string>, spi: seq<F.Spi>, inUse: set<string>, starts: nat)

  /** What can happen to one object; whether its port is in use is for the table to say. */
  datatype Event =
    | Start(op: F.Operation, hostOff: bool, devNum: bool, chip: bool)
    | ProgressTick
    | Exit(op: F.Operation, ok: bool, fd: Option<int>)
    | Abort

  datatype At = At(i: nat, e: Event)

  predicate InRange(s: System, i: nat) {
    i < |s.spi| == |s.port|
  }

  predicate CanHappen(s: System, a: At) {
    && InRange(s, a.i)
    && match a.e
       case Start(_, _, _, _) => true
       case ProgressTick => s.spi[a.i].tick
       case Exit(op, _, fd) =>
         s.spi[a.i].running == Some(op) && (fd.Some? ==> fd.value >= 0 && fd.value !in s.spi[a.i].openFds)
       case Abort => s.spi[a.i].running.Some?
  }

  /** The event as the object meets it. */
  function Local(s: System, a: At): F.Event
    requires InRange(s, a.i)
  {
    var inUse := s.port[a.i] in s.inUse;
    match a.e
    case Start(op, hostOff, devNum, chip) => F.Start(op, F.Conditions(inUse, hostOff, devNum, chip), s.starts)
    case ProgressTick => F.ProgressTick(inUse)
    case Exit(op, ok, fd) => F.Exit(op, ok, fd)
    case Abort => F.Abort
  }

  predicate Begins(s: System, a: At)
    requires InRange(s, a.i)
  {
    a.e.Start? && s.port[a.i] !in s.inUse && a.e.hostOff && a.e.devNum && a.e.chip
  }

  function Next(s: System, a: At): System {
    if !InRange(s, a.i) then s
    else
      var port := s.port[a.i];
      System(s.port,
             s.spi[a.i := F.Next(s.spi[a.i], Local(s, a))],
             if Begins(s, a) then s.inUse + {port} else if a.e.Exit? || a.e.Abort? then s.inUse - {port} else s.inUse,
             if Begins(s, a) then s.starts + 1 else s.starts)
  }

  // ---- The table and the objects agree ----

  ghost predicate RunsOn(s: System, i: nat, port: string) {
    InRange(s, i) && s.spi[i].running.Some? && s.port[i] == port
  }

  /** A port is marked exactly when one object on it has an operation running. */
  ghost predicate Linked(s: System) {
    && |s.spi| == |s.port|
    && (forall p :: p in s.inUse <==> exists i: nat :: RunsOn(s, i, p))
    && (forall p, i: nat, j: nat | RunsOn(s, i, p) && RunsOn(s, j, p) :: i == j)
  }

  ghost predicate ObjectsInv(s: System) {
    forall i: nat | i < |s.spi| :: F.ProgressInv(s.spi[i]) && F.FdsOpen(s.spi[i])
  }

  /** What `FlashromSpi` asks of an event holds among the objects: a start while the
      object's own operation runs meets a port in use, and a tick meets its port in use. */
  lemma LocalCanHappen(s: System, a: At)
    requires Linked(s) && ObjectsInv(s) && CanHappen(s, a)
    ensures F.CanHappen(s.spi[a.i], Local(s, a))
  {
    if s.spi[a.i].running.Some? {
      assert RunsOn(s, a.i, s.port[a.i]);
    }
  }

  lemma RunningAfter(s: System, a: At)
    requires CanHappen(s, a)
    ensures F.Next(s.spi[a.i], Local(s, a)).running.Some?
            <==> Begins(s, a) || (!a.e.Exit? && !a.e.Abort? && s.spi[a.i].running.Some?)
  {}

  lemma LinkedKept(s: System, a: At)
    requires Linked(s) && CanHappen(s, a)
    ensures Linked(Next(s, a))
  {
    hide F.Next;
    var n, port := Next(s, a), s.port[a.i];
    RunningAfter(s, a);
    assert forall k: nat, p | k != a.i :: RunsOn(n, k, p) <==> RunsOn(s, k, p);
    if Begins(s, a) {
      assert forall k: nat :: RunsOn(s, k, port) ==> port in s.inUse;
      assert RunsOn(n, a.i, port);
    } else if a.e.Exit? || a.e.Abort? {
      assert RunsOn(s, a.i, port);
      assert forall p :: !RunsOn(n, a.i, p);
    } else {
      assert forall p :: RunsOn(n, a.i, p) <==> RunsOn(s, a.i, p);
    }
  }

  lemma ObjectsKept(s: System, a: At)
    requires Linked(s) && ObjectsInv(s) && CanHappen(s, a)
    ensures ObjectsInv(Next(s, a))
  {
    hide F.Next, F.ProgressInv, F.FdsOpen, F.CanHappen, Local;
    LocalCanHappen(s, a);
    F.ProgressRises(s.spi[a.i], Local(s, a));
    F.FdsKept(s.spi[a.i], Local(s, a));
  }

  // ---- Whole runs ----

  function Initial(ports: seq<string>): System {
    System(ports, seq(|ports|, i => F.IDLE), {}, 0)
  }

  ghost function Run(s: System, events: seq<At>): System {
    if events == [] then s else Next(Run(s, events[..|events| - 1]), events[|events| - 1])
  }

  ghost predicate Possible(s: System, events: seq<At>) {
    events != [] ==>
      var before := events[..|events| - 1];
      Possible(s, before) && CanHappen(Run(s, before), events[|events| - 1])
  }

  ghost predicate NoneSpoils(s: System, events: seq<At>) {
    events != [] ==>
      var before, a := events[..|events| - 1], events[|events| - 1];
      && NoneSpoils(s, before)
      && InRange(Run(s, before), a.i) && !F.Spoils(Run(s, before).spi[a.i], Local(Run(s, before), a))
  }

  lemma InitialIsLinked(ports: seq<string>)
    ensures Linked(Initial(ports)) && ObjectsInv(Initial(ports))
    ensures forall i: nat | i < |ports| :: F.DumpInv(Initial(ports).spi[i])
  {
    hide F.ProgressInv, F.FdsOpen, F.DumpInv;
    F.IdleIsInStep();
    F.IdleShowsNothing();
    var s := Initial(ports);
    forall i: nat | i < |ports|
      ensures s.spi[i] == F.IDLE && F.IDLE.running.None?
    {}
    assert forall i: nat, p :: !RunsOn(s, i, p);
  }

  /** Over every run of the objects together, with one end for each operation: a port is
      marked exactly when one object on it has an operation running, and every object's
      progress and descriptors are in order. */
  lemma {:induction false} RunKeepsLinked(ports: seq<string>, events: seq<At>)
    requires Possible(Initial(ports), events)
    ensures Linked(Run(Initial(ports), events)) && ObjectsInv(Run(Initial(ports), events))
    ensures |Run(Initial(ports), events).spi| == |ports|
  {
    var s := Initial(ports);
    if events == [] {
      InitialIsLinked(ports);
    } else {
      hide Linked, ObjectsInv, F.Next;
      var before, a := events[..|events| - 1], events[|events| - 1];
      RunKeepsLinked(ports, before);
      LinkedKept(Run(s, before), a);
      ObjectsKept(Run(s, before), a);
    }
  }

  /** And as long as no start spoils it, every dump that any object offers is its own open
      file, and no queue is longer than three. */
  lemma {:induction false} RunKeepsDumps(ports: seq<string>, events: seq<At>, i: nat)
    requires Possible(Initial(ports), events) && NoneSpoils(Initial(ports), events) && i < |ports|
    ensures i < |Run(Initial(ports), events).spi| && F.DumpInv(Run(Initial(ports), events).spi[i])
    ensures F.Agree(Run(Initial(ports), events).spi[i])
  {
    var s := Initial(ports);
    RunKeepsLinked(ports, events);
    if events == [] {
      InitialIsLinked(ports);
    } else {
      hide F.Next, F.DumpInv, F.FdsOpen, F.Agree, F.Spoils, F.CanHappen, Linked, Local;
      var before, a := events[..|events| - 1], events[|events| - 1];
      RunKeepsDumps(ports, before, i);
      if a.i == i {
        RunKeepsLinked(ports, before);
        LocalCanHappen(Run(s, before), a);
        F.NextKeeps(Run(s, before).spi[i], Local(Run(s, before), a));
      }
    }
    F.InStepAgrees(Run(s, events).spi[i]);
  }
}
