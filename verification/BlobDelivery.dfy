/** The asynchronous chain that sends one configuration to one device: a blob at a
    time, each followed by status reads until it ends or its time runs out. */
module BlobDelivery {
  import opened ConfigParser

  datatype BlobEntry = BlobEntry(data: Blob, phase: Phase, idxInPhase: nat)

  function EntriesOf(p: Phase, blobs: seq<Blob>): (entries: seq<BlobEntry>)
    ensures |entries| == |blobs|
  {
    seq(|blobs|, i requires 0 <= i < |blobs| => BlobEntry(blobs[i], p, i))
  }

  /** ports_down, then configure, then ports_up. */
  function Flatten(c: SwitchConfig): seq<BlobEntry> {
    EntriesOf(PortsDown, c.portsDown) + EntriesOf(Configure, c.configure) + EntriesOf(PortsUp, c.portsUp)
  }

  lemma FlattenOrder(c: SwitchConfig, i: nat)
    ensures |Flatten(c)| == |c.portsDown| + |c.configure| + |c.portsUp|
    ensures i < |c.portsDown| ==> Flatten(c)[i] == BlobEntry(c.portsDown[i], PortsDown, i)
    ensures i < |c.configure| ==> Flatten(c)[|c.portsDown| + i] == BlobEntry(c.configure[i], Configure, i)
    ensures i < |c.portsUp| ==>
              Flatten(c)[|c.portsDown| + |c.configure| + i] == BlobEntry(c.portsUp[i], PortsUp, i)
  {}

  const POLL_INTERVAL_MS := 200
  const TIMEOUT_MS := 30000
  const MAX_POLLS := 151

  /** The one callback that a chain waits for. */
  datatype Waiting =
    | OnService
    | OnSend
    | OnStatus(elapsed: nat)
    | OnTimer(elapsed: nat)
    | Finished
    | Abandoned

  datatype Status = ReadError | InProgress | Success | Failure

  /** What the event loop delivers. `fails` is the number of times in a row that
      creating the memory file fails for the blobs the callback then turns to. */
  datatype Event =
    | ServiceReply(found: bool, fails: nat)
    | SendReply(accepted: bool, fails: nat)
    | StatusReply(status: Status, fails: nat)
    | TimerFires
    | TimerCancelled

  /** The context of one chain with two logs: the blobs attempted so far, in order,
      and how many status reads were issued for each blob. */
  datatype Chain = Chain(
    blobs: seq<BlobEntry>,
    current: nat,
    successCount: nat,
    failCount: nat,
    resolved: bool,
    waiting: Waiting,
    attempts: seq<BlobEntry>,
    polls: multiset<nat>)

  function NewChain(blobs: seq<BlobEntry>): Chain {
    Chain(blobs, 0, 0, 0, false, OnService, [], multiset{})
  }

  // ---- The handlers ----

  function SendNext(c: Chain, fails: nat): Chain
    decreases |c.blobs| - c.current
  {
    if c.current >= |c.blobs| then c.(waiting := Finished)
    else
      var tried := c.(attempts := c.attempts + [c.blobs[c.current]]);
      if fails > 0 then SendNext(Failed(tried), fails - 1) else tried.(waiting := OnSend)
  }

  function Failed(c: Chain): Chain {
    c.(failCount := c.failCount + 1, current := c.current + 1)
  }

  function Succeeded(c: Chain): Chain {
    c.(successCount := c.successCount + 1, current := c.current + 1)
  }

  /** Issues one status read for the current blob. */
  function Poll(c: Chain, elapsed: nat): Chain {
    c.(waiting := OnStatus(elapsed), polls := c.polls + multiset{c.current})
  }

  function OnStatusReply(c: Chain, elapsed: nat, status: Status, fails: nat): Chain {
    match status
    case ReadError => SendNext(Failed(c), fails)
    case InProgress => if elapsed >= TIMEOUT_MS then SendNext(Failed(c), fails) else c.(waiting := OnTimer(elapsed))
    case Success => SendNext(Succeeded(c), fails)
    case Failure => SendNext(Failed(c), fails)
  }

  /** The events that answer the callback a chain waits for. */
  predicate Answers(w: Waiting, e: Event) {
    match w
    case OnService => e.ServiceReply?
    case OnSend => e.SendReply?
    case OnStatus(_) => e.StatusReply?
    case OnTimer(_) => e.TimerFires? || e.TimerCancelled?
    case Finished => false
    case Abandoned => false
  }

  function Deliver(c: Chain, e: Event): Chain
    requires Answers(c.waiting, e)
  {
    match e
    case ServiceReply(found, fails) =>
      if found then SendNext(c.(resolved := true), fails) else c.(waiting := Finished)
    case SendReply(accepted, fails) => if accepted then Poll(c, 0) else SendNext(Failed(c), fails)
    case StatusReply(status, fails) => OnStatusReply(c, c.waiting.elapsed, status, fails)
    case TimerFires => Poll(c, c.waiting.elapsed + POLL_INTERVAL_MS)
    case TimerCancelled => c.(waiting := Abandoned)
  }

  // ---- What every step keeps ----

  /** The current blob has been handed to the device and is not decided yet. */
  predicate BlobOut(w: Waiting) {
    w.OnSend? || w.OnStatus? || w.OnTimer? || w.Abandoned?
  }

  /** Blobs are attempted in order, each once, one at a time; every blob before the
      current one is decided, and no blob is asked for its status too often. */
  ghost predicate ChainInv(c: Chain) {
    && c.current <= |c.blobs|
    && c.successCount + c.failCount == c.current
    && (BlobOut(c.waiting) ==> c.current < |c.blobs|)
    && c.attempts == c.blobs[..if BlobOut(c.waiting) then c.current + 1 else c.current]
    && (c.waiting == OnService ==> !c.resolved)
    && (!c.resolved ==> c.current == 0 && (c.waiting == OnService || c.waiting == Finished))
    && (c.waiting == Finished && c.resolved ==> c.current == |c.blobs|)
    && PollsInv(c)
  }

  ghost predicate PollsInv(c: Chain) {
    && (forall i :: c.polls[i] <= MAX_POLLS)
    && (forall i :: i > c.current ==> c.polls[i] == 0)
    && (!(c.waiting.OnStatus? || c.waiting.OnTimer? || c.waiting.Abandoned?) ==> c.polls[c.current] == 0)
    && (c.waiting.OnStatus? || c.waiting.OnTimer? ==>
          var n := c.waiting.elapsed / POLL_INTERVAL_MS;
          c.waiting.elapsed == POLL_INTERVAL_MS * n && c.waiting.elapsed <= TIMEOUT_MS && c.polls[c.current] == n + 1)
    && (c.waiting.OnTimer? ==> c.waiting.elapsed < TIMEOUT_MS)
  }

  /** A chain between two blobs: everything before `current` is decided and logged. */
  ghost predicate Between(c: Chain) {
    && c.current <= |c.blobs| && c.resolved
    && c.successCount + c.failCount == c.current
    && c.attempts == c.blobs[..c.current]
    && (forall i :: c.polls[i] <= MAX_POLLS)
    && (forall i :: i >= c.current ==> c.polls[i] == 0)
  }

  lemma {:induction false} SendNextKeeps(c: Chain, fails: nat)
    requires Between(c)
    ensures ChainInv(SendNext(c, fails))
    decreases |c.blobs| - c.current
  {
    if c.current < |c.blobs| {
      var tried := c.(attempts := c.attempts + [c.blobs[c.current]]);
      assert tried.attempts == c.blobs[..c.current + 1];
      if fails > 0 {
        SendNextKeeps(Failed(tried), fails - 1);
      }
    } else {
      assert c.blobs[..c.current] == c.blobs;
    }
  }

  lemma PollKeeps(c: Chain, elapsed: nat, n: nat)
    requires ChainInv(c) && BlobOut(c.waiting)
    requires elapsed == POLL_INTERVAL_MS * n && elapsed <= TIMEOUT_MS && c.polls[c.current] == n
    ensures ChainInv(Poll(c, elapsed))
  {
    assert elapsed / POLL_INTERVAL_MS == n;
  }

  /** Every answer keeps the invariant. */
  lemma DeliverKeeps(c: Chain, e: Event)
    requires ChainInv(c) && Answers(c.waiting, e)
    ensures ChainInv(Deliver(c, e))
  {
    match e
    case ServiceReply(found, fails) =>
      if found {
        SendNextKeeps(c.(resolved := true), fails);
      }
    case SendReply(accepted, fails) =>
      if accepted {
        PollKeeps(c, 0, 0);
      } else {
        SendNextKeeps(Failed(c), fails);
      }
    case StatusReply(status, fails) =>
      if status == Success {
        SendNextKeeps(Succeeded(c), fails);
      } else if status != InProgress || c.waiting.elapsed >= TIMEOUT_MS {
        SendNextKeeps(Failed(c), fails);
      }
    case TimerFires =>
      var n := c.waiting.elapsed / POLL_INTERVAL_MS;
      PollKeeps(c, c.waiting.elapsed + POLL_INTERVAL_MS, n + 1);
    case TimerCancelled =>
  }

  // ---- Whole runs ----

  /** A sequence of callbacks that the event loop can deliver to a chain. */
  ghost predicate Possible(c: Chain, events: seq<Event>)
    decreases events
  {
    events == [] || (Answers(c.waiting, events[0]) && Possible(Deliver(c, events[0]), events[1..]))
  }

  function RunChain(c: Chain, events: seq<Event>): Chain
    requires Possible(c, events)
    decreases events
  {
    if events == [] then c else RunChain(Deliver(c, events[0]), events[1..])
  }

  lemma {:induction false} RunKeeps(c: Chain, events: seq<Event>)
    requires ChainInv(c) && Possible(c, events)
    ensures ChainInv(RunChain(c, events))
    decreases events
  {
    if events != [] {
      DeliverKeeps(c, events[0]);
      RunKeeps(Deliver(c, events[0]), events[1..]);
    }
  }

  function CountSuccesses(events: seq<Event>): nat {
    if events == [] then 0
    else (if events[0].StatusReply? && events[0].status == Success then 1 else 0) + CountSuccesses(events[1..])
  }

  lemma {:induction false} SendNextReports(c: Chain, fails: nat)
    ensures var d := SendNext(c, fails);
            && d.successCount == c.successCount && d.blobs == c.blobs && d.resolved == c.resolved
            && d.waiting != Abandoned && d.waiting != OnService
    decreases |c.blobs| - c.current
  {
    if c.current < |c.blobs| && fails > 0 {
      SendNextReports(Failed(c.(attempts := c.attempts + [c.blobs[c.current]])), fails - 1);
    }
  }

  lemma DeliverReports(c: Chain, e: Event)
    requires Answers(c.waiting, e)
    ensures var d := Deliver(c, e);
            && d.blobs == c.blobs
            && d.successCount == c.successCount + (if e.StatusReply? && e.status == Success then 1 else 0)
            && (d.waiting == Abandoned <==> e == TimerCancelled)
            && d.resolved == (if e.ServiceReply? then c.resolved || e.found else c.resolved)
  {
    hide SendNext;
    match e
    case ServiceReply(_, fails) => SendNextReports(c.(resolved := true), fails);
    case SendReply(_, fails) => SendNextReports(Failed(c), fails);
    case StatusReply(_, fails) =>
      SendNextReports(Failed(c), fails);
      SendNextReports(Succeeded(c), fails);
    case TimerFires =>
    case TimerCancelled =>
  }

  lemma {:induction false} RunReports(c: Chain, events: seq<Event>)
    requires Possible(c, events)
    ensures var d := RunChain(c, events);
            && d.blobs == c.blobs
            && d.successCount == c.successCount + CountSuccesses(events)
            && (events != [] ==> (d.waiting == Abandoned <==> events[|events| - 1] == TimerCancelled))
    decreases events
  {
    if events != [] {
      DeliverReports(c, events[0]);
      RunReports(Deliver(c, events[0]), events[1..]);
      if |events| == 1 {
        assert events[1..] == [];
      }
    }
  }

  /** Over every run of replies, errors and timeouts: the blobs attempted are a prefix of
      the configuration in its order, each once; the two counters add up to the blobs
      decided; the successes are the success replies; a finished chain whose service was
      found has attempted everything, and one whose service was not has attempted nothing. */
  lemma DeliveryInOrder(config: SwitchConfig, events: seq<Event>)
    requires Possible(NewChain(Flatten(config)), events)
    ensures var c, blobs := RunChain(NewChain(Flatten(config)), events), Flatten(config);
            && c.current <= |blobs| && c.successCount + c.failCount == c.current
            && c.successCount == CountSuccesses(events)
            && (BlobOut(c.waiting) ==> c.current < |blobs|)
            && c.attempts == blobs[..if BlobOut(c.waiting) then c.current + 1 else c.current]
            && (c.waiting == Finished && c.resolved ==>
                  c.attempts == blobs && c.successCount + c.failCount == |blobs|)
            && (c.waiting == Finished && !c.resolved ==> c.attempts == [])
            && (forall i :: c.polls[i] <= MAX_POLLS)
  {
    var c := NewChain(Flatten(config));
    RunKeeps(c, events);
    RunReports(c, events);
  }

  /** How many callbacks a chain can still see: a send, 151 reads and 150 timers a blob. */
  function Budget(c: Chain): int {
    var later := 302 * (|c.blobs| - c.current - 1);
    match c.waiting
    case OnService => 1 + 302 * |c.blobs|
    case OnSend => 302 + later
    case OnStatus(elapsed) => 1 + 2 * ((TIMEOUT_MS - elapsed) / POLL_INTERVAL_MS) + later
    case OnTimer(elapsed) => 2 * ((TIMEOUT_MS - elapsed) / POLL_INTERVAL_MS) + later
    case Finished => 0
    case Abandoned => 0
  }

  lemma {:induction false} SendNextBudget(c: Chain, fails: nat)
    requires c.current <= |c.blobs|
    ensures Budget(SendNext(c, fails)) <= 302 * (|c.blobs| - c.current)
    decreases |c.blobs| - c.current
  {
    if c.current < |c.blobs| && fails > 0 {
      SendNextBudget(Failed(c.(attempts := c.attempts + [c.blobs[c.current]])), fails - 1);
    }
  }

  lemma DeliverSpends(c: Chain, e: Event)
    requires ChainInv(c) && Answers(c.waiting, e)
    ensures Budget(Deliver(c, e)) < Budget(c)
  {
    hide SendNext;
    match e
    case ServiceReply(_, fails) => SendNextBudget(c.(resolved := true), fails);
    case SendReply(_, fails) => SendNextBudget(Failed(c), fails);
    case StatusReply(_, fails) =>
      SendNextBudget(Failed(c), fails);
      SendNextBudget(Succeeded(c), fails);
      assert (TIMEOUT_MS - c.waiting.elapsed) / POLL_INTERVAL_MS >= 0;
    case TimerFires =>
      var left := TIMEOUT_MS - c.waiting.elapsed;
      assert left == 200 * (left / 200) && left >= 200;
      assert (left - 200) / 200 == left / 200 - 1;
    case TimerCancelled =>
      assert (TIMEOUT_MS - c.waiting.elapsed) / POLL_INTERVAL_MS >= 1;
  }

  lemma BudgetIsNat(c: Chain)
    requires ChainInv(c)
    ensures 0 <= Budget(c)
    ensures Budget(c) == 0 <==> c.waiting == Finished || c.waiting == Abandoned
  {
    if c.waiting.OnStatus? || c.waiting.OnTimer? {
      assert (TIMEOUT_MS - c.waiting.elapsed) / POLL_INTERVAL_MS >= 0;
    }
    if c.waiting.OnTimer? {
      var n := c.waiting.elapsed / POLL_INTERVAL_MS;
      assert TIMEOUT_MS - c.waiting.elapsed == 200 * (150 - n);
    }
  }

  lemma WaitedFor(c: Chain) returns (e: Event)
    requires c.waiting != Finished && c.waiting != Abandoned
    ensures Answers(c.waiting, e)
  {
    match c.waiting
    case OnService => e := ServiceReply(true, 0);
    case OnSend => e := SendReply(true, 0);
    case OnStatus(_) => e := StatusReply(Success, 0);
    case OnTimer(_) => e := TimerFires;
  }

  /** Every chain ends: no run delivers more callbacks than the budget, and as long as
      the chain has not ended there is a callback it waits for. */
  lemma {:induction false} RunsEnd(c: Chain, events: seq<Event>)
    requires ChainInv(c) && Possible(c, events)
    ensures |events| + Budget(RunChain(c, events)) <= Budget(c)
    ensures |events| <= Budget(c)
    ensures Budget(RunChain(c, events)) > 0 ==> exists e :: Answers(RunChain(c, events).waiting, e)
    decreases events
  {
    RunKeeps(c, events);
    BudgetIsNat(RunChain(c, events));
    if Budget(RunChain(c, events)) > 0 {
      var e := WaitedFor(RunChain(c, events));
    }
    if events != [] {
      DeliverKeeps(c, events[0]);
      DeliverSpends(c, events[0]);
      RunsEnd(Deliver(c, events[0]), events[1..]);
    }
  }

  // ---- The context object that the callbacks share ----

  /** Builds the flat list phase by phase. */
  method BuildBlobs(config: SwitchConfig) returns (blobs: seq<BlobEntry>)
    ensures blobs == Flatten(config)
  {
    blobs := [];
    for i := 0 to |config.portsDown|
      invariant blobs == EntriesOf(PortsDown, config.portsDown)[..i]
    {
      blobs := blobs + [BlobEntry(config.portsDown[i], PortsDown, i)];
    }
    for i := 0 to |config.configure|
      invariant blobs == EntriesOf(PortsDown, config.portsDown) + EntriesOf(Configure, config.configure)[..i]
    {
      blobs := blobs + [BlobEntry(config.configure[i], Configure, i)];
    }
    for i := 0 to |config.portsUp|
      invariant blobs == EntriesOf(PortsDown, config.portsDown) + EntriesOf(Configure, config.configure)
                         + EntriesOf(PortsUp, config.portsUp)[..i]
    {
      blobs := blobs + [BlobEntry(config.portsUp[i], PortsUp, i)];
    }
  }

  class BlobSendContext {
    const devicePath: string
    const blobs: seq<BlobEntry>
    var current: nat
    var successCount: nat
    var failCount: nat
    var resolved: bool
    var waiting: Waiting
    ghost var attempts: seq<BlobEntry>
    ghost var polls: multiset<nat>

    ghost function Abs(): Chain
      reads this
    {
      Chain(blobs, current, successCount, failCount, resolved, waiting, attempts, polls)
    }

    constructor (devicePath: string, blobs: seq<BlobEntry>)
      ensures this.devicePath == devicePath && Abs() == NewChain(blobs)
    {
      this.devicePath, this.blobs := devicePath, blobs;
      current, successCount, failCount := 0, 0, 0;
      resolved, waiting := false, OnService;
      attempts, polls := [], multiset{};
    }

    /** A blob whose memory file cannot be created counts as failed and the next is
        tried; otherwise the blob is sent. */
    method SendNextBlob(fails: nat)
      modifies this
      ensures Abs() == SendNext(old(Abs()), fails)
      decreases |blobs| - current
    {
      if current >= |blobs| {
        waiting := Finished;
        return;
      }
      attempts := attempts + [blobs[current]];
      if fails > 0 {
        failCount := failCount + 1;
        current := current + 1;
        SendNextBlob(fails - 1);
        return;
      }
      waiting := OnSend;
    }

    method PollBlobStatus(elapsedMs: nat)
      modifies this
      ensures Abs() == Poll(old(Abs()), elapsedMs)
    {
      waiting := OnStatus(elapsedMs);
      polls := polls + multiset{current};
    }

    method OnStatusRead(elapsedMs: nat, status: Status, fails: nat)
      modifies this
      ensures Abs() == OnStatusReply(old(Abs()), elapsedMs, status, fails)
    {
      hide SendNext;
      if status == ReadError {
        failCount := failCount + 1;
        current := current + 1;
        SendNextBlob(fails);
        return;
      }
      if status == InProgress {
        if elapsedMs >= TIMEOUT_MS {
          failCount := failCount + 1;
          current := current + 1;
          SendNextBlob(fails);
          return;
        }
        waiting := OnTimer(elapsedMs);
        return;
      }
      if status == Success {
        successCount := successCount + 1;
      } else {
        failCount := failCount + 1;
      }
      current := current + 1;
      SendNextBlob(fails);
    }

    /** Runs the callback that the event loop delivers. */
    method Handle(e: Event)
      requires Answers(waiting, e)
      modifies this
      ensures Abs() == Deliver(old(Abs()), e)
    {
      match e
      case ServiceReply(found, fails) =>
        if found {
          resolved := true;
          SendNextBlob(fails);
        } else {
          waiting := Finished;
        }
      case SendReply(accepted, fails) =>
        if accepted {
          PollBlobStatus(0);
        } else {
          failCount := failCount + 1;
          current := current + 1;
          SendNextBlob(fails);
        }
      case StatusReply(status, fails) => OnStatusRead(waiting.elapsed, status, fails);
      case TimerFires => PollBlobStatus(waiting.elapsed + POLL_INTERVAL_MS);
      case TimerCancelled => waiting := Abandoned;
    }
  }
}
