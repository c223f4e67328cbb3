/** What each callback of a delivery chain counts for: which replies cause status reads,
    which cause failures, and when the chain turns to the next blob. */
module BlobAccounting {
  import opened ConfigParser
  import opened BlobDelivery

  /** Status reads are issued by an accepted send, and by the poll timer. */
  function ReadsFor(e: Event): nat {
    if (e.SendReply? && e.accepted) || e.TimerFires? then 1 else 0
  }

  /** The replies that decide a blob as failed: a rejected send, a status that cannot be
      read, a failure, and "in progress" on the last of 151 reads. */
  function FailuresFor(c: Chain, e: Event): nat {
    if e.SendReply? && !e.accepted then 1
    else if e.StatusReply? && (e.status == ReadError || e.status == Failure) then 1
    else if e.StatusReply? && e.status == InProgress && c.polls[c.current] == 151 then 1
    else 0
  }

  function SuccessesFor(e: Event): nat {
    if e.StatusReply? && e.status == Success then 1 else 0
  }

  /** A callback turns to the next blob when the service is found or the current blob is
      decided. */
  predicate TurnsOn(c: Chain, e: Event) {
    (e.ServiceReply? && e.found) || FailuresFor(c, e) + SuccessesFor(e) > 0
  }

  /** The blobs behind the one that the callback is about. */
  function Behind(c: Chain, e: Event): int {
    |c.blobs| - (if e.ServiceReply? then 0 else c.current + 1)
  }

  function FailsOf(e: Event): nat {
    if e.ServiceReply? || e.SendReply? || e.StatusReply? then e.fails else 0
  }

  /** The memory files that fail for the blobs the callback turns to. */
  function Unsent(c: Chain, e: Event): int {
    if !TurnsOn(c, e) then 0 else if FailsOf(e) < Behind(c, e) then FailsOf(e) else Behind(c, e)
  }

  /** What the chain waits for next. */
  predicate WaitsNext(c: Chain, e: Event, w: Waiting) {
    if TurnsOn(c, e) then w == if FailsOf(e) < Behind(c, e) then OnSend else Finished
    else match e
      case ServiceReply(_, _) => w == Finished
      case SendReply(_, _) => w == OnStatus(0)
      case StatusReply(_, _) => w.OnTimer?
      case TimerFires => w.OnStatus?
      case TimerCancelled => w == Abandoned
  }

  lemma {:induction false} SendNextCounts(c: Chain, fails: nat)
    requires c.current <= |c.blobs|
    ensures var d := SendNext(c, fails);
            var left := |c.blobs| - c.current;
            && d.polls == c.polls
            && d.failCount == c.failCount + (if fails < left then fails else left)
            && d.waiting == (if fails < left then OnSend else Finished)
    decreases |c.blobs| - c.current
  {
    if c.current < |c.blobs| && fails > 0 {
      SendNextCounts(Failed(c.(attempts := c.attempts + [c.blobs[c.current]])), fails - 1);
    }
  }

  /** The 151st read is the one at the time limit. */
  lemma LastReadIsTimeout(c: Chain)
    requires ChainInv(c) && c.waiting.OnStatus?
    ensures c.waiting.elapsed >= 30000 <==> c.polls[c.current] == 151
  {
    var n := c.waiting.elapsed / POLL_INTERVAL_MS;
    assert c.waiting.elapsed == POLL_INTERVAL_MS * n && c.polls[c.current] == n + 1;
  }

  /** Every callback, counted. */
  lemma DeliverCounts(c: Chain, e: Event)
    requires ChainInv(c) && Answers(c.waiting, e)
    ensures var d := Deliver(c, e);
            && d.polls == (if ReadsFor(e) == 1 then c.polls + multiset{c.current} else c.polls)
            && d.failCount == c.failCount + FailuresFor(c, e) + Unsent(c, e)
            && d.successCount == c.successCount + SuccessesFor(e)
            && WaitsNext(c, e, d.waiting)
  {
    hide SendNext;
    DeliverReports(c, e);
    match e
    case ServiceReply(_, fails) => SendNextCounts(c.(resolved := true), fails);
    case SendReply(_, fails) => SendNextCounts(Failed(c), fails);
    case StatusReply(_, fails) =>
      LastReadIsTimeout(c);
      SendNextCounts(Failed(c), fails);
      SendNextCounts(Succeeded(c), fails);
    case TimerFires =>
    case TimerCancelled =>
  }

  // ---- Whole runs ----

  function CountReads(events: seq<Event>): nat {
    if events == [] then 0 else ReadsFor(events[0]) + CountReads(events[1..])
  }

  /** The blobs decided as failed over a run: by replies, and for want of a memory file. */
  function CountFailures(c: Chain, events: seq<Event>): int
    requires Possible(c, events)
    decreases events
  {
    if events == [] then 0
    else FailuresFor(c, events[0]) + Unsent(c, events[0]) + CountFailures(Deliver(c, events[0]), events[1..])
  }

  /** The blobs whose send was accepted over a run, by position. */
  function AcceptedSends(c: Chain, events: seq<Event>): set<nat>
    requires Possible(c, events)
    decreases events
  {
    if events == [] then {}
    else
      (if events[0].SendReply? && events[0].accepted then {c.current} else {})
      + AcceptedSends(Deliver(c, events[0]), events[1..])
  }

  lemma {:induction false} RunCounts(c: Chain, events: seq<Event>)
    requires ChainInv(c) && Possible(c, events)
    ensures var d := RunChain(c, events);
            && |d.polls| == |c.polls| + CountReads(events)
            && d.failCount == c.failCount + CountFailures(c, events)
    decreases events
  {
    if events != [] {
      hide ChainInv, Deliver, Answers, FailuresFor, Unsent, TurnsOn, WaitsNext;
      DeliverKeeps(c, events[0]);
      DeliverCounts(c, events[0]);
      RunCounts(Deliver(c, events[0]), events[1..]);
    }
  }

  /** A blob that has been read was accepted, now or before this run. */
  lemma {:induction false} ReadsAreOfAccepted(c: Chain, events: seq<Event>, k: nat)
    requires ChainInv(c) && Possible(c, events)
    ensures RunChain(c, events).polls[k] > 0 <==> c.polls[k] > 0 || k in AcceptedSends(c, events)
    decreases events
  {
    if events != [] {
      var e := events[0];
      DeliverKeeps(c, e);
      DeliverCounts(c, e);
      ReadsAreOfAccepted(Deliver(c, e), events[1..], k);
      if e.TimerFires? {
        TimedBlobWasRead(c);
      }
    }
  }

  lemma TimedBlobWasRead(c: Chain)
    requires ChainInv(c) && c.waiting.OnTimer?
    ensures c.polls[c.current] > 0
  {}

  /** Over every run of replies, errors and timeouts from the start of a chain: as many
      status reads as accepted sends and fired timers, and a blob is read exactly when its
      send was accepted; the failures are the rejected sends, the statuses that could not be
      read, the failure replies, the blobs still in progress on their last read, and those
      without a memory file; the successes are the success replies. */
  lemma DeliveryAccounts(config: SwitchConfig, events: seq<Event>)
    requires Possible(NewChain(Flatten(config)), events)
    ensures var c := NewChain(Flatten(config));
            var d := RunChain(c, events);
            && |d.polls| == CountReads(events)
            && (forall k: nat :: d.polls[k] > 0 <==> k in AcceptedSends(c, events))
            && d.failCount == CountFailures(c, events)
            && d.successCount == CountSuccesses(events)
  {
    hide Possible, RunChain, AcceptedSends, CountFailures, Flatten, ChainInv;
    var c := NewChain(Flatten(config));
    StartIsSound(Flatten(config));
    RunCounts(c, events);
    RunReports(c, events);
    forall k: nat
      ensures RunChain(c, events).polls[k] > 0 <==> k in AcceptedSends(c, events)
    {
      ReadsAreOfAccepted(c, events, k);
    }
  }

  lemma StartIsSound(blobs: seq<BlobEntry>)
    ensures ChainInv(NewChain(blobs))
  {}

  /** One blob, found, sent, accepted: it is being read, and nothing has failed. */
  lemma AcceptedSendIsRead(b: BlobEntry)
    ensures var run := [ServiceReply(true, 0), SendReply(true, 0)];
            && Possible(NewChain([b]), run)
            && var d := RunChain(NewChain([b]), run);
               d.waiting == OnStatus(0) && d.failCount == 0 && d.polls == multiset{0}
  {
    var run := [ServiceReply(true, 0), SendReply(true, 0)];
    assert run[1..] == [SendReply(true, 0)] && run[1..][1..] == [];
  }
}
