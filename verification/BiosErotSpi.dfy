/** Clearing the BIOS NVRAM over the ERoT: one request, then status queries until the
    operation is complete, fails or has been asked for too often. */
module BiosErotSpi {
  import opened Bytes
  import opened Outcomes

  const COMPLETION_SUCCESS := 0x00
  const COPY_SUCCESS := 0x01
  const COPY_SENT := 0x02
  const QUERY_SUCCESS := 0x01
  const QUERY_IN_PROGRESS := 0x03
  const SPI_RESPONSE_SIZE := 2
  const MAX_PROGRESS_HISTORY := 3
  const MAX_STATUS_QUERIES := 30
  const INITIAL_PROGRESS := 30

  datatype Status = InProgress | Completed | Failed
  datatype Progress = Progress(index: nat, status: Status, percent: nat)

  /** A command fails to be sent or answered, or brings a payload. */
  datatype Reply = NoReply | Response(payload: seq<Byte>)

  /** The status byte of a response of the right size that reports no error. */
  function ParseResponse(r: Reply): Option<Byte> {
    if r.NoReply? || |r.payload| != SPI_RESPONSE_SIZE || r.payload[0] != COMPLETION_SUCCESS then None
    else Some(r.payload[1])
  }

  predicate Accepts(r: Reply) {
    ParseResponse(r) == Some(COPY_SUCCESS) || ParseResponse(r) == Some(COPY_SENT)
  }

  predicate Finishes(r: Reply) {
    ParseResponse(r) == Some(QUERY_SUCCESS)
  }

  predicate Continues(r: Reply) {
    ParseResponse(r) == Some(QUERY_IN_PROGRESS)
  }

  /** The first `k` queries were all answered with "in progress". */
  ghost predicate ContinuesFor(replies: nat -> Reply, k: nat) {
    forall q: nat | 1 <= q <= k :: Continues(replies(q))
  }

  /** The request was accepted, and the first query that was not answered with "in
      progress" is one of the first thirty and was answered with "complete". */
  ghost predicate Succeeds(replies: nat -> Reply) {
    && Accepts(replies(0))
    && exists k: nat :: k < MAX_STATUS_QUERIES && ContinuesFor(replies, k) && Finishes(replies(1 + k))
  }

  /** How many queries an accepted request leads to: up to the first that is not answered
      with "in progress", and never more than thirty. */
  ghost predicate QueriesAre(replies: nat -> Reply, n: nat) {
    && 1 <= n <= MAX_STATUS_QUERIES
    && ContinuesFor(replies, n - 1)
    && (n < MAX_STATUS_QUERIES ==> !Continues(replies(n)))
  }

  /** The progress after `k` answers "in progress". */
  function Shown(k: nat): nat {
    if 30 + 15 * k < 90 then 30 + 15 * k else 90
  }

  /** The values published for `n` queries: one when the request is accepted, one more for
      each query but the last, and 100 at the end. */
  ghost predicate IsShown(shown: seq<nat>, n: nat) {
    |shown| == n + 1 && shown[n] == 100 && ShownUpTo(shown[..n], n)
  }

  ghost predicate ShownUpTo(shown: seq<nat>, n: nat) {
    |shown| == n && forall k: nat | k < n :: shown[k] == Shown(k)
  }

  lemma ShownSnoc(shown: seq<nat>, n: nat)
    requires ShownUpTo(shown, n)
    ensures ShownUpTo(shown + [Shown(n)], n + 1)
    ensures IsShown(shown + [100], n)
  {
    assert (shown + [100])[..n] == shown;
  }

  /** Published progress never falls, stays at 90 or below until the end, and reaches 100
      only there. */
  lemma ShownRises(shown: seq<nat>, n: nat)
    requires IsShown(shown, n)
    ensures forall i: nat, j: nat | i < j < |shown| :: shown[i] <= shown[j]
    ensures forall i: nat | i < |shown| :: shown[i] == 100 <==> i == |shown| - 1
    ensures forall i: nat | i < |shown| - 1 :: shown[i] <= 90
  {
    assert forall i: nat | i < n :: shown[i] == shown[..n][i] == Shown(i);
  }

  /** The number of queries is determined by the replies. */
  lemma QueriesUnique(replies: nat -> Reply, m: nat, n: nat)
    requires QueriesAre(replies, m) && QueriesAre(replies, n)
    ensures m == n
  {}

  /** The two bytes of a response decide: a request is accepted by 0, 1 and by 0, 2, a query
      says complete by 0, 1 and in progress by 0, 3. */
  lemma RepliesMean(r: Reply)
    ensures Accepts(r) <==> r == Response([0, 1]) || r == Response([0, 2])
    ensures Finishes(r) <==> r == Response([0, 1])
    ensures Continues(r) <==> r == Response([0, 3])
  {
    if r.Response? && |r.payload| == 2 {
      assert r.payload == [r.payload[0], r.payload[1]];
    }
  }

  /** An operation that is still in progress at the thirtieth query has failed, and is not
      asked again; one that completes there has succeeded. */
  lemma ThirtiethQueryIsLast(replies: nat -> Reply, n: nat)
    requires Accepts(replies(0)) && QueriesAre(replies, n)
    requires forall q: nat | 1 <= q < 30 :: replies(q) == Response([0, 3])
    ensures n == 30
    ensures Succeeds(replies) <==> replies(30) == Response([0, 1])
  {
    forall q: nat | 1 <= q < 30
      ensures Continues(replies(q))
    {
      RepliesMean(replies(q));
    }
    RepliesMean(replies(30));
    Verdict(replies, n, Finishes(replies(n)));
  }

  class ClearProvider {
    var operationActive: bool
    var currentProgress: nat
    var operationIndex: nat
    var progressHistory: seq<Progress>

    /** Only the newest progress object can be in progress, and it is while an operation is
        active: making room never drops it. */
    ghost predicate Valid()
      reads this
    {
      && |progressHistory| <= 3
      && (operationActive ==> progressHistory != [])
      && forall k: nat | k < |progressHistory| ::
           if operationActive && k == |progressHistory| - 1 then progressHistory[k].status == InProgress
           else progressHistory[k].status != InProgress && progressHistory[k].percent == 100
    }

    constructor ()
      ensures Valid() && !operationActive && progressHistory == []
    {
      operationActive, currentProgress, operationIndex, progressHistory := false, 0, 0, [];
    }

    /** Refused while another operation is active; then nothing changes. */
    method StartOperation() returns (index: Option<nat>)
      requires Valid()
      modifies this
      ensures Valid()
      ensures index == if old(operationActive) then None else Some(old(operationIndex))
      ensures index.None? ==> unchanged(this)
      ensures index.Some? ==>
                && operationActive && currentProgress == 0 && operationIndex == old(operationIndex) + 1
                && var kept := if |old(progressHistory)| == 3 then old(progressHistory)[1..]
                               else old(progressHistory);
                   progressHistory == kept + [Progress(index.value, InProgress, 0)]
    {
      if operationActive {
        return None;
      }
      if |progressHistory| >= MAX_PROGRESS_HISTORY {
        progressHistory := progressHistory[1..];
      }
      progressHistory := progressHistory + [Progress(operationIndex, InProgress, 0)];
      operationIndex := operationIndex + 1;
      currentProgress := 0;
      operationActive := true;
      return Some(operationIndex - 1);
    }

    /** The value is a byte. */
    method SetProgress(value: Byte)
      modifies this`currentProgress, this`progressHistory
      ensures currentProgress == value && |progressHistory| == |old(progressHistory)|
      ensures progressHistory != [] ==>
                var n := |progressHistory| - 1;
                && progressHistory[n] == old(progressHistory)[n].(percent := value)
                && progressHistory[..n] == old(progressHistory)[..n]
    {
      currentProgress := value;
      if progressHistory != [] {
        var n := |progressHistory| - 1;
        progressHistory := progressHistory[..n] + [progressHistory[n].(percent := value)];
      }
    }

    method FinishOperation(success: bool)
      modifies this`operationActive, this`progressHistory
      ensures !operationActive && |progressHistory| == |old(progressHistory)|
      ensures progressHistory != [] ==>
                var n := |progressHistory| - 1;
                && progressHistory[n]
                   == old(progressHistory)[n].(percent := 100, status := if success then Completed else Failed)
                && progressHistory[..n] == old(progressHistory)[..n]
    {
      operationActive := false;
      if progressHistory != [] {
        var n := |progressHistory| - 1;
        progressHistory := progressHistory[..n]
        + [progressHistory[n].(percent := 100, status := if success then Completed else Failed)];
      }
    }

    /** The coroutine: `replies(0)` answers the request and `replies(k)` the k-th query.
        `shown` lists the progress values published. */
    method RunOperation(replies: nat -> Reply) returns (queries: nat, ghost shown: seq<nat>)
      requires Valid() && operationActive
      modifies this`operationActive, this`currentProgress, this`progressHistory
      ensures Valid() && !operationActive && |progressHistory| == |old(progressHistory)|
      ensures var n := |progressHistory| - 1;
              && progressHistory[..n] == old(progressHistory)[..n]
              && progressHistory[n] == old(progressHistory)[n].(
                   percent := 100, status := if Succeeds(replies) then Completed else Failed)
      ensures if Accepts(replies(0)) then QueriesAre(replies, queries) else queries == 0
      ensures IsShown(shown, queries)
    {
      var success := false;
      queries, shown := 0, [];
      if Accepts(replies(0)) {
        SetProgress(INITIAL_PROGRESS);
        success, queries, shown := PollStatus(replies);
        Verdict(replies, queries, success);
      }
      ShownSnoc(shown, queries);
      shown := shown + [100];
      FinishOperation(success);
      ghost var n := |progressHistory| - 1;
      assert forall k: nat | k < n :: progressHistory[k] == progressHistory[..n][k] == old(progressHistory)[..n][k];
    }

    /** The queries after an accepted request. */
    method PollStatus(replies: nat -> Reply) returns (success: bool, queries: nat, ghost shown: seq<nat>)
      requires progressHistory != [] && currentProgress == INITIAL_PROGRESS
      modifies this`currentProgress, this`progressHistory
      ensures SameButPercent(progressHistory, old(progressHistory))
      ensures QueriesAre(replies, queries) && success == Finishes(replies(queries))
      ensures ShownUpTo(shown, queries)
    {
      hide Shown, ShownUpTo, ContinuesFor, SameButPercent;
      success, queries, shown := false, 0, [currentProgress];
      PollBegins(replies, progressHistory);
      ghost var was := progressHistory;
      while queries < MAX_STATUS_QUERIES
        invariant !success
        invariant queries <= MAX_STATUS_QUERIES - 1 && ContinuesFor(replies, queries)
        invariant SameButPercent(progressHistory, was)
        invariant currentProgress == Shown(queries)
        invariant ShownUpTo(shown, queries + 1)
        decreases MAX_STATUS_QUERIES - queries
      {
        queries := queries + 1;
        var response := ParseResponse(replies(queries));
        if response.None? {
          break;
        }
        if response.value == QUERY_SUCCESS {
          success := true;
          break;
        }
        if response.value != QUERY_IN_PROGRESS {
          break;
        }
        if queries >= MAX_STATUS_QUERIES {
          break;
        }
        PollContinues(replies, queries);
        var raised := (currentProgress + 15) % 256;
        ghost var before := progressHistory;
        SetProgress(if raised < 90 then raised else 90);
        PercentStep(before, progressHistory, was);
        ShownSnoc(shown, queries);
        shown := shown + [currentProgress];
      }
    }
  }

  lemma PollBegins(replies: nat -> Reply, history: seq<Progress>)
    requires history != []
    ensures ContinuesFor(replies, 0) && SameButPercent(history, history)
    ensures Shown(0) == INITIAL_PROGRESS && ShownUpTo([Shown(0)], 1)
  {}

  /** One more answer "in progress"; the next value fits a byte before it is cut to 90. */
  lemma PollContinues(replies: nat -> Reply, n: nat)
    requires n >= 1 && ContinuesFor(replies, n - 1) && Continues(replies(n))
    ensures ContinuesFor(replies, n)
    ensures Shown(n - 1) + 15 < 256
    ensures Shown(n) == if Shown(n - 1) + 15 < 90 then Shown(n - 1) + 15 else 90
  {}

  lemma PercentStep(a: seq<Progress>, b: seq<Progress>, was: seq<Progress>)
    requires SameButPercent(a, was) && |b| == |a|
    requires b[..|b| - 1] == a[..|a| - 1] && b[|b| - 1].(percent := 0) == a[|a| - 1].(percent := 0)
    ensures SameButPercent(b, was)
  {}

  /** Two histories that differ only in what the newest object shows. */
  ghost predicate SameButPercent(a: seq<Progress>, b: seq<Progress>) {
    && |a| == |b| > 0
    && a[..|a| - 1] == b[..|b| - 1]
    && a[|a| - 1].(percent := 0) == b[|b| - 1].(percent := 0)
  }

  /** The answer to the last query decides. */
  lemma Verdict(replies: nat -> Reply, n: nat, success: bool)
    requires Accepts(replies(0)) && QueriesAre(replies, n)
    requires success == Finishes(replies(n))
    ensures Succeeds(replies) == success
  {
    if success {
      assert ContinuesFor(replies, n - 1) && Finishes(replies(1 + (n - 1)));
    }
    if Succeeds(replies) {
      var k: nat :| k < MAX_STATUS_QUERIES && ContinuesFor(replies, k) && Finishes(replies(1 + k));
      assert QueriesAre(replies, k + 1);
      QueriesUnique(replies, n, k + 1);
    }
  }
}
