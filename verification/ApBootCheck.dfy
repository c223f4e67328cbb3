/** The check of the AP behind an ERoT: after an assertion of FATAL_ERROR its boot status
    is queried, and queried again while it is unavailable, until there is a verdict. */
module ApBootCheck {
  import opened Bytes
  import opened Outcomes
  import BootStatus

  datatype ApConfig = ApConfig(hasAP: bool, hasHelper: bool, maxRetries: nat)

  datatype ApObject = NoObject | Unhealthy | Degraded
  datatype Verdict = Booted | Failed | Unresolved

  /** A VDM query either fails or brings a payload whose first byte is a completion code. */
  datatype Reply = Lost | Message(payload: seq<Byte>)

  /** `query` says that a query is in flight, `unavailable` counts the unavailable results
      of the check that was started last, and `verdict` is what that check ended with. */
  datatype Check = Check(
    published: ApObject,
    active: bool,
    retries: nat,
    timer: bool,
    query: bool,
    unavailable: nat,
    verdict: Option<Verdict>)

  const IDLE := Check(NoObject, false, 0, false, false, 0, None)

  function Stop(c: Check): Check {
    c.(active := false, retries := 0, timer := false)
  }

  function Schedule(cfg: ApConfig, c: Check): Check {
    if !c.active || !cfg.hasAP then c else c.(timer := true)
  }

  /** Starting a check again drops the earlier one, but not its query in flight. */
  function Start(cfg: ApConfig, c: Check): Check {
    if !cfg.hasAP || !cfg.hasHelper then c
    else Schedule(cfg, Stop(c).(active := true, unavailable := 0, verdict := None))
  }

  function Unavailable(cfg: ApConfig, c: Check): Check {
    if !c.active || !cfg.hasAP then c
    else if c.retries >= cfg.maxRetries then
      Stop(c.(unavailable := c.unavailable + 1, published := Degraded, verdict := Some(Unresolved)))
    else Schedule(cfg, c.(unavailable := c.unavailable + 1, retries := c.retries + 1))
  }

  function OnStatus(cfg: ApConfig, c: Check, status: seq<Byte>): Check {
    var code := BootStatus.FatalCode(status);
    if code.None? then Unavailable(cfg, c)
    else if code.value != 0 || BootStatus.GetBit(status, BootStatus.BOOT_COMPLETE_TIMEOUT_BIT) then
      Stop(c.(published := Unhealthy, verdict := Some(Failed)))
    else if BootStatus.GetBit(status, BootStatus.BOOT_COMPLETE_BIT) then
      Stop(c.(published := NoObject, verdict := Some(Booted)))
    else Unavailable(cfg, c)
  }

  /** The part of the query coroutine after its reply. */
  function Answered(cfg: ApConfig, c: Check, reply: Reply): Check {
    if !c.active || !cfg.hasAP then c
    else if reply == Lost || |reply.payload| <= 1 then Unavailable(cfg, c)
    else OnStatus(cfg, c, reply.payload[1..])
  }

  /** The timer's callback. `sync` is the reply when the query ends without suspending. */
  function RunQuery(cfg: ApConfig, c: Check, sync: Option<Reply>): Check {
    var d := c.(timer := false);
    if !d.active || !cfg.hasAP || !cfg.hasHelper || d.query then d
    else if sync.Some? then Answered(cfg, d, sync.value)
    else d.(query := true)
  }

  datatype ApEvent = Tick(sync: Option<Reply>) | Replied(reply: Reply)

  predicate CanHappen(c: Check, e: ApEvent) {
    match e
    case Tick(_) => c.timer
    case Replied(_) => c.query
  }

  function Next(cfg: ApConfig, c: Check, e: ApEvent): Check {
    match e
    case Tick(sync) => RunQuery(cfg, c, sync)
    case Replied(reply) => Answered(cfg, c.(query := false), reply)
  }

  /** An active check has its timer armed or a query in flight; an inactive one has
      neither timer nor count; every unavailable result but the last was one retry. */
  ghost predicate Inv(cfg: ApConfig, c: Check) {
    && (c.active ==> cfg.hasAP && cfg.hasHelper && (c.timer || c.query))
    && Settled(cfg, c)
  }

  /** The invariant without the claim that something will wake an active check. */
  ghost predicate Settled(cfg: ApConfig, c: Check) {
    && (c.active ==> cfg.hasAP && cfg.hasHelper)
    && (!c.active ==> !c.timer && c.retries == 0)
    && c.retries <= cfg.maxRetries
    && (c.active ==> c.unavailable == c.retries && c.verdict == None)
    && c.unavailable <= cfg.maxRetries + 1
    && (c.verdict == Some(Unresolved) ==> c.unavailable == cfg.maxRetries + 1)
  }

  lemma StartKeeps(cfg: ApConfig, c: Check)
    requires Inv(cfg, c)
    ensures Inv(cfg, Start(cfg, c)) && Inv(cfg, Stop(c))
    ensures var n := Start(cfg, c);
            && n.published == c.published && n.query == c.query
            && (if cfg.hasAP && cfg.hasHelper then n.active && n.timer && n.retries == 0 && n.verdict == None
                else n == c)
    ensures var n := Stop(c); !n.active && n.published == c.published && n.query == c.query && n.verdict == c.verdict
  {}

  /** An answer wakes the check again or ends it, whatever was armed before. */
  lemma AnsweredKeeps(cfg: ApConfig, c: Check, reply: Reply)
    requires Settled(cfg, c)
    ensures var n := Answered(cfg, c, reply);
            Inv(cfg, n) && n.query == c.query && (c.active && !n.active ==> n.verdict.Some?)
  {
    hide BootStatus.GetBit, BootStatus.FatalCode;
  }

  lemma NextKeeps(cfg: ApConfig, c: Check, e: ApEvent)
    requires Inv(cfg, c) && CanHappen(c, e)
    ensures Inv(cfg, Next(cfg, c, e))
    ensures c.active || c.verdict.Some? ==> Next(cfg, c, e).active || Next(cfg, c, e).verdict.Some?
  {
    hide Answered;
    match e
    case Tick(sync) =>
      if sync.Some? && c.active {
        AnsweredKeeps(cfg, c.(timer := false), sync.value);
      }
    case Replied(reply) =>
      AnsweredKeeps(cfg, c.(query := false), reply);
      if !c.active {
        InactiveIgnores(cfg, c.(query := false), reply);
      }
  }

  lemma InactiveIgnores(cfg: ApConfig, c: Check, reply: Reply)
    requires !c.active
    ensures Answered(cfg, c, reply) == c
  {}

  // ---- How long a check lasts ----

  /** What the timer and the queries can still do before the check must end. */
  ghost function Measure(cfg: ApConfig, c: Check): int {
    (if c.active then 2 * (cfg.maxRetries - c.retries) + (if c.timer then 2 else 0) else 0)
    + (if c.query then 1 else 0)
  }

  lemma AnsweredSpends(cfg: ApConfig, c: Check, reply: Reply)
    requires Settled(cfg, c) && c.active
    ensures var n := Answered(cfg, c, reply);
            n.query == c.query && (n.active ==> n.retries == c.retries + 1 && n.timer)
  {
    hide BootStatus.GetBit, BootStatus.FatalCode;
  }

  lemma NextSpends(cfg: ApConfig, c: Check, e: ApEvent)
    requires Inv(cfg, c) && CanHappen(c, e)
    ensures 0 <= Measure(cfg, Next(cfg, c, e)) < Measure(cfg, c)
  {
    hide Answered;
    NextKeeps(cfg, c, e);
    match e
    case Tick(sync) =>
      if sync.Some? && c.active {
        AnsweredSpends(cfg, c.(timer := false), sync.value);
      }
    case Replied(reply) =>
      if c.active {
        AnsweredSpends(cfg, c.(query := false), reply);
      } else {
        InactiveIgnores(cfg, c.(query := false), reply);
      }
  }

  ghost function Run(cfg: ApConfig, c: Check, events: seq<ApEvent>): Check {
    if events == [] then c else Next(cfg, Run(cfg, c, events[..|events| - 1]), events[|events| - 1])
  }

  ghost predicate Possible(cfg: ApConfig, c: Check, events: seq<ApEvent>) {
    events != [] ==>
      var before := events[..|events| - 1];
      Possible(cfg, c, before) && CanHappen(Run(cfg, c, before), events[|events| - 1])
  }

  lemma {:induction false} RunSpends(cfg: ApConfig, c: Check, events: seq<ApEvent>)
    requires Inv(cfg, c) && Possible(cfg, c, events)
    ensures var n := Run(cfg, c, events);
            && Inv(cfg, n)
            && 0 <= Measure(cfg, n) <= Measure(cfg, c) - |events|
            && (c.active || c.verdict.Some? ==> n.active || n.verdict.Some?)
  {
    hide Next, Inv, Measure, CanHappen;
    if events == [] {
      assert 0 <= Measure(cfg, c) by { MeasureIsNat(cfg, c); }
    } else {
      var before := events[..|events| - 1];
      RunSpends(cfg, c, before);
      NextKeeps(cfg, Run(cfg, c, before), events[|events| - 1]);
      NextSpends(cfg, Run(cfg, c, before), events[|events| - 1]);
    }
  }

  lemma MeasureIsNat(cfg: ApConfig, c: Check)
    requires Inv(cfg, c)
    ensures 0 <= Measure(cfg, c)
  {}

  /** A check that is not restarted or stopped ends: at most `2 * max + 3` timer ticks and
      replies happen, at most `max + 1` of them unavailable, and once nothing more can
      happen there is a verdict. The verdict is Unresolved only after `max + 1`. */
  lemma VerdictReached(cfg: ApConfig, c: Check, events: seq<ApEvent>)
    requires Inv(cfg, c) && cfg.hasAP && cfg.hasHelper
    requires Possible(cfg, Start(cfg, c), events)
    ensures var n := Run(cfg, Start(cfg, c), events);
            && |events| <= 2 * cfg.maxRetries + 3
            && n.unavailable <= cfg.maxRetries + 1
            && (n.verdict == Some(Unresolved) ==> n.unavailable == cfg.maxRetries + 1)
            && ((forall e :: !CanHappen(n, e)) ==> !n.active && n.verdict.Some?)
  {
    StartKeeps(cfg, c);
    RunSpends(cfg, Start(cfg, c), events);
    var n := Run(cfg, Start(cfg, c), events);
    if forall e :: !CanHappen(n, e) {
      assert !CanHappen(n, Tick(None)) && !CanHappen(n, Replied(Lost));
    }
  }

  // ---- What the verdict says about the AP ----

  lemma FatalCodeBits(status: seq<Byte>)
    requires |status| > 3
    ensures BootStatus.FatalCode(status).value != 0 <==> exists k | 28 <= k < 32 :: BitOf(BigEndian(status), k)
  {
    hide BootStatus.GetBit, BitOf, BigEndian;
    var q := BigEndian(status) / 0x1000_0000;
    BootStatus.FourBits(q);
    forall i: nat | i < 4
      ensures BitOf(q, i) <==> BitOf(BigEndian(status), 28 + i)
    {
      BootStatus.FatalBits(status, i);
      BootStatus.GetBitIsBit(status, 28 + i);
    }
    assert BitOf(q, 0) <==> BitOf(BigEndian(status), 28);
    assert BitOf(q, 1) <==> BitOf(BigEndian(status), 29);
    assert BitOf(q, 2) <==> BitOf(BigEndian(status), 30);
    assert BitOf(q, 3) <==> BitOf(BigEndian(status), 31);
  }

  /** An answer of at least four status bytes says Failed exactly when one of the bits 27
      to 31 of the number it denotes is set, and Booted exactly when none of them is and
      bit 5 is. Every other answer leaves the check going or unresolved. */
  lemma VerdictOfAnswer(cfg: ApConfig, c: Check, reply: Reply)
    requires Inv(cfg, c) && c.active
    ensures var v := Answered(cfg, c, reply).verdict;
            var readable := reply != Lost && |reply.payload| > 4;
            && (v == Some(Failed) <==>
                readable && exists k | 27 <= k < 32 :: BitOf(BigEndian(reply.payload[1..]), k))
            && (v == Some(Booted) <==>
                readable && (forall k | 27 <= k < 32 :: !BitOf(BigEndian(reply.payload[1..]), k))
                && BitOf(BigEndian(reply.payload[1..]), 5))
  {
    hide BootStatus.GetBit, BitOf, BigEndian;
    if reply != Lost && |reply.payload| > 4 {
      var status := reply.payload[1..];
      hide BootStatus.FatalCode;
      assert BootStatus.FatalCode(status).Some? by { CodeOfFourBytes(status); }
      FatalCodeBits(status);
      BootStatus.GetBitIsBit(status, 27);
      BootStatus.GetBitIsBit(status, 5);
    }
  }

  /** So does the reply to a query in flight, and the reply of a query that ends without
      suspending. */
  lemma VerdictOfReply(cfg: ApConfig, c: Check, reply: Reply)
    requires Inv(cfg, c) && c.active
    ensures var readable := reply != Lost && |reply.payload| > 4;
            var fails := readable && exists k | 27 <= k < 32 :: BitOf(BigEndian(reply.payload[1..]), k);
            var boots := readable && (forall k | 27 <= k < 32 :: !BitOf(BigEndian(reply.payload[1..]), k))
                         && BitOf(BigEndian(reply.payload[1..]), 5);
            && (c.query ==>
                  var v := Next(cfg, c, Replied(reply)).verdict;
                  (v == Some(Failed) <==> fails) && (v == Some(Booted) <==> boots))
            && (!c.query ==>
                  var v := Next(cfg, c, Tick(Some(reply))).verdict;
                  (v == Some(Failed) <==> fails) && (v == Some(Booted) <==> boots))
  {
    hide BitOf, BigEndian, Answered;
    VerdictOfAnswer(cfg, c.(query := false, timer := true), reply);
    VerdictOfAnswer(cfg, c.(query := true, timer := false), reply);
    SameAnswer(cfg, c.(query := false, timer := true), c.(query := false), reply);
    SameAnswer(cfg, c.(query := true, timer := false), c.(timer := false), reply);
  }

  /** The answer's verdict does not depend on what is armed or in flight. */
  lemma SameAnswer(cfg: ApConfig, a: Check, b: Check, reply: Reply)
    requires a.(timer := false, query := false) == b.(timer := false, query := false)
    ensures Answered(cfg, a, reply).verdict == Answered(cfg, b, reply).verdict
  {
    hide BootStatus.GetBit, BootStatus.FatalCode;
  }

  /** What the AP's object shows after an answer: its verdict, if there is one now. */
  lemma PublishedByAnswer(cfg: ApConfig, c: Check, reply: Reply)
    requires Inv(cfg, c) && c.active
    ensures var n := Answered(cfg, c, reply);
            match n.verdict
            case None => n.published == c.published && n.active && n.retries == c.retries + 1
            case Some(Booted) => n.published == NoObject && !n.active
            case Some(Failed) => n.published == Unhealthy && !n.active
            case Some(Unresolved) => n.published == Degraded && !n.active && c.retries == cfg.maxRetries
  {
    hide BootStatus.GetBit, BootStatus.FatalCode;
  }

  lemma CodeOfFourBytes(status: seq<Byte>)
    ensures BootStatus.FatalCode(status).Some? <==> |status| > 3
  {}
}
