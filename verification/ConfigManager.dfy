/** The manager around the chains: the stored file, the devices it serves and the
    chains that are live. */
module ConfigManager {
  import opened Outcomes
  import opened ConfigParser
  import opened BlobDelivery

  type Path = string

  const MAX_CONFIG_FILE_SIZE := 64 * 1024

  datatype Running = Running(path: Path, chain: Chain)

  /** `lost` holds the devices whose chain ended because its timer was cancelled. */
  datatype Manager = Manager(
    file: Option<string>,
    inProgress: map<Path, bool>,
    chains: seq<Running>,
    lost: set<Path>)

  const EMPTY := Manager(None, map[], [], {})

  /** Events of the event loop; `stored` and `readable` say whether the file system
      did what it was asked to do. */
  datatype ManagerEvent =
    | AddFile(content: string, stored: bool)
    | RemoveFile(removed: bool)
    | Subscribe(path: Path)
    | Signal(path: Path, readable: bool)
    | Callback(index: nat, answer: Event)

  // ---- The stored file ----

  ghost predicate Storable(content: string) {
    content != "" && |content| <= MAX_CONFIG_FILE_SIZE && Parse(content).Ok?
  }

  ghost function AfterAdd(m: Manager, content: string, stored: bool): Manager {
    if m.file.None? && Storable(content) && stored then m.(file := Some(content)) else m
  }

  function AfterRemove(m: Manager, removed: bool): Manager {
    if m.file.Some? && removed then m.(file := None) else m
  }

  // ---- Devices and chains ----

  function AfterSubscribe(m: Manager, path: Path): Manager {
    if path in m.inProgress then m else m.(inProgress := m.inProgress[path := false])
  }

  /** A signal starts a chain only for a known device with none in progress, and only
      when the stored file can be read and parsed. */
  ghost function AfterSignal(m: Manager, path: Path, readable: bool): Manager {
    if path !in m.inProgress || m.inProgress[path] then m
    else if m.file.None? || !readable || m.file.value == "" || Parse(m.file.value).Err? then m
    else m.(inProgress := m.inProgress[path := true],
            chains := m.chains + [Running(path, NewChain(Flatten(Parse(m.file.value).value)))])
  }

  function Without<T>(s: seq<T>, i: nat): seq<T>
    requires i < |s|
  {
    s[..i] + s[i + 1..]
  }

  function AfterCallback(m: Manager, i: nat, e: Event): Manager
    requires i < |m.chains| && Answers(m.chains[i].chain.waiting, e)
  {
    var path, chain := m.chains[i].path, Deliver(m.chains[i].chain, e);
    if chain.waiting == Finished then
      m.(chains := Without(m.chains, i),
         inProgress := if path in m.inProgress then m.inProgress[path := false] else m.inProgress)
    else if chain.waiting == Abandoned then m.(chains := Without(m.chains, i), lost := m.lost + {path})
    else m.(chains := m.chains[i := Running(path, chain)])
  }

  predicate Enabled(m: Manager, e: ManagerEvent) {
    e.Callback? ==> e.index < |m.chains| && Answers(m.chains[e.index].chain.waiting, e.answer)
  }

  ghost function Next(m: Manager, e: ManagerEvent): Manager
    requires Enabled(m, e)
  {
    match e
    case AddFile(content, stored) => AfterAdd(m, content, stored)
    case RemoveFile(removed) => AfterRemove(m, removed)
    case Subscribe(path) => AfterSubscribe(m, path)
    case Signal(path, readable) => AfterSignal(m, path, readable)
    case Callback(i, answer) => AfterCallback(m, i, answer)
  }

  // ---- What every step keeps ----

  predicate IsLive(chain: Chain) {
    chain.waiting != Finished && chain.waiting != Abandoned
  }

  ghost predicate HasChain(m: Manager, path: Path) {
    exists i :: 0 <= i < |m.chains| && m.chains[i].path == path
  }

  /** A device is marked exactly while one live chain serves it, unless it was lost. */
  ghost predicate ManagerInv(m: Manager) {
    && (m.file.Some? ==> Storable(m.file.value))
    && (forall i, j | 0 <= i < j < |m.chains| :: m.chains[i].path != m.chains[j].path)
    && (forall i | 0 <= i < |m.chains| :: ChainInv(m.chains[i].chain) && IsLive(m.chains[i].chain))
    && (forall path | path in m.inProgress :: m.inProgress[path] <==> HasChain(m, path) || path in m.lost)
    && (forall path :: HasChain(m, path) ==> path in m.inProgress && path !in m.lost)
    && (forall path | path in m.lost :: path in m.inProgress)
  }

  lemma NewChainInv(blobs: seq<BlobEntry>)
    ensures ChainInv(NewChain(blobs)) && IsLive(NewChain(blobs))
  {}

  lemma SignalKeeps(m: Manager, path: Path, readable: bool)
    requires ManagerInv(m)
    ensures ManagerInv(AfterSignal(m, path, readable))
  {
    hide ChainInv, Storable, Parse;
    var n := AfterSignal(m, path, readable);
    if n != m {
      assert ChainInv(NewChain(Flatten(Parse(m.file.value).value))) by {
        NewChainInv(Flatten(Parse(m.file.value).value));
      }
      assert !HasChain(m, path);
      assert n.chains[|m.chains|].path == path;
      forall q | q != path ensures HasChain(n, q) <==> HasChain(m, q) {
        if HasChain(m, q) {
          var i :| 0 <= i < |m.chains| && m.chains[i].path == q;
          assert n.chains[i].path == q;
        }
      }
    }
  }

  lemma WithoutKeepsOthers(m: Manager, i: nat, q: Path)
    requires ManagerInv(m) && i < |m.chains|
    ensures HasChain(m.(chains := Without(m.chains, i)), q) <==> q != m.chains[i].path && HasChain(m, q)
  {
    hide ChainInv, Storable;
    var rest := Without(m.chains, i);
    forall k | 0 <= k < |rest| ensures rest[k] == m.chains[if k < i then k else k + 1] {}
    if q != m.chains[i].path && HasChain(m, q) {
      var k :| 0 <= k < |m.chains| && m.chains[k].path == q;
      assert rest[if k < i then k else k - 1].path == q;
    }
  }

  lemma CallbackKeeps(m: Manager, i: nat, e: Event)
    requires ManagerInv(m) && i < |m.chains| && Answers(m.chains[i].chain.waiting, e)
    ensures ManagerInv(AfterCallback(m, i, e))
  {
    hide ChainInv, Deliver, Storable;
    var n, path := AfterCallback(m, i, e), m.chains[i].path;
    DeliverKeeps(m.chains[i].chain, e);
    if IsLive(Deliver(m.chains[i].chain, e)) {
      forall q ensures HasChain(n, q) <==> HasChain(m, q) {
        assert forall k | 0 <= k < |m.chains| :: n.chains[k].path == m.chains[k].path;
      }
    } else {
      assert forall k | 0 <= k < |n.chains| :: n.chains[k] == m.chains[if k < i then k else k + 1];
      forall q ensures HasChain(n, q) <==> q != path && HasChain(m, q) {
        WithoutKeepsOthers(m, i, q);
        assert n.chains == m.(chains := Without(m.chains, i)).chains;
      }
      assert HasChain(m, path);
    }
  }

  lemma NextKeeps(m: Manager, e: ManagerEvent)
    requires ManagerInv(m) && Enabled(m, e)
    ensures ManagerInv(Next(m, e))
  {
    hide Storable, ChainInv;
    match e
    case AddFile(_, _) =>
      assert Next(m, e).chains == m.chains && forall path :: HasChain(Next(m, e), path) <==> HasChain(m, path);
    case RemoveFile(_) =>
      assert forall path :: HasChain(Next(m, e), path) <==> HasChain(m, path);
    case Subscribe(path) =>
      assert forall q :: HasChain(Next(m, e), q) <==> HasChain(m, q);
    case Signal(path, readable) => SignalKeeps(m, path, readable);
    case Callback(i, answer) => CallbackKeeps(m, i, answer);
  }

  ghost predicate PossibleRun(m: Manager, events: seq<ManagerEvent>)
    decreases events
  {
    events == [] || (Enabled(m, events[0]) && PossibleRun(Next(m, events[0]), events[1..]))
  }

  ghost function RunManager(m: Manager, events: seq<ManagerEvent>): Manager
    requires PossibleRun(m, events)
    decreases events
  {
    if events == [] then m else RunManager(Next(m, events[0]), events[1..])
  }

  lemma {:induction false} RunManagerKeeps(m: Manager, events: seq<ManagerEvent>)
    requires ManagerInv(m) && PossibleRun(m, events)
    ensures ManagerInv(RunManager(m, events))
    decreases events
  {
    if events != [] {
      NextKeeps(m, events[0]);
      RunManagerKeeps(Next(m, events[0]), events[1..]);
    }
  }

  predicate CancelsTimer(e: ManagerEvent) {
    e.Callback? && e.answer == TimerCancelled
  }

  lemma {:induction false} LostOnlyByCancelling(m: Manager, events: seq<ManagerEvent>)
    requires PossibleRun(m, events) && forall e | e in events :: !CancelsTimer(e)
    ensures RunManager(m, events).lost == m.lost
    decreases events
  {
    if events != [] {
      assert events[0] in events;
      if events[0].Callback? {
        DeliverReports(m.chains[events[0].index].chain, events[0].answer);
      }
      assert Next(m, events[0]).lost == m.lost;
      LostOnlyByCancelling(Next(m, events[0]), events[1..]);
    }
  }

  /** Over every run in which no poll timer is cancelled, a device is marked in progress
      exactly while a chain for it is live, there is never a second one, and a stored
      file is one that the parser accepts. */
  lemma SingleChain(events: seq<ManagerEvent>)
    requires PossibleRun(EMPTY, events) && forall e | e in events :: !CancelsTimer(e)
    ensures var m := RunManager(EMPTY, events);
            && (forall path | path in m.inProgress :: m.inProgress[path] <==> HasChain(m, path))
            && (forall i, j | 0 <= i < j < |m.chains| :: m.chains[i].path != m.chains[j].path)
            && (m.file.Some? ==> Storable(m.file.value))
  {
    RunManagerKeeps(EMPTY, events);
    LostOnlyByCancelling(EMPTY, events);
  }

  /** How many callbacks of a run go to the chain of a device. */
  ghost function Served(m: Manager, path: Path, events: seq<ManagerEvent>): nat
    requires PossibleRun(m, events)
    decreases events
  {
    if events == [] then 0
    else
      (if events[0].Callback? && m.chains[events[0].index].path == path then 1 else 0)
      + Served(Next(m, events[0]), path, events[1..])
  }

  predicate Marked(m: Manager, path: Path) {
    path in m.inProgress && m.inProgress[path]
  }

  /** The device is marked in every state of the run. */
  ghost predicate StaysMarked(m: Manager, path: Path, events: seq<ManagerEvent>)
    requires PossibleRun(m, events)
    decreases events
  {
    Marked(m, path) && (events != [] ==> StaysMarked(Next(m, events[0]), path, events[1..]))
  }

  /** Where a chain is after an event that leaves its device marked, and what became of it. */
  lemma ChainAfter(m: Manager, e: ManagerEvent, i: nat) returns (j: nat)
    requires ManagerInv(m) && Enabled(m, e) && !CancelsTimer(e) && i < |m.chains|
    requires Marked(Next(m, e), m.chains[i].path)
    ensures j < |Next(m, e).chains| && Next(m, e).chains[j].path == m.chains[i].path
    ensures Next(m, e).chains[j].chain
            == if e.Callback? && e.index == i then Deliver(m.chains[i].chain, e.answer) else m.chains[i].chain
  {
    hide ChainInv, Deliver, Storable, Parse;
    j := i;
    if e.Callback? {
      var c := m.chains[e.index].chain;
      assert IsLive(m.chains[i].chain) && HasChain(m, m.chains[i].path);
      DeliverReports(c, e.answer);
      if !IsLive(Deliver(c, e.answer)) && e.index < i {
        j := i - 1;
      }
    }
  }

  /** A mark does not stay: as long as a device is marked, its chain waits for a callback,
      and fewer callbacks than the chain's budget have been delivered to it. So after that
      many the mark has been cleared. */
  lemma {:induction false} MarkIsCleared(m: Manager, i: nat, events: seq<ManagerEvent>)
    requires ManagerInv(m) && PossibleRun(m, events) && i < |m.chains|
    requires (forall e | e in events :: !CancelsTimer(e)) && StaysMarked(m, m.chains[i].path, events)
    ensures Served(m, m.chains[i].path, events) < Budget(m.chains[i].chain)
    ensures exists e :: Answers(m.chains[i].chain.waiting, e)
    decreases events
  {
    var path, c := m.chains[i].path, m.chains[i].chain;
    assert ChainInv(c) && IsLive(c);
    BudgetIsNat(c);
    var pending := WaitedFor(c);
    if events != [] {
      hide ChainInv, Deliver, Storable, Parse, Budget, AfterCallback, AfterSignal;
      var e := events[0];
      assert e in events;
      NextKeeps(m, e);
      var j := ChainAfter(m, e, i);
      MarkIsCleared(Next(m, e), j, events[1..]);
      if e.Callback? {
        if e.index == i {
          DeliverSpends(c, e.answer);
        } else {
          assert m.chains[e.index].path != path;
        }
      }
    }
  }

  /** In every reachable state a readable stored file starts a chain for an idle device,
      and a signal for a busy or unknown device changes nothing. */
  lemma SignalStartsChain(m: Manager, path: Path)
    requires ManagerInv(m) && m.file.Some?
    ensures var n := AfterSignal(m, path, true);
            if path in m.inProgress && !m.inProgress[path]
            then !HasChain(m, path) && |n.chains| == |m.chains| + 1
                 && n.chains[|m.chains|] == Running(path, NewChain(Flatten(Parse(m.file.value).value)))
            else n == m
  {
    hide Parse;
  }

  // ---- What each event does ----

  /** A file is taken exactly when none is stored, it is not empty, not over 65536 bytes and
      a configuration, and it could be written; nothing else changes. */
  lemma AddMeans(m: Manager, content: string, stored: bool)
    ensures var taken := m.file == None && 0 < |content| <= 65536 && Parse(content).Ok? && stored;
            Next(m, AddFile(content, stored)) == m.(file := if taken then Some(content) else m.file)
  {
    hide Parse;
  }

  /** A removal that the file system carries out leaves no file, any other changes nothing;
      chains that are live go on. */
  lemma RemoveMeans(m: Manager)
    ensures Next(m, RemoveFile(true)) == m.(file := None)
    ensures Next(m, RemoveFile(false)) == m
  {}

  /** A subscription makes the device known and leaves every mark alone. */
  lemma SubscribeMeans(m: Manager, path: Path)
    ensures var n := Next(m, Subscribe(path));
            && n.inProgress.Keys == m.inProgress.Keys + {path}
            && (path !in m.inProgress ==> !n.inProgress[path])
            && (forall q | q in m.inProgress :: n.inProgress[q] == m.inProgress[q])
            && n == m.(inProgress := n.inProgress)
  {}

  ghost function SubscribedIn(events: seq<ManagerEvent>): set<Path> {
    set e | e in events && e.Subscribe? :: e.path
  }

  /** Over every run the devices are exactly those subscribed to. */
  lemma {:induction false} DevicesAreSubscribed(m: Manager, events: seq<ManagerEvent>)
    requires PossibleRun(m, events)
    ensures RunManager(m, events).inProgress.Keys == m.inProgress.Keys + SubscribedIn(events)
    decreases events
  {
    if events != [] {
      hide Next, Enabled;
      DevicesAreSubscribed(Next(m, events[0]), events[1..]);
      NextDevices(m, events[0]);
      SubscribedCons(events);
    }
  }

  lemma NextDevices(m: Manager, e: ManagerEvent)
    requires Enabled(m, e)
    ensures Next(m, e).inProgress.Keys == m.inProgress.Keys + SubscribedIn([e])
  {
    hide Parse, Deliver, Answers, Storable;
    assert e in [e];
    assert SubscribedIn([e]) == if e.Subscribe? then {e.path} else {};
  }

  lemma SubscribedCons(events: seq<ManagerEvent>)
    requires events != []
    ensures SubscribedIn(events) == SubscribedIn([events[0]]) + SubscribedIn(events[1..])
  {
    assert events == [events[0]] + events[1..];
  }

  predicate ChangesFile(m: Manager, e: ManagerEvent) {
    if m.file.Some? then e == RemoveFile(true) else e.AddFile? && e.stored
  }

  /** A stored file stays, and an empty store stays empty, until an event that changes it. */
  lemma {:induction false} FileStays(m: Manager, events: seq<ManagerEvent>)
    requires PossibleRun(m, events) && forall e | e in events :: !ChangesFile(m, e)
    ensures RunManager(m, events).file == m.file
    decreases events
  {
    if events != [] {
      hide Parse, Deliver, Answers, Storable;
      assert events[0] in events;
      assert Next(m, events[0]).file == m.file;
      assert forall e | e in events[1..] :: e in events && (ChangesFile(Next(m, events[0]), e) <==> ChangesFile(m, e));
      FileStays(Next(m, events[0]), events[1..]);
    }
  }

  /** A cancelled timer ends the chain and leaves its device marked. */
  lemma CancelLosesDevice(m: Manager, i: nat)
    requires ManagerInv(m) && i < |m.chains| && m.chains[i].chain.waiting.OnTimer?
    ensures var n := Next(m, Callback(i, TimerCancelled));
            && m.chains[i].path in n.lost && Marked(n, m.chains[i].path)
            && |n.chains| == |m.chains| - 1 && n.inProgress == m.inProgress
  {
    hide ChainInv, Storable;
    assert HasChain(m, m.chains[i].path);
  }

  /** From then on the device is marked for good and nothing is ever sent to it. */
  lemma {:induction false} LostIsForGood(m: Manager, events: seq<ManagerEvent>, path: Path)
    requires ManagerInv(m) && PossibleRun(m, events) && path in m.lost
    ensures var n := RunManager(m, events); path in n.lost && Marked(n, path) && !HasChain(n, path)
    decreases events
  {
    if events != [] {
      hide ManagerInv, HasChain;
      assert path in Next(m, events[0]).lost by { LostStays(m, events[0], path); }
      NextKeeps(m, events[0]);
      LostIsForGood(Next(m, events[0]), events[1..], path);
    }
  }

  lemma LostStays(m: Manager, e: ManagerEvent, path: Path)
    requires Enabled(m, e) && path in m.lost
    ensures path in Next(m, e).lost
  {
    hide Parse, Deliver, Answers, Storable;
  }

  // ---- The manager object ----

  class NVSwitchConfigManager {
    var configFile: Option<string>
    var deviceStates: map<Path, bool>
    var contexts: seq<BlobSendContext>
    ghost var lost: set<Path>

    ghost predicate Valid()
      reads this
    {
      forall i, j | 0 <= i < j < |contexts| :: contexts[i] != contexts[j]
    }

    ghost function Abs(): Manager
      reads this, contexts
    {
      Manager(configFile, deviceStates,
              seq(|contexts|, i requires 0 <= i < |contexts| reads this, contexts =>
                Running(contexts[i].devicePath, contexts[i].Abs())),
              lost)
    }

    constructor ()
      ensures Valid() && Abs() == EMPTY
    {
      configFile, deviceStates, contexts, lost := None, map[], [], {};
    }

    /** The checks come in the source's order; only a file that passes them all is
        written, and a failed write leaves the store as it was. */
    method HandleAddConfigFile(content: string, stored: bool) returns (added: bool)
      requires Valid()
      modifies this`configFile
      ensures Valid() && Abs() == AfterAdd(old(Abs()), content, stored)
      ensures added <==> old(configFile).None? && Storable(content) && stored
    {
      if configFile.Some? || content == "" || |content| > MAX_CONFIG_FILE_SIZE {
        return false;
      }
      var parsed := ParseConfigFile(content);
      if parsed.Err? || !stored {
        return false;
      }
      configFile := Some(content);
      return true;
    }

    method HandleRemoveConfigFile(removed: bool) returns (done: bool)
      requires Valid()
      modifies this`configFile
      ensures Valid() && Abs() == AfterRemove(old(Abs()), removed)
      ensures done <==> old(configFile).Some? && removed
    {
      if configFile.None? || !removed {
        return false;
      }
      configFile := None;
      return true;
    }

    method SubscribeToDevice(devicePath: Path)
      requires Valid()
      modifies this`deviceStates
      ensures Valid() && Abs() == AfterSubscribe(old(Abs()), devicePath)
    {
      if devicePath in deviceStates {
        return;
      }
      deviceStates := deviceStates[devicePath := false];
    }

    method OnConfigUpdateSignal(devicePath: Path, readable: bool)
      requires Valid()
      modifies this`deviceStates, this`contexts
      ensures Valid() && Abs() == AfterSignal(old(Abs()), devicePath, readable)
    {
      hide Parse, Flatten, NewChain;
      if devicePath !in deviceStates {
        return;
      }
      if deviceStates[devicePath] {
        return;
      }
      assert deviceStates[devicePath := true][devicePath := false] == deviceStates;
      deviceStates := deviceStates[devicePath := true];
      ApplyConfigToDevice(devicePath, readable);
    }

    /** Clears the mark when there is nothing to send; otherwise starts a chain. */
    method ApplyConfigToDevice(devicePath: Path, readable: bool)
      requires Valid() && devicePath in deviceStates && deviceStates[devicePath]
      modifies this`deviceStates, this`contexts
      ensures Valid()
      ensures var idle := old(Abs()).(inProgress := old(deviceStates)[devicePath := false]);
              var next := AfterSignal(idle, devicePath, readable);
              Abs() == next
    {
      hide Parse, Flatten, NewChain;
      if configFile.None? || !readable || configFile.value == "" {
        deviceStates := deviceStates[devicePath := false];
        return;
      }
      var config := ParseConfigFile(configFile.value);
      if config.Err? {
        deviceStates := deviceStates[devicePath := false];
        return;
      }
      var blobs := BuildBlobs(config.value);
      var ctx := new BlobSendContext(devicePath, blobs);
      contexts := contexts + [ctx];
    }

    /** Delivers one callback to one chain and closes the chain if it has ended. */
    method Dispatch(i: nat, e: Event)
      requires Valid() && i < |contexts| && Answers(contexts[i].waiting, e)
      modifies this, contexts[i]
      ensures Valid() && Abs() == AfterCallback(old(Abs()), i, e)
    {
      hide Deliver;
      var ctx := contexts[i];
      ghost var before := Abs();
      ctx.Handle(e);
      assert Abs() == before.(chains := before.chains[i := Running(ctx.devicePath, ctx.Abs())]) by {
        assert forall k | 0 <= k < |contexts| && k != i :: contexts[k] != ctx;
      }
      if ctx.waiting == Finished {
        Release(i);
        if ctx.devicePath in deviceStates {
          deviceStates := deviceStates[ctx.devicePath := false];
        }
      } else if ctx.waiting == Abandoned {
        Release(i);
        lost := lost + {ctx.devicePath};
      }
    }

    /** The last callback that held a context has run. */
    method Release(i: nat)
      requires Valid() && i < |contexts|
      modifies this`contexts
      ensures Valid() && Abs() == old(Abs()).(chains := Without(old(Abs()).chains, i))
    {
      contexts := Without(contexts, i);
    }
  }
}
