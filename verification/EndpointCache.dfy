/** A resource's cache of the bus path of its MCTP endpoint: matches are registered first,
    then the bus is read once, then the queued signals arrive. */
module EndpointCache {
  import opened Outcomes

  /** An object's MCTP endpoint interface: its EID, or an interface without that property,
      or with one of another type. */
  datatype Endpoint = NoEid | OddEid | Eid(eid: nat)

  datatype Object = Object(path: string, endpoint: Option<Endpoint>)

  /** The endpoint interfaces on the bus, by object path. */
  type Bus = map<string, Endpoint>

  /** What happens on the bus, each with its signal. The two events about other interfaces
      leave the endpoint interface alone. */
  datatype Event =
    | Appear(path: string, endpoint: Endpoint)
    | Vanish(path: string)
    | OtherAdded(path: string)
    | OtherRemoved(path: string)

  ghost predicate Live(bus: Bus, eid: nat, path: string) {
    path in bus && bus[path] == Eid(eid)
  }

  /** Paths are not empty, and at most one endpoint has the EID. */
  ghost predicate WellFormed(bus: Bus, eid: nat) {
    && "" !in bus
    && (forall p, q | Live(bus, eid, p) && Live(bus, eid, q) :: p == q)
  }

  ghost predicate CanHappen(bus: Bus, eid: nat, e: Event) {
    match e
    case Appear(path, endpoint) =>
      path != "" && path !in bus && (endpoint == Eid(eid) ==> forall p :: !Live(bus, eid, p))
    case Vanish(path) => path in bus
    case OtherAdded(path) => path != ""
    case OtherRemoved(path) => path != ""
  }

  ghost function Change(bus: Bus, e: Event): Bus {
    match e
    case Appear(path, endpoint) => bus[path := endpoint]
    case Vanish(path) => bus - {path}
    case OtherAdded(_) => bus
    case OtherRemoved(_) => bus
  }

  ghost function RunBus(bus: Bus, events: seq<Event>): Bus {
    if events == [] then bus else Change(RunBus(bus, events[..|events| - 1]), events[|events| - 1])
  }

  ghost predicate Possible(bus: Bus, eid: nat, events: seq<Event>) {
    events != [] ==>
      var before := events[..|events| - 1];
      Possible(bus, eid, before) && CanHappen(RunBus(bus, before), eid, events[|events| - 1])
  }

  /** The cache after one signal. A removal clears it whatever interface was removed. */
  function Signal(cached: string, eid: nat, e: Event): string {
    match e
    case Appear(path, endpoint) => if endpoint == Eid(eid) then path else cached
    case OtherAdded(_) => cached
    case Vanish(path) => if path == cached then "" else cached
    case OtherRemoved(path) => if path == cached then "" else cached
  }

  function Drain(cached: string, eid: nat, signals: seq<Event>): string {
    if signals == [] then cached
    else Signal(Drain(cached, eid, signals[..|signals| - 1]), eid, signals[|signals| - 1])
  }

  /** Whether a signal can set or clear a cache that names `path`. */
  predicate About(e: Event, eid: nat, path: string) {
    match e
    case Appear(p, endpoint) => p == path && endpoint == Eid(eid)
    case OtherAdded(_) => false
    case Vanish(p) => p == path
    case OtherRemoved(p) => p == path
  }

  function LastAbout(signals: seq<Event>, eid: nat, path: string): Option<Event> {
    if signals == [] then None
    else if About(signals[|signals| - 1], eid, path) then Some(signals[|signals| - 1])
    else LastAbout(signals[..|signals| - 1], eid, path)
  }

  /** What a read of the bus must find. */
  ghost predicate IsLookup(bus: Bus, eid: nat, found: string) {
    if found == "" then forall p :: !Live(bus, eid, p) else Live(bus, eid, found)
  }

  lemma ChangeKeeps(bus: Bus, eid: nat, e: Event)
    requires WellFormed(bus, eid) && CanHappen(bus, eid, e)
    ensures WellFormed(Change(bus, e), eid)
  {
    forall p, q | Live(Change(bus, e), eid, p) && Live(Change(bus, e), eid, q)
      ensures p == q
    {
      if !e.Appear? || e.endpoint != Eid(eid) {
        assert Live(bus, eid, p) && Live(bus, eid, q);
      } else {
        assert !Live(bus, eid, p) && !Live(bus, eid, q);
      }
    }
  }

  lemma {:induction false} RunBusKeeps(bus: Bus, eid: nat, events: seq<Event>)
    requires WellFormed(bus, eid) && Possible(bus, eid, events)
    ensures WellFormed(RunBus(bus, events), eid)
  {
    if events != [] {
      RunBusKeeps(bus, eid, events[..|events| - 1]);
      ChangeKeeps(RunBus(bus, events[..|events| - 1]), eid, events[|events| - 1]);
    }
  }

  /** A path that no signal was about is live after them exactly when it was before. */
  lemma {:induction false} UntouchedStays(bus: Bus, eid: nat, events: seq<Event>, path: string)
    requires Possible(bus, eid, events)
    ensures LastAbout(events, eid, path) == None ==> (Live(bus, eid, path) <==> Live(RunBus(bus, events), eid, path))
    ensures LastAbout(events, eid, path).Some? && LastAbout(events, eid, path).value.Appear? ==>
              Live(RunBus(bus, events), eid, path)
    ensures LastAbout(events, eid, path).Some? && LastAbout(events, eid, path).value.Vanish? ==>
              !Live(RunBus(bus, events), eid, path)
  {
    if events != [] {
      UntouchedStays(bus, eid, events[..|events| - 1], path);
    }
  }

  /** What the drained cache can name: only what it started from, if no signal was about
      it, or what a last signal added. */
  lemma {:induction false} DrainedNames(cached: string, eid: nat, signals: seq<Event>, path: string)
    requires path != "" && Drain(cached, eid, signals) == path
    ensures var last := LastAbout(signals, eid, path);
            if last.Some? then last.value.Appear? else cached == path
  {
    if signals != [] {
      var before, e := signals[..|signals| - 1], signals[|signals| - 1];
      if !About(e, eid, path) {
        DrainedNames(cached, eid, before, path);
      }
    }
  }

  /** A live endpoint is named when the last signal about it added it, and when there was
      no such signal and the cache started from it. */
  lemma {:induction false} LiveIsNamed(bus: Bus, cached: string, eid: nat, signals: seq<Event>, path: string)
    requires WellFormed(bus, eid) && Possible(bus, eid, signals)
    requires Live(RunBus(bus, signals), eid, path)
    requires var last := LastAbout(signals, eid, path); if last.Some? then last.value.Appear? else cached == path
    ensures Drain(cached, eid, signals) == path
  {
    if signals != [] {
      var before, e := signals[..|signals| - 1], signals[|signals| - 1];
      if !About(e, eid, path) {
        assert Live(RunBus(bus, before), eid, path);
        LiveIsNamed(bus, cached, eid, before, path);
      }
    }
  }

  lemma {:induction false} RunBusConcat(bus: Bus, eid: nat, a: seq<Event>, b: seq<Event>)
    ensures RunBus(bus, a + b) == RunBus(RunBus(bus, a), b)
    ensures Possible(bus, eid, a + b) <==> Possible(bus, eid, a) && Possible(RunBus(bus, a), eid, b)
  {
    if b == [] {
      assert a + b == a;
    } else {
      RunBusConcat(bus, eid, a, b[..|b| - 1]);
      assert (a + b)[..|a + b| - 1] == a + b[..|b| - 1];
    }
  }

  lemma {:induction false} LastAboutConcat(a: seq<Event>, b: seq<Event>, eid: nat, path: string)
    ensures LastAbout(a + b, eid, path)
            == if LastAbout(b, eid, path).Some? then LastAbout(b, eid, path) else LastAbout(a, eid, path)
  {
    if b == [] {
      assert a + b == a;
    } else {
      LastAboutConcat(a, b[..|b| - 1], eid, path);
      assert (a + b)[..|a + b| - 1] == a + b[..|b| - 1];
    }
  }

  /** For every order of events around the read: once the signals since registration are
      drained, the cache names nothing but a live endpoint, and it names the live endpoint
      exactly when the last signal on its path, if there was one, added the endpoint, and
      when there was none, the read succeeded. */
  lemma DrainedCache(bus: Bus, eid: nat, before: seq<Event>, readable: bool, found: string, after: seq<Event>)
    requires WellFormed(bus, eid) && Possible(bus, eid, before + after)
    requires if readable then IsLookup(RunBus(bus, before), eid, found) else found == ""
    ensures var now := RunBus(bus, before + after);
            var cached := Drain(found, eid, before + after);
            && (cached != "" ==> Live(now, eid, cached))
            && (forall p | Live(now, eid, p) ::
                  cached == p <==>
                  var last := LastAbout(before + after, eid, p); if last.Some? then last.value.Appear? else readable)
  {
    var all := before + after;
    var now := RunBus(bus, all);
    var cached := Drain(found, eid, all);
    RunBusKeeps(bus, eid, all);
    RunBusConcat(bus, eid, before, after);
    if cached != "" {
      DrainedNames(found, eid, all, cached);
      LastAboutConcat(before, after, eid, cached);
      UntouchedStays(bus, eid, all, cached);
      UntouchedStays(RunBus(bus, before), eid, after, cached);
    }
    forall p | Live(now, eid, p)
      ensures cached == p <==> var last := LastAbout(all, eid, p); if last.Some? then last.value.Appear? else readable
    {
      LastAboutConcat(before, after, eid, p);
      UntouchedStays(RunBus(bus, before), eid, after, p);
      RunBusKeeps(bus, eid, before);
      var last := LastAbout(all, eid, p);
      if if last.Some? then last.value.Appear? else readable {
        LiveIsNamed(bus, found, eid, all, p);
      } else if cached == p {
        DrainedNames(found, eid, all, p);
      }
    }
  }

  /** Register-then-snapshot agrees with the bus: with a read that succeeds and no signal
      about another interface's removal, the drained cache is what a read would find. */
  lemma RegisterThenSnapshot(bus: Bus, eid: nat, before: seq<Event>, found: string, after: seq<Event>)
    requires WellFormed(bus, eid) && Possible(bus, eid, before + after)
    requires IsLookup(RunBus(bus, before), eid, found)
    requires forall e | e in before + after :: !e.OtherRemoved?
    ensures IsLookup(RunBus(bus, before + after), eid, Drain(found, eid, before + after))
  {
    var all := before + after;
    DrainedCache(bus, eid, before, true, found, after);
    RunBusKeeps(bus, eid, all);
    forall p | Live(RunBus(bus, all), eid, p)
      ensures Drain(found, eid, all) == p
    {
      UntouchedStays(bus, eid, all, p);
      LastIsOne(all, eid, p);
    }
  }

  lemma {:induction false} LastIsOne(signals: seq<Event>, eid: nat, path: string)
    ensures LastAbout(signals, eid, path).Some? ==>
              LastAbout(signals, eid, path).value in signals && About(LastAbout(signals, eid, path).value, eid, path)
  {
    if signals != [] {
      LastIsOne(signals[..|signals| - 1], eid, path);
    }
  }

  /** The other order loses an endpoint: one that appears between the read and the
      registration sends its signal too early. */
  lemma SnapshotFirstLosesEndpoint()
    ensures var appears := Appear("/ep", Eid(8));
            && WellFormed(map[], 8) && Possible(map[], 8, [appears]) && IsLookup(map[], 8, "")
            && !IsLookup(RunBus(map[], [appears]), 8, Drain("", 8, []))
  {
    var appears := Appear("/ep", Eid(8));
    assert [appears][..0] == [];
    assert Live(RunBus(map[], [appears]), 8, "/ep");
  }

  /** Another interface's removal clears the cache although the endpoint stays. */
  lemma OtherRemovalForgetsEndpoint()
    ensures var bus := map["/ep" := Eid(8)];
            && WellFormed(bus, 8) && Possible(bus, 8, [OtherRemoved("/ep")]) && IsLookup(bus, 8, "/ep")
            && Live(RunBus(bus, [OtherRemoved("/ep")]), 8, "/ep") && Drain("/ep", 8, [OtherRemoved("/ep")]) == ""
  {
    var bus := map["/ep" := Eid(8)];
    assert [OtherRemoved("/ep")][..0] == [];
    assert RunBus(bus, [OtherRemoved("/ep")]) == bus;
    assert Live(bus, 8, "/ep");
  }

  // ---- Reading the bus ----

  /** A listing of the bus: each endpoint interface once, beside objects without one. */
  ghost predicate Lists(objects: seq<Object>, bus: Bus) {
    && (forall o | o in objects && o.endpoint.Some? :: o.path in bus && bus[o.path] == o.endpoint.value)
    && (forall p | p in bus :: Object(p, Some(bus[p])) in objects)
  }

  /** No endpoint interface without an EID comes before the first object with the EID. */
  ghost predicate Searchable(objects: seq<Object>, eid: nat) {
    forall k: nat | k < |objects| && objects[k].endpoint == Some(NoEid) ::
      exists i: nat :: i < k && objects[i].endpoint == Some(Eid(eid))
  }

  /** The first object with the EID. An endpoint interface without an EID ends the search
      with an exception. */
  method GetMCTPObjectPath(objects: seq<Object>, eid: nat) returns (r: Result<string, ()>)
    ensures r.Ok? ==> (forall bus | "" !in bus && Lists(objects, bus) :: IsLookup(bus, eid, r.value))
    ensures r.Ok? <==> Searchable(objects, eid)
  {
    for i := 0 to |objects|
      invariant forall j: nat | j < i :: objects[j].endpoint != Some(Eid(eid)) && objects[j].endpoint != Some(NoEid)
    {
      if objects[i].endpoint.None? {
        continue;
      }
      match objects[i].endpoint.value {
        case NoEid => return Err(());
        case OddEid =>
        case Eid(e) =>
          if e == eid {
            assert objects[i] in objects;
            return Ok(objects[i].path);
          }
      }
    }
    return Ok("");
  }

  class MCTPDiscoveryResource {
    const eid: nat
    var endpointAddedMatch: bool
    var endpointRemovedMatch: bool
    var mctpObjectPath: string
    var wasEnumeratedOnce: bool

    /** An enumerated device is remembered as such. */
    ghost predicate Valid()
      reads this
    {
      mctpObjectPath != "" ==> wasEnumeratedOnce
    }

    constructor (eid: nat)
      ensures this.eid == eid && Valid() && mctpObjectPath == "" && !wasEnumeratedOnce
    {
      this.eid := eid;
      endpointAddedMatch := false;
      endpointRemovedMatch := false;
      mctpObjectPath := "";
      wasEnumeratedOnce := false;
    }

    /** The two callbacks. */
    method OnSignal(e: Event)
      requires Valid()
      requires e.Appear? ==> e.path != ""
      modifies this`mctpObjectPath, this`wasEnumeratedOnce
      ensures Valid()
      ensures mctpObjectPath == Signal(old(mctpObjectPath), eid, e)
      ensures wasEnumeratedOnce == (old(wasEnumeratedOnce) || (e.Appear? && e.endpoint == Eid(eid)))
    {
      match e
      case Appear(path, endpoint) =>
        if endpoint == Eid(eid) {
          mctpObjectPath := path;
          wasEnumeratedOnce := true;
        }
      case OtherAdded(_) =>
      case Vanish(path) =>
        if path == mctpObjectPath {
          mctpObjectPath := "";
        }
      case OtherRemoved(path) =>
        if path == mctpObjectPath {
          mctpObjectPath := "";
        }
    }

    /** `objects` is what the bus answers to the read, empty when the call fails. */
    method MonitorMCTPEndpoint(objects: seq<Object>) returns (ok: bool)
      requires Valid()
      modifies this
      ensures endpointAddedMatch && endpointRemovedMatch && Valid()
      ensures ok <==> Searchable(objects, eid)
      ensures ok ==> forall bus | "" !in bus && Lists(objects, bus) :: IsLookup(bus, eid, mctpObjectPath)
      ensures ok ==> (wasEnumeratedOnce <==> old(wasEnumeratedOnce) || mctpObjectPath != "")
      ensures !ok ==> mctpObjectPath == old(mctpObjectPath) && wasEnumeratedOnce == old(wasEnumeratedOnce)
    {
      if !endpointAddedMatch {
        endpointAddedMatch := true;
      }
      if !endpointRemovedMatch {
        endpointRemovedMatch := true;
      }
      var found := GetMCTPObjectPath(objects, eid);
      if found.Err? {
        return false;
      }
      mctpObjectPath := found.value;
      if mctpObjectPath != "" {
        wasEnumeratedOnce := true;
      }
      return true;
    }

    /** The event loop delivers the signals in their order. */
    method DeliverSignals(signals: seq<Event>)
      requires Valid() && forall e | e in signals :: e.Appear? ==> e.path != ""
      modifies this`mctpObjectPath, this`wasEnumeratedOnce
      ensures Valid()
      ensures mctpObjectPath == Drain(old(mctpObjectPath), eid, signals)
      ensures wasEnumeratedOnce <==> old(wasEnumeratedOnce) || exists p :: Appear(p, Eid(eid)) in signals
    {
      for i := 0 to |signals|
        invariant Valid()
        invariant mctpObjectPath == Drain(old(mctpObjectPath), eid, signals[..i])
        invariant wasEnumeratedOnce <==> old(wasEnumeratedOnce) || exists p :: Appear(p, Eid(eid)) in signals[..i]
      {
        assert signals[..i + 1][..i] == signals[..i];
        assert forall e :: e in signals[..i + 1] <==> e in signals[..i] || e == signals[i];
        OnSignal(signals[i]);
      }
      assert signals[..|signals|] == signals;
    }

    /** Registration, read and drain, for any events before and after the read: the object's
        path is never a wrong one, it names the live endpoint exactly when the last signal on
        its path, if there was one, added it, and the object remembers exactly whether it has
        ever seen the endpoint. */
    method WatchEndpoint(ghost bus: Bus, before: seq<Event>, objects: seq<Object>, after: seq<Event>)
        returns (ok: bool)
      requires Valid() && WellFormed(bus, eid) && Possible(bus, eid, before + after)
      requires Lists(objects, RunBus(bus, before)) && forall e | e in before + after :: e.Appear? ==> e.path != ""
      modifies this
      ensures ok <==> Searchable(objects, eid)
      ensures ok ==> endpointAddedMatch && endpointRemovedMatch
      ensures ok && mctpObjectPath != "" ==> Live(RunBus(bus, before + after), eid, mctpObjectPath)
      ensures ok ==> forall p | Live(RunBus(bus, before + after), eid, p) ::
                       mctpObjectPath == p
                       <==> var last := LastAbout(before + after, eid, p); last.Some? ==> last.value.Appear?
      ensures ok ==> (wasEnumeratedOnce
                      <==> || old(wasEnumeratedOnce)
                           || (exists p :: Live(RunBus(bus, before), eid, p))
                           || exists p :: Appear(p, Eid(eid)) in before + after)
    {
      hide Drain, RunBus, LastAbout, Searchable, Lists;
      RunBusKeepsPrefix(bus, eid, before, after);
      ok := MonitorMCTPEndpoint(objects);
      if !ok {
        return;
      }
      ghost var found := mctpObjectPath;
      assert IsLookup(RunBus(bus, before), eid, found);
      DrainedCache(bus, eid, before, true, found, after);
      DeliverSignals(before + after);
    }
  }

  lemma RunBusKeepsPrefix(bus: Bus, eid: nat, before: seq<Event>, after: seq<Event>)
    requires WellFormed(bus, eid) && Possible(bus, eid, before + after)
    ensures WellFormed(RunBus(bus, before), eid)
  {
    RunBusConcat(bus, eid, before, after);
    RunBusKeeps(bus, eid, before);
  }
}
