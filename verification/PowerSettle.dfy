/** Chassis power as the resources cache it: a power-off refreshes their health at once, a
    power-on defers it to a settle timer. */
module PowerSettle {
  const POWER_OFF := "xyz.openbmc_project.State.Chassis.PowerState.Off"

  /** `refreshes` counts the health updates of the resource. */
  datatype Res = Res(connected: bool, settling: bool, power: string, refreshes: nat)

  datatype State = State(resources: seq<Res>, timer: bool)

  /** `startOk` says whether starting the timer would succeed. */
  datatype Event =
    | PowerSignal(power: string, startOk: bool)
    | Reconcile(power: string, startOk: bool)
    | Add(hasProperty: bool, connected: bool, initial: string)
    | Expiry

  function Refresh(r: Res): Res {
    r.(refreshes := r.refreshes + 1)
  }

  function Signalled(r: Res, power: string): Res {
    if !r.connected then r
    else if power == POWER_OFF then Refresh(r.(power := power, settling := false))
    else r.(power := power, settling := true)
  }

  function Reconciled(r: Res, power: string): Res {
    if !r.connected || r.power == power then r
    else if power == POWER_OFF then Refresh(r.(power := power, settling := false))
    else r.(power := power, settling := true)
  }

  function Expired(r: Res): Res {
    if r.connected then Refresh(r.(settling := false)) else r
  }

  /** Off refreshes a tied resource at once, any other state makes it wait for the settle
      timer, and an untied one ignores both; a state it has already is no news to a
      reconciliation. */
  lemma PowerMeans(r: Res, power: string)
    ensures var off := power == "xyz.openbmc_project.State.Chassis.PowerState.Off";
            var n := Signalled(r, power);
            && (!r.connected ==> n == r)
            && (r.connected && off ==> n == Res(true, false, power, r.refreshes + 1))
            && (r.connected && !off ==> n == Res(true, true, power, r.refreshes))
            && Reconciled(r, power) == (if r.power == power then r else n)
  {}

  function MapRes(f: Res -> Res, rs: seq<Res>): (out: seq<Res>)
    ensures |out| == |rs| && forall i | 0 <= i < |rs| :: out[i] == f(rs[i])
  {
    seq(|rs|, i requires 0 <= i < |rs| => f(rs[i]))
  }

  predicate Stale(rs: seq<Res>, power: string) {
    exists r | r in rs :: r.connected && r.power != power
  }

  lemma StaleByIndex(rs: seq<Res>, power: string)
    ensures Stale(rs, power) <==> exists j: nat | j < |rs| :: rs[j].connected && rs[j].power != power
  {
    if Stale(rs, power) {
      var r :| r in rs && r.connected && r.power != power;
      var j: nat :| j < |rs| && rs[j] == r;
    }
  }

  /** A new resource takes the power state read at the start of the publication. */
  function NewResource(hasProperty: bool, connected: bool, initial: string): Res {
    var c := hasProperty && connected;
    Refresh(Res(c, false, if c then initial else "", 0))
  }

  function TimerAfter(power: string, startOk: bool): bool {
    power != POWER_OFF && startOk
  }

  function Next(s: State, e: Event): State {
    match e
    case PowerSignal(power, startOk) =>
      State(MapRes(r => Signalled(r, power), s.resources), TimerAfter(power, startOk))
    case Reconcile(power, startOk) =>
      if power == "" || !Stale(s.resources, power) then s
      else State(MapRes(r => Reconciled(r, power), s.resources), TimerAfter(power, startOk))
    case Add(hasProperty, connected, initial) =>
      s.(resources := s.resources + [NewResource(hasProperty, connected, initial)])
    case Expiry => State(MapRes(Expired, s.resources), false)
  }

  predicate CanHappen(s: State, e: Event) {
    e == Expiry ==> s.timer
  }

  /** A settling resource is tied to the chassis and not cached as Off. */
  predicate SoundRes(r: Res) {
    r.settling ==> r.connected && r.power != POWER_OFF
  }

  /** No settle is lost: while a resource is settling, the timer is armed. */
  ghost predicate Inv(s: State) {
    && (forall r | r in s.resources :: SoundRes(r))
    && (forall r | r in s.resources :: r.settling ==> s.timer)
  }

  /** Whether the event starts the timer and that start fails. */
  predicate StartFails(s: State, e: Event) {
    match e
    case PowerSignal(power, startOk) => power != POWER_OFF && !startOk
    case Reconcile(power, startOk) =>
      power != "" && power != POWER_OFF && Stale(s.resources, power) && !startOk
    case _ => false
  }

  lemma NextIsPointwise(s: State, e: Event, i: nat)
    requires i < |s.resources|
    ensures i < |Next(s, e).resources|
    ensures SoundRes(s.resources[i]) ==> SoundRes(Next(s, e).resources[i])
    ensures var r, n := s.resources[i], Next(s, e).resources[i];
            && r.refreshes <= n.refreshes && n.connected == r.connected
            && (r.settling && !n.settling && r.connected ==> r.refreshes < n.refreshes)
  {}

  lemma SoundKept(s: State, e: Event)
    requires forall r | r in s.resources :: SoundRes(r)
    ensures forall r | r in Next(s, e).resources :: SoundRes(r)
  {
    var n := Next(s, e);
    forall i: nat | i < |n.resources|
      ensures SoundRes(n.resources[i])
    {
      if i < |s.resources| {
        NextIsPointwise(s, e, i);
      }
    }
  }

  lemma ReconcileSettles(s: State, power: string, startOk: bool)
    requires Stale(s.resources, power) && power != "" && power != POWER_OFF
    ensures exists r | r in Next(s, Reconcile(power, startOk)).resources :: r.settling
  {
    var k: nat :| k < |s.resources| && s.resources[k].connected && s.resources[k].power != power;
    assert Next(s, Reconcile(power, startOk)).resources[k].settling;
  }

  /** Every event keeps the invariant, except a failed timer start; and that one keeps it
      exactly when no resource is tied to the chassis. */
  lemma NextKeeps(s: State, e: Event)
    requires Inv(s) && CanHappen(s, e)
    ensures Inv(Next(s, e)) <==> StartFails(s, e) ==> forall r | r in s.resources :: !r.connected
  {
    var n := Next(s, e);
    SoundKept(s, e);
    if !StartFails(s, e) {
      forall r | r in n.resources && r.settling
        ensures n.timer
      {
        var k: nat :| k < |n.resources| && n.resources[k] == r;
        if k < |s.resources| {
          assert s.resources[k] in s.resources;
        }
      }
    } else if forall r | r in s.resources :: !r.connected {
      forall r | r in n.resources
        ensures !r.settling
      {
        var k: nat :| k < |n.resources| && n.resources[k] == r;
        assert s.resources[k] in s.resources;
      }
    } else {
      if e.Reconcile? {
        ReconcileSettles(s, e.power, e.startOk);
      } else {
        var k: nat :| k < |s.resources| && s.resources[k].connected;
        assert n.resources[k].settling;
      }
    }
  }

  // ---- Whole runs ----

  ghost function Run(s: State, events: seq<Event>): State {
    if events == [] then s else Next(Run(s, events[..|events| - 1]), events[|events| - 1])
  }

  ghost predicate Possible(s: State, events: seq<Event>) {
    events != [] ==>
      var before := events[..|events| - 1];
      && Possible(s, before)
      && CanHappen(Run(s, before), events[|events| - 1])
      && !StartFails(Run(s, before), events[|events| - 1])
  }

  /** Over every run in which timer starts succeed: a settling resource has the timer armed
      and is not cached as Off. */
  lemma {:induction false} RunKeeps(s: State, events: seq<Event>)
    requires Inv(s) && Possible(s, events)
    ensures Inv(Run(s, events))
  {
    if events != [] {
      RunKeeps(s, events[..|events| - 1]);
      NextKeeps(Run(s, events[..|events| - 1]), events[|events| - 1]);
    }
  }

  /** A settle only ends with a refresh of the resource's health: over every run, a resource
      that was settling and no longer is was refreshed in between. */
  lemma {:induction false} SettleEndsWithRefresh(s: State, events: seq<Event>, i: nat)
    requires Inv(s) && Possible(s, events) && i < |s.resources|
    ensures i < |Run(s, events).resources|
    ensures var r, n := s.resources[i], Run(s, events).resources[i];
            && r.refreshes <= n.refreshes && n.connected == r.connected
            && (r.settling && !n.settling ==> r.refreshes < n.refreshes)
  {
    if events != [] {
      var before := events[..|events| - 1];
      SettleEndsWithRefresh(s, before, i);
      RunKeeps(s, before);
      NextIsPointwise(Run(s, before), events[|events| - 1], i);
      assert s.resources[i] in s.resources;
    }
  }

  /** The expiry refreshes exactly the resources tied to the chassis, once each, and
      leaves none settling. */
  lemma ExpirySettlesAll(s: State)
    requires Inv(s) && s.timer
    ensures var n := Next(s, Expiry);
            && !n.timer && |n.resources| == |s.resources|
            && (forall i: nat | i < |s.resources| ::
                  && !n.resources[i].settling
                  && n.resources[i].power == s.resources[i].power
                  && n.resources[i].refreshes == s.resources[i].refreshes + (if s.resources[i].connected then 1 else 0))
  {
    forall i: nat | i < |s.resources|
      ensures !Next(s, Expiry).resources[i].settling
    {
      assert s.resources[i] in s.resources;
    }
  }

  /** What a signal does to every resource, and to the timer. */
  lemma SignalMeaning(s: State, power: string, startOk: bool, i: nat)
    requires i < |s.resources|
    ensures var r, n := s.resources[i], Next(s, PowerSignal(power, startOk));
            && |n.resources| == |s.resources|
            && n.timer == (power != POWER_OFF && startOk)
            && (if r.connected
                then n.resources[i] == Res(true, power != POWER_OFF, power,
                                           r.refreshes + (if power == POWER_OFF then 1 else 0))
                else n.resources[i] == r)
  {}

  /** A new resource is refreshed once, starts out settled, and knows the chassis state only
      when it is tied to the chassis. */
  lemma AddMeaning(s: State, hasProperty: bool, connected: bool, initial: string)
    ensures var tied := hasProperty && connected;
            Next(s, Add(hasProperty, connected, initial))
            == State(s.resources + [Res(tied, false, if tied then initial else "", 1)], s.timer)
  {}

  // ---- Reconciling ----

  lemma ReconcileIdempotent(s: State, power: string, startOk: bool, again: bool)
    ensures var once := Next(s, Reconcile(power, startOk)); Next(once, Reconcile(power, again)) == once
  {
    var once := Next(s, Reconcile(power, startOk));
    if power != "" {
      forall r | r in once.resources
        ensures !(r.connected && r.power != power)
      {
        var k: nat :| k < |once.resources| && once.resources[k] == r;
        assert s.resources[k] in s.resources;
      }
    }
  }

  ghost predicate SameCaches(a: State, b: State) {
    |a.resources| == |b.resources| && forall i: nat | i < |a.resources| :: a.resources[i].power == b.resources[i].power
  }

  /** Reconciling leaves the caches of the signal that was missed, except that it ignores
      the empty state, which a failed read gives. */
  lemma ReconcileLikeSignal(s: State, power: string, ok1: bool, ok2: bool)
    ensures SameCaches(Next(s, Reconcile(power, ok1)), Next(s, PowerSignal(power, ok2)))
            <==> power != "" || !Stale(s.resources, power)
  {
    var r, p := Next(s, Reconcile(power, ok1)), Next(s, PowerSignal(power, ok2));
    if power == "" && Stale(s.resources, power) {
      var k: nat :| k < |s.resources| && s.resources[k].connected && s.resources[k].power != power;
      assert r.resources[k].power != p.resources[k].power;
    } else {
      forall i: nat | i < |s.resources|
        ensures r.resources[i].power == p.resources[i].power
      {
        assert s.resources[i] in s.resources;
      }
    }
  }

  /** Where the cache did not match, the missed signal's whole effect is made up for; where
      it did, the resource is left alone. */
  lemma ReconcileTouchesStaleOnly(s: State, power: string, ok1: bool, ok2: bool, i: nat)
    requires power != "" && i < |s.resources|
    ensures var was := s.resources[i];
            Next(s, Reconcile(power, ok1)).resources[i]
            == if was.connected && was.power != power then Next(s, PowerSignal(power, ok2)).resources[i] else was
  {
    if s.resources[i].connected && s.resources[i].power != power {
      assert s.resources[i] in s.resources;
      assert Stale(s.resources, power);
    }
  }

  // ---- The resources and the watcher as the source keeps them ----

  class BaseResource {
    var connectedToChassisPower: bool
    var powerOnSettling: bool
    var chassisPowerState: string
    ghost var refreshes: nat

    ghost function Abs(): Res
      reads this
    {
      Res(connectedToChassisPower, powerOnSettling, chassisPowerState, refreshes)
    }

    constructor ()
      ensures Abs() == Res(false, false, "", 0)
    {
      connectedToChassisPower, powerOnSettling, chassisPowerState := false, false, "";
      refreshes := 0;
    }

    method SetChassisPowerState(currentPowerState: string)
      modifies this`chassisPowerState
      ensures Abs() == old(Abs()).(power := currentPowerState)
    {
      chassisPowerState := currentPowerState;
    }

    /** Cutting the tie to the chassis forgets the cached state. */
    method SetConnectedToChassis(connected: bool)
      modifies this`connectedToChassisPower, this`chassisPowerState
      ensures Abs() == old(Abs()).(connected := connected, power := if connected then old(chassisPowerState) else "")
    {
      connectedToChassisPower := connected;
      if !connected {
        chassisPowerState := "";
      }
    }

    method SetPowerOnSettling(settling: bool)
      modifies this`powerOnSettling
      ensures Abs() == old(Abs()).(settling := settling)
    {
      powerOnSettling := settling;
    }

    method UpdateHealth()
      modifies this`refreshes
      ensures Abs() == Refresh(old(Abs()))
    {
      refreshes := refreshes + 1;
    }
  }

  ghost function Caches(resources: seq<BaseResource>): (rs: seq<Res>)
    reads resources
    ensures |rs| == |resources| && forall i | 0 <= i < |resources| :: rs[i] == resources[i].Abs()
  {
    seq(|resources|, i requires 0 <= i < |resources| reads resources => resources[i].Abs())
  }

  class Watcher {
    var resources: seq<BaseResource>
    var timer: bool

    ghost predicate Valid()
      reads this
    {
      forall i, j | 0 <= i < j < |resources| :: resources[i] != resources[j]
    }

    ghost function Abs(): State
      reads this, resources
    {
      State(Caches(resources), timer)
    }

    constructor ()
      ensures Valid() && Abs() == State([], false)
    {
      resources, timer := [], false;
    }

    /** Starting stops a timer in flight first. */
    method SchedulePowerStateHealthRefresh(startOk: bool)
      modifies this`timer
      ensures timer == startOk
    {
      timer := startOk;
    }

    method OnPowerStateChanged(powerState: string, startOk: bool)
      requires Valid()
      modifies this`timer, resources
      ensures Valid() && Abs() == Next(old(Abs()), PowerSignal(powerState, startOk))
    {
      var poweringOff := powerState == POWER_OFF;
      ghost var was := Caches(resources);
      for i := 0 to |resources|
        invariant forall j: nat | j < i :: resources[j].Abs() == Signalled(was[j], powerState)
        invariant forall j: nat | i <= j < |resources| :: resources[j].Abs() == was[j]
      {
        ApplySignal(resources[i], powerState, poweringOff);
      }
      assert Caches(resources) == MapRes(r => Signalled(r, powerState), was);
      if poweringOff {
        timer := false;
      } else {
        SchedulePowerStateHealthRefresh(startOk);
      }
    }

    method ApplySignal(resource: BaseResource, powerState: string, poweringOff: bool)
      requires poweringOff == (powerState == POWER_OFF)
      modifies resource
      ensures resource.Abs() == Signalled(old(resource.Abs()), powerState)
    {
      if !resource.connectedToChassisPower {
        return;
      }
      resource.SetChassisPowerState(powerState);
      if poweringOff {
        resource.SetPowerOnSettling(false);
        resource.UpdateHealth();
      } else {
        resource.SetPowerOnSettling(true);
      }
    }

    method ReconcileChassisPowerState(powerState: string, startOk: bool)
      requires Valid()
      modifies this`timer, resources
      ensures Valid() && Abs() == Next(old(Abs()), Reconcile(powerState, startOk))
    {
      if powerState == "" {
        return;
      }
      ghost var was := Caches(resources);
      var changed := ReconcileResources(powerState);
      if !changed {
        assert Caches(resources) == was;
        return;
      }
      if powerState == POWER_OFF {
        timer := false;
      } else {
        SchedulePowerStateHealthRefresh(startOk);
      }
    }

    method ReconcileResources(powerState: string) returns (changed: bool)
      requires Valid()
      modifies resources
      ensures Caches(resources) == MapRes(r => Reconciled(r, powerState), old(Caches(resources)))
      ensures changed == Stale(old(Caches(resources)), powerState)
      ensures !changed ==> Caches(resources) == old(Caches(resources))
    {
      hide Stale;
      changed := false;
      ghost var was := Caches(resources);
      for i := 0 to |resources|
        invariant forall j: nat | j < i :: resources[j].Abs() == Reconciled(was[j], powerState)
        invariant forall j: nat | i <= j < |resources| :: resources[j].Abs() == was[j]
        invariant changed <==> exists j: nat | j < i :: was[j].connected && was[j].power != powerState
      {
        var stale := ApplyReconciled(resources[i], powerState);
        changed := changed || stale;
      }
      assert Caches(resources) == MapRes(r => Reconciled(r, powerState), was);
      StaleByIndex(was, powerState);
    }

    method ApplyReconciled(resource: BaseResource, powerState: string) returns (stale: bool)
      modifies resource
      ensures resource.Abs() == Reconciled(old(resource.Abs()), powerState)
      ensures stale == (old(resource.Abs()).connected && old(resource.Abs()).power != powerState)
    {
      if !resource.connectedToChassisPower || resource.chassisPowerState == powerState {
        return false;
      }
      var poweringOff := powerState == POWER_OFF;
      resource.SetChassisPowerState(powerState);
      resource.SetPowerOnSettling(!poweringOff);
      if poweringOff {
        resource.UpdateHealth();
      }
      return true;
    }

    /** The one-shot timer's callback. */
    method RefreshChassisPoweredResourcesHealth()
      requires Valid() && timer
      modifies this`timer, resources
      ensures Valid() && Abs() == Next(old(Abs()), Expiry)
    {
      ghost var was := Caches(resources);
      timer := false;
      for i := 0 to |resources|
        invariant !timer
        invariant forall j: nat | j < i :: resources[j].Abs() == Expired(was[j])
        invariant forall j: nat | i <= j < |resources| :: resources[j].Abs() == was[j]
      {
        if resources[i].connectedToChassisPower {
          resources[i].SetPowerOnSettling(false);
          resources[i].UpdateHealth();
        }
      }
      assert Caches(resources) == MapRes(Expired, was);
    }

    method AddResource(hasProperty: bool, connected: bool, initialPowerState: string)
      requires Valid()
      modifies this`resources
      ensures Valid() && Abs() == Next(old(Abs()), Add(hasProperty, connected, initialPowerState))
    {
      var resource := new BaseResource();
      resources := resources + [resource];
      ApplyChassisConnectionAndRefresh(hasProperty, connected, resource, initialPowerState);
      assert resource.Abs() == NewResource(hasProperty, connected, initialPowerState);
      assert forall i | 0 <= i < |old(resources)| :: resources[i] == old(resources)[i] && resources[i] != resource;
    }

    method ApplyChassisConnectionAndRefresh(hasProperty: bool, connected: bool, resource: BaseResource,
                                            initialPowerState: string)
      modifies resource
      ensures var n := if hasProperty then old(resource.Abs()).(connected := connected) else old(resource.Abs());
              resource.Abs() == Refresh(n.(power := if hasProperty && connected then initialPowerState
                                                    else if hasProperty then "" else n.power))
    {
      if hasProperty {
        resource.SetConnectedToChassis(connected);
        if resource.connectedToChassisPower {
          resource.SetChassisPowerState(initialPowerState);
        }
      }
      resource.UpdateHealth();
    }
  }
}
