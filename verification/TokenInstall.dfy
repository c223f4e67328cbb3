/** Debug tokens reach their devices: the endpoint chosen for each UUID, and the verdict of
    an installation over all NSM endpoints. */
module TokenInstall {
  import opened Outcomes
  import opened TokenPackage

  // ---- Which endpoint of a device is used ----

  const MEDIUM := "xyz.openbmc_project.MCTP.Endpoint.MediaTypes."
  const BINDING := "xyz.openbmc_project.MCTP.Binding.BindingTypes."

  /** The priority of a name behind its prefix; the tables know six names. */
  function Priority(prefix: string, name: string): (p: Option<nat>)
    ensures p.Some? ==> p.value < 6
  {
    if name == prefix + "PCIe" then Some(0)
    else if name == prefix + "USB" then Some(1)
    else if name == prefix + "SPI" then Some(2)
    else if name == prefix + "KCS" then Some(3)
    else if name == prefix + "Serial" then Some(4)
    else if name == prefix + "SMBus" then Some(5)
    else None
  }

  lemma AfterPrefix(prefix: string, a: string, b: string)
    ensures prefix + a == prefix + b <==> a == b
  {
    assert (prefix + a)[|prefix|..] == a && (prefix + b)[|prefix|..] == b;
  }

  /** The six names from the fastest on. */
  lemma FastestFirst(prefix: string, name: string)
    ensures Priority(prefix, prefix + "PCIe") == Some(0) && Priority(prefix, prefix + "USB") == Some(1)
    ensures Priority(prefix, prefix + "SPI") == Some(2) && Priority(prefix, prefix + "KCS") == Some(3)
    ensures Priority(prefix, prefix + "Serial") == Some(4) && Priority(prefix, prefix + "SMBus") == Some(5)
    ensures name !in {"PCIe", "USB", "SPI", "KCS", "Serial", "SMBus"} ==> Priority(prefix, prefix + name) == None
  {
    NamesDiffer(prefix);
    AfterPrefix(prefix, name, "PCIe");
    AfterPrefix(prefix, name, "USB");
    AfterPrefix(prefix, name, "SPI");
    AfterPrefix(prefix, name, "KCS");
    AfterPrefix(prefix, name, "Serial");
    AfterPrefix(prefix, name, "SMBus");
  }

  lemma NamesDiffer(prefix: string)
    ensures prefix + "USB" != prefix + "SPI" && prefix + "USB" != prefix + "KCS" && prefix + "SPI" != prefix + "KCS"
  {
    assert (prefix + "USB")[|prefix|] == 'U' && (prefix + "SPI")[|prefix|] == 'S' && (prefix + "KCS")[|prefix|] == 'K';
  }

  /** `supported` says that both SPDM and the IANA VDM message types are supported. */
  datatype MctpEidInfo = MctpEidInfo(eid: nat, medium: string, binding: string, supported: bool, enabled: bool)

  /** A managed object: whether it has the endpoint and the UUID interface, its UUID (empty
      when the property is missing) and what its interfaces say. */
  datatype MctpObject = MctpObject(hasEndpoint: bool, hasUuid: bool, uuid: string, info: MctpEidInfo)

  type MctpInfo = map<string, MctpEidInfo>

  datatype Unknown = UnknownPriority

  function MediumPriority(i: MctpEidInfo): Option<nat> {
    Priority(MEDIUM, i.medium)
  }

  function BindingPriority(i: MctpEidInfo): Option<nat> {
    Priority(BINDING, i.binding)
  }

  /** `lhs < rhs` of the source: `rhs` is faster. A name that the tables do not know throws
      when it is looked up. */
  function Slower(lhs: MctpEidInfo, rhs: MctpEidInfo): Result<bool, Unknown> {
    if MediumPriority(lhs).None? || MediumPriority(rhs).None? then Err(UnknownPriority)
    else if MediumPriority(lhs) == MediumPriority(rhs) then
      if BindingPriority(lhs).None? || BindingPriority(rhs).None? then Err(UnknownPriority)
      else Ok(BindingPriority(lhs).value > BindingPriority(rhs).value)
    else Ok(MediumPriority(lhs).value > MediumPriority(rhs).value)
  }

  predicate Known(i: MctpEidInfo) {
    MediumPriority(i).Some? && BindingPriority(i).Some?
  }

  /** The position in the order by medium first and binding second. */
  function Rank(i: MctpEidInfo): nat {
    if Known(i) then 6 * MediumPriority(i).value + BindingPriority(i).value else 36
  }

  lemma SlowerIsRank(a: MctpEidInfo, b: MctpEidInfo)
    requires Known(a) && Known(b)
    ensures Slower(a, b) == Ok(Rank(a) > Rank(b))
  {
    hide Priority;
    assert MediumPriority(a).value < 6 && MediumPriority(b).value < 6;
    assert BindingPriority(a).value < 6 && BindingPriority(b).value < 6;
  }

  /** On the known media and bindings the comparison is a strict weak order, as the
      standard library asks of `<`. */
  lemma SlowerIsStrictWeakOrder(a: MctpEidInfo, b: MctpEidInfo, c: MctpEidInfo)
    requires Known(a) && Known(b) && Known(c)
    ensures Slower(a, a) == Ok(false)
    ensures Slower(a, b) == Ok(true) ==> Slower(b, a) == Ok(false)
    ensures Slower(a, b) == Ok(true) && Slower(b, c) == Ok(true) ==> Slower(a, c) == Ok(true)
    ensures Slower(a, b) == Ok(false) == Slower(b, a) && Slower(b, c) == Ok(false) == Slower(c, b) ==>
              Slower(a, c) == Ok(false) == Slower(c, a)
  {
    hide Slower, Known, Rank;
    SlowerIsRank(a, a);
    SlowerIsRank(a, b);
    SlowerIsRank(b, a);
    SlowerIsRank(b, c);
    SlowerIsRank(c, b);
    SlowerIsRank(a, c);
    SlowerIsRank(c, a);
  }

  /** The objects that count as endpoints a token can be sent to. */
  predicate Eligible(o: MctpObject) {
    && o.hasEndpoint && o.hasUuid && o.uuid != ""
    && !(o.info.medium == "" && o.info.binding == "")
    && o.info.enabled && o.info.supported
  }

  ghost function Choose(objects: seq<MctpObject>): Result<MctpInfo, Unknown> {
    if objects == [] then Ok(map[])
    else
      var before := Choose(objects[..|objects| - 1]);
      if before.Err? then before else Consider(before.value, objects[|objects| - 1])
  }

  function Consider(chosen: MctpInfo, o: MctpObject): Result<MctpInfo, Unknown> {
    if !Eligible(o) then Ok(chosen)
    else if o.uuid !in chosen then Ok(chosen[o.uuid := o.info])
    else
      var slower := Slower(chosen[o.uuid], o.info);
      if slower.Err? then Err(slower.error)
      else if slower.value then Ok(chosen[o.uuid := o.info])
      else Ok(chosen)
  }

  predicate IsEndpointOf(o: MctpObject, uuid: string) {
    Eligible(o) && o.uuid == uuid
  }

  ghost predicate Shared(objects: seq<MctpObject>, uuid: string, i: nat, j: nat) {
    i < |objects| && j < |objects| && i != j && IsEndpointOf(objects[i], uuid) && IsEndpointOf(objects[j], uuid)
  }

  /** Endpoints that share their UUID have a known medium and binding. */
  ghost predicate SharedAreKnown(objects: seq<MctpObject>) {
    forall u: string, i: nat, j: nat | Shared(objects, u, i, j) :: Known(objects[i].info)
  }

  ghost predicate HasEndpoint(objects: seq<MctpObject>, uuid: string) {
    exists k: nat :: k < |objects| && IsEndpointOf(objects[k], uuid)
  }

  /** An endpoint of the UUID, faster than all of its endpoints before it and at least as
      fast as all after it. */
  ghost predicate IsFirstFastest(objects: seq<MctpObject>, uuid: string, k: nat) {
    && k < |objects| && IsEndpointOf(objects[k], uuid)
    && (forall j: nat | j < k && IsEndpointOf(objects[j], uuid) :: Rank(objects[k].info) < Rank(objects[j].info))
    && (forall j: nat | k < j < |objects| && IsEndpointOf(objects[j], uuid) ::
          Rank(objects[k].info) <= Rank(objects[j].info))
  }

  ghost predicate Chosen(objects: seq<MctpObject>, uuid: string, info: MctpEidInfo) {
    exists k: nat :: IsFirstFastest(objects, uuid, k) && info == objects[k].info
  }

  lemma HasEndpointSnoc(init: seq<MctpObject>, o: MctpObject, u: string)
    ensures HasEndpoint(init + [o], u) <==> HasEndpoint(init, u) || IsEndpointOf(o, u)
  {
    hide Eligible, IsEndpointOf;
    var all := init + [o];
    if HasEndpoint(init, u) {
      var k: nat :| k < |init| && IsEndpointOf(init[k], u);
      assert all[k] == init[k];
    }
    assert all[|init|] == o;
  }

  /** An object that is no endpoint of the UUID leaves its choice alone. */
  lemma ChosenWithout(init: seq<MctpObject>, o: MctpObject, u: string, info: MctpEidInfo)
    requires Chosen(init, u, info) && !IsEndpointOf(o, u)
    ensures Chosen(init + [o], u, info)
  {
    hide IsEndpointOf, Rank;
    var k: nat :| IsFirstFastest(init, u, k) && info == init[k].info;
    assert IsFirstFastest(init + [o], u, k);
  }

  lemma ChosenFirst(init: seq<MctpObject>, o: MctpObject, u: string)
    requires !HasEndpoint(init, u) && IsEndpointOf(o, u)
    ensures Chosen(init + [o], u, o.info)
  {
    hide IsEndpointOf, Rank;
    assert IsFirstFastest(init + [o], u, |init|);
  }

  lemma ChosenNext(init: seq<MctpObject>, o: MctpObject, u: string, info: MctpEidInfo)
    requires Chosen(init, u, info) && IsEndpointOf(o, u)
    ensures Chosen(init + [o], u, if Rank(info) > Rank(o.info) then o.info else info)
  {
    hide IsEndpointOf, Rank;
    var k: nat :| IsFirstFastest(init, u, k) && info == init[k].info;
    var all := init + [o];
    if Rank(info) > Rank(o.info) {
      forall j: nat | j < |init| && IsEndpointOf(all[j], u)
        ensures Rank(o.info) < Rank(all[j].info)
      {
        assert all[j] == init[j];
      }
      assert IsFirstFastest(all, u, |init|);
    } else {
      assert IsFirstFastest(all, u, k);
    }
  }

  lemma SharedInit(init: seq<MctpObject>, o: MctpObject, u: string)
    requires SharedAreKnown(init + [o])
    ensures SharedAreKnown(init)
    ensures IsEndpointOf(o, u) ==> forall k: nat | k < |init| && IsEndpointOf(init[k], u) ::
              Known(o.info) && Known(init[k].info)
  {
    hide IsEndpointOf, Known;
    var all := init + [o];
    forall v: string, i: nat, j: nat | Shared(init, v, i, j)
      ensures Known(init[i].info)
    {
      assert Shared(all, v, i, j);
    }
    forall k: nat | k < |init| && IsEndpointOf(init[k], u) && IsEndpointOf(o, u)
      ensures Known(o.info) && Known(init[k].info)
    {
      assert Shared(all, u, k, |init|) && Shared(all, u, |init|, k);
    }
  }

  /** When the media and bindings of endpoints that share a UUID are known, nothing throws,
      and each UUID that has an endpoint gets, and only it gets, its first endpoint of least
      medium and binding priority. */
  lemma {:induction false} ChoosesFirstFastest(objects: seq<MctpObject>, u: string)
    requires SharedAreKnown(objects)
    ensures Choose(objects).Ok?
    ensures u in Choose(objects).value <==> HasEndpoint(objects, u)
    ensures u in Choose(objects).value ==> Chosen(objects, u, Choose(objects).value[u])
    decreases |objects|
  {
    if objects != [] {
      hide Rank, Known, Slower, Eligible, Chosen, HasEndpoint, IsEndpointOf;
      var init, o := objects[..|objects| - 1], objects[|objects| - 1];
      assert objects == init + [o];
      SharedInit(init, o, o.uuid);
      ChoosesFirstFastest(init, u);
      ChoosesFirstFastest(init, o.uuid);
      HasEndpointSnoc(init, o, u);
      var before := Choose(init).value;
      assert IsEndpointOf(o, u) <==> Eligible(o) && o.uuid == u by { EndpointIs(o, u); }
      if Eligible(o) && o.uuid in before {
        EndpointIs(o, o.uuid);
        ChosenIsEndpoint(init, o.uuid, before[o.uuid]);
        SlowerIsRank(before[o.uuid], o.info);
      }
      if IsEndpointOf(o, u) {
        if u in before {
          ChosenNext(init, o, u, before[u]);
        } else {
          ChosenFirst(init, o, u);
        }
      } else if u in before {
        ChosenWithout(init, o, u, before[u]);
      }
    }
  }

  lemma ChosenIsEndpoint(objects: seq<MctpObject>, u: string, info: MctpEidInfo)
    requires Chosen(objects, u, info)
    ensures exists k: nat :: k < |objects| && IsEndpointOf(objects[k], u) && objects[k].info == info
  {}

  lemma EndpointIs(o: MctpObject, u: string)
    ensures IsEndpointOf(o, u) <==> Eligible(o) && o.uuid == u
  {}

  /** Whatever the names, what is chosen for a UUID is one of its endpoints. */
  lemma {:induction false} ChoosesAnEndpoint(objects: seq<MctpObject>, u: string)
    requires Choose(objects).Ok?
    ensures u in Choose(objects).value <==> HasEndpoint(objects, u)
    ensures u in Choose(objects).value ==>
              exists k: nat ::
                k < |objects| && IsEndpointOf(objects[k], u) && objects[k].info == Choose(objects).value[u]
    decreases |objects|
  {
    if objects != [] {
      hide Slower, Eligible, HasEndpoint, IsEndpointOf;
      var init, o := objects[..|objects| - 1], objects[|objects| - 1];
      assert objects == init + [o];
      ChoosesAnEndpoint(init, u);
      HasEndpointSnoc(init, o, u);
      EndpointIs(o, u);
      if u in Choose(init).value {
        var k: nat :| k < |init| && IsEndpointOf(init[k], u) && init[k].info == Choose(init).value[u];
        assert objects[k] == init[k];
      }
      assert objects[|init|] == o;
    } else {
      assert !HasEndpoint([], u);
    }
  }

  /** Which UUIDs get an endpoint: those of an object with both interfaces that names its
      medium or its binding, is enabled and supports the messages. */
  lemma UsableUuids(objects: seq<MctpObject>, u: string)
    requires Choose(objects).Ok?
    ensures u in Choose(objects).value <==>
              exists k: nat :: k < |objects|
                && var o := objects[k];
                   && o.hasEndpoint && o.hasUuid && o.uuid == u != "" && (o.info.medium != "" || o.info.binding != "")
                   && o.info.enabled && o.info.supported
  {
    hide Choose;
    ChoosesAnEndpoint(objects, u);
  }

  /** The media or bindings in the order of their speed. */
  function Speed(k: nat): string
    requires k < 6
  {
    ["PCIe", "USB", "SPI", "KCS", "Serial", "SMBus"][k]
  }

  function EndpointOn(uuid: string, eid: nat, medium: nat, binding: nat): MctpObject
    requires medium < 6 && binding < 6
  {
    MctpObject(true, true, uuid,
               MctpEidInfo(eid, "xyz.openbmc_project.MCTP.Endpoint.MediaTypes." + Speed(medium),
                           "xyz.openbmc_project.MCTP.Binding.BindingTypes." + Speed(binding), true, true))
  }

  lemma SpeedIsPriority(prefix: string, k: nat)
    requires k < 6
    ensures Priority(prefix, prefix + Speed(k)) == Some(k)
  {
    FastestFirst(prefix, "");
  }

  /** Of two endpoints of a device the one on the faster medium is chosen, on the same medium
      the one with the faster binding, and the first of two alike. */
  lemma FasterWins(uuid: string, e: nat, f: nat, m: nat, n: nat, b: nat, c: nat)
    requires uuid != "" && m < 6 && n < 6 && b < 6 && c < 6
    ensures var first, second := EndpointOn(uuid, e, m, b), EndpointOn(uuid, f, n, c);
            Choose([first, second])
            == Ok(map[uuid := if n < m || (n == m && c < b) then second.info else first.info])
  {
    hide Priority, Speed;
    SpeedIsPriority(MEDIUM, m);
    SpeedIsPriority(MEDIUM, n);
    SpeedIsPriority(BINDING, b);
    SpeedIsPriority(BINDING, c);
    var first, second := EndpointOn(uuid, e, m, b), EndpointOn(uuid, f, n, c);
    assert Slower(first.info, second.info) == Ok(n < m || (n == m && c < b));
    assert Eligible(first) && Eligible(second);
    ChooseOfTwo(first, second);
  }

  lemma ChooseOfTwo(first: MctpObject, second: MctpObject)
    requires Eligible(first) && Eligible(second) && first.uuid == second.uuid
    requires Slower(first.info, second.info).Ok?
    ensures Choose([first, second])
            == Ok(map[first.uuid := if Slower(first.info, second.info).value then second.info else first.info])
  {
    hide Eligible, Slower;
    assert [first, second][..1] == [first] && [first][..0] == [];
    assert Choose([first]) == Ok(map[first.uuid := first.info]);
    assert map[first.uuid := first.info][first.uuid := second.info] == map[first.uuid := second.info];
  }

  /** An unknown medium always throws when its endpoint shares its UUID with another. */
  lemma {:induction false} UnknownMediumThrows(objects: seq<MctpObject>, u: string, i: nat, j: nat)
    requires Shared(objects, u, i, j) && MediumPriority(objects[i].info).None?
    ensures Choose(objects).Err?
    decreases |objects|
  {
    hide Eligible, IsEndpointOf, MediumPriority, HasEndpoint;
    var n := |objects| - 1;
    var init, o := objects[..n], objects[n];
    if i < n && j < n {
      UnknownMediumThrows(init, u, i, j);
    } else if Choose(init).Ok? {
      ChoosesAnEndpoint(init, u);
      EndpointIs(o, u);
      var other := if i == n then j else i;
      assert IsEndpointOf(init[other], u);
      assert HasEndpoint(init, u) by { HasEndpointAt(init, u, other); }
      var k: nat :| k < n && IsEndpointOf(init[k], u) && init[k].info == Choose(init).value[u];
      if i < n && k != i {
        UnknownMediumThrows(init, u, i, k);
      }
    }
  }

  lemma HasEndpointAt(objects: seq<MctpObject>, u: string, k: nat)
    requires k < |objects| && IsEndpointOf(objects[k], u)
    ensures HasEndpoint(objects, u)
  {}

  // ---- When discovery throws ----

  /** `c` is what a search that has not thrown holds on to: every other endpoint of the UUID
      has a known medium that is not faster, and known bindings decided where media tie. */
  ghost predicate Decided(objects: seq<MctpObject>, u: string, c: nat) {
    && c < |objects| && IsEndpointOf(objects[c], u)
    && forall k: nat | k < |objects| && k != c && IsEndpointOf(objects[k], u) ::
         Comparable(objects[c].info, objects[k].info)
  }

  /** `a` is on a medium at least as fast as that of `b`, and a tie is one of known bindings. */
  predicate Comparable(a: MctpEidInfo, b: MctpEidInfo) {
    && MediumPriority(a).Some? && MediumPriority(b).Some?
    && MediumPriority(a).value <= MediumPriority(b).value
    && (MediumPriority(a) == MediumPriority(b) ==> Known(a) && Known(b))
  }

  /** An endpoint whose medium the table does not know shares its UUID. */
  ghost predicate SharesUnknownMedium(objects: seq<MctpObject>, u: string, i: nat, j: nat) {
    Shared(objects, u, i, j) && MediumPriority(objects[i].info).None?
  }

  /** Endpoint `j` arrives on a known medium that no endpoint of the UUID before it beats
      and that `i` is on too, and the binding of one of the two is not known. */
  ghost predicate TiesUnknownBinding(objects: seq<MctpObject>, u: string, i: nat, j: nat) {
    && i < j && Shared(objects, u, i, j)
    && MediumPriority(objects[j].info).Some?
    && MediumPriority(objects[i].info) == MediumPriority(objects[j].info)
    && (forall k: nat | k < j && IsEndpointOf(objects[k], u) :: NotFaster(objects[k].info, objects[j].info))
    && !(Known(objects[i].info) && Known(objects[j].info))
  }

  predicate NotFaster(a: MctpEidInfo, b: MctpEidInfo) {
    && MediumPriority(a).Some? && MediumPriority(b).Some?
    && MediumPriority(a).value >= MediumPriority(b).value
  }

  ghost predicate HasUnknownMedium(objects: seq<MctpObject>) {
    exists u: string, i: nat, j: nat :: SharesUnknownMedium(objects, u, i, j)
  }

  ghost predicate HasUnknownTie(objects: seq<MctpObject>) {
    exists u: string, i: nat, j: nat :: TiesUnknownBinding(objects, u, i, j)
  }

  lemma ComparableAfterFaster(o: MctpEidInfo, c: MctpEidInfo, k: MctpEidInfo)
    requires Slower(c, o) == Ok(true) && Comparable(c, k)
    ensures Comparable(o, k)
  {
    hide Priority;
  }

  lemma ComparableByOutcome(o: MctpEidInfo, c: MctpEidInfo)
    requires Slower(c, o).Ok?
    ensures if Slower(c, o).value then Comparable(o, c) else Comparable(c, o)
  {
    hide Priority;
  }

  /** One more endpoint, when comparing does not throw. */
  lemma DecidedNext(init: seq<MctpObject>, o: MctpObject, u: string, c: nat)
    requires Decided(init, u, c) && IsEndpointOf(o, u) && Slower(init[c].info, o.info).Ok?
    ensures Decided(init + [o], u, if Slower(init[c].info, o.info).value then |init| else c)
  {
    hide IsEndpointOf, Comparable, Slower;
    ComparableByOutcome(o.info, init[c].info);
    if Slower(init[c].info, o.info).value {
      forall k: nat | k < |init| && IsEndpointOf(init[k], u)
        ensures Comparable(o.info, init[k].info)
      {
        if k != c {
          ComparableAfterFaster(o.info, init[c].info, init[k].info);
        }
      }
    }
  }

  /** A search that has not thrown has decided every UUID that has an endpoint. */
  lemma {:induction false} OkIsDecided(objects: seq<MctpObject>, u: string) returns (c: nat)
    requires Choose(objects).Ok? && HasEndpoint(objects, u)
    ensures Decided(objects, u, c) && u in Choose(objects).value && Choose(objects).value[u] == objects[c].info
    decreases |objects|
  {
    hide Slower, Eligible, HasEndpoint, IsEndpointOf, Comparable;
    EmptyHasNone(u);
    var n := |objects| - 1;
    var init, o := objects[..n], objects[n];
    assert objects == init + [o];
    HasEndpointSnoc(init, o, u);
    EndpointIs(o, u);
    ChoosesAnEndpoint(init, u);
    if !HasEndpoint(init, u) {
      c := n;
      NoneBefore(init, u);
    } else {
      c := OkIsDecided(init, u);
      if IsEndpointOf(o, u) {
        DecidedNext(init, o, u, c);
        if Slower(init[c].info, o.info).value {
          c := n;
        }
      }
    }
  }

  lemma EmptyHasNone(u: string)
    ensures !HasEndpoint([], u)
  {}

  lemma NoneBefore(init: seq<MctpObject>, u: string)
    requires !HasEndpoint(init, u)
    ensures forall k: nat | k < |init| :: !IsEndpointOf(init[k], u)
  {}

  lemma HasEndpointAtPrefix(objects: seq<MctpObject>, j: nat, u: string, i: nat)
    requires i < j <= |objects| && IsEndpointOf(objects[i], u)
    ensures HasEndpoint(objects[..j], u)
  {
    HasEndpointAt(objects[..j], u, i);
  }

  /** The last object's comparison throws when its endpoint ties on an unknown binding. */
  lemma UnknownTieThrows(objects: seq<MctpObject>, u: string, i: nat, j: nat)
    requires TiesUnknownBinding(objects, u, i, j)
    ensures Choose(objects).Err?
  {
    hide Eligible, IsEndpointOf, HasEndpoint, Priority;
    var before := objects[..j];
    assert objects[..j + 1][..j] == before && objects[..j + 1][j] == objects[j];
    if Choose(before).Ok? {
      HasEndpointAtPrefix(objects, j, u, i);
      var c := OkIsDecided(before, u);
      EndpointIs(objects[j], u);
      assert NotFaster(before[c].info, objects[j].info);
      if c != i {
        assert Comparable(before[c].info, before[i].info);
      }
      assert Choose(objects[..j + 1]).Err?;
      FailsForGood(objects, j + 1);
    } else {
      FailsForGood(objects, j);
    }
  }

  lemma ThrowsNow(init: seq<MctpObject>, o: MctpObject, u: string, c: nat)
    requires Decided(init, u, c) && IsEndpointOf(o, u) && Slower(init[c].info, o.info).Err?
    ensures HasUnknownMedium(init + [o]) || HasUnknownTie(init + [o])
  {
    hide IsEndpointOf, Priority;
    var all := init + [o];
    assert Shared(all, u, c, |init|) && Shared(all, u, |init|, c);
    if MediumPriority(init[c].info).None? {
      assert SharesUnknownMedium(all, u, c, |init|);
    } else if MediumPriority(o.info).None? {
      assert SharesUnknownMedium(all, u, |init|, c);
    } else {
      forall k: nat | k < |init| && IsEndpointOf(all[k], u)
        ensures NotFaster(all[k].info, o.info)
      {
        assert k == c || Comparable(init[c].info, init[k].info);
      }
      assert TiesUnknownBinding(all, u, c, |init|);
    }
  }

  lemma CausesStay(init: seq<MctpObject>, o: MctpObject)
    requires HasUnknownMedium(init) || HasUnknownTie(init)
    ensures HasUnknownMedium(init + [o]) || HasUnknownTie(init + [o])
  {
    hide IsEndpointOf, NotFaster, Known, MediumPriority;
    var all := init + [o];
    if HasUnknownMedium(init) {
      var u: string, i: nat, j: nat :| SharesUnknownMedium(init, u, i, j);
      assert SharesUnknownMedium(all, u, i, j);
    } else {
      var u: string, i: nat, j: nat :| TiesUnknownBinding(init, u, i, j);
      assert TiesUnknownBinding(all, u, i, j);
    }
  }

  lemma {:induction false} ThrowHasCause(objects: seq<MctpObject>)
    requires Choose(objects).Err?
    ensures HasUnknownMedium(objects) || HasUnknownTie(objects)
    decreases |objects|
  {
    hide Slower, Eligible, HasEndpoint, IsEndpointOf, HasUnknownMedium, HasUnknownTie, Decided;
    var n := |objects| - 1;
    var init, o := objects[..n], objects[n];
    assert objects == init + [o];
    if Choose(init).Err? {
      ThrowHasCause(init);
      CausesStay(init, o);
    } else {
      ChoosesAnEndpoint(init, o.uuid);
      EndpointIs(o, o.uuid);
      var c := OkIsDecided(init, o.uuid);
      DecidedInRange(init, o.uuid, c);
      ThrowsNow(init, o, o.uuid, c);
    }
  }

  lemma DecidedInRange(objects: seq<MctpObject>, u: string, c: nat)
    requires Decided(objects, u, c)
    ensures c < |objects|
  {}

  /** Discovery throws exactly when an endpoint on an unknown medium shares its UUID, or an
      endpoint ties, on the fastest medium of its UUID so far, with another and one of their
      two bindings is unknown. */
  lemma DiscoveryThrowsExactly(objects: seq<MctpObject>)
    ensures Choose(objects).Err? <==> HasUnknownMedium(objects) || HasUnknownTie(objects)
  {
    hide Choose;
    if Choose(objects).Err? {
      ThrowHasCause(objects);
    }
    if HasUnknownMedium(objects) {
      var u: string, i: nat, j: nat :| SharesUnknownMedium(objects, u, i, j);
      UnknownMediumThrows(objects, u, i, j);
    }
    if HasUnknownTie(objects) {
      var u: string, i: nat, j: nat :| TiesUnknownBinding(objects, u, i, j);
      UnknownTieThrows(objects, u, i, j);
    }
  }

  method DiscoverMCTPDevices(objects: seq<MctpObject>) returns (r: Result<MctpInfo, Unknown>)
    ensures r == Choose(objects)
  {
    hide Slower, Eligible;
    var mctpInfo: MctpInfo := map[];
    for i := 0 to |objects|
      invariant Choose(objects[..i]) == Ok(mctpInfo)
    {
      var o := objects[i];
      assert objects[..i + 1][..i] == objects[..i];
      if Eligible(o) {
        if o.uuid !in mctpInfo {
          mctpInfo := mctpInfo[o.uuid := o.info];
        } else {
          var slower := Slower(mctpInfo[o.uuid], o.info);
          if slower.Err? {
            FailsForGood(objects, i + 1);
            return Err(slower.error);
          }
          if slower.value {
            mctpInfo := mctpInfo[o.uuid := o.info];
          }
        }
      }
    }
    assert objects[..|objects|] == objects;
    return Ok(mctpInfo);
  }

  lemma {:induction false} FailsForGood(objects: seq<MctpObject>, i: nat)
    requires i <= |objects| && Choose(objects[..i]).Err?
    ensures Choose(objects) == Choose(objects[..i])
    decreases |objects|
  {
    if i == |objects| {
      assert objects[..i] == objects;
    } else {
      assert objects[..|objects| - 1][..i] == objects[..i];
      FailsForGood(objects[..|objects| - 1], i);
    }
  }

  // ---- The verdict of an installation ----

  datatype Verdict = Success | Failed | NoMatch

  /** How sending one token ended; `Threw` leaves the endpoint's other tokens unsent. */
  datatype Attempt = NoMemfd | WriteFailed | NoAsyncPath | Threw | Installed

  /** An endpoint's device ID, if it can be read, and what the attempts at it come to. */
  datatype Endpoint = Endpoint(deviceId: Option<string>, attempts: nat -> Attempt)

  function Matching(tokens: seq<Token>, serial: string): seq<Token> {
    if tokens == [] then []
    else Matching(tokens[..|tokens| - 1], serial)
         + (if tokens[|tokens| - 1].serial == serial then [tokens[|tokens| - 1]] else [])
  }

  lemma MatchingSnoc(tokens: seq<Token>, t: Token, serial: string)
    ensures Matching(tokens + [t], serial) == Matching(tokens, serial) + (if t.serial == serial then [t] else [])
  {
    assert (tokens + [t])[..|tokens|] == tokens;
  }

  /** The matching tokens are those with the serial number, each as often as in the package;
      and the package's order is kept. */
  lemma {:induction false} MatchingIsFilter(tokens: seq<Token>, serial: string)
    ensures forall t :: multiset(Matching(tokens, serial))[t] == if t.serial == serial then multiset(tokens)[t] else 0
    ensures forall t :: t in Matching(tokens, serial) <==> t in tokens && t.serial == serial
  {
    if tokens != [] {
      hide Matching;
      var init, last := tokens[..|tokens| - 1], tokens[|tokens| - 1];
      assert tokens == init + [last];
      MatchingIsFilter(init, serial);
      MatchingSnoc(init, last, serial);
    } else {
      assert Matching(tokens, serial) == [];
    }
  }

  lemma {:induction false} MatchingKeepsOrder(a: seq<Token>, b: seq<Token>, serial: string)
    ensures Matching(a + b, serial) == Matching(a, serial) + Matching(b, serial)
    decreases |b|
  {
    if b == [] {
      assert a + b == a;
      assert Matching(b, serial) == [];
    } else {
      hide Matching;
      var init, last := b[..|b| - 1], b[|b| - 1];
      assert b == init + [last] && a + b == (a + init) + [last];
      MatchingKeepsOrder(a, init, serial);
      MatchingSnoc(a + init, last, serial);
      MatchingSnoc(init, last, serial);
    }
  }

  function MatchCount(tokens: seq<Token>, e: Endpoint): nat {
    if e.deviceId.None? || e.deviceId.value == "" then 0 else |Matching(tokens, e.deviceId.value)|
  }

  /** The k-th matching token of the endpoint is attempted. */
  ghost predicate Tried(tokens: seq<Token>, e: Endpoint, k: nat) {
    k < MatchCount(tokens, e) && forall j: nat | j < k :: e.attempts(j) != Threw
  }

  /** An endpoint whose device ID is empty is not sent anything. */
  lemma NothingForEmptyId(tokens: seq<Token>, e: Endpoint)
    requires e.deviceId == Some("")
    ensures !EndpointFailed(tokens, e) && !EndpointInstalled(tokens, e)
  {}

  /** Nor is one that no token of the package is for. */
  lemma NothingForOthers(tokens: seq<Token>, e: Endpoint)
    requires e.deviceId.Some? && forall t | t in tokens :: t.serial != e.deviceId.value
    ensures !EndpointFailed(tokens, e) && !EndpointInstalled(tokens, e)
  {
    MatchingNone(tokens, e.deviceId.value);
  }

  lemma {:induction false} MatchingNone(tokens: seq<Token>, serial: string)
    requires forall t | t in tokens :: t.serial != serial
    ensures Matching(tokens, serial) == []
  {
    if tokens != [] {
      MatchingNone(tokens[..|tokens| - 1], serial);
    }
  }

  ghost predicate EndpointFailed(tokens: seq<Token>, e: Endpoint) {
    e.deviceId.None? || exists k: nat :: Tried(tokens, e, k) && e.attempts(k) != Installed
  }

  ghost predicate EndpointInstalled(tokens: seq<Token>, e: Endpoint) {
    exists k: nat :: Tried(tokens, e, k) && e.attempts(k) == Installed
  }

  /** An unreadable ID is a failure. A device that the package has a token for has failed or
      not, and got a token or not, by its attempts: the first one always counts, all of them
      count when all succeed, and an exception ends them. */
  lemma AttemptsDecide(tokens: seq<Token>, e: Endpoint)
    ensures e.deviceId == None ==> EndpointFailed(tokens, e) && !EndpointInstalled(tokens, e)
    ensures e.deviceId != None && e.deviceId.value != ""
            && (exists t :: t in tokens && t.serial == e.deviceId.value) ==>
              && (e.attempts(0) != Installed ==> EndpointFailed(tokens, e))
              && (e.attempts(0) == Installed ==> EndpointInstalled(tokens, e))
              && (e.attempts(0) == Threw ==> !EndpointInstalled(tokens, e))
              && ((forall k: nat :: e.attempts(k) == Installed) ==> !EndpointFailed(tokens, e))
  {
    if e.deviceId.Some? && e.deviceId.value != "" && exists t :: t in tokens && t.serial == e.deviceId.value {
      MatchingIsFilter(tokens, e.deviceId.value);
      hide Matching;
      var t :| t in tokens && t.serial == e.deviceId.value;
      assert t in Matching(tokens, e.deviceId.value);
      assert Tried(tokens, e, 0);
    }
  }

  /** One attempt: the position of the endpoint, and the token that was sent to it. */
  datatype Sent = Sent(endpoint: nat, token: Token)

  /** Every attempt sends a token of the package to an endpoint whose device ID is the
      token's serial number. */
  ghost predicate SentRightly(log: seq<Sent>, endpoints: seq<Endpoint>, tokens: seq<Token>) {
    forall s | s in log ::
      s.endpoint < |endpoints| && s.token in tokens && endpoints[s.endpoint].deviceId == Some(s.token.serial)
  }

  /** Failed when anything failed, and only then; otherwise NoMatch when nothing was
      installed; otherwise Success. `endpoints` is None when they cannot be listed. */
  method NsmTokenInstallV2(endpoints: Option<seq<Endpoint>>, tokens: seq<Token>) returns (v: Verdict, log: seq<Sent>)
    ensures v == Failed <==>
              endpoints.None? || endpoints.value == [] || exists e | e in endpoints.value :: EndpointFailed(tokens, e)
    ensures v == NoMatch <==>
              endpoints.Some? && endpoints.value != []
              && forall e | e in endpoints.value :: !EndpointFailed(tokens, e) && !EndpointInstalled(tokens, e)
    ensures if endpoints.Some? then SentRightly(log, endpoints.value, tokens) else log == []
    ensures endpoints.Some? && endpoints.value != []
            && (forall e, t | e in endpoints.value && t in tokens :: e.deviceId.Some? && e.deviceId.value != t.serial)
            && (forall e | e in endpoints.value :: e.deviceId.Some?) ==>
              v == NoMatch && log == []
  {
    log := [];
    if endpoints.None? || |endpoints.value| == 0 {
      return Failed, [];
    }
    var all := endpoints.value;
    var failed, installed := false, 0;
    for i := 0 to |all|
      invariant failed <==> exists j: nat | j < i :: EndpointFailed(tokens, all[j])
      invariant installed > 0 <==> exists j: nat | j < i :: EndpointInstalled(tokens, all[j])
      invariant SentRightly(log, all, tokens)
    {
      var f, n, sent := InstallOnEndpoint(all[i], tokens);
      failed := failed || f;
      installed := installed + n;
      var entries := Entries(i, sent);
      forall s | s in entries
        ensures s.endpoint < |all| && s.token in tokens && all[s.endpoint].deviceId == Some(s.token.serial)
      {
        EntryOf(i, sent, s);
      }
      log := log + entries;
    }
    VerdictOf(all, tokens, failed, installed);
    if forall e, t | e in all && t in tokens :: e.deviceId.Some? && e.deviceId.value != t.serial {
      NothingToSend(all, tokens, log);
    }
    if failed {
      return Failed, log;
    }
    if installed == 0 {
      return NoMatch, log;
    }
    return Success, log;
  }

  function Entries(i: nat, sent: seq<Token>): (entries: seq<Sent>)
    ensures |entries| == |sent|
  {
    seq(|sent|, k requires 0 <= k < |sent| => Sent(i, sent[k]))
  }

  lemma EntryOf(i: nat, sent: seq<Token>, s: Sent)
    requires s in Entries(i, sent)
    ensures s.endpoint == i && s.token in sent
  {}

  lemma VerdictOf(all: seq<Endpoint>, tokens: seq<Token>, failed: bool, installed: nat)
    requires failed <==> exists j: nat | j < |all| :: EndpointFailed(tokens, all[j])
    requires installed > 0 <==> exists j: nat | j < |all| :: EndpointInstalled(tokens, all[j])
    ensures failed <==> exists e | e in all :: EndpointFailed(tokens, e)
    ensures installed > 0 <==> exists e | e in all :: EndpointInstalled(tokens, e)
  {
    hide EndpointFailed, EndpointInstalled;
    if e :| e in all && EndpointFailed(tokens, e) {
      var j: nat :| j < |all| && all[j] == e;
    }
    if e :| e in all && EndpointInstalled(tokens, e) {
      var j: nat :| j < |all| && all[j] == e;
    }
  }

  lemma LogNamesPair(all: seq<Endpoint>, tokens: seq<Token>, log: seq<Sent>)
    requires SentRightly(log, all, tokens)
    ensures log != [] ==> exists e, t :: e in all && t in tokens && e.deviceId == Some(t.serial)
  {
    if log != [] {
      var s := log[0];
      assert s in log && all[s.endpoint] in all;
    }
  }

  lemma NothingToSend(all: seq<Endpoint>, tokens: seq<Token>, log: seq<Sent>)
    requires SentRightly(log, all, tokens)
    requires forall e, t | e in all && t in tokens :: e.deviceId.Some? && e.deviceId.value != t.serial
    ensures log == []
    ensures forall e | e in all && e.deviceId.Some? :: !EndpointFailed(tokens, e) && !EndpointInstalled(tokens, e)
  {
    LogNamesPair(all, tokens, log);
    forall e | e in all && e.deviceId.Some?
      ensures !EndpointFailed(tokens, e) && !EndpointInstalled(tokens, e)
    {
      NothingForOthers(tokens, e);
    }
  }

  /** `sent` are the tokens attempted: the first ones of those with the endpoint's ID, all of
      them unless an exception cuts the rest off. */
  method InstallOnEndpoint(e: Endpoint, tokens: seq<Token>) returns (failed: bool, installed: nat, sent: seq<Token>)
    ensures failed <==> EndpointFailed(tokens, e)
    ensures installed > 0 <==> EndpointInstalled(tokens, e)
    ensures forall t | t in sent :: t in tokens && e.deviceId == Some(t.serial)
    ensures e.deviceId.Some? && e.deviceId.value != "" && (forall k: nat :: e.attempts(k) != Threw) ==>
              sent == Matching(tokens, e.deviceId.value)
  {
    failed, installed, sent := false, 0, [];
    if e.deviceId.None? {
      return true, 0, [];
    }
    if e.deviceId.value == "" {
      return false, 0, [];
    }
    hide Matching;
    var range := Matching(tokens, e.deviceId.value);
    for k := 0 to |range|
      invariant forall j: nat | j < k :: e.attempts(j) != Threw
      invariant failed <==> exists j: nat | j < k :: Tried(tokens, e, j) && e.attempts(j) != Installed
      invariant installed > 0 <==> exists j: nat | j < k :: Tried(tokens, e, j) && e.attempts(j) == Installed
      invariant sent == range[..k]
    {
      assert Tried(tokens, e, k);
      sent := range[..k + 1];
      match e.attempts(k) {
        case Installed => installed := installed + 1;
        case Threw =>
          assert forall j: nat | j > k :: !Tried(tokens, e, j);
          PrefixMatches(tokens, e.deviceId.value, k + 1);
          return true, installed, sent;
        case _ => failed := true;
      }
    }
    PrefixMatches(tokens, e.deviceId.value, |range|);
    assert range[..|range|] == range;
  }

  lemma PrefixMatches(tokens: seq<Token>, serial: string, k: nat)
    requires k <= |Matching(tokens, serial)|
    ensures forall t | t in Matching(tokens, serial)[..k] :: t in tokens && t.serial == serial
  {
    MatchingIsFilter(tokens, serial);
    hide Matching;
    assert forall t | t in Matching(tokens, serial)[..k] :: t in Matching(tokens, serial);
  }
}
