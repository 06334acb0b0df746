/** Tenants coming and going on a live fabric: Create, Reconcile and Delete of
    internal/tenant/service.go as interleaved steps, with the fabric objects
    internal/backend/proxmox builds and removes.

    One operation runs per tenant at a time; operations of different tenants
    interleave freely, each may stop after any step, and what a create knows of
    the fabric is what it read, zones first and VNets after, before it took the lock.

    `past` is the fabric an earlier registry left behind. With an empty `past`
    the machine is a site whose registry was never lost. */
module Lifecycle {
  import opened Basics
  import opened Site
  import opened Indexes

  datatype VNetObject = VNetObject(zone: string, tag: int)

  datatype Fabric = Fabric(zones: map<string, int>, vnets: map<string, VNetObject>)

  /** Six characters of the name and the VNet's number: two tenants may share one. */
  function VNetId(name: string): string {
    (if |name| > 6 then name[..6] else name) + "0"
  }

  /** At most seven characters, so names that agree in six share one. */
  lemma VNetIdExactly(name: string)
    ensures VNetId(name) == if |name| <= 6 then name + "0" else name[..6] + "0"
  {
  }

  // --- What the fabric read makes of it -------------------------------------------------

  ghost predicate CarriesZone(site: Site, f: Fabric, c: Claim) {
    c.index != 0 && c.zone in f.zones && site.IndexForVrfVni(f.zones[c.zone]) == c.index
  }

  ghost predicate CarriesVNet(site: Site, f: Fabric, c: Claim) {
    c.index != 0 &&
    exists id :: id in f.vnets && f.vnets[id].zone == c.zone && site.IndexForVnetTag(f.vnets[id].tag) == c.index
  }

  ghost predicate Carries(site: Site, f: Fabric, c: Claim) {
    CarriesZone(site, f, c) || CarriesVNet(site, f, c)
  }

  ghost predicate HasZone(f: Fabric, name: string, vni: int) {
    name in f.zones && f.zones[name] == vni
  }

  ghost predicate HasVNet(f: Fabric, zone: string, tag: int) {
    exists id :: id in f.vnets && f.vnets[id] == VNetObject(zone, tag)
  }

  ghost predicate ListsZone(zones: seq<Zone>, name: string, vni: int) {
    exists z :: z in zones && z.name == name && (z.vni == vni || z.pendingVni == Some(vni))
  }

  ghost predicate ListsVNet(vnets: seq<VNet>, zone: string, tag: int) {
    exists v :: v in vnets && ((v.zone == zone && v.tag == tag) ||
                               (v.pending.Some? && PendingZone(v) == zone && v.pending.value.1 == tag))
  }

  /** Every zone, applied or pending, is listed, and nothing else is. */
  ghost predicate ListsZones(f: Fabric, zones: seq<Zone>) {
    forall name, vni :: HasZone(f, name, vni) <==> ListsZone(zones, name, vni)
  }

  ghost predicate ListsVNets(f: Fabric, vnets: seq<VNet>) {
    forall zone, tag :: HasVNet(f, zone, tag) <==> ListsVNet(vnets, zone, tag)
  }

  lemma ZonesRead(site: Site, f: Fabric, zones: seq<Zone>, c: Claim)
    requires ListsZones(f, zones)
    ensures (c.index != 0 && exists z :: z in zones && ZoneClaims(site, z, c)) <==> CarriesZone(site, f, c)
  {
    if c.index != 0 {
      if z :| z in zones && ZoneClaims(site, z, c) {
        var vni := if c.index == site.IndexForVrfVni(z.vni) then z.vni else z.pendingVni.value;
        assert ListsZone(zones, c.zone, vni);
        assert HasZone(f, c.zone, vni);
      }
      if CarriesZone(site, f, c) {
        var vni := f.zones[c.zone];
        assert HasZone(f, c.zone, vni);
        assert ListsZone(zones, c.zone, vni);
        var z :| z in zones && z.name == c.zone && (z.vni == vni || z.pendingVni == Some(vni));
        assert ZoneClaims(site, z, c);
      }
    }
  }

  lemma VNetsRead(site: Site, f: Fabric, vnets: seq<VNet>, c: Claim)
    requires ListsVNets(f, vnets)
    ensures (c.index != 0 && exists v :: v in vnets && VNetClaims(site, v, c)) <==> CarriesVNet(site, f, c)
  {
    if c.index != 0 {
      if v :| v in vnets && VNetClaims(site, v, c) {
        var tag := if c == Claim(site.IndexForVnetTag(v.tag), v.zone) then v.tag else v.pending.value.1;
        assert ListsVNet(vnets, c.zone, tag);
        assert HasVNet(f, c.zone, tag);
      }
      if CarriesVNet(site, f, c) {
        var id :| id in f.vnets && f.vnets[id].zone == c.zone && site.IndexForVnetTag(f.vnets[id].tag) == c.index;
        var tag := f.vnets[id].tag;
        assert f.vnets[id] == VNetObject(c.zone, tag);
        assert HasVNet(f, c.zone, tag);
        assert ListsVNet(vnets, c.zone, tag);
        var v :| v in vnets && ((v.zone == c.zone && v.tag == tag) ||
                                (v.pending.Some? && PendingZone(v) == c.zone && v.pending.value.1 == tag));
        assert VNetClaims(site, v, c);
      }
    }
  }

  /** The claims two listings yield, the zones' from one moment and the VNets'
      from a later one, are exactly what the fabric carried at each. */
  lemma ClaimsReadTheFabric(site: Site, f: Fabric, g: Fabric, zones: seq<Zone>, vnets: seq<VNet>, c: Claim)
    requires ListsZones(f, zones) && ListsVNets(g, vnets)
    ensures Claimed(site, zones, vnets, c) <==> CarriesZone(site, f, c) || CarriesVNet(site, g, c)
  {
    ZonesRead(site, f, zones, c);
    VNetsRead(site, g, vnets, c);
  }

  // --- The machine --------------------------------------------------------------------------

  /** Where one tenant's operation stands. Reading has the zones and is to list
      the VNets, which Claims does in a second call. Removing counts what is gone: 0
      nothing yet, 1 the VNet, 2 the zone as well. */
  datatype Op =
    | Reading(requested: int, claims: set<Claim>)
    | Creating(requested: int, claims: set<Claim>)
    | Ensuring(index: int)
    | Removing(index: int, gone: nat)

  /** kept are the old zones never yet taken off the fabric. */
  datatype State = State(rows: map<string, Row>, fabric: Fabric, ops: map<string, Op>, kept: set<string>)

  datatype Config = Config(site: Site, past: map<string, int>)

  ghost predicate WellFormed(c: Config) {
    && (forall z :: z in c.past ==> MIN_INDEX <= c.past[z] <= MAX_ALLOCATABLE)
    && (forall y, z :: y in c.past && z in c.past && c.past[y] == c.past[z] ==> y == z)
  }

  /** An empty registry, and each old tenant's zone and VNets under its own index. */
  ghost predicate Init(c: Config, s: State) {
    && s.rows == map[] && s.ops == map[]
    && s.kept == s.fabric.zones.Keys
    && (forall z :: z in s.fabric.zones ==> z in c.past && s.fabric.zones[z] == c.site.VrfVni(c.past[z]))
    && (forall id :: id in s.fabric.vnets ==> OldVNet(c, s.fabric.vnets[id]))
  }

  ghost predicate OldVNet(c: Config, v: VNetObject) {
    v.zone in c.past && c.site.IndexForVnetTag(v.tag) == c.past[v.zone]
  }

  datatype Event =
    | ReadZones(requested: int, claims: set<Claim>)
    | ReadVNets(claims: set<Claim>)
    | Insert(created: Created)
    | StartEnsure
    | BuildZone
    | BuildVNet
    | FinishEnsure(ok: bool)
    | StartDelete
    | RemoveVNet(reported: bool)
    | RemoveZone(reported: bool)
    | DropRow
    | Stop

  /** validateCreate's bound on an index; a tenant of the old registry asks for
      its own or for none. */
  ghost predicate MayRequest(c: Config, name: string, requested: int) {
    && (requested == 0 || MIN_INDEX <= requested <= MAX_ALLOCATABLE)
    && (name in c.past ==> requested == 0 || requested == c.past[name])
  }

  ghost predicate Step(c: Config, s: State, s': State, name: string, e: Event) {
    match e
    case ReadZones(requested, claims) =>
      // createNew reads the fabric with no lock held
      && name !in s.rows && name !in s.ops && MayRequest(c, name, requested)
      && (forall k :: k in claims <==> CarriesZone(c.site, s.fabric, k))
      && s' == s.(ops := s.ops[name := Reading(requested, claims)])
    case ReadVNets(claims) =>
      && name in s.ops && s.ops[name].Reading?
      && (forall k :: k in claims <==> CarriesVNet(c.site, s.fabric, k))
      && s' == s.(ops := s.ops[name := Creating(s.ops[name].requested, s.ops[name].claims + claims)])
    case Insert(created) =>
      // the transaction under the allocation lock
      && name in s.ops && s.ops[name].Creating?
      && s'.fabric == s.fabric && s'.kept == s.kept
      && InsertRow(s.rows, s'.rows, name, s.ops[name].requested, s.ops[name].claims, created)
      && s'.ops == (if created.Inserted? then s.ops[name := Ensuring(created.row.index)] else s.ops - {name})
    case StartEnsure =>
      // Reconcile, or Create over a row that is there
      && name in s.rows && name !in s.ops && s.rows[name].status != Deleting
      && s' == s.(ops := s.ops[name := Ensuring(s.rows[name].index)])
    case BuildZone =>
      && name in s.ops && s.ops[name].Ensuring? && name !in s.fabric.zones
      && s' == s.(fabric := s.fabric.(zones := s.fabric.zones[name := c.site.VrfVni(s.ops[name].index)]))
    case BuildVNet =>
      // an existing zone on another VNI ends the ensure before this
      && name in s.ops && s.ops[name].Ensuring?
      && name in s.fabric.zones && s.fabric.zones[name] == c.site.VrfVni(s.ops[name].index)
      && VNetId(name) !in s.fabric.vnets
      && s' == s.(fabric := s.fabric.(vnets :=
           s.fabric.vnets[VNetId(name) := VNetObject(name, c.site.VnetTagBase(s.ops[name].index))]))
    case FinishEnsure(ok) =>
      && name in s.ops && s.ops[name].Ensuring? && name in s.rows
      && s' == s.(rows := s.rows[name := s.rows[name].(status := if ok then Ready else Provisioning)],
                  ops := s.ops - {name})
    case StartDelete =>
      && name in s.rows && name !in s.ops
      && s' == s.(rows := s.rows[name := s.rows[name].(status := Deleting)],
                  ops := s.ops[name := Removing(s.rows[name].index, 0)])
    case RemoveVNet(reported) =>
      // a call that took effect and was not reported ends the delete there
      && name in s.ops && s.ops[name].Removing? && s.ops[name].gone == 0
      && s' == s.(fabric := s.fabric.(vnets := s.fabric.vnets - {VNetId(name)}),
                  ops := if reported then s.ops[name := s.ops[name].(gone := 1)] else s.ops - {name})
    case RemoveZone(reported) =>
      && name in s.ops && s.ops[name].Removing? && s.ops[name].gone == 1
      && s' == s.(fabric := s.fabric.(zones := s.fabric.zones - {name}), kept := s.kept - {name},
                  ops := if reported then s.ops[name := s.ops[name].(gone := 2)] else s.ops - {name})
    case DropRow =>
      && name in s.ops && s.ops[name].Removing? && s.ops[name].gone == 2
      && s' == s.(rows := s.rows - {name}, ops := s.ops - {name})
    case Stop =>
      s' == s.(ops := s.ops - {name})
  }

  /** The machine does what the service does: every step is there whenever the
      code would take it, and leaves what the code leaves. */
  lemma CreateStepsAreThere(c: Config, s: State, name: string, requested: int, claims: set<Claim>)
    ensures (name !in s.rows && name !in s.ops && MayRequest(c, name, requested)
             && (forall k :: k in claims <==> CarriesZone(c.site, s.fabric, k))) ==>
      Step(c, s, State(s.rows, s.fabric, s.ops[name := Reading(requested, claims)], s.kept), name,
           ReadZones(requested, claims))
    ensures name in s.ops && s.ops[name].Reading? && (forall k :: k in claims <==> CarriesVNet(c.site, s.fabric, k)) ==>
      Step(c, s, State(s.rows, s.fabric,
                       s.ops[name := Creating(s.ops[name].requested, s.ops[name].claims + claims)], s.kept), name,
           ReadVNets(claims))
    ensures name in s.rows && name !in s.ops && s.rows[name].status != Deleting ==>
      Step(c, s, State(s.rows, s.fabric, s.ops[name := Ensuring(s.rows[name].index)], s.kept), name, StartEnsure)
    ensures name in s.ops && s.ops[name].Ensuring? && name !in s.fabric.zones ==>
      var zones := s.fabric.zones[name := c.site.vrfVniBase + s.ops[name].index];
      Step(c, s, State(s.rows, Fabric(zones, s.fabric.vnets), s.ops, s.kept), name, BuildZone)
    ensures (name in s.ops && s.ops[name].Ensuring? && HasZone(s.fabric, name, c.site.vrfVniBase + s.ops[name].index)
             && VNetId(name) !in s.fabric.vnets) ==>
      var vnets := s.fabric.vnets[VNetId(name) := VNetObject(name, c.site.vnetVniBase + 10 * s.ops[name].index)];
      Step(c, s, State(s.rows, Fabric(s.fabric.zones, vnets), s.ops, s.kept), name, BuildVNet)
    ensures name in s.ops && s.ops[name].Ensuring? && name in s.rows ==>
      Step(c, s, State(s.rows[name := Row(s.rows[name].index, Ready)], s.fabric, s.ops - {name}, s.kept), name,
           FinishEnsure(true))
    ensures Step(c, s, State(s.rows, s.fabric, s.ops - {name}, s.kept), name, Stop)
  {
  }

  /** The transaction takes place whatever the pick is. */
  lemma InsertIsThere(c: Config, s: State, name: string, n: int)
    requires name in s.ops && s.ops[name].Creating? && name !in s.rows
    requires IsPick(name, s.ops[name].requested, HeldIndexes(s.rows), s.ops[name].claims, Some(n))
    ensures Step(c, s, State(s.rows[name := Row(n, Provisioning)], s.fabric, s.ops[name := Ensuring(n)], s.kept), name,
                 Insert(Inserted(Row(n, Provisioning))))
  {
    if IsPick(name, s.ops[name].requested, HeldIndexes(s.rows), s.ops[name].claims, None) {
      PickIsUnique(name, s.ops[name].requested, HeldIndexes(s.rows), s.ops[name].claims, None, Some(n));
    }
  }

  lemma DeleteStepsAreThere(c: Config, s: State, name: string, reported: bool)
    ensures name in s.rows && name !in s.ops ==>
      Step(c, s, State(s.rows[name := Row(s.rows[name].index, Deleting)], s.fabric,
                       s.ops[name := Removing(s.rows[name].index, 0)], s.kept), name, StartDelete)
    ensures name in s.ops && s.ops[name].Removing? && s.ops[name].gone == 0 ==>
      Step(c, s, State(s.rows, Fabric(s.fabric.zones, s.fabric.vnets - {VNetId(name)}),
                       if reported then s.ops[name := Removing(s.ops[name].index, 1)]
                         else s.ops - {name}, s.kept), name,
           RemoveVNet(reported))
    ensures name in s.ops && s.ops[name].Removing? && s.ops[name].gone == 1 ==>
      Step(c, s, State(s.rows, Fabric(s.fabric.zones - {name}, s.fabric.vnets),
                       if reported then s.ops[name := Removing(s.ops[name].index, 2)] else s.ops - {name},
                       s.kept - {name}), name, RemoveZone(reported))
    ensures name in s.ops && s.ops[name].Removing? && s.ops[name].gone == 2 ==>
      Step(c, s, State(s.rows - {name}, s.fabric, s.ops - {name}, s.kept), name, DropRow)
  {
  }

  /** A tenant asks for any index of 1 to 62 or for none; an old one for its own or none. */
  lemma MayRequestExactly(c: Config, name: string, requested: int)
    ensures MayRequest(c, name, requested) <==>
      requested == 0 || (1 <= requested <= 62 && (name in c.past ==> requested == c.past[name]))
  {
  }

  ghost predicate Next(c: Config, s: State, s': State) {
    exists name, e :: Step(c, s, s', name, e)
  }

  ghost predicate Run(c: Config, states: seq<State>) {
    && |states| >= 1 && Init(c, states[0])
    && forall i :: 0 <= i < |states| - 1 ==> StepAt(c, states, i)
  }

  ghost predicate StepAt(c: Config, states: seq<State>, i: nat)
    requires i < |states| - 1
  {
    Next(c, states[i], states[i + 1])
  }

  // --- What every step keeps --------------------------------------------------------------------

  ghost predicate Holds(s: State, name: string, index: int) {
    name in s.rows && s.rows[name].index == index
  }

  ghost predicate RowsDistinct(s: State) {
    && (forall t :: t in s.rows ==> MIN_INDEX <= s.rows[t].index <= MAX_ALLOCATABLE)
    && (forall t, u :: t in s.rows && u in s.rows && s.rows[t].index == s.rows[u].index ==> t == u)
  }

  /** A zone is an old one still in place, or its tenant's row has its index. */
  ghost predicate ZoneBacked(c: Config, s: State, z: string)
    requires z in s.fabric.zones
  {
    || (z in s.kept && z in c.past && s.fabric.zones[z] == c.site.VrfVni(c.past[z]))
    || (z in s.rows && s.fabric.zones[z] == c.site.VrfVni(s.rows[z].index))
  }

  /** A VNet is an old one, or it is its tenant's own under the row's index. */
  ghost predicate VNetBacked(c: Config, s: State, id: string)
    requires id in s.fabric.vnets
  {
    var v := s.fabric.vnets[id];
    OldVNet(c, v) || (id == VNetId(v.zone) && Holds(s, v.zone, c.site.IndexForVnetTag(v.tag)))
  }

  ghost predicate FabricBacked(c: Config, s: State) {
    && (forall z :: z in s.fabric.zones ==> ZoneBacked(c, s, z))
    && (forall id :: id in s.fabric.vnets ==> VNetBacked(c, s, id))
  }

  /** An old index whose zone is in place is nobody's but its tenant's. */
  ghost predicate OldKept(c: Config, s: State) {
    && (forall z :: z in s.kept ==> z in c.past && z in s.fabric.zones && s.fabric.zones[z] == c.site.VrfVni(c.past[z]))
    && (forall z, y :: z in s.kept && y in s.rows && s.rows[y].index == c.past[z] ==> y == z)
    && (forall z :: z in s.kept && z in s.rows ==> s.rows[z].index == c.past[z])
  }

  /** What a waiting create read still shows every old zone in place, and no one
      else under an old index. */
  ghost predicate SnapshotFits(c: Config, s: State, name: string, requested: int, claims: set<Claim>) {
    && MayRequest(c, name, requested)
    && (forall z :: z in s.kept && z in c.past ==> Claim(c.past[z], z) in claims)
    && (forall k, z :: k in claims && z in s.kept && z in c.past && k.index == c.past[z] ==> k.zone == z)
    && (forall k :: k in claims && k.zone == name && name in s.kept && name in c.past ==> k.index == c.past[name])
  }

  ghost predicate OpFits(c: Config, s: State, name: string)
    requires name in s.ops
  {
    match s.ops[name]
    case Reading(requested, claims) =>
      name !in s.rows && SnapshotFits(c, s, name, requested, claims)
    case Creating(requested, claims) =>
      name !in s.rows && SnapshotFits(c, s, name, requested, claims)
    case Ensuring(index) =>
      Holds(s, name, index) && s.rows[name].status != Deleting
    case Removing(index, gone) =>
      && Holds(s, name, index) && s.rows[name].status == Deleting
      && (gone >= 1 ==> forall id :: id in s.fabric.vnets && s.fabric.vnets[id].zone == name ==>
        OldVNet(c, s.fabric.vnets[id]))
      && (gone >= 2 ==> name !in s.fabric.zones)
  }

  ghost predicate Inv(c: Config, s: State) {
    && RowsDistinct(s) && FabricBacked(c, s) && OldKept(c, s)
    && (forall name :: name in s.ops ==> OpFits(c, s, name))
  }

  lemma InitInv(c: Config, s: State)
    requires WellFormed(c) && Init(c, s)
    ensures Inv(c, s)
  {
    forall z | z in s.fabric.zones ensures ZoneBacked(c, s, z) {}
    forall id | id in s.fabric.vnets ensures VNetBacked(c, s, id) {}
  }

  /** A claim read off a fabric that satisfies the invariant is a row's or an old tenant's. */
  lemma CarriedByOwner(c: Config, s: State, k: Claim)
    requires WellFormed(c) && Inv(c, s) && Carries(c.site, s.fabric, k)
    ensures Holds(s, k.zone, k.index) || (k.zone in c.past && c.past[k.zone] == k.index)
  {
    if k.zone in s.fabric.zones && c.site.IndexForVrfVni(s.fabric.zones[k.zone]) == k.index {
      assert ZoneBacked(c, s, k.zone);
    } else {
      var id :| id in s.fabric.vnets && s.fabric.vnets[id].zone == k.zone
                && c.site.IndexForVnetTag(s.fabric.vnets[id].tag) == k.index;
      assert VNetBacked(c, s, id);
    }
  }

  lemma ReadZonesSnapshot(c: Config, s: State, name: string, requested: int, claims: set<Claim>)
    requires WellFormed(c) && Inv(c, s) && name !in s.rows && MayRequest(c, name, requested)
    requires forall k :: k in claims <==> CarriesZone(c.site, s.fabric, k)
    ensures SnapshotFits(c, s, name, requested, claims)
  {
    forall z | z in s.kept && z in c.past ensures Claim(c.past[z], z) in claims {
      assert CarriesZone(c.site, s.fabric, Claim(c.past[z], z));
    }
    forall k | k in claims ensures Holds(s, k.zone, k.index) || (k.zone in c.past && c.past[k.zone] == k.index) {
      CarriedByOwner(c, s, k);
    }
  }

  /** What the second listing adds is just as much its owners' own. */
  lemma ReadVNetsSnapshot(c: Config, s: State, name: string, requested: int, zones: set<Claim>, claims: set<Claim>)
    requires WellFormed(c) && Inv(c, s) && name !in s.rows && SnapshotFits(c, s, name, requested, zones)
    requires forall k :: k in claims <==> CarriesVNet(c.site, s.fabric, k)
    ensures SnapshotFits(c, s, name, requested, zones + claims)
  {
    forall k | k in claims ensures Holds(s, k.zone, k.index) || (k.zone in c.past && c.past[k.zone] == k.index) {
      CarriedByOwner(c, s, k);
    }
  }

  /** A tenant of the old registry whose zone is in place is given its old index. */
  lemma RestorePicksOldIndex(c: Config, s: State, name: string, n: Option<int>)
    requires WellFormed(c) && Inv(c, s) && name in s.ops && s.ops[name].Creating? && name in s.kept
    requires IsPick(name, s.ops[name].requested, HeldIndexes(s.rows), s.ops[name].claims, n)
    ensures name in c.past && n == Some(c.past[name])
  {
    assert OpFits(c, s, name);
    var held, claims := HeldIndexes(s.rows), s.ops[name].claims;
    var own := c.past[name];
    assert own !in held;
    assert Free(name, held, claims, own);
    assert OwnFree(name, held, claims, own);
    forall m | OwnFree(name, held, claims, m) ensures m == own {
      assert Claim(m, name) in claims;
    }
  }

  /** Nobody is given an index whose old zone is in place, unless the zone is theirs. */
  lemma PickSparesOldIndexes(c: Config, s: State, name: string, n: int, z: string)
    requires WellFormed(c) && Inv(c, s) && name in s.ops && s.ops[name].Creating?
    requires z in s.kept && z in c.past && z != name
    requires IsPick(name, s.ops[name].requested, HeldIndexes(s.rows), s.ops[name].claims, Some(n))
    ensures n != c.past[z]
  {
    assert OpFits(c, s, name);
    var claims := s.ops[name].claims;
    assert Claim(c.past[z], z) in claims;
    assert !Free(name, HeldIndexes(s.rows), claims, c.past[z]);
  }

  lemma PickInRange(c: Config, s: State, name: string, n: int)
    requires Inv(c, s) && name in s.ops && s.ops[name].Creating?
    requires IsPick(name, s.ops[name].requested, HeldIndexes(s.rows), s.ops[name].claims, Some(n))
    ensures MIN_INDEX <= n <= MAX_ALLOCATABLE && n !in HeldIndexes(s.rows)
  {
    assert OpFits(c, s, name);
  }

  /** Operations of other tenants are not upset by rows or fabric objects that
      are not theirs. */
  lemma OtherOpsFit(c: Config, s: State, s': State, name: string)
    requires forall t :: t in s.ops ==> OpFits(c, s, t)
    requires s'.kept <= s.kept
    requires forall t :: t in s'.ops && t != name ==>
      && t in s.ops && s'.ops[t] == s.ops[t]
      && (t in s'.rows <==> t in s.rows) && (t in s.rows ==> s'.rows[t] == s.rows[t])
    requires forall t :: t in s'.fabric.zones && t != name ==> t in s.fabric.zones
    requires forall id :: id in s'.fabric.vnets && s'.fabric.vnets[id].zone != name ==>
      id in s.fabric.vnets && s'.fabric.vnets[id] == s.fabric.vnets[id]
    ensures forall t :: t in s'.ops && t != name ==> OpFits(c, s', t)
  {
    forall t | t in s'.ops && t != name ensures OpFits(c, s', t) {
      assert OpFits(c, s, t);
    }
  }

  /** A fabric that does not change stays backed while rows keep their indexes. */
  lemma StillBacked(c: Config, s: State, s': State)
    requires FabricBacked(c, s) && s'.fabric == s.fabric && s'.kept == s.kept
    requires forall t :: t in s.rows ==> t in s'.rows && s'.rows[t].index == s.rows[t].index
    ensures FabricBacked(c, s')
  {
    forall z | z in s'.fabric.zones ensures ZoneBacked(c, s', z) { assert ZoneBacked(c, s, z); }
    forall id | id in s'.fabric.vnets ensures VNetBacked(c, s', id) { assert VNetBacked(c, s, id); }
  }

  lemma InsertedRowDistinct(c: Config, s: State, s': State, name: string, row: Row)
    requires Inv(c, s) && name in s.ops && s.ops[name].Creating?
    requires IsPick(name, s.ops[name].requested, HeldIndexes(s.rows), s.ops[name].claims, Some(row.index))
    requires s'.rows == s.rows[name := row]
    ensures RowsDistinct(s')
  {
    PickInRange(c, s, name, row.index);
    forall t | t in s.rows ensures s.rows[t].index != row.index {
      assert s.rows[t].index in HeldIndexes(s.rows);
    }
  }

  lemma InsertedRowSpares(c: Config, s: State, s': State, name: string, row: Row)
    requires WellFormed(c) && Inv(c, s) && name in s.ops && s.ops[name].Creating?
    requires IsPick(name, s.ops[name].requested, HeldIndexes(s.rows), s.ops[name].claims, Some(row.index))
    requires s'.rows == s.rows[name := row] && s'.kept == s.kept && s'.fabric == s.fabric
    ensures OldKept(c, s')
  {
    if name in s.kept {
      RestorePicksOldIndex(c, s, name, Some(row.index));
    }
    forall z | z in s.kept && z != name ensures row.index != c.past[z] {
      PickSparesOldIndexes(c, s, name, row.index, z);
    }
  }

  lemma InsertKeepsOps(c: Config, s: State, s': State, name: string, created: Created)
    requires WellFormed(c) && Inv(c, s) && Step(c, s, s', name, Insert(created))
    ensures forall t :: t in s'.ops ==> OpFits(c, s', t)
  {
    assert OpFits(c, s, name);
    OtherOpsFit(c, s, s', name);
    assert name in s'.ops ==> Holds(s', name, created.row.index);
  }

  lemma InsertKeepsInv(c: Config, s: State, s': State, name: string, created: Created)
    requires WellFormed(c) && Inv(c, s) && Step(c, s, s', name, Insert(created))
    ensures Inv(c, s')
  {
    InsertKeepsOps(c, s, s', name, created);
    StillBacked(c, s, s');
    if created.Inserted? {
      InsertedRowDistinct(c, s, s', name, created.row);
      InsertedRowSpares(c, s, s', name, created.row);
    }
  }

  lemma ReadZonesKeepsInv(c: Config, s: State, s': State, name: string, requested: int, claims: set<Claim>)
    requires WellFormed(c) && Inv(c, s) && Step(c, s, s', name, ReadZones(requested, claims))
    ensures Inv(c, s')
  {
    ReadZonesSnapshot(c, s, name, requested, claims);
    OtherOpsFit(c, s, s', name);
    StillBacked(c, s, s');
    assert OpFits(c, s', name);
  }

  lemma ReadVNetsKeepsInv(c: Config, s: State, s': State, name: string, claims: set<Claim>)
    requires WellFormed(c) && Inv(c, s) && Step(c, s, s', name, ReadVNets(claims))
    ensures Inv(c, s')
  {
    assert OpFits(c, s, name);
    ReadVNetsSnapshot(c, s, name, s.ops[name].requested, s.ops[name].claims, claims);
    OtherOpsFit(c, s, s', name);
    StillBacked(c, s, s');
    assert OpFits(c, s', name);
  }

  /** Building adds objects under the index of the tenant's own row. */
  lemma BuildZoneKeepsInv(c: Config, s: State, s': State, name: string)
    requires WellFormed(c) && Inv(c, s) && Step(c, s, s', name, BuildZone)
    ensures Inv(c, s')
  {
    assert OpFits(c, s, name);
    OtherOpsFit(c, s, s', name);
    forall z | z in s'.fabric.zones ensures ZoneBacked(c, s', z) {
      assert z in s.fabric.zones ==> ZoneBacked(c, s, z);
    }
    forall id | id in s'.fabric.vnets ensures VNetBacked(c, s', id) { assert VNetBacked(c, s, id); }
    assert OpFits(c, s', name);
  }

  lemma BuildVNetKeepsInv(c: Config, s: State, s': State, name: string)
    requires WellFormed(c) && Inv(c, s) && Step(c, s, s', name, BuildVNet)
    ensures Inv(c, s')
  {
    assert OpFits(c, s, name);
    OtherOpsFit(c, s, s', name);
    forall z | z in s'.fabric.zones ensures ZoneBacked(c, s', z) { assert ZoneBacked(c, s, z); }
    VnetTagInverse(c.site, s.ops[name].index, c.site.VnetTagBase(s.ops[name].index));
    forall id | id in s'.fabric.vnets ensures VNetBacked(c, s', id) {
      assert id in s.fabric.vnets ==> VNetBacked(c, s, id);
    }
    assert OpFits(c, s', name);
  }

  /** Removing takes objects off the fabric, the tenant's own or one it shares an ID with. */
  lemma RemoveVNetKeepsInv(c: Config, s: State, s': State, name: string, reported: bool)
    requires WellFormed(c) && Inv(c, s) && Step(c, s, s', name, RemoveVNet(reported))
    ensures Inv(c, s')
  {
    assert OpFits(c, s, name);
    OtherOpsFit(c, s, s', name);
    forall z | z in s'.fabric.zones ensures ZoneBacked(c, s', z) { assert ZoneBacked(c, s, z); }
    forall id | id in s'.fabric.vnets ensures VNetBacked(c, s', id) { assert VNetBacked(c, s, id); }
    forall id | id in s'.fabric.vnets && s'.fabric.vnets[id].zone == name
      ensures OldVNet(c, s'.fabric.vnets[id])
    {
      assert VNetBacked(c, s, id);
    }
    assert name in s'.ops ==> OpFits(c, s', name);
  }

  lemma RemoveZoneKeepsInv(c: Config, s: State, s': State, name: string, reported: bool)
    requires WellFormed(c) && Inv(c, s) && Step(c, s, s', name, RemoveZone(reported))
    ensures Inv(c, s')
  {
    assert OpFits(c, s, name);
    OtherOpsFit(c, s, s', name);
    forall z | z in s'.fabric.zones ensures ZoneBacked(c, s', z) { assert ZoneBacked(c, s, z); }
    forall id | id in s'.fabric.vnets ensures VNetBacked(c, s', id) { assert VNetBacked(c, s, id); }
    assert name in s'.ops ==> OpFits(c, s', name);
  }

  /** The row goes last: by then nothing on the fabric rests on it. */
  lemma NothingRestsOnRow(c: Config, s: State, s': State, name: string)
    requires FabricBacked(c, s) && s'.fabric == s.fabric && s'.kept == s.kept && s'.rows == s.rows - {name}
    requires name !in s.fabric.zones
    requires forall id :: id in s.fabric.vnets && s.fabric.vnets[id].zone == name ==> OldVNet(c, s.fabric.vnets[id])
    ensures FabricBacked(c, s')
  {
    forall z | z in s'.fabric.zones ensures ZoneBacked(c, s', z) { assert ZoneBacked(c, s, z); }
    forall id | id in s'.fabric.vnets ensures VNetBacked(c, s', id) { assert VNetBacked(c, s, id); }
  }

  lemma DropRowKeepsInv(c: Config, s: State, s': State, name: string)
    requires WellFormed(c) && Inv(c, s) && Step(c, s, s', name, DropRow)
    ensures Inv(c, s')
  {
    assert OpFits(c, s, name);
    OtherOpsFit(c, s, s', name);
    NothingRestsOnRow(c, s, s', name);
  }

  /** Steps that change at most the tenant's status and where its operation stands. */
  lemma StatusStepKeepsInv(c: Config, s: State, s': State, name: string)
    requires WellFormed(c) && Inv(c, s)
    requires s'.fabric == s.fabric && s'.kept == s.kept && s'.rows.Keys == s.rows.Keys
    requires forall t :: t in s.rows ==> s'.rows[t].index == s.rows[t].index && (t != name ==> s'.rows[t] == s.rows[t])
    requires forall t :: t in s'.ops && t != name ==> t in s.ops && s'.ops[t] == s.ops[t]
    requires name in s'.ops ==> OpFits(c, s', name)
    ensures Inv(c, s')
  {
    OtherOpsFit(c, s, s', name);
    StillBacked(c, s, s');
  }

  lemma StartEnsureKeepsInv(c: Config, s: State, s': State, name: string)
    requires WellFormed(c) && Inv(c, s) && Step(c, s, s', name, StartEnsure)
    ensures Inv(c, s')
  {
    StatusStepKeepsInv(c, s, s', name);
  }

  lemma FinishEnsureKeepsInv(c: Config, s: State, s': State, name: string, ok: bool)
    requires WellFormed(c) && Inv(c, s) && Step(c, s, s', name, FinishEnsure(ok))
    ensures Inv(c, s')
  {
    StatusStepKeepsInv(c, s, s', name);
  }

  lemma StartDeleteKeepsInv(c: Config, s: State, s': State, name: string)
    requires WellFormed(c) && Inv(c, s) && Step(c, s, s', name, StartDelete)
    ensures Inv(c, s')
  {
    StatusStepKeepsInv(c, s, s', name);
  }

  lemma StopKeepsInv(c: Config, s: State, s': State, name: string)
    requires WellFormed(c) && Inv(c, s) && Step(c, s, s', name, Stop)
    ensures Inv(c, s')
  {
    StatusStepKeepsInv(c, s, s', name);
  }

  lemma NextKeepsInv(c: Config, s: State, s': State)
    requires WellFormed(c) && Inv(c, s) && Next(c, s, s')
    ensures Inv(c, s')
  {
    var name, e :| Step(c, s, s', name, e);
    match e
    case ReadZones(requested, claims) => ReadZonesKeepsInv(c, s, s', name, requested, claims);
    case ReadVNets(claims) => ReadVNetsKeepsInv(c, s, s', name, claims);
    case Insert(created) => InsertKeepsInv(c, s, s', name, created);
    case BuildZone => BuildZoneKeepsInv(c, s, s', name);
    case BuildVNet => BuildVNetKeepsInv(c, s, s', name);
    case RemoveVNet(reported) => RemoveVNetKeepsInv(c, s, s', name, reported);
    case RemoveZone(reported) => RemoveZoneKeepsInv(c, s, s', name, reported);
    case DropRow => DropRowKeepsInv(c, s, s', name);
    case StartEnsure => StartEnsureKeepsInv(c, s, s', name);
    case FinishEnsure(ok) => FinishEnsureKeepsInv(c, s, s', name, ok);
    case StartDelete => StartDeleteKeepsInv(c, s, s', name);
    case Stop => StopKeepsInv(c, s, s', name);
  }

  lemma {:induction false} RunKeepsInv(c: Config, states: seq<State>, i: nat)
    requires WellFormed(c) && Run(c, states) && i < |states|
    ensures Inv(c, states[i])
  {
    if i == 0 {
      InitInv(c, states[0]);
    } else {
      RunKeepsInv(c, states, i - 1);
      assert StepAt(c, states, i - 1);
      NextKeepsInv(c, states[i - 1], states[i]);
    }
  }

  // --- The two guarantees ------------------------------------------------------------------------

  /** Registry-loss recovery. In every state any interleaving reaches, an old
      tenant whose zone was never taken down has its old index whenever it has a
      row, and no other tenant has it. */
  lemma Recovery(c: Config, states: seq<State>, i: nat, z: string)
    requires WellFormed(c) && Run(c, states) && i < |states| && z in states[i].kept
    ensures z in c.past
    ensures z in states[i].rows ==> states[i].rows[z].index == c.past[z]
    ensures forall y :: y in states[i].rows && y != z ==> states[i].rows[y].index != c.past[z]
  {
    RunKeepsInv(c, states, i);
  }

  /** And when such a tenant comes back, the insert succeeds with that index. */
  lemma RestoreSucceeds(c: Config, states: seq<State>, i: nat, z: string, created: Created)
    requires WellFormed(c) && Run(c, states) && i + 1 < |states| && z in states[i].kept
    requires Step(c, states[i], states[i + 1], z, Insert(created))
    ensures z in c.past && created == Inserted(Row(c.past[z], Provisioning))
  {
    RunKeepsInv(c, states, i);
    var s := states[i];
    assert OpFits(c, s, z);
    if IsPick(z, s.ops[z].requested, HeldIndexes(s.rows), s.ops[z].claims, None) {
      RestorePicksOldIndex(c, s, z, None);
    } else {
      RestorePicksOldIndex(c, s, z, Some(created.row.index));
    }
  }

  /** Without a lost registry: no two rows share an index; every zone and VNet
      on the fabric has a row of its name and index; so no row's index is
      carried by another tenant's zone. */
  lemma NoSharedIndexes(site: Site, states: seq<State>, i: nat)
    requires Run(Config(site, map[]), states) && i < |states|
    ensures forall t, u :: t in states[i].rows && u in states[i].rows && t != u ==>
      states[i].rows[t].index != states[i].rows[u].index
    ensures forall z :: z in states[i].fabric.zones ==>
      z in states[i].rows && states[i].fabric.zones[z] == site.VrfVni(states[i].rows[z].index)
    ensures var s := states[i];
      forall k, t :: Carries(site, s.fabric, k) && t in s.rows && s.rows[t].index == k.index ==> k.zone == t
  {
    var c := Config(site, map[]);
    var s := states[i];
    RunKeepsInv(c, states, i);
    forall z | z in s.fabric.zones
      ensures z in s.rows && s.fabric.zones[z] == site.VrfVni(s.rows[z].index)
    {
      assert ZoneBacked(c, s, z);
    }
    forall k, t | Carries(site, s.fabric, k) && t in s.rows && s.rows[t].index == k.index ensures k.zone == t {
      CarriedByOwner(c, s, k);
    }
  }

  /** How far recovery reaches: a tenant whose zone carries one index, which no
      one else holds, gets it back exactly when it asks for none, for that one,
      or for one that is not free. */
  lemma RecoversExactlyWhen(name: string, requested: int, held: set<int>, claims: set<Claim>, own: int, r: Option<int>)
    requires IsPick(name, requested, held, claims, r)
    requires OwnFree(name, held, claims, own)
    requires forall n :: Claim(n, name) in claims ==> n == own
    ensures r == Some(own) <==> requested == 0 || requested == own || !Free(name, held, claims, requested)
  {
    forall n | OwnFree(name, held, claims, n) ensures n == own {
      assert Claim(n, name) in claims;
    }
  }
}
