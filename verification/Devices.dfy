/** Devices, their fixed addresses, and the names beside them in a tenant's
    zone: internal/tenant/addresses.go, internal/tenant/devices.go, the record
    and workload halves of internal/tenant/service.go, and the locked create in
    internal/store/addresses.go.

    Calls do not overlap. Inside a call every write to the registry, the DHCP
    server or DNS may fail, before or after it takes effect, and the call then
    leaves behind whatever it had already done. Allocations takes up what holds
    when calls of different tenants do overlap. */
module Devices {
  import opened Basics
  import opened Text
  import opened Addresses

  /** Every key is a tenant and a name of that tenant's. */
  type Key = (string, string)

  datatype Status = Provisioning | Ready | Deleting

  datatype Tenant = Tenant(index: nat, status: Status)

  /** mac is empty for a device registered without one. */
  datatype Device = Device(trust: string, mac: string)

  datatype Address = Address(trust: string, address: string, ready: bool)

  datatype Registry = Registry(
    tenants: map<string, Tenant>,
    devices: map<Key, Device>,
    addresses: map<Key, Address>,
    workloads: set<Key>,
    records: map<Key, string>)

  datatype Config = Config(octet: nat, classes: set<string>, ranges: map<string, Range>, quota: nat, text: Form)

  /** Site.Validate: every range is IPv4 and of a served class. */
  ghost predicate WellFormed(c: Config) {
    forall k :: k in c.ranges ==> Valid4(c.ranges[k].first) && Valid4(c.ranges[k].last)
  }

  datatype Reply = Done | Invalid | NotFound | AddressConflict | QuotaExceeded | AddressesExhausted | StepFailed

  // --- Pieces ------------------------------------------------------------------------------

  predicate TenantReady(r: Registry, t: string) { t in r.tenants && r.tenants[t].status == Ready }

  /** inTenantSubnet: 10.<octet>.<128+index>.<last>. */
  predicate InSubnet(c: Config, index: nat, address: string) {
    InBlock(c.octet, 128 + index, address)
  }

  predicate InBlock(octet: nat, third: nat, address: string) {
    exists d :: 0 <= d < 256 && address == DottedQuad(10, octet, third, d)
  }

  function BlockText(octet: nat, third: nat): string {
    "10" + "." + Decimal(octet) + "." + Decimal(third) + "."
  }

  predicate Dotted4(address: string) {
    exists a, b, c, d ::
      0 <= a < 256 && 0 <= b < 256 && 0 <= c < 256 && 0 <= d < 256 && address == DottedQuad(a, b, c, d)
  }

  /** inTenantSubnet as it is written: the subnet's text in front, and the whole an IPv4 address. */
  predicate PrefixTest(octet: nat, third: nat, address: string) {
    HasPrefix(address, BlockText(octet, third)) && Dotted4(address)
  }

  lemma Nested(a: string, b: string, c: string, rest: string)
    ensures a + "." + b + "." + c + "." + rest == a + ['.'] + (b + ['.'] + (c + ['.'] + rest))
  {
  }

  lemma SplitNested(a: string, b: string, c: string, rest: string)
    requires '.' !in a && '.' !in b && '.' !in c
    ensures Split(a + ['.'] + (b + ['.'] + (c + ['.'] + rest)), '.') == [a] + ([b] + ([c] + Split(rest, '.')))
  {
    SplitPrefix(c, rest, '.');
    SplitPrefix(b, c + ['.'] + rest, '.');
    SplitPrefix(a, b + ['.'] + (c + ['.'] + rest), '.');
  }

  lemma SplitBehind(a: string, b: string, c: string, rest: string)
    requires '.' !in a && '.' !in b && '.' !in c
    ensures Split(a + "." + b + "." + c + "." + rest, '.') == [a, b, c] + Split(rest, '.')
  {
    Nested(a, b, c, rest);
    SplitNested(a, b, c, rest);
  }

  lemma Ten()
    ensures Decimal(10) == "10"
  {
  }

  lemma QuadFromPrefix(octet: nat, third: nat, rest: string, a: nat, b: nat, c: nat, d: nat)
    requires DottedQuad(a, b, c, d) == BlockText(octet, third) + rest
    ensures a == 10 && b == octet && c == third
  {
    var parts := [Decimal(a), Decimal(b), Decimal(c), Decimal(d)];
    SplitJoin(parts, '.');
    SplitBehind("10", Decimal(octet), Decimal(third), rest);
    assert parts == ["10", Decimal(octet), Decimal(third)] + Split(rest, '.');
    assert parts[0] == "10" && parts[1] == Decimal(octet) && parts[2] == Decimal(third);
    Ten();
    DecimalInjective(a, 10);
    DecimalInjective(b, octet);
    DecimalInjective(c, third);
  }

  lemma BlockQuad(octet: nat, third: nat, d: nat)
    ensures DottedQuad(10, octet, third, d) == BlockText(octet, third) + Decimal(d)
  {
    var parts := [Decimal(10), Decimal(octet), Decimal(third), Decimal(d)];
    Ten();
    assert parts[1..] == [Decimal(octet), Decimal(third), Decimal(d)];
    JoinThree(Decimal(octet), Decimal(third), Decimal(d), '.');
  }

  lemma InBlockPasses(octet: nat, third: nat, address: string)
    requires octet < 256 && third < 256 && InBlock(octet, third, address)
    ensures PrefixTest(octet, third, address)
  {
    var d :| 0 <= d < 256 && address == DottedQuad(10, octet, third, d);
    BlockQuad(octet, third, d);
  }

  /** The text test is exact: it admits the 256 addresses of the tenant's /24 and no others. */
  lemma PrefixTestIsBlock(octet: nat, third: nat, address: string)
    requires octet < 256 && third < 256
    ensures PrefixTest(octet, third, address) <==> InBlock(octet, third, address)
  {
    if PrefixTest(octet, third, address) {
      var a, b, c, d :|
        0 <= a < 256 && 0 <= b < 256 && 0 <= c < 256 && 0 <= d < 256 && address == DottedQuad(a, b, c, d);
      var prefix := BlockText(octet, third);
      assert address == prefix + address[|prefix|..];
      QuadFromPrefix(octet, third, address[|prefix|..], a, b, c, d);
    }
    if InBlock(octet, third, address) {
      InBlockPasses(octet, third, address);
    }
  }

  predicate HoldsAddress(r: Registry, t: string, address: string) {
    exists k :: k in r.addresses && k.0 == t && r.addresses[k].address == address
  }

  /** Another device of the class already has the MAC. */
  predicate MacElsewhere(r: Registry, trust: string, mac: string, key: Key) {
    exists k ::
      k in r.addresses && r.addresses[k].trust == trust && k != key && k in r.devices && r.devices[k].mac == mac
  }

  function HeldRow(r: Registry, k: Key): Held
    requires k in r.addresses && k in r.devices
  {
    Held(k.0, k.1, r.devices[k].mac, r.addresses[k].address)
  }

  /** The rows of a trust class, each once, in some order. */
  ghost predicate Listing(r: Registry, trust: string, held: seq<Held>) {
    && (forall i, j :: 0 <= i < j < |held| ==> (held[i].tenant, held[i].device) != (held[j].tenant, held[j].device))
    && (forall h :: h in held <==>
          var k := (h.tenant, h.device);
          k in r.addresses && k in r.devices && r.addresses[k].trust == trust && h == HeldRow(r, k))
  }

  // --- Calls -----------------------------------------------------------------------------------

  /** What the DHCP server answers, and whether each later write lands. */
  datatype Reserve = Reserved | TakenThere | ReserveFailed

  datatype PushPlan = PushPlan(reserve: Reserve, withdraws: bool, dns: bool, status: Fault)

  /** What a write leaves and whether it was reported. */
  function Landed(r: Registry, r': Registry, f: Fault): (Registry, Reply) {
    (if f.Before? then r else r', if f.Fine? then Done else StepFailed)
  }

  function WithReady(r: Registry, key: Key, ready: bool): Registry
    requires key in r.addresses
  {
    r.(addresses := r.addresses[key := r.addresses[key].(ready := ready)])
  }

  /** pushAddress: only a conflict on a row this call made takes the row back. */
  function Push(r: Registry, key: Key, isNew: bool, p: PushPlan): (Registry, Reply)
    requires key in r.addresses
  {
    match p.reserve
    case TakenThere => (if isNew && p.withdraws then r.(addresses := r.addresses - {key}) else r, AddressConflict)
    case ReserveFailed => (r, StepFailed)
    case Reserved => if p.dns then Landed(r, WithReady(r, key, true), p.status) else (r, StepFailed)
  }

  /** The address a tenant asks for, as netip.ParseAddr takes it. */
  datatype Request = Unasked | Unparsable | Asked(addr: Addr)

  predicate RequestInRange(c: Config, trust: string, q: Request)
    requires trust in c.ranges
  {
    q.Unasked? || (q.Asked? && c.ranges[trust].Contains(q.addr))
  }

  function RequestText(c: Config, q: Request): Option<string> {
    if q.Asked? && q.addr.V4? then Some(c.text(q.addr.n)) else None
  }

  predicate MayCreateAddress(c: Config, r: Registry, key: Key, q: Request) {
    && TenantReady(r, key.0) && key in r.devices && r.devices[key].mac != ""
    && r.devices[key].trust in c.ranges && RequestInRange(c, r.devices[key].trust, q)
    && (if key in r.addresses
        then RequestText(c, q).Some? ==> RequestText(c, q).value == r.addresses[key].address
        else key !in r.workloads && key !in r.records)
  }

  /** CreateDeviceAddress, with the address picked under the allocation lock. */
  ghost predicate CreateAddress(c: Config, r: Registry, key: Key, q: Request, stored: Fault, p: PushPlan,
                                r': Registry, reply: Reply) {
    if !MayCreateAddress(c, r, key, q) then
      r' == r && reply == (if key.0 in r.tenants then Invalid else NotFound)
    else if stored.Before? then r' == r && reply == StepFailed
    else if key in r.addresses then (r', reply) == Reapplied(r, key, stored, p)
    else
      exists held, pick ::
        PickedUnderLock(c, r, key, q, held, pick) && (r', reply) == AfterPick(r, key, pick, stored, p)
  }

  ghost predicate PickedUnderLock(c: Config, r: Registry, key: Key, q: Request, held: seq<Held>, pick: Pick) {
    && key in r.devices && r.devices[key].trust in c.ranges
    && Listing(r, r.devices[key].trust, held)
    && IsAddressPick(c.text, c.ranges[r.devices[key].trust], c.quota, key.0, r.devices[key].mac, RequestText(c, q),
                     held, pick)
  }

  /** A device that holds an address: the row goes back to provisioning and is pushed again. */
  function Reapplied(r: Registry, key: Key, stored: Fault, p: PushPlan): (Registry, Reply)
    requires key in r.addresses
  {
    if stored.Before? then (r, StepFailed)
    else if stored.After? then (WithReady(r, key, false), StepFailed)
    else Push(WithReady(r, key, false), key, false, p)
  }

  function AfterPick(r: Registry, key: Key, pick: Pick, stored: Fault, p: PushPlan): (Registry, Reply)
    requires key in r.devices
  {
    match pick
    case Picked(a) => if stored.Fine? then Push(Given(r, key, a), key, true, p) else (Given(r, key, a), StepFailed)
    case Conflict => (r, AddressConflict)
    case QuotaReached => (r, QuotaExceeded)
    case NoneLeft => (r, AddressesExhausted)
  }

  function Given(r: Registry, key: Key, address: string): Registry
    requires key in r.devices
  {
    r.(addresses := r.addresses[key := Address(r.devices[key].trust, address, false)])
  }

  /** DeleteDeviceAddress */
  predicate MayDeleteAddress(r: Registry, key: Key) {
    && key.0 in r.tenants && key in r.addresses
    && forall k :: k in r.records && k.0 == key.0 ==> r.records[k] != r.addresses[key].address
  }

  /** released: the reservation and the DNS records are gone, in that order. */
  function DeleteAddress(r: Registry, key: Key, released: bool, drop: Fault): (Registry, Reply) {
    if key.0 !in r.tenants || key !in r.addresses then (r, NotFound)
    else if !MayDeleteAddress(r, key) then (r, Invalid)
    else if !released then (r, StepFailed)
    else Landed(r, r.(addresses := r.addresses - {key}), drop)
  }

  /** Whether a re-registration moves a reservation to another MAC. */
  predicate Moves(r: Registry, key: Key, mac: string) {
    key in r.addresses && key in r.devices && r.devices[key].mac != mac
  }

  predicate MayCreateDevice(c: Config, r: Registry, key: Key, trust: string, mac: string) {
    && TenantReady(r, key.0) && ValidLabel(key.1) && trust in c.classes
    && (key in r.devices ==> r.devices[key].trust == trust)
    && (Moves(r, key, mac) ==> mac != "")
  }

  /** CreateDevice. status is the write that marks the address row as moving. */
  function CreateDevice(c: Config, r: Registry, key: Key, trust: string, mac: string,
                        stored: Fault, status: Fault, p: PushPlan): (Registry, Reply) {
    if !MayCreateDevice(c, r, key, trust, mac) then (r, if key.0 in r.tenants then Invalid else NotFound)
    else if Moves(r, key, mac) && MacElsewhere(r, r.addresses[key].trust, mac, key) then (r, AddressConflict)
    else
      var put := r.(devices := r.devices[key := Device(trust, mac)]);
      if !stored.Fine? || !Moves(r, key, mac) then Landed(r, put, stored)
      else Reapplied(put, key, status, p)
  }

  function DeleteDevice(r: Registry, key: Key, stored: Fault): (Registry, Reply) {
    if key !in r.devices then (r, NotFound)
    else if key in r.addresses then (r, Invalid)
    else Landed(r, r.(devices := r.devices - {key}), stored)
  }

  predicate MayPutRecord(c: Config, r: Registry, key: Key, address: string) {
    && key.0 in r.tenants && ValidLabel(key.1) && key !in r.addresses
    && (InSubnet(c, r.tenants[key.0].index, address) || HoldsAddress(r, key.0, address))
  }

  function PutRecord(c: Config, r: Registry, key: Key, address: string, published: bool, stored: Fault)
    : (Registry, Reply)
  {
    if key.0 !in r.tenants then (r, NotFound)
    else if !MayPutRecord(c, r, key, address) then (r, Invalid)
    else if !published then (r, StepFailed)
    else Landed(r, r.(records := r.records[key := address]), stored)
  }

  function DeleteRecord(r: Registry, key: Key, removed: bool, drop: Fault): (Registry, Reply) {
    if key.0 !in r.tenants || key !in r.records then (r, NotFound)
    else if !removed then (r, StepFailed)
    else Landed(r, r.(records := r.records - {key}), drop)
  }

  /** CreateWorkload as far as its name goes. */
  function CreateWorkload(r: Registry, key: Key, stored: Fault): (Registry, Reply) {
    if key.0 !in r.tenants then (r, NotFound)
    else if !TenantReady(r, key.0) || !ValidLabel(key.1) then (r, Invalid)
    else if key !in r.workloads && key in r.addresses then (r, Invalid)
    else Landed(r, r.(workloads := r.workloads + {key}), stored)
  }

  function DeleteWorkload(r: Registry, key: Key, removed: bool, drop: Fault): (Registry, Reply) {
    if key.0 !in r.tenants || key !in r.workloads then (r, NotFound)
    else if !removed then (r, StepFailed)
    else Landed(r, r.(workloads := r.workloads - {key}), drop)
  }

  /** The row's deletion takes everything that hangs on it. */
  function DropTenant(r: Registry, t: string): Registry {
    Registry(r.tenants - {t},
             map k | k in r.devices && k.0 != t :: r.devices[k],
             map k | k in r.addresses && k.0 != t :: r.addresses[k],
             set k | k in r.workloads && k.0 != t,
             map k | k in r.records && k.0 != t :: r.records[k])
  }

  // --- Runs ---------------------------------------------------------------------------------------

  datatype Call =
    | NewTenant(index: nat)
    | SetStatus(status: Status)
    | EndTenant
    | CreateDeviceCall(trust: string, mac: string, stored: Fault, marked: Fault, plan: PushPlan)
    | DeleteDeviceCall(drop: Fault)
    | CreateAddressCall(request: Request, stored: Fault, plan: PushPlan, reply: Reply)
    | DeleteAddressCall(ok: bool, drop: Fault)
    | PutRecordCall(address: string, ok: bool, stored: Fault)
    | DeleteRecordCall(ok: bool, drop: Fault)
    | CreateWorkloadCall(stored: Fault)
    | DeleteWorkloadCall(ok: bool, drop: Fault)

  ghost predicate Step(c: Config, r: Registry, r': Registry, key: Key, call: Call) {
    match call
    case NewTenant(index) => key.0 !in r.tenants && r' == r.(tenants := r.tenants[key.0 := Tenant(index, Provisioning)])
    case SetStatus(status) =>
      key.0 in r.tenants && r' == r.(tenants := r.tenants[key.0 := r.tenants[key.0].(status := status)])
    case EndTenant => r' == DropTenant(r, key.0)
    case CreateDeviceCall(trust, mac, stored, marked, plan) =>
      r' == CreateDevice(c, r, key, trust, mac, stored, marked, plan).0
    case DeleteDeviceCall(drop) => r' == DeleteDevice(r, key, drop).0
    case CreateAddressCall(request, stored, plan, reply) => CreateAddress(c, r, key, request, stored, plan, r', reply)
    case DeleteAddressCall(ok, drop) => r' == DeleteAddress(r, key, ok, drop).0
    case PutRecordCall(address, ok, stored) => r' == PutRecord(c, r, key, address, ok, stored).0
    case DeleteRecordCall(ok, drop) => r' == DeleteRecord(r, key, ok, drop).0
    case CreateWorkloadCall(stored) => r' == CreateWorkload(r, key, stored).0
    case DeleteWorkloadCall(ok, drop) => r' == DeleteWorkload(r, key, ok, drop).0
  }

  /** The runs hold a tenant's coming, its status, and its going; every other step
      is the call's own function. */
  lemma StepsAreThere(c: Config, r: Registry, key: Key, index: nat, status: Status)
    ensures key.0 !in r.tenants ==>
      Step(c, r, r.(tenants := r.tenants[key.0 := Tenant(index, Provisioning)]), key, NewTenant(index))
    ensures key.0 in r.tenants ==>
      Step(c, r, r.(tenants := r.tenants[key.0 := Tenant(r.tenants[key.0].index, status)]), key, SetStatus(status))
    ensures Step(c, r, DropTenant(r, key.0), key, EndTenant)
  {
  }

  ghost predicate Run(c: Config, states: seq<Registry>) {
    && |states| >= 1 && states[0] == Registry(map[], map[], map[], {}, map[])
    && forall i :: 0 <= i < |states| - 1 ==> StepAt(c, states, i)
  }

  ghost predicate StepAt(c: Config, states: seq<Registry>, i: nat)
    requires i < |states| - 1
  {
    Next(c, states[i], states[i + 1])
  }

  ghost predicate Next(c: Config, r: Registry, r': Registry) {
    exists key, call :: Step(c, r, r', key, call)
  }

  // --- What every call keeps ----------------------------------------------------------------------

  ghost predicate InRange(c: Config, trust: string, address: string) {
    trust in c.ranges && exists n: nat :: c.ranges[trust].first <= n <= c.ranges[trust].last && address == c.text(n)
  }

  /** A holder is a registered device of its class, with a MAC and an address in range. */
  ghost predicate HolderFits(c: Config, r: Registry, k: Key)
    requires k in r.addresses
  {
    && k in r.devices && r.devices[k].trust == r.addresses[k].trust && r.devices[k].mac != ""
    && InRange(c, r.addresses[k].trust, r.addresses[k].address)
  }

  /** Two holders of one class differ in address and in MAC. */
  ghost predicate Apart(r: Registry, k: Key, l: Key)
    requires k in r.addresses && l in r.addresses && k in r.devices && l in r.devices
  {
    r.addresses[k].trust == r.addresses[l].trust && k != l ==>
      r.addresses[k].address != r.addresses[l].address && r.devices[k].mac != r.devices[l].mac
  }

  function HeldKeys(r: Registry, t: string, trust: string): set<Key> {
    set k | k in r.addresses && k.0 == t && r.addresses[k].trust == trust
  }

  ghost predicate Allocated(c: Config, r: Registry) {
    && (forall k :: k in r.addresses ==> HolderFits(c, r, k))
    && (forall k, l :: k in r.addresses && l in r.addresses && k in r.devices && l in r.devices ==> Apart(r, k, l))
    && (forall t, trust :: |HeldKeys(r, t, trust)| <= c.quota)
  }

  /** A record points into its tenant's subnet, or at an address the tenant holds. */
  ghost predicate RecordFits(c: Config, r: Registry, k: Key)
    requires k in r.records
  {
    k.0 in r.tenants && (InSubnet(c, r.tenants[k.0].index, r.records[k]) || HoldsAddress(r, k.0, r.records[k]))
  }

  ghost predicate Named(c: Config, r: Registry) {
    && (forall k :: k in r.addresses ==> k !in r.workloads && k !in r.records)
    && (forall k :: k in r.records ==> RecordFits(c, r, k))
  }

  ghost predicate Inv(c: Config, r: Registry) { Allocated(c, r) && Named(c, r) }

  // --- The count a pick makes is the tenant's holding -----------------------------------------------

  function KeysOf(held: seq<Held>, t: string): set<Key> {
    set h | h in held && h.tenant == t :: (h.tenant, h.device)
  }

  lemma {:induction false} MineIsCount(held: seq<Held>, t: string)
    requires forall i, j :: 0 <= i < j < |held| ==> (held[i].tenant, held[i].device) != (held[j].tenant, held[j].device)
    ensures Mine(held, t) == |KeysOf(held, t)|
  {
    if held == [] {
      assert KeysOf(held, t) == {};
    } else {
      var init, h := held[..|held| - 1], held[|held| - 1];
      MineIsCount(init, t);
      var k := (h.tenant, h.device);
      assert forall x :: x in held <==> x in init || x == h;
      assert k !in KeysOf(init, t) by {
        forall x | x in init ensures (x.tenant, x.device) != k {}
      }
      if h.tenant == t {
        assert KeysOf(held, t) == KeysOf(init, t) + {k};
      } else {
        assert KeysOf(held, t) == KeysOf(init, t);
      }
    }
  }

  /** Every address row has its device: the foreign key. */
  ghost predicate Joined(r: Registry) { forall k :: k in r.addresses ==> k in r.devices }

  lemma AllocatedIsJoined(c: Config, r: Registry)
    requires Allocated(c, r)
    ensures Joined(r)
  {
    forall k | k in r.addresses ensures k in r.devices { assert HolderFits(c, r, k); }
  }

  lemma ListingCount(r: Registry, trust: string, held: seq<Held>, t: string)
    requires Joined(r) && Listing(r, trust, held)
    ensures Mine(held, t) == |HeldKeys(r, t, trust)|
  {
    MineIsCount(held, t);
    forall k ensures k in KeysOf(held, t) <==> k in HeldKeys(r, t, trust) {
      if k in HeldKeys(r, t, trust) {
        assert HeldRow(r, k) in held;
      }
    }
    assert KeysOf(held, t) == HeldKeys(r, t, trust);
  }

  lemma SubsetCount<T>(a: set<T>, b: set<T>)
    requires a <= b
    ensures |a| <= |b|
  {
    assert b == a + (b - a);
  }

  // --- Preservation, call by call --------------------------------------------------------------------

  /** Taking address rows away cannot break the allocation. */
  lemma FewerHolders(c: Config, r: Registry, r': Registry)
    requires Allocated(c, r)
    requires forall k :: k in r'.addresses ==>
      k in r.addresses && r'.addresses[k].(ready := r.addresses[k].ready) == r.addresses[k]
      && (k in r.devices ==> k in r'.devices && r'.devices[k] == r.devices[k])
    ensures Allocated(c, r')
  {
    forall k | k in r'.addresses ensures HolderFits(c, r', k) { assert HolderFits(c, r, k); }
    forall k, l | k in r'.addresses && l in r'.addresses && k in r'.devices && l in r'.devices ensures Apart(r', k, l) {
      assert HolderFits(c, r, k) && HolderFits(c, r, l);
      assert Apart(r, k, l);
    }
    forall t, trust ensures |HeldKeys(r', t, trust)| <= c.quota {
      SubsetCount(HeldKeys(r', t, trust), HeldKeys(r, t, trust));
    }
  }

  lemma GivenIsApart(c: Config, r: Registry, key: Key, q: Request, held: seq<Held>, a: string)
    requires Joined(r) && key !in r.addresses && PickedUnderLock(c, r, key, q, held, Picked(a))
    ensures forall k :: k in r.addresses && r.addresses[k].trust == r.devices[key].trust ==>
      k in r.devices && r.addresses[k].address != a && r.devices[k].mac != r.devices[key].mac
  {
    var trust := r.devices[key].trust;
    PickedFacts(c.text, c.ranges[trust], c.quota, key.0, r.devices[key].mac, RequestText(c, q), held, a);
    forall k | k in r.addresses && r.addresses[k].trust == trust
      ensures k in r.devices && r.addresses[k].address != a && r.devices[k].mac != r.devices[key].mac
    {
      assert HeldRow(r, k) in held;
    }
  }

  lemma GivenInRange(c: Config, r: Registry, key: Key, q: Request, held: seq<Held>, a: string)
    requires key in r.devices && r.devices[key].trust in c.ranges && RequestInRange(c, r.devices[key].trust, q)
    requires PickedUnderLock(c, r, key, q, held, Picked(a))
    ensures InRange(c, r.devices[key].trust, a)
  {
    var range := c.ranges[r.devices[key].trust];
    PickedFacts(c.text, range, c.quota, key.0, r.devices[key].mac, RequestText(c, q), held, a);
    if q.Asked? {
      assert range.first <= q.addr.n <= range.last && a == c.text(q.addr.n);
    }
  }

  lemma OneMoreHeld(r: Registry, key: Key, a: string, t: string, d: string)
    requires key in r.devices && key !in r.addresses
    ensures |HeldKeys(Given(r, key, a), t, d)|
      == |HeldKeys(r, t, d)| + (if t == key.0 && d == r.devices[key].trust then 1 else 0)
  {
    var rows, rows' := r.addresses, Given(r, key, a).addresses;
    var before, after := HeldKeys(r, t, d), HeldKeys(Given(r, key, a), t, d);
    var more := t == key.0 && d == r.devices[key].trust;
    forall k ensures k in after <==> k in before || (k == key && more) {
      if k != key {
        assert k in rows' <==> k in rows;
        assert k in rows ==> rows'[k] == rows[k];
      }
    }
    assert key !in before;
    assert after == if more then before + {key} else before;
  }

  lemma RoomLeft(c: Config, r: Registry, key: Key, q: Request, held: seq<Held>, a: string)
    requires Joined(r) && PickedUnderLock(c, r, key, q, held, Picked(a))
    ensures |HeldKeys(r, key.0, r.devices[key].trust)| < c.quota
  {
    var trust := r.devices[key].trust;
    PickedFacts(c.text, c.ranges[trust], c.quota, key.0, r.devices[key].mac, RequestText(c, q), held, a);
    ListingCount(r, trust, held, key.0);
  }

  lemma GivenWithinQuota(c: Config, r: Registry, key: Key, q: Request, held: seq<Held>, a: string)
    requires Joined(r) && key !in r.addresses && PickedUnderLock(c, r, key, q, held, Picked(a))
    requires forall t, d :: |HeldKeys(r, t, d)| <= c.quota
    ensures forall t, d :: |HeldKeys(Given(r, key, a), t, d)| <= c.quota
  {
    RoomLeft(c, r, key, q, held, a);
    forall t, d ensures |HeldKeys(Given(r, key, a), t, d)| <= c.quota {
      OneMoreHeld(r, key, a, t, d);
    }
  }

  /** A given address is free, in range and within the quota. */
  lemma GivenKeepsAllocation(c: Config, r: Registry, key: Key, q: Request, held: seq<Held>, a: string)
    requires Allocated(c, r) && MayCreateAddress(c, r, key, q) && key !in r.addresses
    requires PickedUnderLock(c, r, key, q, held, Picked(a))
    ensures Allocated(c, Given(r, key, a))
  {
    var r' := Given(r, key, a);
    AllocatedIsJoined(c, r);
    GivenInRange(c, r, key, q, held, a);
    GivenIsApart(c, r, key, q, held, a);
    GivenWithinQuota(c, r, key, q, held, a);
    forall k | k in r'.addresses ensures HolderFits(c, r', k) { assert k == key || HolderFits(c, r, k); }
    forall k, l | k in r'.addresses && l in r'.addresses && k in r'.devices && l in r'.devices ensures Apart(r', k, l) {
      if k != key && l != key {
        assert Apart(r, k, l);
      }
    }
  }

  /** Pushing changes at most the row's readiness, or takes a new row back. */
  lemma PushEffect(r: Registry, key: Key, isNew: bool, p: PushPlan)
    requires key in r.addresses
    ensures var r' := Push(r, key, isNew, p).0;
      && r' == r.(addresses := r'.addresses)
      && r.addresses.Keys - (if isNew then {key} else {}) <= r'.addresses.Keys <= r.addresses.Keys
      && forall k :: k in r'.addresses ==> r'.addresses[k].(ready := r.addresses[k].ready) == r.addresses[k]
  {
  }

  /** Every address stays where it is; at most the one row's readiness changes. */
  ghost predicate SameAddresses(r: Registry, r': Registry) {
    && r' == r.(addresses := r'.addresses) && r'.addresses.Keys == r.addresses.Keys
    && forall k :: k in r.addresses ==> r'.addresses[k].(ready := r.addresses[k].ready) == r.addresses[k]
  }

  lemma ReappliedEffect(r: Registry, key: Key, stored: Fault, p: PushPlan)
    requires key in r.addresses
    ensures SameAddresses(r, Reapplied(r, key, stored, p).0)
  {
    PushEffect(WithReady(r, key, false), key, false, p);
  }

  lemma SameAddressesKeepInv(c: Config, r: Registry, r': Registry)
    requires Inv(c, r) && SameAddresses(r, r')
    ensures Inv(c, r')
  {
    FewerHolders(c, r, r');
    SameHolders(c, r, r');
  }

  lemma ReappliedKeepsInv(c: Config, r: Registry, key: Key, stored: Fault, p: PushPlan)
    requires Inv(c, r) && key in r.addresses
    ensures Inv(c, Reapplied(r, key, stored, p).0)
  {
    ReappliedEffect(r, key, stored, p);
    SameAddressesKeepInv(c, r, Reapplied(r, key, stored, p).0);
  }

  /** A row just given, with its name free: the invariant holds, and still does
      once the row was pushed or taken back. */
  lemma GivenKeepsInv(c: Config, r: Registry, key: Key, q: Request, held: seq<Held>, a: string)
    requires Inv(c, r) && MayCreateAddress(c, r, key, q) && key !in r.addresses
    requires PickedUnderLock(c, r, key, q, held, Picked(a))
    ensures Inv(c, Given(r, key, a))
  {
    GivenKeepsAllocation(c, r, key, q, held, a);
    MoreHolders(c, r, Given(r, key, a), key);
  }

  lemma PushGivenKeepsInv(c: Config, r: Registry, key: Key, a: string, p: PushPlan)
    requires Named(c, r) && key in r.devices && key !in r.addresses && key !in r.workloads && key !in r.records
    requires Allocated(c, Given(r, key, a))
    ensures Inv(c, Push(Given(r, key, a), key, true, p).0)
  {
    var given := Given(r, key, a);
    PushEffect(given, key, true, p);
    var r' := Push(given, key, true, p).0;
    FewerHolders(c, given, r');
    MoreHolders(c, r, r', key);
  }

  lemma AfterPickKeepsInv(c: Config, r: Registry, key: Key, q: Request, held: seq<Held>, pick: Pick, stored: Fault,
                          p: PushPlan)
    requires Inv(c, r) && MayCreateAddress(c, r, key, q) && key !in r.addresses
    requires PickedUnderLock(c, r, key, q, held, pick)
    ensures Inv(c, AfterPick(r, key, pick, stored, p).0)
  {
    if pick.Picked? {
      GivenKeepsInv(c, r, key, q, held, pick.address);
      PushGivenKeepsInv(c, r, key, pick.address, p);
    }
  }

  lemma CreateAddressKeepsInv(c: Config, r: Registry, r': Registry, key: Key, q: Request, stored: Fault, p: PushPlan,
                              reply: Reply)
    requires Inv(c, r) && CreateAddress(c, r, key, q, stored, p, r', reply)
    ensures Inv(c, r')
  {
    if MayCreateAddress(c, r, key, q) && !stored.Before? {
      if key in r.addresses {
        ReappliedKeepsInv(c, r, key, stored, p);
      } else {
        var held, pick :|
          PickedUnderLock(c, r, key, q, held, pick) && (r', reply) == AfterPick(r, key, pick, stored, p);
        AfterPickKeepsInv(c, r, key, q, held, pick, stored, p);
      }
    }
  }

  /** Records and names do not notice a row's readiness. */
  lemma SameHolders(c: Config, r: Registry, r': Registry)
    requires Named(c, r)
    requires r'.tenants == r.tenants && r'.workloads == r.workloads && r'.records == r.records
    requires r'.addresses.Keys == r.addresses.Keys
    requires forall k :: k in r.addresses ==> r'.addresses[k].address == r.addresses[k].address
    ensures Named(c, r')
  {
    forall k | k in r'.records ensures RecordFits(c, r', k) {
      assert RecordFits(c, r, k);
      if HoldsAddress(r, k.0, r.records[k]) {
        var l :| l in r.addresses && l.0 == k.0 && r.addresses[l].address == r.records[k];
        assert l in r'.addresses;
      }
    }
  }

  /** One more holder, whose name is free, or none. */
  lemma MoreHolders(c: Config, r: Registry, r': Registry, key: Key)
    requires Named(c, r) && key !in r.addresses && key !in r.workloads && key !in r.records
    requires r'.tenants == r.tenants && r'.workloads == r.workloads && r'.records == r.records
    requires r.addresses.Keys <= r'.addresses.Keys <= r.addresses.Keys + {key}
    requires forall k :: k in r.addresses ==> r'.addresses[k].address == r.addresses[k].address
    ensures Named(c, r')
  {
    forall k | k in r'.records ensures RecordFits(c, r', k) {
      assert RecordFits(c, r, k);
      if HoldsAddress(r, k.0, r.records[k]) {
        var l :| l in r.addresses && l.0 == k.0 && r.addresses[l].address == r.records[k];
        assert l in r'.addresses;
      }
    }
  }

  /** A MAC swap: the new MAC is nobody else's, so the holders stay apart. */
  lemma SwapKeepsAllocation(c: Config, r: Registry, key: Key, trust: string, mac: string)
    requires Allocated(c, r)
    requires key in r.devices ==> r.devices[key].trust == trust
    requires Moves(r, key, mac) ==> mac != "" && !MacElsewhere(r, r.addresses[key].trust, mac, key)
    ensures Allocated(c, r.(devices := r.devices[key := Device(trust, mac)]))
  {
    var put := r.(devices := r.devices[key := Device(trust, mac)]);
    forall k | k in put.addresses ensures HolderFits(c, put, k) { assert HolderFits(c, r, k); }
    forall k, l | k in put.addresses && l in put.addresses && k in put.devices && l in put.devices
      ensures Apart(put, k, l)
    {
      assert HolderFits(c, r, k) && HolderFits(c, r, l);
      assert Apart(r, k, l);
    }
    forall t, d ensures |HeldKeys(put, t, d)| <= c.quota {
      assert HeldKeys(put, t, d) == HeldKeys(r, t, d);
    }
  }

  lemma CreateDeviceKeepsInv(c: Config, r: Registry, key: Key, trust: string, mac: string, stored: Fault,
                             marked: Fault, p: PushPlan)
    requires Inv(c, r)
    ensures Inv(c, CreateDevice(c, r, key, trust, mac, stored, marked, p).0)
  {
    var put := r.(devices := r.devices[key := Device(trust, mac)]);
    var r' := CreateDevice(c, r, key, trust, mac, stored, marked, p).0;
    if r' != r {
      SwapKeepsAllocation(c, r, key, trust, mac);
      SameHolders(c, r, put);
      if Moves(r, key, mac) {
        ReappliedKeepsInv(c, put, key, marked, p);
      }
    }
  }

  /** An address no record of its tenant points at can go. */
  lemma UnpointedKeepsNamed(c: Config, r: Registry, key: Key)
    requires Named(c, r) && MayDeleteAddress(r, key)
    ensures Named(c, r.(addresses := r.addresses - {key}))
  {
    var r' := r.(addresses := r.addresses - {key});
    forall k | k in r'.records ensures RecordFits(c, r', k) {
      assert RecordFits(c, r, k);
      if HoldsAddress(r, k.0, r.records[k]) {
        var l :| l in r.addresses && l.0 == k.0 && r.addresses[l].address == r.records[k];
        assert l in r'.addresses;
      }
    }
  }

  lemma DeleteAddressKeepsInv(c: Config, r: Registry, key: Key, ok: bool, drop: Fault)
    requires Inv(c, r)
    ensures Inv(c, DeleteAddress(r, key, ok, drop).0)
  {
    if MayDeleteAddress(r, key) {
      UnpointedKeepsNamed(c, r, key);
      FewerHolders(c, r, r.(addresses := r.addresses - {key}));
    }
  }

  lemma DropTenantKeepsInv(c: Config, r: Registry, t: string)
    requires Inv(c, r)
    ensures Inv(c, DropTenant(r, t))
  {
    var r' := DropTenant(r, t);
    FewerHolders(c, r, r');
    forall k | k in r'.records ensures RecordFits(c, r', k) {
      assert RecordFits(c, r, k);
      if HoldsAddress(r, k.0, r.records[k]) {
        var l :| l in r.addresses && l.0 == k.0 && r.addresses[l].address == r.records[k];
        assert l in r'.addresses;
      }
    }
  }

  /** Calls that leave the holders alone and touch records or names. */
  lemma RecordsKeepInv(c: Config, r: Registry, r': Registry)
    requires Inv(c, r) && r'.addresses == r.addresses
    requires forall k :: k in r.addresses && k in r.devices ==> k in r'.devices && r'.devices[k] == r.devices[k]
    requires forall t :: t in r.tenants ==> t in r'.tenants && r'.tenants[t].index == r.tenants[t].index
    requires forall k :: k in r'.workloads ==> k in r.workloads || k !in r.addresses
    requires forall k :: k in r'.records ==>
      || (k in r.records && r'.records[k] == r.records[k])
      || (k !in r.addresses && k.0 in r.tenants &&
          (InSubnet(c, r.tenants[k.0].index, r'.records[k]) || HoldsAddress(r, k.0, r'.records[k])))
    ensures Inv(c, r')
  {
    FewerHolders(c, r, r');
    forall k | k in r'.records ensures RecordFits(c, r', k) {
      if k in r.records && r'.records[k] == r.records[k] {
        assert RecordFits(c, r, k);
      }
    }
  }

  lemma PutRecordKeepsInv(c: Config, r: Registry, key: Key, address: string, ok: bool, stored: Fault)
    requires Inv(c, r)
    ensures Inv(c, PutRecord(c, r, key, address, ok, stored).0)
  {
    RecordsKeepInv(c, r, PutRecord(c, r, key, address, ok, stored).0);
  }

  lemma DeleteDeviceKeepsInv(c: Config, r: Registry, key: Key, drop: Fault)
    requires Inv(c, r)
    ensures Inv(c, DeleteDevice(r, key, drop).0)
  {
    RecordsKeepInv(c, r, DeleteDevice(r, key, drop).0);
  }

  lemma DeleteRecordKeepsInv(c: Config, r: Registry, key: Key, ok: bool, drop: Fault)
    requires Inv(c, r)
    ensures Inv(c, DeleteRecord(r, key, ok, drop).0)
  {
    RecordsKeepInv(c, r, DeleteRecord(r, key, ok, drop).0);
  }

  lemma DeleteWorkloadKeepsInv(c: Config, r: Registry, key: Key, ok: bool, drop: Fault)
    requires Inv(c, r)
    ensures Inv(c, DeleteWorkload(r, key, ok, drop).0)
  {
    RecordsKeepInv(c, r, DeleteWorkload(r, key, ok, drop).0);
  }

  lemma CreateWorkloadKeepsInv(c: Config, r: Registry, key: Key, stored: Fault)
    requires Inv(c, r)
    ensures Inv(c, CreateWorkload(r, key, stored).0)
  {
    RecordsKeepInv(c, r, CreateWorkload(r, key, stored).0);
  }

  lemma StepKeepsInv(c: Config, r: Registry, r': Registry, key: Key, call: Call)
    requires Inv(c, r) && Step(c, r, r', key, call)
    ensures Inv(c, r')
  {
    match call
    case NewTenant(_) => RecordsKeepInv(c, r, r');
    case SetStatus(_) => RecordsKeepInv(c, r, r');
    case EndTenant => DropTenantKeepsInv(c, r, key.0);
    case CreateDeviceCall(trust, mac, stored, marked, plan) =>
      CreateDeviceKeepsInv(c, r, key, trust, mac, stored, marked, plan);
    case DeleteDeviceCall(drop) => DeleteDeviceKeepsInv(c, r, key, drop);
    case CreateAddressCall(request, stored, plan, reply) =>
      CreateAddressKeepsInv(c, r, r', key, request, stored, plan, reply);
    case DeleteAddressCall(ok, drop) => DeleteAddressKeepsInv(c, r, key, ok, drop);
    case PutRecordCall(address, ok, stored) => PutRecordKeepsInv(c, r, key, address, ok, stored);
    case DeleteRecordCall(ok, drop) => DeleteRecordKeepsInv(c, r, key, ok, drop);
    case CreateWorkloadCall(stored) => CreateWorkloadKeepsInv(c, r, key, stored);
    case DeleteWorkloadCall(ok, drop) => DeleteWorkloadKeepsInv(c, r, key, ok, drop);
  }

  lemma {:induction false} RunKeepsInv(c: Config, states: seq<Registry>, i: nat)
    requires Run(c, states) && i < |states|
    ensures Inv(c, states[i])
  {
    if i == 0 {
      var r := states[0];
      forall t, trust ensures |HeldKeys(r, t, trust)| <= c.quota {
        assert HeldKeys(r, t, trust) == {};
      }
    } else {
      RunKeepsInv(c, states, i - 1);
      assert StepAt(c, states, i - 1);
      var key, call :| Step(c, states[i - 1], states[i], key, call);
      StepKeepsInv(c, states[i - 1], states[i], key, call);
    }
  }

  // --- The guarantees ---------------------------------------------------------------------------------

  /** Over every run: within a trust class all held addresses are distinct and
      in range, all holders' MACs are set and distinct, and no tenant exceeds
      its quota. */
  lemma AllocationHolds(c: Config, states: seq<Registry>, i: nat)
    requires Run(c, states) && i < |states|
    ensures forall k :: k in states[i].addresses ==>
      && k in states[i].devices && states[i].devices[k].mac != ""
      && InRange(c, states[i].addresses[k].trust, states[i].addresses[k].address)
    ensures var r := states[i];
      forall k, l :: k in r.addresses && l in r.addresses && k in r.devices && l in r.devices ==> Apart(r, k, l)
    ensures forall t, trust :: |HeldKeys(states[i], t, trust)| <= c.quota
  {
    RunKeepsInv(c, states, i);
    var r := states[i];
    forall k | k in r.addresses
      ensures k in r.devices && r.devices[k].mac != "" && InRange(c, r.addresses[k].trust, r.addresses[k].address)
    {
      assert HolderFits(c, r, k);
    }
  }

  /** Over every run: an addressed device's name is no workload's and no
      record's of its tenant, and every record points into its tenant's own
      subnet or at an address that tenant holds now. */
  lemma NamesHold(c: Config, states: seq<Registry>, i: nat)
    requires Run(c, states) && i < |states|
    ensures forall k :: k in states[i].addresses ==> k !in states[i].workloads && k !in states[i].records
    ensures forall k :: k in states[i].records ==> RecordFits(c, states[i], k)
  {
    RunKeepsInv(c, states, i);
  }

  /** One address row changes and nothing else. */
  predicate OnlyAddressRow(r: Registry, r': Registry, key: Key) {
    r' == r.(addresses := r'.addresses) && r'.addresses - {key} == r.addresses - {key}
  }

  /** What a push reports and leaves: done means ready, ready means done or a
      status write reported as failed, and only the row moves. */
  lemma PushReports(r: Registry, key: Key, isNew: bool, p: PushPlan)
    requires key in r.addresses && !r.addresses[key].ready
    ensures var (r', reply) := Push(r, key, isNew, p);
      && Answered(r, r', key, reply, p.status)
      && (key in r'.addresses ==> r'.addresses[key].address == r.addresses[key].address)
      && (!isNew ==> key in r'.addresses)
  {
  }

  /** Nothing but the row moves; done means a ready row, and a ready row means
      done unless the last write was reported as failed. */
  predicate Answered(r: Registry, r': Registry, key: Key, reply: Reply, status: Fault) {
    && OnlyAddressRow(r, r', key)
    && (reply.Done? ==> key in r'.addresses && r'.addresses[key].ready)
    && (key in r'.addresses && r'.addresses[key].ready ==> reply.Done? || status.After?)
  }

  lemma AfterPickReports(r: Registry, key: Key, pick: Pick, stored: Fault, p: PushPlan)
    requires key in r.devices && key !in r.addresses
    ensures var (r', reply) := AfterPick(r, key, pick, stored, p); Answered(r, r', key, reply, p.status)
  {
    if pick.Picked? {
      var given := Given(r, key, pick.address);
      PushReports(given, key, true, p);
      assert given.addresses - {key} == r.addresses - {key};
    }
  }

  /** What CreateDeviceAddress answers and what it leaves when no row was held. */
  lemma NewAddressReports(c: Config, r: Registry, r': Registry, key: Key, q: Request, stored: Fault, p: PushPlan,
                          reply: Reply)
    requires CreateAddress(c, r, key, q, stored, p, r', reply) && key !in r.addresses
    ensures Answered(r, r', key, reply, p.status)
  {
    var allowed := MayCreateAddress(c, r, key, q);
    if allowed && !stored.Before? {
      var held, pick :| PickedUnderLock(c, r, key, q, held, pick) && (r', reply) == AfterPick(r, key, pick, stored, p);
      AfterPickReports(r, key, pick, stored, p);
    }
  }

  /** And when one was held: the device keeps its address whatever happens,
      and is told it is done only if its row is ready. */
  lemma HeldAddressReports(c: Config, r: Registry, r': Registry, key: Key, q: Request, stored: Fault, p: PushPlan,
                           reply: Reply)
    requires CreateAddress(c, r, key, q, stored, p, r', reply) && key in r.addresses
    ensures OnlyAddressRow(r, r', key)
    ensures key in r'.addresses && r'.addresses[key].address == r.addresses[key].address
    ensures reply.Done? ==> r'.addresses[key].ready
  {
    if MayCreateAddress(c, r, key, q) && !stored.Before? {
      var marked := WithReady(r, key, false);
      PushReports(marked, key, false, p);
      assert marked.addresses - {key} == r.addresses - {key};
    }
  }

  // --- What each call does, in the registry's own terms ------------------------------------------------

  /** A device of the class, other than this one, that holds the address. */
  ghost predicate HeldInClass(r: Registry, trust: string, address: string) {
    exists k :: k in r.addresses && r.addresses[k].trust == trust && r.addresses[k].address == address
  }

  ghost predicate MacInClass(r: Registry, trust: string, mac: string) {
    exists k :: k in r.addresses && r.addresses[k].trust == trust && k in r.devices && r.devices[k].mac == mac
  }

  lemma ListingTakes(r: Registry, trust: string, held: seq<Held>, a: string)
    requires Joined(r) && Listing(r, trust, held)
    ensures Taken(held, a) <==>
      exists k :: k in r.addresses && r.addresses[k].trust == trust && r.addresses[k].address == a
  {
    if i :| 0 <= i < |held| && held[i].address == a {
      assert held[i] in held;
    }
    if k :| k in r.addresses && r.addresses[k].trust == trust && r.addresses[k].address == a {
      assert HeldRow(r, k) in held;
    }
  }

  lemma ListingHoldsMac(r: Registry, trust: string, held: seq<Held>, mac: string)
    requires Joined(r) && Listing(r, trust, held)
    ensures MacHeld(held, mac) <==>
      exists k :: k in r.addresses && r.addresses[k].trust == trust && k in r.devices && r.devices[k].mac == mac
  {
    if i :| 0 <= i < |held| && held[i].mac == mac {
      assert held[i] in held;
    }
    if k :| k in r.addresses && r.addresses[k].trust == trust && k in r.devices && r.devices[k].mac == mac {
      assert HeldRow(r, k) in held;
    }
  }

  /** What the pick answers, said of the registry: one address to a MAC in a
      class, the quota, then the address asked for or the lowest free one. */
  lemma PickInRegistry(c: Config, r: Registry, key: Key, q: Request, held: seq<Held>, pick: Pick)
    requires Joined(r) && PickedUnderLock(c, r, key, q, held, pick) && !q.Unparsable? && (q.Asked? ==> q.addr.V4?)
    ensures var trust := r.devices[key].trust;
      var mine := set k | k in r.addresses && k.0 == key.0 && r.addresses[k].trust == trust;
      if MacInClass(r, trust, r.devices[key].mac) then pick == Conflict
      else if |mine| >= c.quota then pick == QuotaReached
      else if q.Asked? then
        pick == if HeldInClass(r, trust, c.text(q.addr.n)) then Conflict else Picked(c.text(q.addr.n))
      else if pick.Picked? then
        exists n: nat :: c.ranges[trust].first <= n <= c.ranges[trust].last
          && pick.address == c.text(n) && !HeldInClass(r, trust, c.text(n))
          && forall m: nat :: c.ranges[trust].first <= m < n ==> HeldInClass(r, trust, c.text(m))
      else pick == NoneLeft
           && forall m: nat :: c.ranges[trust].first <= m <= c.ranges[trust].last ==> HeldInClass(r, trust, c.text(m))
  {
    var trust := r.devices[key].trust;
    var range := c.ranges[trust];
    ListingHoldsMac(r, trust, held, r.devices[key].mac);
    ListingCount(r, trust, held, key.0);
    assert HeldKeys(r, key.0, trust) == set k | k in r.addresses && k.0 == key.0 && r.addresses[k].trust == trust;
    forall a ensures Taken(held, a) <==> HeldInClass(r, trust, a) { ListingTakes(r, trust, held, a); }
    if !MacHeld(held, r.devices[key].mac) && Mine(held, key.0) < c.quota && q.Unasked? {
      if pick.Picked? {
        var n: nat :| LowestFree(c.text, range, held, n) && pick == Picked(c.text(n));
        forall m: nat | range.first <= m < n ensures HeldInClass(r, trust, c.text(m)) {
          assert !FreeAt(c.text, range, held, m);
        }
      } else {
        forall m: nat | range.first <= m <= range.last ensures HeldInClass(r, trust, c.text(m)) {
          assert !FreeAt(c.text, range, held, m);
        }
      }
    }
  }

  /** A ready tenant's device with a MAC, in a class that has a range, that asks
      for nothing or for an address in the range. */
  ghost predicate MayAsk(c: Config, r: Registry, key: Key, q: Request) {
    && key.0 in r.tenants && r.tenants[key.0].status == Ready
    && key in r.devices && r.devices[key].mac != "" && r.devices[key].trust in c.ranges
    && (q == Unasked || (q.Asked? && q.addr.V4?
                         && c.ranges[r.devices[key].trust].first <= q.addr.n <= c.ranges[r.devices[key].trust].last))
  }

  /** CreateDeviceAddress for a device that holds none: refused unless it may
      ask and its name is free; then what the pick says, and a row with exactly
      the address asked for, or the lowest free one. */
  lemma NewAddressExactly(c: Config, r: Registry, r': Registry, key: Key, q: Request, stored: Fault, p: PushPlan,
                          reply: Reply)
    requires CreateAddress(c, r, key, q, stored, p, r', reply) && Joined(r) && key !in r.addresses
    ensures !(MayAsk(c, r, key, q) && key !in r.workloads && key !in r.records) ==>
      r' == r && reply == if key.0 in r.tenants then Invalid else NotFound
    ensures MayAsk(c, r, key, q) && key !in r.workloads && key !in r.records && !stored.Before? ==>
      var trust := r.devices[key].trust;
      var mine := set k | k in r.addresses && k.0 == key.0 && r.addresses[k].trust == trust;
      if MacInClass(r, trust, r.devices[key].mac) then r' == r && reply == AddressConflict
      else if |mine| >= c.quota then r' == r && reply == QuotaExceeded
      else if q.Asked? && HeldInClass(r, trust, c.text(q.addr.n)) then r' == r && reply == AddressConflict
      else if q.Asked? then key in r'.addresses ==> r'.addresses[key].address == c.text(q.addr.n)
      else if key in r'.addresses then
        exists n: nat :: c.ranges[trust].first <= n <= c.ranges[trust].last
          && r'.addresses[key].address == c.text(n) && !HeldInClass(r, trust, c.text(n))
          && forall m: nat :: c.ranges[trust].first <= m < n ==> HeldInClass(r, trust, c.text(m))
      else true
  {
    MayAskIsMayCreate(c, r, key, q);
    if MayCreateAddress(c, r, key, q) && !stored.Before? {
      var held, pick :|
        PickedUnderLock(c, r, key, q, held, pick) && (r', reply) == AfterPick(r, key, pick, stored, p);
      PickInRegistry(c, r, key, q, held, pick);
      if pick.Picked? {
        PushEffect(Given(r, key, pick.address), key, true, p);
      }
    }
  }

  lemma MayAskIsMayCreate(c: Config, r: Registry, key: Key, q: Request)
    requires key !in r.addresses
    ensures MayCreateAddress(c, r, key, q) <==> MayAsk(c, r, key, q) && key !in r.workloads && key !in r.records
  {
  }

  /** What a push does, answer by answer. */
  lemma PushExactly(r: Registry, key: Key, isNew: bool, p: PushPlan)
    requires key in r.addresses
    ensures var (r', reply) := Push(r, key, isNew, p);
      && (p.reserve == TakenThere ==> reply == AddressConflict)
      && (p.reserve == TakenThere ==>
            r'.addresses == if isNew && p.withdraws then r.addresses - {key} else r.addresses)
      && (p.reserve == ReserveFailed || (p.reserve == Reserved && !p.dns) ==> reply == StepFailed && r' == r)
      && (p.reserve == Reserved && p.dns ==>
            && (reply == Done <==> p.status == Fine) && (p.status == Before ==> r' == r)
            && (p.status != Before ==> r'.addresses == r.addresses[key := r.addresses[key].(ready := true)]))
  {
  }

  /** A new row the DHCP server has a conflict with is taken back, and leaves nothing. */
  lemma ConflictLeavesNothing(c: Config, r: Registry, r': Registry, key: Key, q: Request, p: PushPlan, reply: Reply)
    requires CreateAddress(c, r, key, q, Fine, p, r', reply) && key !in r.addresses
    requires p.reserve == TakenThere && p.withdraws
    ensures r' == r && reply != Done && reply != StepFailed
  {
    if MayCreateAddress(c, r, key, q) {
      var held, pick :|
        PickedUnderLock(c, r, key, q, held, pick) && (r', reply) == AfterPick(r, key, pick, Fine, p);
      if pick.Picked? {
        assert Given(r, key, pick.address).addresses - {key} == r.addresses;
      }
    }
  }

  /** Nothing on the way fails. */
  predicate GoesThrough(stored: Fault, p: PushPlan) {
    stored == Fine && p.reserve == Reserved && p.dns && p.status == Fine
  }

  /** An address the device could be given: the one asked for, or any in range. */
  ghost predicate SomeFree(c: Config, r: Registry, trust: string, q: Request)
    requires trust in c.ranges
  {
    if q.Asked? then q.addr.V4? && !HeldInClass(r, trust, c.text(q.addr.n))
    else exists n: nat :: c.ranges[trust].first <= n <= c.ranges[trust].last && !HeldInClass(r, trust, c.text(n))
  }

  /** What is under the quota, in the class. */
  ghost predicate UnderQuota(c: Config, r: Registry, t: string, trust: string) {
    |set k | k in r.addresses && k.0 == t && r.addresses[k].trust == trust| < c.quota
  }

  lemma PickedExactlyWhen(c: Config, r: Registry, key: Key, q: Request, held: seq<Held>, pick: Pick)
    requires Joined(r) && PickedUnderLock(c, r, key, q, held, pick) && MayAsk(c, r, key, q)
    ensures var trust := r.devices[key].trust;
      && (pick.Picked? <==> !MacInClass(r, trust, r.devices[key].mac) && UnderQuota(c, r, key.0, trust)
                            && SomeFree(c, r, trust, q))
      && (pick.NoneLeft? ==> !SomeFree(c, r, trust, q))
  {
    PickInRegistry(c, r, key, q, held, pick);
  }

  lemma GoneThrough(r: Registry, key: Key, pick: Pick, stored: Fault, p: PushPlan)
    requires key in r.devices && key !in r.addresses && GoesThrough(stored, p)
    ensures var (r', reply) := AfterPick(r, key, pick, stored, p);
      && (reply == Done <==> pick.Picked?) && (reply == AddressesExhausted <==> pick.NoneLeft?)
      && (pick.Picked? ==>
        key in r'.addresses && r'.addresses[key] == Address(r.devices[key].trust, pick.address, true))
      && (!pick.Picked? ==> r' == r)
  {
  }

  /** With nothing failing, a device that holds no address is given one exactly
      when it may ask, its name is free, no holder of the class has its MAC, its
      tenant is under the quota and there is an address to give; the row is then
      ready and of the device's class. With none to give, that is the answer. */
  lemma NewAddressGivenExactlyWhen(c: Config, r: Registry, r': Registry, key: Key, q: Request, stored: Fault,
                                   p: PushPlan, reply: Reply)
    requires CreateAddress(c, r, key, q, stored, p, r', reply) && Joined(r) && key !in r.addresses
    requires GoesThrough(stored, p)
    ensures reply == Done <==>
      && MayAsk(c, r, key, q) && key !in r.workloads && key !in r.records
      && !MacInClass(r, r.devices[key].trust, r.devices[key].mac)
      && UnderQuota(c, r, key.0, r.devices[key].trust) && SomeFree(c, r, r.devices[key].trust, q)
    ensures reply == Done ==>
      key in r'.addresses && r'.addresses[key].ready && r'.addresses[key].trust == r.devices[key].trust
    ensures reply == AddressesExhausted ==> r' == r && MayAsk(c, r, key, q) && !SomeFree(c, r, r.devices[key].trust, q)
  {
    MayAskIsMayCreate(c, r, key, q);
    if MayCreateAddress(c, r, key, q) {
      var held, pick :|
        PickedUnderLock(c, r, key, q, held, pick) && (r', reply) == AfterPick(r, key, pick, stored, p);
      PickedExactlyWhen(c, r, key, q, held, pick);
      GoneThrough(r, key, pick, stored, p);
    }
  }

  /** CreateDeviceAddress for a holder: refused, with nothing changed, exactly
      when it may not ask or asks for another address than it holds; otherwise
      its row is pushed again under the same address. */
  lemma HeldAddressExactly(c: Config, r: Registry, r': Registry, key: Key, q: Request, stored: Fault, p: PushPlan,
                           reply: Reply)
    requires CreateAddress(c, r, key, q, stored, p, r', reply) && key in r.addresses
    ensures !MayAsk(c, r, key, q) || (q.Asked? && c.text(q.addr.n) != r.addresses[key].address) ==>
      r' == r && reply == if key.0 in r.tenants then Invalid else NotFound
    ensures MayAsk(c, r, key, q) && (q.Asked? ==> c.text(q.addr.n) == r.addresses[key].address) ==>
      && reply != Invalid && reply != NotFound
      && (GoesThrough(stored, p) ==>
            reply == Done && r' == r.(addresses := r.addresses[key := r.addresses[key].(ready := true)]))
  {
  }

  /** CreateDevice: with the registry's writes going through, it succeeds exactly
      for a ready tenant, a label, a served class that is the device's own, and
      a MAC that, on a swap, is set and no other holder's of the class. */
  lemma RegisteredExactlyWhen(c: Config, r: Registry, key: Key, trust: string, mac: string, p: PushPlan)
    requires GoesThrough(Fine, p) && Joined(r)
    ensures var (r', reply) := CreateDevice(c, r, key, trust, mac, Fine, Fine, p);
      var swaps := key in r.addresses && r.devices[key].mac != mac;
      && (reply == Done <==>
            && key.0 in r.tenants && r.tenants[key.0].status == Ready && ValidLabel(key.1) && trust in c.classes
            && (key in r.devices ==> r.devices[key].trust == trust)
            && (swaps ==> mac != "" && forall k :: k in r.addresses && k != key ==>
                  r.addresses[k].trust == r.addresses[key].trust ==> r.devices[k].mac != mac))
      && (reply == Done ==> r' == r.(devices := r.devices[key := Device(trust, mac)],
            addresses := if swaps then r.addresses[key := r.addresses[key].(ready := true)] else r.addresses))
      && (reply != Done ==> r' == r)
      && (reply == NotFound <==> key.0 !in r.tenants)
      && (reply == AddressConflict ==>
            swaps && mac != "" && exists k :: k in r.addresses && k != key && r.devices[k].mac == mac)
      && (reply == Invalid ==> key.0 in r.tenants)
      && reply in {Done, Invalid, NotFound, AddressConflict}
  {
  }

  /** A swap to another holder's MAC is a conflict, not a mistake of the tenant's. */
  lemma SwapConflictIsAnswered(c: Config, r: Registry, key: Key, trust: string, mac: string, k: Key, stored: Fault,
                               marked: Fault, p: PushPlan)
    requires MayCreateDevice(c, r, key, trust, mac) && Joined(r) && key in r.addresses && r.devices[key].mac != mac
    requires k in r.addresses && k != key && r.addresses[k].trust == r.addresses[key].trust && r.devices[k].mac == mac
    ensures CreateDevice(c, r, key, trust, mac, stored, marked, p) == (r, AddressConflict)
  {
  }

  lemma UnregisteredExactlyWhen(r: Registry, key: Key)
    ensures DeleteDevice(r, key, Fine) ==
      if key !in r.devices then (r, NotFound)
      else if key in r.addresses then (r, Invalid)
      else (Registry(r.tenants, r.devices - {key}, r.addresses, r.workloads, r.records), Done)
  {
  }

  /** DeleteDeviceAddress: refused exactly while a record of the tenant's points
      at the address; done exactly when everything went. */
  lemma ReleasedExactlyWhen(r: Registry, key: Key, released: bool, drop: Fault)
    ensures var (r', reply) := DeleteAddress(r, key, released, drop);
      && (reply == NotFound <==> key.0 !in r.tenants || key !in r.addresses)
      && (reply == Invalid <==>
            && key.0 in r.tenants && key in r.addresses
            && exists k :: k in r.records && k.0 == key.0 && r.records[k] == r.addresses[key].address)
      && (reply == Done ==> released && drop == Fine)
      && (reply == StepFailed ==> !released || drop != Fine)
      && (key in r.addresses && key !in r'.addresses ==> released && drop != Before)
      && (reply == Done ==> r' == Registry(r.tenants, r.devices, r.addresses - {key}, r.workloads, r.records))
  {
  }

  /** PutRecord: a known tenant, a label no addressed device has, and an address
      of the tenant's own 10.octet.(128+index).0/24 or one it holds. */
  lemma PublishedExactlyWhen(c: Config, r: Registry, key: Key, address: string)
    ensures var (r', reply) := PutRecord(c, r, key, address, true, Fine);
      && (reply == Done <==>
            && key.0 in r.tenants && ValidLabel(key.1) && key !in r.addresses
            && (InBlock(c.octet, 128 + r.tenants[key.0].index, address)
                || exists k :: k in r.addresses && k.0 == key.0 && r.addresses[k].address == address))
      && (reply == Done ==> r' == Registry(r.tenants, r.devices, r.addresses, r.workloads, r.records[key := address]))
      && (reply != Done ==> r' == r)
      && (reply == NotFound <==> key.0 !in r.tenants)
  {
  }

  lemma UnpublishedExactlyWhen(r: Registry, key: Key)
    ensures DeleteRecord(r, key, true, Fine) ==
      if key.0 in r.tenants && key in r.records
      then (Registry(r.tenants, r.devices, r.addresses, r.workloads, r.records - {key}), Done)
      else (r, NotFound)
  {
  }

  /** CreateWorkload: a ready tenant, and a label that is the workload's already
      or no addressed device's. */
  lemma WorkloadNamedExactlyWhen(r: Registry, key: Key)
    ensures var (r', reply) := CreateWorkload(r, key, Fine);
      && (reply == Done <==>
            && key.0 in r.tenants && r.tenants[key.0].status == Ready && ValidLabel(key.1)
            && (key in r.workloads || key !in r.addresses))
      && (reply == Done ==> r' == Registry(r.tenants, r.devices, r.addresses, r.workloads + {key}, r.records))
      && (reply != Done ==> r' == r)
  {
  }

  lemma WorkloadGoneExactlyWhen(r: Registry, key: Key)
    ensures DeleteWorkload(r, key, true, Fine) ==
      if key.0 in r.tenants && key in r.workloads
      then (Registry(r.tenants, r.devices, r.addresses, r.workloads - {key}, r.records), Done)
      else (r, NotFound)
  {
  }

  /** A dropped tenant leaves nothing of its own and everything of the others'. */
  lemma DroppedExactly(r: Registry, t: string)
    ensures var r' := DropTenant(r, t);
      && (forall u :: u in r'.tenants <==> u in r.tenants && u != t)
      && (forall k :: k in r'.devices <==> k in r.devices && k.0 != t)
      && (forall k :: k in r'.addresses <==> k in r.addresses && k.0 != t)
      && (forall k :: k in r'.workloads <==> k in r.workloads && k.0 != t)
      && (forall k :: k in r'.records <==> k in r.records && k.0 != t)
      && (forall k :: k in r'.addresses ==> r'.addresses[k] == r.addresses[k])
      && (forall k :: k in r'.devices ==> r'.devices[k] == r.devices[k])
      && (forall k :: k in r'.records ==> r'.records[k] == r.records[k])
  {
  }

  /** What overlap can do: CreateDevice looks for the MAC without the lock, so
      two swaps may each be checked before either is written. The allocation
      then holds exactly when the two new MACs differ or the devices are of
      different classes. */
  lemma OverlappingSwapsExactly(c: Config, r: Registry, k: Key, l: Key, m: string, n: string)
    requires Inv(c, r) && k in r.addresses && l in r.addresses && k != l && k in r.devices && l in r.devices
    requires m != "" && !MacElsewhere(r, r.addresses[k].trust, m, k)
    requires n != "" && !MacElsewhere(r, r.addresses[l].trust, n, l)
    ensures Allocated(c, WithMac(WithMac(r, k, m), l, n)) <==> m != n || r.addresses[k].trust != r.addresses[l].trust
  {
    var both := WithMac(WithMac(r, k, m), l, n);
    if m != n || r.addresses[k].trust != r.addresses[l].trust {
      SwapKeepsAllocation(c, r, k, r.devices[k].trust, m);
      SwapKeepsAllocation(c, WithMac(r, k, m), l, r.devices[l].trust, n);
    } else {
      assert !Apart(both, k, l);
    }
  }

  /** The same for a swap checked before another device's locked create and
      written after it. */
  lemma SwapOverCreateExactly(c: Config, r: Registry, k: Key, m: string, l: Key, q: Request, held: seq<Held>, a: string)
    requires Inv(c, r) && k in r.addresses && k in r.devices && k != l
    requires m != "" && !MacElsewhere(r, r.addresses[k].trust, m, k)
    requires MayCreateAddress(c, r, l, q) && l !in r.addresses && PickedUnderLock(c, r, l, q, held, Picked(a))
    ensures Allocated(c, WithMac(Given(r, l, a), k, m)) <==>
      m != r.devices[l].mac || r.addresses[k].trust != r.devices[l].trust
  {
    var given := Given(r, l, a);
    GivenKeepsAllocation(c, r, l, q, held, a);
    if m != r.devices[l].mac || r.addresses[k].trust != r.devices[l].trust {
      SwapKeepsAllocation(c, given, k, r.devices[k].trust, m);
    } else {
      assert !Apart(WithMac(given, k, m), k, l);
    }
  }

  function WithMac(r: Registry, key: Key, mac: string): Registry
    requires key in r.devices
  {
    r.(devices := r.devices[key := Device(r.devices[key].trust, mac)])
  }

  // --- The calls as they run ------------------------------------------------------------------------------

  class Book {
    const c: Config
    var tenants: map<string, Tenant>
    var devices: map<Key, Device>
    var addresses: map<Key, Address>
    var workloads: set<Key>
    var records: map<Key, string>

    constructor (c: Config)
      ensures this.c == c && State() == Registry(map[], map[], map[], {}, map[])
    {
      this.c := c;
      tenants, devices, addresses, workloads, records := map[], map[], map[], {}, map[];
    }

    ghost function State(): Registry
      reads this
    {
      Registry(tenants, devices, addresses, workloads, records)
    }

    /** ListClassAddresses: the address rows of a class joined with their devices. */
    method ListClass(trust: string) returns (held: seq<Held>)
      ensures Listing(State(), trust, held)
    {
      held := [];
      var rows := addresses.Keys;
      while rows != {}
        invariant rows <= addresses.Keys
        invariant forall i, j :: 0 <= i < j < |held| ==>
          (held[i].tenant, held[i].device) != (held[j].tenant, held[j].device)
        invariant forall h :: h in held <==>
          var k := (h.tenant, h.device);
          k in addresses && k !in rows && k in devices && addresses[k].trust == trust && h == HeldRow(State(), k)
        decreases |rows|
      {
        var k :| k in rows;
        if k in devices && addresses[k].trust == trust {
          var h := Held(k.0, k.1, devices[k].mac, addresses[k].address);
          forall i | 0 <= i < |held| ensures (held[i].tenant, held[i].device) != k {
            assert held[i] in held;
          }
          held := held + [h];
        }
        rows := rows - {k};
      }
    }

    /** pushAddress: done means the row is ready; no other row moves, and an
        address that was there before this call stays. */
    method PushAddress(key: Key, isNew: bool, p: PushPlan) returns (reply: Reply)
      requires key in addresses
      modifies this`addresses
      ensures (State(), reply) == Push(old(State()), key, isNew, p)
      ensures !old(addresses)[key].ready ==> Answered(old(State()), State(), key, reply, p.status)
      ensures !isNew ==> key in addresses && addresses[key].address == old(addresses)[key].address
    {
      if !addresses[key].ready {
        PushReports(State(), key, isNew, p);
      }
      match p.reserve {
        case TakenThere =>
          if isNew && p.withdraws {
            addresses := addresses - {key};
          }
          return AddressConflict;
        case ReserveFailed =>
          return StepFailed;
        case Reserved =>
          if !p.dns {
            return StepFailed;
          }
          if p.status.Before? {
            return StepFailed;
          }
          addresses := addresses[key := addresses[key].(ready := true)];
          return if p.status.Fine? then Done else StepFailed;
      }
    }

    method CreateDeviceAddress(key: Key, q: Request, stored: Fault, p: PushPlan) returns (reply: Reply)
      requires WellFormed(c) && Inv(c, State())
      modifies this`addresses
      ensures CreateAddress(c, old(State()), key, q, stored, p, State(), reply)
      ensures Inv(c, State())
    {
      ghost var before := State();
      if !MayCreateAddress(c, Registry(tenants, devices, addresses, workloads, records), key, q) {
        return if key.0 in tenants then Invalid else NotFound;
      }
      if stored.Before? {
        return StepFailed;
      }
      if key in addresses {
        reply := Reapply(key, stored, p);
      } else {
        var d := devices[key];
        var held := ListClass(d.trust);
        var pick := PickAddress(c.text, c.ranges[d.trust], c.quota, key.0, d.mac, RequestText(c, q), held);
        assert PickedUnderLock(c, before, key, q, held, pick);
        match pick {
          case Picked(a) =>
            addresses := addresses[key := Address(d.trust, a, false)];
            assert State() == Given(before, key, a);
            if stored.Fine? {
              reply := PushAddress(key, true, p);
            } else {
              reply := StepFailed;
            }
          case Conflict => reply := AddressConflict;
          case QuotaReached => reply := QuotaExceeded;
          case NoneLeft => reply := AddressesExhausted;
        }
        assert (State(), reply) == AfterPick(before, key, pick, stored, p);
      }
      CreateAddressKeepsInv(c, before, State(), key, q, stored, p, reply);
    }

    /** The row back to provisioning, then the push. */
    method Reapply(key: Key, stored: Fault, p: PushPlan) returns (reply: Reply)
      requires key in addresses
      modifies this`addresses
      ensures (State(), reply) == Reapplied(old(State()), key, stored, p)
      ensures Inv(c, old(State())) ==> Inv(c, State())
      ensures key in addresses && addresses[key].address == old(addresses)[key].address
      ensures reply.Done? ==> addresses[key].ready
    {
      if Inv(c, State()) {
        ReappliedKeepsInv(c, State(), key, stored, p);
      }
      if stored.Before? {
        return StepFailed;
      }
      addresses := addresses[key := addresses[key].(ready := false)];
      if stored.After? {
        return StepFailed;
      }
      reply := PushAddress(key, false, p);
    }

    method MacTaken(key: Key, mac: string) returns (taken: bool)
      requires key in addresses
      ensures taken <==> MacElsewhere(State(), addresses[key].trust, mac, key)
    {
      var others := ListClass(addresses[key].trust);
      for i := 0 to |others|
        invariant forall j :: 0 <= j < i ==> others[j].mac != mac || (others[j].tenant, others[j].device) == key
      {
        if others[i].mac == mac && (others[i].tenant != key.0 || others[i].device != key.1) {
          assert others[i] in others;
          return true;
        }
      }
      forall k | k in addresses && addresses[k].trust == addresses[key].trust && k != key && k in devices
        ensures devices[k].mac != mac
      {
        assert HeldRow(State(), k) in others;
      }
      return false;
    }

    /** CreateDevice: the MAC is looked for among the class's holders before anything is written. */
    method RegisterDevice(key: Key, trust: string, mac: string, stored: Fault, marked: Fault, p: PushPlan)
      returns (reply: Reply)
      requires Inv(c, State())
      modifies this`devices, this`addresses
      ensures (State(), reply) == CreateDevice(c, old(State()), key, trust, mac, stored, marked, p)
      ensures Inv(c, State())
    {
      ghost var before := State();
      CreateDeviceKeepsInv(c, before, key, trust, mac, stored, marked, p);
      if !MayCreateDevice(c, Registry(tenants, devices, addresses, workloads, records), key, trust, mac) {
        return if key.0 in tenants then Invalid else NotFound;
      }
      var moved := key in addresses && key in devices && devices[key].mac != mac;
      if moved {
        var conflict := MacTaken(key, mac);
        if conflict {
          return AddressConflict;
        }
      }
      if stored.Before? {
        return StepFailed;
      }
      devices := devices[key := Device(trust, mac)];
      if stored.After? {
        return StepFailed;
      }
      if !moved {
        return Done;
      }
      reply := Reapply(key, marked, p);
    }

    method DeleteDeviceAddress(key: Key, released: bool, drop: Fault) returns (reply: Reply)
      requires Inv(c, State())
      modifies this`addresses
      ensures (State(), reply) == DeleteAddress(old(State()), key, released, drop)
      ensures Inv(c, State())
    {
      DeleteAddressKeepsInv(c, State(), key, released, drop);
      if key.0 !in tenants || key !in addresses {
        return NotFound;
      }
      var rows := records.Keys;
      while rows != {}
        invariant rows <= records.Keys && State() == old(State())
        invariant forall k :: k in records.Keys - rows && k.0 == key.0 ==> records[k] != addresses[key].address
        decreases |rows|
      {
        var k :| k in rows;
        if k.0 == key.0 && records[k] == addresses[key].address {
          return Invalid;
        }
        rows := rows - {k};
      }
      if !released || drop.Before? {
        return StepFailed;
      }
      addresses := addresses - {key};
      return if drop.Fine? then Done else StepFailed;
    }

    method PublishRecord(key: Key, address: string, published: bool, stored: Fault) returns (reply: Reply)
      requires Inv(c, State())
      modifies this`records
      ensures (State(), reply) == PutRecord(c, old(State()), key, address, published, stored)
      ensures Inv(c, State())
    {
      PutRecordKeepsInv(c, State(), key, address, published, stored);
      if key.0 !in tenants {
        return NotFound;
      }
      if !MayPutRecord(c, Registry(tenants, devices, addresses, workloads, records), key, address) {
        return Invalid;
      }
      if !published || stored.Before? {
        return StepFailed;
      }
      records := records[key := address];
      return if stored.Fine? then Done else StepFailed;
    }
  }
}
