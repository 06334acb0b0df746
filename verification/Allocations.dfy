/** The address allocator with calls of different tenants overlapping: each call
    of internal/tenant/addresses.go and devices.go broken up into what it reads,
    what it writes under the allocation lock (internal/store/addresses.go), and
    what it does after.

    One call per tenant is under way at a time, and may stop after any step.
    What the lock protects holds over every interleaving. The one check made
    outside it, for a MAC on a swap, is the only way two holders of a class come
    to share one. */
module Allocations {
  import opened Basics
  import opened Text
  import opened Addresses
  import D = Devices

  type Key = D.Key

  datatype Op =
    | Chosen(key: Key, device: D.Device, request: D.Request)
    | Pushing(key: Key, isNew: bool)
    | Checked(key: Key, device: D.Device)
    | Moving(key: Key)
    | Releasing(key: Key)
    | Unregistering(key: Key)

  datatype State = State(r: D.Registry, ops: map<string, Op>)

  datatype Event =
    | ReadDevice(key: Key, request: D.Request)
    | Insert(held: seq<Held>, pick: Pick)
    | Withdraw
    | SetReady
    | CheckDevice(key: Key, device: D.Device)
    | WriteDevice
    | MarkMoving
    | StartRelease(key: Key)
    | DropAddress
    | StartUnregister(key: Key)
    | DropDevice
    | EndTenant
    | Stop

  ghost predicate Idle(s: State, t: string, key: Key) { t !in s.ops && key.0 == t }

  function Without(s: State, t: string): State { s.(ops := s.ops - {t}) }

  /** Whether a registration moves a reservation that is there. */
  predicate Moves(r: D.Registry, key: Key, device: D.Device) { D.Moves(r, key, device.mac) }

  ghost predicate Step(c: D.Config, s: State, s': State, t: string, e: Event) {
    match e
    case ReadDevice(key, q) =>
      // CreateDeviceAddress, as far as its checks
      && Idle(s, t, key) && key in s.r.devices && s.r.devices[key].mac != "" && s.r.devices[key].trust in c.ranges
      && D.RequestInRange(c, s.r.devices[key].trust, q)
      && s' == s.(ops := s.ops[t := Chosen(key, s.r.devices[key], q)])
    case Insert(held, pick) =>
      // the transaction under the lock, for the class and the MAC as they were read
      t in s.ops && s.ops[t].Chosen? && InsertRow(c, s, s', t, held, pick)
    case Withdraw =>
      // pushAddress: a conflict takes a new row back
      t in s.ops && s.ops[t].Pushing? && s.ops[t].isNew &&
      s' == Without(s.(r := s.r.(addresses := s.r.addresses - {s.ops[t].key})), t)
    case SetReady =>
      && t in s.ops && s.ops[t].Pushing? && s.ops[t].key in s.r.addresses
      && s' == Without(s.(r := D.WithReady(s.r, s.ops[t].key, true)), t)
    case CheckDevice(key, device) =>
      // CreateDevice, as far as its checks; no lock is held
      && Idle(s, t, key) && (key in s.r.devices ==> s.r.devices[key].trust == device.trust)
      && (Moves(s.r, key, device) ==>
            device.mac != "" && !D.MacElsewhere(s.r, s.r.addresses[key].trust, device.mac, key))
      && s' == s.(ops := s.ops[t := Checked(key, device)])
    case WriteDevice =>
      && t in s.ops && s.ops[t].Checked?
      && s' == State(s.r.(devices := s.r.devices[s.ops[t].key := s.ops[t].device]), s.ops[t := Moving(s.ops[t].key)])
    case MarkMoving =>
      && t in s.ops && s.ops[t].Moving? && s.ops[t].key in s.r.addresses
      && s' == State(D.WithReady(s.r, s.ops[t].key, false), s.ops[t := Pushing(s.ops[t].key, false)])
    case StartRelease(key) =>
      // DeleteDeviceAddress, as far as its checks
      Idle(s, t, key) && key in s.r.addresses && s' == s.(ops := s.ops[t := Releasing(key)])
    case DropAddress =>
      t in s.ops && s.ops[t].Releasing? &&
      s' == Without(s.(r := s.r.(addresses := s.r.addresses - {s.ops[t].key})), t)
    case StartUnregister(key) =>
      // DeleteDevice finds no address
      Idle(s, t, key) && key !in s.r.addresses && s' == s.(ops := s.ops[t := Unregistering(key)])
    case DropDevice =>
      t in s.ops && s.ops[t].Unregistering? &&
      s' == Without(s.(r := s.r.(devices := s.r.devices - {s.ops[t].key})), t)
    case EndTenant => t !in s.ops && s' == s.(r := D.DropTenant(s.r, t))
    case Stop => s' == Without(s, t)
  }

  ghost predicate InsertRow(c: D.Config, s: State, s': State, t: string, held: seq<Held>, pick: Pick)
    requires t in s.ops && s.ops[t].Chosen?
  {
    var key, device, q := s.ops[t].key, s.ops[t].device, s.ops[t].request;
    if key in s.r.addresses then s' == State(D.WithReady(s.r, key, false), s.ops[t := Pushing(key, false)])
    else
      && device.trust in c.ranges && D.Listing(s.r, device.trust, held)
      && IsAddressPick(c.text, c.ranges[device.trust], c.quota, t, device.mac, D.RequestText(c, q), held, pick)
      && s' == if pick.Picked? && key in s.r.devices
               then State(D.Given(s.r, key, pick.address), s.ops[t := Pushing(key, true)])
               else Without(s, t)
  }

  /** The machine does what the service does: every step is there whenever the
      code would take it, and leaves what the code leaves. */
  lemma AddressStepsAreThere(c: D.Config, s: State, t: string, key: Key, n: nat)
    ensures (t !in s.ops && key.0 == t && key in s.r.devices && s.r.devices[key].mac != ""
             && s.r.devices[key].trust in c.ranges) ==>
      Step(c, s, State(s.r, s.ops[t := Chosen(key, s.r.devices[key], D.Unasked)]), t, ReadDevice(key, D.Unasked))
    ensures (t !in s.ops && key.0 == t && key in s.r.devices && s.r.devices[key].mac != ""
             && s.r.devices[key].trust in c.ranges
             && c.ranges[s.r.devices[key].trust].first <= n <= c.ranges[s.r.devices[key].trust].last) ==>
      Step(c, s, State(s.r, s.ops[t := Chosen(key, s.r.devices[key], D.Asked(V4(n)))]), t, ReadDevice(key,
        D.Asked(V4(n))))
    ensures t in s.ops && s.ops[t].Pushing? && s.ops[t].key in s.r.addresses ==>
      Step(c, s, State(D.WithReady(s.r, s.ops[t].key, true), s.ops - {t}), t, SetReady)
    ensures t in s.ops && s.ops[t].Pushing? && s.ops[t].isNew ==>
      Step(c, s, State(s.r.(addresses := s.r.addresses - {s.ops[t].key}), s.ops - {t}), t, Withdraw)
    ensures t !in s.ops && key.0 == t && key in s.r.addresses ==>
      Step(c, s, State(s.r, s.ops[t := Releasing(key)]), t, StartRelease(key))
    ensures t in s.ops && s.ops[t].Releasing? ==>
      Step(c, s, State(s.r.(addresses := s.r.addresses - {s.ops[t].key}), s.ops - {t}), t, DropAddress)
    ensures t !in s.ops ==> Step(c, s, State(D.DropTenant(s.r, t), s.ops), t, EndTenant)
    ensures Step(c, s, State(s.r, s.ops - {t}), t, Stop)
  {
  }

  lemma DeviceStepsAreThere(c: D.Config, s: State, t: string, key: Key, device: D.Device)
    ensures t !in s.ops && key.0 == t && (key in s.r.devices ==> s.r.devices[key] == device) ==>
      Step(c, s, State(s.r, s.ops[t := Checked(key, device)]), t, CheckDevice(key, device))
    ensures (t !in s.ops && key.0 == t && key in s.r.devices && s.r.devices[key].trust == device.trust
             && device.mac != "" && key in s.r.addresses
             && (forall k :: k in s.r.addresses && k != key && k in s.r.devices ==>
               s.r.devices[k].mac != device.mac)) ==>
      Step(c, s, State(s.r, s.ops[t := Checked(key, device)]), t, CheckDevice(key, device))
    ensures t in s.ops && s.ops[t].Checked? ==>
      Step(c, s, State(s.r.(devices := s.r.devices[s.ops[t].key := s.ops[t].device]),
        s.ops[t := Moving(s.ops[t].key)]), t,
           WriteDevice)
    ensures t in s.ops && s.ops[t].Moving? && s.ops[t].key in s.r.addresses ==>
      Step(c, s, State(D.WithReady(s.r, s.ops[t].key, false), s.ops[t := Pushing(s.ops[t].key, false)]), t, MarkMoving)
    ensures t !in s.ops && key.0 == t && key !in s.r.addresses ==>
      Step(c, s, State(s.r, s.ops[t := Unregistering(key)]), t, StartUnregister(key))
    ensures t in s.ops && s.ops[t].Unregistering? ==>
      Step(c, s, State(s.r.(devices := s.r.devices - {s.ops[t].key}), s.ops - {t}), t, DropDevice)
  {
  }

  /** The locked insert takes place for whatever the pick is. */
  lemma InsertIsThere(c: D.Config, s: State, t: string, held: seq<Held>, a: string)
    requires t in s.ops && s.ops[t].Chosen? && s.ops[t].key !in s.r.addresses && s.ops[t].key in s.r.devices
    requires s.r.devices[s.ops[t].key] == s.ops[t].device && s.ops[t].key.0 == t
    requires D.PickedUnderLock(c, s.r, s.ops[t].key, s.ops[t].request, held, Picked(a))
    ensures Step(c, s, State(D.Given(s.r, s.ops[t].key, a), s.ops[t := Pushing(s.ops[t].key, true)]), t,
                 Insert(held, Picked(a)))
  {
  }

  type Trace = seq<(string, Event)>

  ghost predicate StepAt(c: D.Config, states: seq<State>, trace: Trace, i: nat)
    requires i < |trace| && |states| == |trace| + 1
  {
    Step(c, states[i], states[i + 1], trace[i].0, trace[i].1)
  }

  ghost predicate Run(c: D.Config, states: seq<State>, trace: Trace) {
    && |states| == |trace| + 1
    && states[0] == State(D.Registry(map[], map[], map[], {}, map[]), map[])
    && forall i :: 0 <= i < |trace| ==> StepAt(c, states, trace, i)
  }

  // --- What every step keeps --------------------------------------------------------------------

  /** An address row is its registered device's, of its class, in the class's range. */
  ghost predicate RowFits(c: D.Config, r: D.Registry, k: Key)
    requires k in r.addresses
  {
    && k in r.devices && r.devices[k].trust == r.addresses[k].trust
    && D.InRange(c, r.addresses[k].trust, r.addresses[k].address)
  }

  ghost predicate AddressesApart(r: D.Registry) {
    forall k, l :: k in r.addresses && l in r.addresses && k != l && r.addresses[k].trust == r.addresses[l].trust ==>
      r.addresses[k].address != r.addresses[l].address
  }

  ghost predicate WithinQuota(c: D.Config, r: D.Registry) {
    forall t, trust :: |D.HeldKeys(r, t, trust)| <= c.quota
  }

  ghost predicate Spaced(c: D.Config, r: D.Registry) {
    (forall k :: k in r.addresses ==> RowFits(c, r, k)) && AddressesApart(r) && WithinQuota(c, r)
  }

  /** What a call read is still so: only its own tenant could have changed it. */
  ghost predicate OpFits(c: D.Config, s: State, t: string)
    requires t in s.ops
  {
    match s.ops[t]
    case Chosen(key, device, q) =>
      && key.0 == t && key in s.r.devices && s.r.devices[key] == device && device.mac != ""
      && device.trust in c.ranges && D.RequestInRange(c, device.trust, q)
    case Pushing(key, _) => key.0 == t
    case Checked(key, device) =>
      key.0 == t && (key in s.r.devices ==> s.r.devices[key].trust == device.trust)
      && (Moves(s.r, key, device) ==> device.mac != "")
    case Moving(key) => key.0 == t
    case Releasing(key) => key.0 == t
    case Unregistering(key) => key.0 == t && key !in s.r.addresses
  }

  ghost predicate Inv(c: D.Config, s: State) {
    Spaced(c, s.r) && forall t :: t in s.ops ==> OpFits(c, s, t)
  }

  ghost predicate OwnRows(r: D.Registry, r': D.Registry, t: string) {
    && (forall k: Key :: k.0 != t ==> (k in r'.addresses <==> k in r.addresses))
    && (forall k: Key :: k.0 != t && k in r.addresses ==> r'.addresses[k] == r.addresses[k])
    && (forall k: Key :: k.0 != t ==> (k in r'.devices <==> k in r.devices))
    && (forall k: Key :: k.0 != t && k in r.devices ==> r'.devices[k] == r.devices[k])
  }

  /** A step touches only its own tenant's rows and operation. */
  ghost predicate OnlyOwn(s: State, s': State, t: string) {
    OwnRows(s.r, s'.r, t) && forall u :: u != t && u in s'.ops ==> u in s.ops && s'.ops[u] == s.ops[u]
  }

  lemma EndTenantIsOwn(r: D.Registry, t: string)
    ensures OwnRows(r, D.DropTenant(r, t), t)
  {
  }

  lemma InsertIsOwn(c: D.Config, s: State, s': State, t: string, held: seq<Held>, pick: Pick)
    requires t in s.ops && s.ops[t].Chosen? && s.ops[t].key.0 == t && InsertRow(c, s, s', t, held, pick)
    ensures OnlyOwn(s, s', t)
  {
  }

  lemma KeyIsOwn(c: D.Config, s: State, t: string)
    requires Inv(c, s) && t in s.ops
    ensures s.ops[t].key.0 == t
  {
    assert OpFits(c, s, t);
  }

  lemma OwnKeyStep(c: D.Config, s: State, s': State, t: string, e: Event)
    requires Step(c, s, s', t, e) && !e.EndTenant? && !e.Insert? && (t in s.ops ==> s.ops[t].key.0 == t)
    ensures OnlyOwn(s, s', t)
  {
  }

  lemma StepIsOwn(c: D.Config, s: State, s': State, t: string, e: Event)
    requires Inv(c, s) && Step(c, s, s', t, e)
    ensures OnlyOwn(s, s', t)
  {
    if t in s.ops {
      KeyIsOwn(c, s, t);
    }
    if e.EndTenant? {
      EndTenantIsOwn(s.r, t);
    } else if e.Insert? {
      InsertIsOwn(c, s, s', t, e.held, e.pick);
    } else {
      OwnKeyStep(c, s, s', t, e);
    }
  }

  lemma OthersFit(c: D.Config, s: State, s': State, t: string)
    requires Inv(c, s) && OnlyOwn(s, s', t)
    ensures forall u :: u in s'.ops && u != t ==> OpFits(c, s', u)
  {
    forall u | u in s'.ops && u != t ensures OpFits(c, s', u) {
      assert OpFits(c, s, u);
    }
  }

  lemma OwnFits(c: D.Config, s: State, s': State, t: string, e: Event)
    requires Inv(c, s) && Step(c, s, s', t, e) && t in s'.ops
    ensures OpFits(c, s', t)
  {
    if t in s.ops {
      assert OpFits(c, s, t);
    }
  }

  /** Rows taken away, or marked, leave the rest spaced. */
  lemma FewerRows(c: D.Config, r: D.Registry, r': D.Registry)
    requires Spaced(c, r)
    requires forall k :: k in r'.addresses ==>
      k in r.addresses && r'.addresses[k].(ready := r.addresses[k].ready) == r.addresses[k]
    requires forall k :: k in r'.addresses && k in r.devices ==>
      k in r'.devices && r'.devices[k].trust == r.devices[k].trust
    ensures Spaced(c, r')
  {
    forall k | k in r'.addresses ensures RowFits(c, r', k) { assert RowFits(c, r, k); }
    forall t, trust ensures |D.HeldKeys(r', t, trust)| <= c.quota {
      D.SubsetCount(D.HeldKeys(r', t, trust), D.HeldKeys(r, t, trust));
    }
  }

  /** The locked insert: what it gives is free, in range and within the quota,
      whatever other calls did between its read and the lock. */
  lemma InsertKeepsSpaced(c: D.Config, r: D.Registry, key: Key, q: D.Request, held: seq<Held>, a: string)
    requires Spaced(c, r) && key in r.devices && key !in r.addresses
    requires r.devices[key].trust in c.ranges && D.RequestInRange(c, r.devices[key].trust, q)
    requires D.PickedUnderLock(c, r, key, q, held, Picked(a))
    ensures Spaced(c, D.Given(r, key, a))
  {
    var r' := D.Given(r, key, a);
    assert D.Joined(r) by {
      forall k | k in r.addresses ensures k in r.devices { assert RowFits(c, r, k); }
    }
    D.GivenInRange(c, r, key, q, held, a);
    D.GivenIsApart(c, r, key, q, held, a);
    D.GivenWithinQuota(c, r, key, q, held, a);
    forall k | k in r'.addresses ensures RowFits(c, r', k) { assert k == key || RowFits(c, r, k); }
  }

  lemma StepKeepsSpaced(c: D.Config, s: State, s': State, t: string, e: Event)
    requires Inv(c, s) && Step(c, s, s', t, e)
    ensures Spaced(c, s'.r)
  {
    if t in s.ops {
      assert OpFits(c, s, t);
    }
    if e.Insert? && s'.r != s.r && s.ops[t].key !in s.r.addresses {
      InsertKeepsSpaced(c, s.r, s.ops[t].key, s.ops[t].request, e.held, e.pick.address);
    } else {
      StepTakesAway(c, s, s', t, e);
      FewerRows(c, s.r, s'.r);
    }
  }

  lemma StepTakesAway(c: D.Config, s: State, s': State, t: string, e: Event)
    requires Inv(c, s) && Step(c, s, s', t, e)
    requires !(e.Insert? && s'.r != s.r && s.ops[t].key !in s.r.addresses)
    ensures forall k :: k in s'.r.addresses ==>
      k in s.r.addresses && s'.r.addresses[k].(ready := s.r.addresses[k].ready) == s.r.addresses[k]
    ensures forall k :: k in s'.r.addresses && k in s.r.devices ==>
      k in s'.r.devices && s'.r.devices[k].trust == s.r.devices[k].trust
  {
    if t in s.ops {
      assert OpFits(c, s, t);
    }
  }

  lemma StepKeepsInv(c: D.Config, s: State, s': State, t: string, e: Event)
    requires Inv(c, s) && Step(c, s, s', t, e)
    ensures Inv(c, s')
  {
    StepKeepsSpaced(c, s, s', t, e);
    StepIsOwn(c, s, s', t, e);
    OthersFit(c, s, s', t);
    if t in s'.ops {
      OwnFits(c, s, s', t, e);
    }
  }

  lemma {:induction false} RunKeepsInv(c: D.Config, states: seq<State>, trace: Trace, i: nat)
    requires Run(c, states, trace) && i <= |trace|
    ensures Inv(c, states[i])
  {
    if i == 0 {
      forall t, trust ensures |D.HeldKeys(states[0].r, t, trust)| <= c.quota {
        assert D.HeldKeys(states[0].r, t, trust) == {};
      }
    } else {
      RunKeepsInv(c, states, trace, i - 1);
      assert StepAt(c, states, trace, i - 1);
      StepKeepsInv(c, states[i - 1], states[i], trace[i - 1].0, trace[i - 1].1);
    }
  }

  // --- The guarantees -------------------------------------------------------------------------------

  /** Over every interleaving: within a class all held addresses are distinct
      and in range, and no tenant exceeds its quota. */
  lemma SpacingHolds(c: D.Config, states: seq<State>, trace: Trace, i: nat)
    requires Run(c, states, trace) && i <= |trace|
    ensures forall k :: k in states[i].r.addresses ==>
      D.InRange(c, states[i].r.addresses[k].trust, states[i].r.addresses[k].address)
    ensures AddressesApart(states[i].r) && WithinQuota(c, states[i].r)
  {
    RunKeepsInv(c, states, trace, i);
    forall k | k in states[i].r.addresses
      ensures D.InRange(c, states[i].r.addresses[k].trust, states[i].r.addresses[k].address)
    {
      assert RowFits(c, states[i].r, k);
    }
  }

  ghost predicate MacsApart(r: D.Registry) {
    forall k, l :: k in r.addresses && l in r.addresses && k in r.devices && l in r.devices && k != l ==>
      r.addresses[k].trust == r.addresses[l].trust ==> r.devices[k].mac != r.devices[l].mac
  }

  /** A device row about to be written under a MAC that has since become another holder's. */
  ghost predicate Overtaken(s: State, t: string, e: Event) {
    && e.WriteDevice? && t in s.ops && s.ops[t].Checked? && s.ops[t].key in s.r.addresses
    && D.MacElsewhere(s.r, s.r.addresses[s.ops[t].key].trust, s.ops[t].device.mac, s.ops[t].key)
  }

  /** At any point of any interleaving, from holders with MACs of their own, a
      step makes two of a class share one exactly when it is a device row
      written under a MAC that became another's after the check. */
  lemma MacSharedExactlyWhen(c: D.Config, s: State, s': State, t: string, e: Event)
    requires Inv(c, s) && MacsApart(s.r) && Step(c, s, s', t, e)
    ensures !MacsApart(s'.r) <==> Overtaken(s, t, e)
  {
    if t in s.ops {
      assert OpFits(c, s, t);
    }
    if e.WriteDevice? {
      WriteSharesExactlyWhen(c, s, t);
    } else if e.Insert? && s'.r != s.r && s.ops[t].key !in s.r.addresses {
      InsertKeepsMacs(c, s.r, s.ops[t].key, s.ops[t].request, e.held, e.pick.address);
    } else {
      StepTakesAway(c, s, s', t, e);
      SameDevices(c, s, s', t, e);
    }
  }

  lemma SameDevices(c: D.Config, s: State, s': State, t: string, e: Event)
    requires Step(c, s, s', t, e) && !e.WriteDevice?
    ensures forall k :: k in s'.r.devices ==> k in s.r.devices && s'.r.devices[k] == s.r.devices[k]
  {
  }

  lemma InsertKeepsMacs(c: D.Config, r: D.Registry, key: Key, q: D.Request, held: seq<Held>, a: string)
    requires Spaced(c, r) && MacsApart(r) && key in r.devices && key !in r.addresses
    requires D.PickedUnderLock(c, r, key, q, held, Picked(a))
    ensures MacsApart(D.Given(r, key, a))
  {
    assert D.Joined(r) by {
      forall k | k in r.addresses ensures k in r.devices { assert RowFits(c, r, k); }
    }
    D.GivenIsApart(c, r, key, q, held, a);
  }

  lemma WriteSharesExactlyWhen(c: D.Config, s: State, t: string)
    requires Inv(c, s) && MacsApart(s.r) && t in s.ops && s.ops[t].Checked?
    ensures !MacsApart(s.r.(devices := s.r.devices[s.ops[t].key := s.ops[t].device])) <==> Overtaken(s, t, WriteDevice)
  {
    var key, device := s.ops[t].key, s.ops[t].device;
    var r' := s.r.(devices := s.r.devices[key := device]);
    if Overtaken(s, t, WriteDevice) {
      var k :| k in s.r.addresses && s.r.addresses[k].trust == s.r.addresses[key].trust && k != key
               && k in s.r.devices && s.r.devices[k].mac == device.mac;
      assert r'.devices[k].mac == r'.devices[key].mac;
    }
  }

  /** So over every interleaving in which no checked MAC is overtaken, all
      holders' MACs of a class are distinct too. */
  lemma {:induction false} MacsHold(c: D.Config, states: seq<State>, trace: Trace, i: nat)
    requires Run(c, states, trace) && i <= |trace|
    requires forall j :: 0 <= j < i ==> !Overtaken(states[j], trace[j].0, trace[j].1)
    ensures MacsApart(states[i].r)
  {
    if i > 0 {
      MacsHold(c, states, trace, i - 1);
      RunKeepsInv(c, states, trace, i - 1);
      assert StepAt(c, states, trace, i - 1);
      MacSharedExactlyWhen(c, states[i - 1], states[i], trace[i - 1].0, trace[i - 1].1);
    }
  }
}
