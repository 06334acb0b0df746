/** The registry's fixed addresses and the DHCP server's table together:
    internal/tenant/addresses.go and devices.go over
    internal/backend/opnsense/kea.go. Devices takes the server's answers as
    given and Kea knows nothing of the registry; here the answers are the table's.

    Calls do not overlap. Inventory writes its own rows between them, and the
    router may be rebuilt and lose its table. */
module Reservations {
  import opened Basics
  import opened Text
  import opened Addresses
  import D = Devices
  import Kea

  type Key = D.Key

  /** A site: the allocator's configuration, the subnet of each class's range,
      and how an address is read back from its text. */
  datatype Place = Place(c: D.Config, subnets: map<string, Kea.Subnet>, ip: string -> Kea.Ip)

  datatype World = World(r: D.Registry, t: Kea.Table)

  function DescriptionOf(k: Key): string { Kea.Description(k.0, k.1) }

  predicate HasReservation(p: Place, r: D.Registry, k: Key) {
    k in r.addresses && k in r.devices && r.addresses[k].trust in p.subnets
  }

  /** reservation: what the registry says the table should hold. */
  function Wanted(p: Place, r: D.Registry, k: Key): Kea.Reservation
    requires HasReservation(p, r, k)
  {
    Kea.Reservation(p.subnets[r.addresses[k].trust], p.ip(r.addresses[k].address), r.devices[k].mac,
                    k.0 + "-" + k.1, DescriptionOf(k))
  }

  /** In the table, once, with the registry's address and MAC. */
  ghost predicate Reserved(p: Place, w: World, k: Key) {
    HasReservation(p, w.r, k) && Kea.Reserved(w.t.rows, Wanted(p, w.r, k))
  }

  predicate ReadyHere(r: D.Registry, k: Key) { k in r.addresses && r.addresses[k].ready }

  /** What the comments rule out: an address reported ready that the DHCP server
      does not hold for the device as it is registered. */
  ghost predicate Stranded(p: Place, w: World, k: Key) { ReadyHere(w.r, k) && !Reserved(p, w, k) }

  // --- One call on the table -------------------------------------------------------------------

  ghost predicate Single(rows: seq<Kea.Row>, k: Key) { Kea.AtMostOnce(rows, DescriptionOf(k)) }

  lemma {:induction false} OthersMembers(rows: seq<Kea.Row>, d: string, x: Kea.Row)
    ensures x in Kea.Others(rows, d) <==> x in rows && x.description != d
  {
    if rows != [] {
      OthersMembers(rows[..|rows| - 1], d, x);
      assert rows == rows[..|rows| - 1] + [rows[|rows| - 1]];
    }
  }

  /** A reservation outlives any change to rows of another description. */
  lemma SparedStaysReserved(rows: seq<Kea.Row>, rows': seq<Kea.Row>, d: string, r: Kea.Reservation)
    requires Kea.Others(rows', d) == Kea.Others(rows, d) && r.description != d
    requires Kea.Reserved(rows, r) && Kea.AtMostOnce(rows', r.description)
    ensures Kea.Reserved(rows', r)
  {
    var i :| 0 <= i < |rows| && rows[i].description == r.description && Kea.Matches(rows[i], r);
    OthersMembers(rows, d, rows[i]);
    OthersMembers(rows', d, rows[i]);
    var j :| 0 <= j < |rows'| && rows'[j] == rows[i];
  }

  lemma EnsureSpares(t: Kea.Table, r: Kea.Reservation, uuid: nat, p: Kea.Plan)
    ensures Kea.Others(Kea.Ensure(t, r, uuid, p).0.rows, r.description) == Kea.Others(t.rows, r.description)
  {
    Kea.WrittenSparesOthers(t.rows, r, uuid);
  }

  lemma EnsureKeepsSingle(t: Kea.Table, r: Kea.Reservation, uuid: nat, p: Kea.Plan, d: string)
    requires Kea.AtMostOnce(t.rows, r.description) && Kea.AtMostOnce(t.rows, d)
    ensures Kea.AtMostOnce(Kea.Ensure(t, r, uuid, p).0.rows, d)
  {
    Kea.DescriptionsStaySingle(t, r, uuid, p, Kea.RemovePlan(false, (_: nat) => Fine, Fine), d);
  }

  /** Success reserves, and no failure unreserves. */
  lemma EnsureReserves(t: Kea.Table, r: Kea.Reservation, uuid: nat, p: Kea.Plan)
    requires Kea.AtMostOnce(t.rows, r.description)
    requires Kea.Ensure(t, r, uuid, p).1.Done? || Kea.Reserved(t.rows, r)
    ensures Kea.Reserved(Kea.Ensure(t, r, uuid, p).0.rows, r)
  {
    EnsureKeepsSingle(t, r, uuid, p, r.description);
    var rows' := Kea.Ensure(t, r, uuid, p).0.rows;
    if rows' != t.rows {
      var i := Kea.WrittenSettles(t.rows, r, uuid);
    } else if Kea.Ensure(t, r, uuid, p).1.Done? && !Kea.AlreadyThere(t.rows, r) {
      var i := Kea.WrittenSettles(t.rows, r, uuid);
    }
  }

  /** So it stands or falls with its own rows alone. */
  lemma SparedAlike(rows: seq<Kea.Row>, rows': seq<Kea.Row>, d: string, r: Kea.Reservation)
    requires Kea.Others(rows', d) == Kea.Others(rows, d) && r.description != d
    requires Kea.AtMostOnce(rows, r.description) && Kea.AtMostOnce(rows', r.description)
    ensures Kea.Reserved(rows', r) <==> Kea.Reserved(rows, r)
  {
    if Kea.Reserved(rows, r) {
      SparedStaysReserved(rows, rows', d, r);
    }
    if Kea.Reserved(rows', r) {
      SparedStaysReserved(rows', rows, d, r);
    }
  }

  /** What an ensure leaves was there before or is the reservation itself. */
  lemma EnsureMembers(t: Kea.Table, r: Kea.Reservation, uuid: nat, p: Kea.Plan, x: Kea.Row)
    requires x in Kea.Ensure(t, r, uuid, p).0.rows
    ensures x in t.rows || exists u :: x == Kea.RowFor(u, r)
  {
    if x !in t.rows {
      var rows' := Kea.Written(t.rows, r, uuid);
      var i :| 0 <= i < |rows'| && rows'[i] == x;
      var own := Kea.OwnIndex(t.rows, r.description);
      var u := if own.Some? then t.rows[own.value].uuid else uuid;
      assert x == Kea.RowFor(u, r);
    }
  }

  // --- What every call keeps ---------------------------------------------------------------------

  ghost predicate NamesValid(r: D.Registry) {
    (forall t :: t in r.tenants ==> ValidName(t)) && (forall k :: k in r.addresses ==> ValidName(k.0))
  }

  /** NormalizeMAC's form: one spelling to a MAC. */
  ghost predicate Normalised(r: D.Registry) {
    forall k :: k in r.devices ==> Kea.Fold(r.devices[k].mac) == r.devices[k].mac
  }

  ghost predicate AllSingle(rows: seq<Kea.Row>) {
    forall k: Key :: ValidName(k.0) ==> Single(rows, k)
  }

  /** A row that carries a holder's address and name, for whatever MAC. */
  ghost predicate RowFits(p: Place, r: D.Registry, k: Key, x: Kea.Row) {
    && HasReservation(p, r, k)
    && x.ip == Wanted(p, r, k).address && x.hostname == Wanted(p, r, k).hostname
  }

  /** Every row of the API's is a holder's, with the address the registry gives it. */
  ghost predicate Truthful(p: Place, r: D.Registry, rows: seq<Kea.Row>) {
    forall x, k: Key :: x in rows && ValidName(k.0) && x.description == DescriptionOf(k) ==> RowFits(p, r, k, x)
  }

  ghost predicate Absent(rows: seq<Kea.Row>, k: Key) {
    forall x :: x in rows ==> x.description != DescriptionOf(k)
  }

  ghost predicate Sound(p: Place, w: World) {
    NamesValid(w.r) && Normalised(w.r) && AllSingle(w.t.rows) && Truthful(p, w.r, w.t.rows)
  }

  /** A device that holds no address has no row. */
  lemma NoneForNonHolders(p: Place, w: World, k: Key)
    requires Sound(p, w) && ValidName(k.0) && k !in w.r.addresses
    ensures Absent(w.t.rows, k)
  {
  }

  /** Whether an address is reserved is a matter of the MAC its row has, if it has one. */
  lemma ReservedByMac(p: Place, w: World, k: Key)
    requires Sound(p, w) && HasReservation(p, w.r, k)
    ensures Reserved(p, w, k) <==>
      exists x :: x in w.t.rows && x.description == DescriptionOf(k) && Kea.EqualFold(x.hw, w.r.devices[k].mac)
  {
    assert Single(w.t.rows, k);
    var r := Wanted(p, w.r, k);
    if Reserved(p, w, k) {
      var i :| 0 <= i < |w.t.rows| && w.t.rows[i].description == r.description && Kea.Matches(w.t.rows[i], r);
      assert w.t.rows[i] in w.t.rows;
    }
    if x :| x in w.t.rows && x.description == DescriptionOf(k) && Kea.EqualFold(x.hw, w.r.devices[k].mac) {
      assert RowFits(p, w.r, k, x);
      var i :| 0 <= i < |w.t.rows| && w.t.rows[i] == x;
      assert Kea.Matches(w.t.rows[i], r);
    }
  }

  /** A change to one device's rows and registration leaves every other as it was. */
  lemma OthersAlike(p: Place, w: World, w': World, key: Key, l: Key)
    requires AllSingle(w.t.rows) && AllSingle(w'.t.rows) && ValidName(key.0) && l != key
    requires Kea.Others(w'.t.rows, DescriptionOf(key)) == Kea.Others(w.t.rows, DescriptionOf(key))
    requires l in w.r.addresses && l in w'.r.addresses && w'.r.addresses[l] == w.r.addresses[l] && ValidName(l.0)
    requires (l in w'.r.devices <==> l in w.r.devices) && (l in w.r.devices ==> w'.r.devices[l] == w.r.devices[l])
    ensures Reserved(p, w', l) <==> Reserved(p, w, l)
  {
    assert Single(w.t.rows, l) && Single(w'.t.rows, l);
    if HasReservation(p, w.r, l) {
      Kea.DescriptionsDiffer(l.0, l.1, key.0, key.1);
      SparedAlike(w.t.rows, w'.t.rows, DescriptionOf(key), Wanted(p, w.r, l));
    }
  }

  lemma EnsureKeepsAllSingle(t: Kea.Table, r: Kea.Reservation, uuid: nat, p: Kea.Plan)
    requires AllSingle(t.rows) && Kea.AtMostOnce(t.rows, r.description)
    ensures AllSingle(Kea.Ensure(t, r, uuid, p).0.rows)
  {
    forall k: Key | ValidName(k.0) ensures Single(Kea.Ensure(t, r, uuid, p).0.rows, k) {
      assert Single(t.rows, k);
      EnsureKeepsSingle(t, r, uuid, p, DescriptionOf(k));
    }
  }

  /** Writing a holder's own reservation keeps the table truthful. */
  lemma EnsureKeepsTruthful(p: Place, r: D.Registry, t: Kea.Table, k: Key, s: Call)
    requires HasReservation(p, r, k) && ValidName(k.0) && Truthful(p, r, t.rows)
    ensures Truthful(p, r, Kea.Ensure(t, Wanted(p, r, k), s.uuid, s.plan).0.rows)
  {
    var rows' := Kea.Ensure(t, Wanted(p, r, k), s.uuid, s.plan).0.rows;
    forall x, l: Key | x in rows' && ValidName(l.0) && x.description == DescriptionOf(l) ensures RowFits(p, r, l, x) {
      EnsureMembers(t, Wanted(p, r, k), s.uuid, s.plan, x);
      if x !in t.rows {
        Kea.DescriptionsDiffer(l.0, l.1, k.0, k.1);
      }
    }
  }

  // --- The calls on both ---------------------------------------------------------------------------------

  function Answer(r: Kea.Reply): D.Reserve {
    match r case Done => D.Reserved case Conflict => D.TakenThere case Failed => D.ReserveFailed
  }

  /** How a push goes after the DHCP server: withdrawing the row, DNS, the status write. */
  datatype Rest = Rest(withdraws: bool, dns: bool, status: Fault)

  /** How the server is called. */
  datatype Call = Call(uuid: nat, plan: Kea.Plan)

  function PlanFor(p: Place, r: D.Registry, t: Kea.Table, k: Key, s: Call, rest: Rest): D.PushPlan
    requires HasReservation(p, r, k)
  {
    D.PushPlan(Answer(Kea.Ensure(t, Wanted(p, r, k), s.uuid, s.plan).1), rest.withdraws, rest.dns, rest.status)
  }

  /** pushAddress on both: the server first, then the row. */
  function PushBoth(p: Place, w: World, k: Key, isNew: bool, s: Call, rest: Rest): (World, D.Reply)
    requires HasReservation(p, w.r, k)
  {
    var (r', reply) := D.Push(w.r, k, isNew, PlanFor(p, w.r, w.t, k, s, rest));
    (World(r', Kea.Ensure(w.t, Wanted(p, w.r, k), s.uuid, s.plan).0), reply)
  }

  /** What a call about k leaves of the others: their rows, registrations and names. */
  ghost predicate OnlyAbout(w: World, w': World, k: Key) {
    && Kea.Others(w'.t.rows, DescriptionOf(k)) == Kea.Others(w.t.rows, DescriptionOf(k))
    && (forall l :: l != k ==> (l in w'.r.addresses <==> l in w.r.addresses))
    && (forall l :: l != k && l in w.r.addresses ==> w'.r.addresses[l] == w.r.addresses[l])
    && (forall l :: l != k ==> (l in w'.r.devices <==> l in w.r.devices))
    && (forall l :: l != k && l in w.r.devices ==> w'.r.devices[l] == w.r.devices[l])
  }

  lemma OnlyAboutTransitive(a: World, b: World, c: World, k: Key)
    requires OnlyAbout(a, b, k) && OnlyAbout(b, c, k)
    ensures OnlyAbout(a, c, k)
  {
  }

  lemma OthersUnmoved(r: D.Registry, r': D.Registry, key: Key)
    requires D.OnlyAddressRow(r, r', key)
    ensures forall k :: k != key ==> (k in r'.addresses <==> k in r.addresses)
    ensures forall k :: k != key && k in r.addresses ==> r'.addresses[k] == r.addresses[k]
    ensures r'.devices == r.devices && r'.tenants == r.tenants
  {
    forall k | k != key ensures k in r'.addresses <==> k in r.addresses {
      assert k in r'.addresses - {key} <==> k in r.addresses - {key};
    }
    forall k | k != key && k in r.addresses ensures r'.addresses[k] == r.addresses[k] {
      assert (r'.addresses - {key})[k] == (r.addresses - {key})[k];
    }
  }

  lemma PushIsAboutK(p: Place, w: World, k: Key, isNew: bool, s: Call, rest: Rest)
    requires HasReservation(p, w.r, k) && !w.r.addresses[k].ready
    ensures OnlyAbout(w, PushBoth(p, w, k, isNew, s, rest).0, k)
    ensures PushBoth(p, w, k, isNew, s, rest).0.r.tenants == w.r.tenants
    ensures PushBoth(p, w, k, isNew, s, rest).0.r.devices == w.r.devices
  {
    EnsureSpares(w.t, Wanted(p, w.r, k), s.uuid, s.plan);
    D.PushReports(w.r, k, isNew, PlanFor(p, w.r, w.t, k, s, rest));
    OthersUnmoved(w.r, PushBoth(p, w, k, isNew, s, rest).0.r, k);
  }

  /** A registry that keeps k's row, or drops it while the table has none of its,
      and nobody else's, stays told truthfully. */
  lemma TruthfulStill(p: Place, r: D.Registry, r': D.Registry, rows: seq<Kea.Row>, k: Key)
    requires Truthful(p, r, rows)
    requires k in r'.addresses || Absent(rows, k)
    requires k in r'.addresses && !Absent(rows, k) ==>
      HasReservation(p, r', k) && k in r.addresses
      && r'.addresses[k].address == r.addresses[k].address && r'.addresses[k].trust == r.addresses[k].trust
    requires forall l :: l != k && l in r.addresses ==> l in r'.addresses && r'.addresses[l] == r.addresses[l]
    requires forall l :: l != k && l in r.devices ==> l in r'.devices
    ensures Truthful(p, r', rows)
  {
    forall x, l: Key | x in rows && ValidName(l.0) && x.description == DescriptionOf(l) ensures RowFits(p, r', l, x) {
      assert RowFits(p, r, l, x);
    }
  }

  lemma PushKeepsSound(p: Place, w: World, k: Key, isNew: bool, s: Call, rest: Rest)
    requires Sound(p, w) && HasReservation(p, w.r, k) && !w.r.addresses[k].ready
    requires isNew ==> Absent(w.t.rows, k)
    ensures Sound(p, PushBoth(p, w, k, isNew, s, rest).0)
  {
    var w' := PushBoth(p, w, k, isNew, s, rest).0;
    assert Single(w.t.rows, k);
    EnsureKeepsAllSingle(w.t, Wanted(p, w.r, k), s.uuid, s.plan);
    EnsureKeepsTruthful(p, w.r, w.t, k, s);
    PushIsAboutK(p, w, k, isNew, s, rest);
    D.PushReports(w.r, k, isNew, PlanFor(p, w.r, w.t, k, s, rest));
    PushEndsHolding(p, w, k, isNew, s, rest);
    TruthfulStill(p, w.r, w'.r, w'.t.rows, k);
  }

  /** After a push the row is there, or nothing of the device's is in the table. */
  lemma PushEndsHolding(p: Place, w: World, k: Key, isNew: bool, s: Call, rest: Rest)
    requires HasReservation(p, w.r, k) && (isNew ==> Absent(w.t.rows, k))
    ensures var w' := PushBoth(p, w, k, isNew, s, rest).0;
      && (k !in w'.r.addresses ==> Absent(w'.t.rows, k))
      && (k in w'.r.addresses ==> w'.r.addresses[k].(ready := w.r.addresses[k].ready) == w.r.addresses[k])
  {
  }

  /** And if it is ready, it is reserved. */
  lemma PushReserves(p: Place, w: World, k: Key, isNew: bool, s: Call, rest: Rest)
    requires Sound(p, w) && HasReservation(p, w.r, k) && !w.r.addresses[k].ready
    ensures var (w', reply) := PushBoth(p, w, k, isNew, s, rest);
      && (ReadyHere(w'.r, k) ==> Reserved(p, w', k))
      && (reply.Done? ==> ReadyHere(w'.r, k))
  {
    assert Single(w.t.rows, k);
    D.PushReports(w.r, k, isNew, PlanFor(p, w.r, w.t, k, s, rest));
    if Kea.Ensure(w.t, Wanted(p, w.r, k), s.uuid, s.plan).1.Done? {
      EnsureReserves(w.t, Wanted(p, w.r, k), s.uuid, s.plan);
    }
  }

  /** A conflict on the server is the tenant's answer, changes no table, and takes
      back a row that was new, if it can, and no other. */
  lemma ConflictIsAnswered(p: Place, w: World, k: Key, isNew: bool, s: Call, rest: Rest)
    requires HasReservation(p, w.r, k)
    requires Kea.Ensure(w.t, Wanted(p, w.r, k), s.uuid, s.plan).1 == Kea.Conflict
    ensures var (w', reply) := PushBoth(p, w, k, isNew, s, rest);
      && reply == D.AddressConflict && w'.t == w.t
      && (k in w'.r.addresses <==> !isNew || !rest.withdraws)
      && (k in w'.r.addresses ==> w' == w)
  {
  }

  /** And any other failure of the server's leaves the row to be tried again. */
  lemma FailureIsAnswered(p: Place, w: World, k: Key, isNew: bool, s: Call, rest: Rest)
    requires HasReservation(p, w.r, k)
    requires Kea.Ensure(w.t, Wanted(p, w.r, k), s.uuid, s.plan).1 == Kea.Failed
    ensures PushBoth(p, w, k, isNew, s, rest).1 == D.StepFailed && PushBoth(p, w, k, isNew, s, rest).0.r == w.r
  {
  }

  function Marked(w: World, k: Key): World
    requires k in w.r.addresses
  {
    w.(r := D.WithReady(w.r, k, false))
  }

  lemma MarkedIsSound(p: Place, w: World, k: Key)
    requires Sound(p, w) && HasReservation(p, w.r, k)
    ensures Sound(p, Marked(w, k)) && OnlyAbout(w, Marked(w, k), k)
  {
    TruthfulStill(p, w.r, Marked(w, k).r, w.t.rows, k);
  }

  /** The held row back to provisioning, then the push. */
  function ReapplyBoth(p: Place, w: World, k: Key, stored: Fault, s: Call, rest: Rest): (World, D.Reply)
    requires HasReservation(p, w.r, k)
  {
    if stored.Before? then (w, D.StepFailed)
    else if stored.After? then (Marked(w, k), D.StepFailed)
    else PushBoth(p, Marked(w, k), k, false, s, rest)
  }

  /** A re-apply is about its own device alone, and strands it only if it was. */
  lemma ReapplyReserves(p: Place, w: World, k: Key, stored: Fault, s: Call, rest: Rest)
    requires Sound(p, w) && HasReservation(p, w.r, k)
    ensures var (w', reply) := ReapplyBoth(p, w, k, stored, s, rest);
      && Sound(p, w') && OnlyAbout(w, w', k)
      && (!stored.Before? && ReadyHere(w'.r, k) ==> Reserved(p, w', k))
      && (reply.Done? ==> ReadyHere(w'.r, k) && Reserved(p, w', k))
      && (!stored.Before? ==> !Stranded(p, w', k))
      && w'.r.devices == w.r.devices && w'.r.tenants == w.r.tenants
  {
    MarkedIsSound(p, w, k);
    if stored.Fine? {
      PushKeepsSound(p, Marked(w, k), k, false, s, rest);
      PushReserves(p, Marked(w, k), k, false, s, rest);
      PushIsAboutK(p, Marked(w, k), k, false, s, rest);
      OnlyAboutTransitive(w, Marked(w, k), PushBoth(p, Marked(w, k), k, false, s, rest).0, k);
    }
  }

  /** CreateDeviceAddress on both. */
  ghost predicate CreateBoth(p: Place, w: World, w': World, k: Key, q: D.Request, stored: Fault,
                             s: Call, rest: Rest, reply: D.Reply) {
    if !D.MayCreateAddress(p.c, w.r, k, q) then w' == w && !reply.Done?
    else if stored.Before? then w' == w && reply == D.StepFailed
    else if k in w.r.addresses then HasReservation(p, w.r, k) && (w', reply) == ReapplyBoth(p, w, k, stored, s, rest)
    else
      exists held, pick ::
        D.PickedUnderLock(p.c, w.r, k, q, held, pick) && AfterPickBoth(p, w, w', k, pick, stored, s, rest, reply)
  }

  ghost predicate AfterPickBoth(p: Place, w: World, w': World, k: Key, pick: Pick, stored: Fault,
                                s: Call, rest: Rest, reply: D.Reply)
    requires k in w.r.devices
  {
    if !pick.Picked? then w' == w && !reply.Done?
    else
      var given := w.(r := D.Given(w.r, k, pick.address));
      HasReservation(p, given.r, k) &&
      (w', reply) == if stored.Fine? then PushBoth(p, given, k, true, s, rest) else (given, D.StepFailed)
  }

  lemma GivenIsSound(p: Place, w: World, k: Key, a: string)
    requires Sound(p, w) && k in w.r.devices && k !in w.r.addresses && ValidName(k.0)
    ensures Sound(p, w.(r := D.Given(w.r, k, a))) && OnlyAbout(w, w.(r := D.Given(w.r, k, a)), k)
    ensures Absent(w.t.rows, k)
  {
    NoneForNonHolders(p, w, k);
    TruthfulStill(p, w.r, D.Given(w.r, k, a), w.t.rows, k);
  }

  lemma AfterPickReserves(p: Place, w: World, w': World, k: Key, pick: Pick, stored: Fault,
                          s: Call, rest: Rest, reply: D.Reply)
    requires Sound(p, w) && k in w.r.devices && k !in w.r.addresses && ValidName(k.0)
    requires AfterPickBoth(p, w, w', k, pick, stored, s, rest, reply)
    ensures Sound(p, w') && OnlyAbout(w, w', k) && !Stranded(p, w', k)
    ensures reply.Done? ==> ReadyHere(w'.r, k)
  {
    if pick.Picked? {
      var given := w.(r := D.Given(w.r, k, pick.address));
      GivenIsSound(p, w, k, pick.address);
      if stored.Fine? {
        PushKeepsSound(p, given, k, true, s, rest);
        PushReserves(p, given, k, true, s, rest);
        PushIsAboutK(p, given, k, true, s, rest);
        OnlyAboutTransitive(w, given, w', k);
      }
    }
  }

  /** A successful CreateDeviceAddress leaves exactly one row of the device's in
      the table, with the registry's address and MAC; no outcome strands the
      device or moves anyone else. */
  lemma CreateReserves(p: Place, w: World, w': World, k: Key, q: D.Request, stored: Fault,
                       s: Call, rest: Rest, reply: D.Reply)
    requires Sound(p, w) && CreateBoth(p, w, w', k, q, stored, s, rest, reply)
    ensures Sound(p, w') && OnlyAbout(w, w', k)
    ensures reply.Done? ==> ReadyHere(w'.r, k) && Reserved(p, w', k)
    ensures Stranded(p, w', k) ==> w' == w
  {
    if !D.MayCreateAddress(p.c, w.r, k, q) || stored.Before? {
    } else if k in w.r.addresses {
      ReapplyReserves(p, w, k, stored, s, rest);
    } else {
      var held, pick :|
        D.PickedUnderLock(p.c, w.r, k, q, held, pick) && AfterPickBoth(p, w, w', k, pick, stored, s, rest, reply);
      AfterPickReserves(p, w, w', k, pick, stored, s, rest, reply);
    }
  }

  // --- A MAC swap ---------------------------------------------------------------------------------------

  /** CreateDevice of a holder under another MAC, past its checks: the device
      row, the address row back to provisioning, then the push. */
  function SwapBoth(p: Place, w: World, k: Key, mac: string, stored: Fault, marked: Fault, s: Call, rest: Rest)
    : (World, D.Reply)
    requires HasReservation(p, w.r, k)
  {
    if stored.Before? then (w, D.StepFailed)
    else
      var put := w.(r := D.WithMac(w.r, k, mac));
      if stored.After? then (put, D.StepFailed) else ReapplyBoth(p, put, k, marked, s, rest)
  }

  lemma SwapKeepsSound(p: Place, w: World, k: Key, mac: string, stored: Fault, marked: Fault, s: Call, rest: Rest)
    requires Sound(p, w) && HasReservation(p, w.r, k) && Kea.Fold(mac) == mac
    ensures var w' := SwapBoth(p, w, k, mac, stored, marked, s, rest).0; Sound(p, w') && OnlyAbout(w, w', k)
  {
    if !stored.Before? {
      var put := w.(r := D.WithMac(w.r, k, mac));
      TruthfulStill(p, w.r, put.r, w.t.rows, k);
      ReapplyReserves(p, put, k, marked, s, rest);
      if stored.Fine? {
        OnlyAboutTransitive(w, put, ReapplyBoth(p, put, k, marked, s, rest).0, k);
      }
    }
  }

  /** A successful swap moves the reservation to the new MAC. */
  lemma SwapReserves(p: Place, w: World, k: Key, mac: string, stored: Fault, marked: Fault, s: Call, rest: Rest)
    requires Sound(p, w) && HasReservation(p, w.r, k) && Kea.Fold(mac) == mac
    ensures var (w', reply) := SwapBoth(p, w, k, mac, stored, marked, s, rest);
      reply.Done? ==> ReadyHere(w'.r, k) && Reserved(p, w', k) && Wanted(p, w'.r, k).mac == mac
  {
    if stored.Fine? {
      var put := w.(r := D.WithMac(w.r, k, mac));
      TruthfulStill(p, w.r, put.r, w.t.rows, k);
      ReapplyReserves(p, put, k, marked, s, rest);
    }
  }

  /** The writes of a swap that leave the device registered anew and its address
      row untouched. */
  predicate MarkLost(stored: Fault, marked: Fault) { stored.After? || (stored.Fine? && marked.Before?) }

  /** When a swap strands an address that was in order: exactly when the device
      row was written and the address row was not marked. */
  lemma SwapStrandsExactlyWhen(p: Place, w: World, k: Key, mac: string, stored: Fault, marked: Fault, s: Call,
                               rest: Rest)
    requires Sound(p, w) && ReadyHere(w.r, k) && Reserved(p, w, k)
    requires Kea.Fold(mac) == mac && mac != w.r.devices[k].mac
    ensures Stranded(p, SwapBoth(p, w, k, mac, stored, marked, s, rest).0, k) <==> MarkLost(stored, marked)
  {
    if !stored.Before? {
      var put := w.(r := D.WithMac(w.r, k, mac));
      TruthfulStill(p, w.r, put.r, w.t.rows, k);
      OldMacIsNotNew(p, w, k, mac);
      ReapplyReserves(p, put, k, marked, s, rest);
    }
  }

  lemma OldMacIsNotNew(p: Place, w: World, k: Key, mac: string)
    requires Sound(p, w) && Reserved(p, w, k) && Kea.Fold(mac) == mac && mac != w.r.devices[k].mac
    ensures !Reserved(p, w.(r := D.WithMac(w.r, k, mac)), k)
  {
    assert Single(w.t.rows, k);
    var r := Wanted(p, w.r, k);
    var i :| 0 <= i < |w.t.rows| && w.t.rows[i].description == r.description && Kea.Matches(w.t.rows[i], r);
  }

  lemma SwapRegisters(p: Place, w: World, k: Key, mac: string, stored: Fault, marked: Fault, s: Call, rest: Rest)
    requires Sound(p, w) && HasReservation(p, w.r, k) && Kea.Fold(mac) == mac && !stored.Before?
    ensures var r' := SwapBoth(p, w, k, mac, stored, marked, s, rest).0.r;
      r'.tenants == w.r.tenants && r'.devices == w.r.devices[k := D.Device(w.r.devices[k].trust, mac)]
  {
    var put := w.(r := D.WithMac(w.r, k, mac));
    TruthfulStill(p, w.r, put.r, w.t.rows, k);
    ReapplyReserves(p, put, k, marked, s, rest);
  }

  /** Registering a device as it is registered is a success that does nothing. */
  lemma SameRegistration(c: D.Config, r: D.Registry, k: Key, marked: Fault, plan: D.PushPlan)
    requires k in r.devices && D.TenantReady(r, k.0) && ValidLabel(k.1) && r.devices[k].trust in c.classes
    ensures D.CreateDevice(c, r, k, r.devices[k].trust, r.devices[k].mac, Fine, marked, plan) == (r, D.Done)
  {
    assert r.devices[k := r.devices[k]] == r.devices;
  }

  /** And asking again does not help: once the device row was written, the call
      sees no change of MAC, answers success, and goes nowhere near DHCP. */
  lemma RetryNeverMoves(p: Place, w: World, k: Key, trust: string, mac: string, stored: Fault, marked: Fault,
                        s: Call, rest: Rest, marked': Fault, plan: D.PushPlan)
    requires Sound(p, w) && HasReservation(p, w.r, k) && Kea.Fold(mac) == mac
    requires !stored.Before? && D.MayCreateDevice(p.c, w.r, k, trust, mac)
    ensures var r' := SwapBoth(p, w, k, mac, stored, marked, s, rest).0.r;
      D.CreateDevice(p.c, r', k, trust, mac, Fine, marked', plan) == (r', D.Done)
  {
    SwapRegisters(p, w, k, mac, stored, marked, s, rest);
    SameRegistration(p.c, SwapBoth(p, w, k, mac, stored, marked, s, rest).0.r, k, marked', plan);
  }

  const LAMP: Key := ("eds", "lamp")

  /** One device with one address, reserved as it should be. */
  function Example(): (Place, World) {
    (Place(D.Config(1, {"iot"}, map["iot" := Range(5, 5)], 1, n => "five"), map["iot" := Kea.Subnet(0, 9)],
           a => Kea.V4(5)),
     World(D.Registry(map["eds" := D.Tenant(1, D.Ready)], map[LAMP := D.Device("iot", "aa")],
                      map[LAMP := D.Address("iot", "five", true)], {}, map[]),
           Kea.Table([Kea.Row(1, "aa", Kea.V4(5), "eds-lamp", Kea.Description("eds", "lamp"))], [])))
  }

  /** The case: the device's MAC is changed, the status write is lost, and the
      retry reports success over a reservation for hardware that is gone. */
  lemma LostMarkStrands(s: Call, rest: Rest, plan: D.PushPlan)
    ensures var (p, w) := Example();
      && HasReservation(p, w.r, LAMP)
      && Reserved(p, w, LAMP)
      && Stranded(p, SwapBoth(p, w, LAMP, "bb", Fine, Before, s, rest).0, LAMP)
      && D.CreateDevice(p.c, SwapBoth(p, w, LAMP, "bb", Fine, Before, s, rest).0.r, LAMP, "iot", "bb", Fine, Fine, plan)
         == (SwapBoth(p, w, LAMP, "bb", Fine, Before, s, rest).0.r, D.Done)
  {
    var (p, w) := Example();
    var row := w.t.rows[0];
    assert Kea.Matches(row, Wanted(p, w.r, LAMP));
    var w' := SwapBoth(p, w, LAMP, "bb", Fine, Before, s, rest).0;
    assert Kea.Fold("aa")[0] == 'a' && Kea.Fold("bb")[0] == 'b';
    assert !Kea.Matches(row, Wanted(p, w'.r, LAMP));
    assert w'.r.devices[LAMP := D.Device("iot", "bb")] == w'.r.devices;
  }

  // --- A deletion -----------------------------------------------------------------------------------------

  /** The server's part of a deletion, the address's or the whole tenant's. */
  function Release(w: World, k: Key, q: Kea.RemovePlan): World {
    w.(t := Kea.Remove(w.t, DescriptionOf(k), q).0)
  }

  lemma ReleaseKeepsSound(p: Place, w: World, k: Key, q: Kea.RemovePlan)
    requires Sound(p, w)
    ensures Sound(p, Release(w, k, q)) && OnlyAbout(w, Release(w, k, q), k)
  {
    var w' := Release(w, k, q);
    Kea.CutSparesOthers(w.t.rows, DescriptionOf(k), q.delete);
    Kea.CutMembers(w.t.rows, DescriptionOf(k), q.delete);
    forall l: Key | ValidName(l.0) ensures Single(w'.t.rows, l) {
      assert Single(w.t.rows, l);
      Kea.CutKeepsSingle(w.t.rows, DescriptionOf(k), q.delete, DescriptionOf(l));
    }
  }

  /** The index of a reserved device's row. */
  lemma RowIndex(p: Place, w: World, k: Key) returns (i: nat)
    requires Reserved(p, w, k)
    ensures i < |w.t.rows| && w.t.rows[i].description == DescriptionOf(k) && Kea.AtMostOnce(w.t.rows, DescriptionOf(k))
  {
    i :| 0 <= i < |w.t.rows| && w.t.rows[i].description == DescriptionOf(k)
         && Kea.Matches(w.t.rows[i], Wanted(p, w.r, k));
  }

  /** How the delete of the device's own row goes. */
  ghost function OwnDelete(w: World, k: Key, q: Kea.RemovePlan): Fault {
    var own := Kea.OwnIndex(w.t.rows, DescriptionOf(k));
    if own.Some? then q.delete(w.t.rows[own.value].uuid) else Before
  }

  /** A release takes the row away exactly when the table was read and the
      delete was not lost, and says so exactly when nothing failed. */
  lemma ReleaseExactly(p: Place, w: World, k: Key, q: Kea.RemovePlan)
    requires Sound(p, w) && Reserved(p, w, k)
    ensures Reserved(p, Release(w, k, q), k) <==> !q.read || OwnDelete(w, k, q).Before?
    ensures Kea.Remove(w.t, DescriptionOf(k), q).1.Done? <==>
      q.read && OwnDelete(w, k, q).Fine? && q.reconfigure.Fine?
  {
    var d := DescriptionOf(k);
    var i := RowIndex(p, w, k);
    Kea.OwnIndexIsOnly(w.t.rows, d, i);
    Kea.CutOfSingle(w.t.rows, d, q.delete, i);
    if q.read && !OwnDelete(w, k, q).Before? && Reserved(p, Release(w, k, q), k) {
      var j := RowIndex(p, Release(w, k, q), k);
      OthersMembers(w.t.rows, d, Kea.Others(w.t.rows, d)[j]);
    }
  }

  /** DeleteDeviceAddress on both: the reservation, DNS, then the row. */
  function DeleteBoth(w: World, k: Key, q: Kea.RemovePlan, dns: bool, drop: Fault): (World, D.Reply) {
    if !D.MayDeleteAddress(w.r, k) then (w, D.DeleteAddress(w.r, k, false, drop).1)
    else
      var released := Kea.Remove(w.t, DescriptionOf(k), q).1.Done? && dns;
      var (r', reply) := D.DeleteAddress(w.r, k, released, drop);
      (World(r', Release(w, k, q).t), reply)
  }

  lemma ReleasedIsAbsent(w: World, k: Key, q: Kea.RemovePlan)
    requires Kea.Remove(w.t, DescriptionOf(k), q).1.Done?
    ensures Absent(Release(w, k, q).t.rows, k)
  {
    Kea.CutTakesAll(w.t.rows, DescriptionOf(k), q.delete);
    forall x | x in Release(w, k, q).t.rows ensures x.description != DescriptionOf(k) {
      OthersMembers(w.t.rows, DescriptionOf(k), x);
    }
  }

  /** A deletion is about its own device, and the row goes only when no row of
      the device's is left in the table. */
  lemma DeleteReleases(p: Place, w: World, k: Key, q: Kea.RemovePlan, dns: bool, drop: Fault)
    requires Sound(p, w)
    ensures var w' := DeleteBoth(w, k, q, dns, drop).0;
      Sound(p, w') && OnlyAbout(w, w', k) && (k !in w'.r.addresses ==> k !in w.r.addresses || Absent(w'.t.rows, k))
  {
    if D.MayDeleteAddress(w.r, k) {
      ReleaseKeepsSound(p, w, k, q);
      var w1, w' := Release(w, k, q), DeleteBoth(w, k, q, dns, drop).0;
      if k !in w'.r.addresses {
        ReleasedIsAbsent(w, k, q);
        TruthfulStill(p, w1.r, w'.r, w'.t.rows, k);
      }
    }
  }

  /** The failures of a deletion that leave the row ready and take the reservation. */
  ghost predicate ReleaseUnfinished(w: World, k: Key, q: Kea.RemovePlan, dns: bool, drop: Fault) {
    && D.MayDeleteAddress(w.r, k) && q.read && !OwnDelete(w, k, q).Before?
    && (OwnDelete(w, k, q).After? || !q.reconfigure.Fine? || !dns || drop.Before?)
  }

  /** When a deletion strands an address that was in order: exactly when the
      server's row went and something after it failed. */
  lemma DeleteStrandsExactlyWhen(p: Place, w: World, k: Key, q: Kea.RemovePlan, dns: bool, drop: Fault)
    requires Sound(p, w) && ReadyHere(w.r, k) && Reserved(p, w, k)
    ensures Stranded(p, DeleteBoth(w, k, q, dns, drop).0, k) <==> ReleaseUnfinished(w, k, q, dns, drop)
  {
    ReleaseExactly(p, w, k, q);
  }

  // --- Runs ------------------------------------------------------------------------------------------------

  datatype Event =
    | Elsewhere(call: D.Call)
    | CreateAddress(request: D.Request, stored: Fault, s: Call, rest: Rest, reply: D.Reply)
    | SwapMac(mac: string, stored: Fault, marked: Fault, s: Call, rest: Rest)
    | DeleteAddress(q: Kea.RemovePlan, dns: bool, drop: Fault)
    | Unreserve(q: Kea.RemovePlan)
    | Reensure(s: Call)
    | Inventory(rows: seq<Kea.Row>, running: seq<Kea.Row>)
    | Rebuilt

  /** Calls that go nowhere near the DHCP server. A tenant's row goes only after
      each of its reservations did. */
  ghost predicate StaysElsewhere(w: World, k: Key, call: D.Call) {
    match call
    case NewTenant(_) => ValidName(k.0)
    case EndTenant => forall l :: l in w.r.addresses && l.0 == k.0 ==> Absent(w.t.rows, l)
    case CreateDeviceCall(_, mac, _, _, _) => !D.Moves(w.r, k, mac) && Kea.Fold(mac) == mac
    case CreateAddressCall(_, _, _, _) => false
    case DeleteAddressCall(_, _) => false
    case _ => true
  }

  /** Inventory's writer leaves the API's rows alone, and writes none of their descriptions. */
  ghost predicate LeavesApiRows(rows: seq<Kea.Row>, rows': seq<Kea.Row>) {
    && (forall x: Kea.Row :: HasPrefix(x.description, Kea.API_MARK) ==> (x in rows <==> x in rows'))
    && (AllSingle(rows) ==> AllSingle(rows'))
  }

  ghost predicate Step(p: Place, w: World, w': World, k: Key, e: Event) {
    match e
    case Elsewhere(call) => StaysElsewhere(w, k, call) && D.Step(p.c, w.r, w'.r, k, call) && w'.t == w.t
    case CreateAddress(q, stored, s, rest, reply) => CreateBoth(p, w, w', k, q, stored, s, rest, reply)
    case SwapMac(mac, stored, marked, s, rest) =>
      && HasReservation(p, w.r, k) && D.Moves(w.r, k, mac) && mac != "" && Kea.Fold(mac) == mac
      && !D.MacElsewhere(w.r, w.r.addresses[k].trust, mac, k)
      && w' == SwapBoth(p, w, k, mac, stored, marked, s, rest).0
    case DeleteAddress(q, dns, drop) => w' == DeleteBoth(w, k, q, dns, drop).0
    case Unreserve(q) =>
      // a step of the tenant's own deletion
      k in w.r.addresses && w' == Release(w, k, q)
    case Reensure(s) =>
      // one turn of ensureAddresses
      HasReservation(p, w.r, k) && w' == w.(t := Kea.Ensure(w.t, Wanted(p, w.r, k), s.uuid, s.plan).0)
    case Inventory(rows, running) => w' == w.(t := Kea.Table(rows, running)) && LeavesApiRows(w.t.rows, rows)
    case Rebuilt => w' == w.(t := Kea.Table([], []))
  }

  /** The runs hold every call on both, the tenant's own deletion step by step,
      inventory's writes and the loss of the table. */
  lemma StepsAreThere(p: Place, w: World, k: Key, q: Kea.RemovePlan, dns: bool, drop: Fault, s: Call,
                      rows: seq<Kea.Row>)
    ensures Step(p, w, DeleteBoth(w, k, q, dns, drop).0, k, DeleteAddress(q, dns, drop))
    ensures k in w.r.addresses ==>
      Step(p, w, World(w.r, Kea.Remove(w.t, Kea.Description(k.0, k.1), q).0), k, Unreserve(q))
    ensures HasReservation(p, w.r, k) ==>
      Step(p, w, World(w.r, Kea.Ensure(w.t, Wanted(p, w.r, k), s.uuid, s.plan).0), k, Reensure(s))
    ensures LeavesApiRows(w.t.rows, rows) ==> Step(p, w, World(w.r, Kea.Table(rows, rows)), k, Inventory(rows, rows))
    ensures Step(p, w, World(w.r, Kea.Table([], [])), k, Rebuilt)
  {
  }

  lemma SwapIsThere(p: Place, w: World, k: Key, mac: string, stored: Fault, marked: Fault, s: Call, rest: Rest)
    requires HasReservation(p, w.r, k) && w.r.devices[k].mac != mac && mac != "" && Kea.Fold(mac) == mac
    requires forall l :: l in w.r.addresses && l in w.r.devices && l != k ==> w.r.devices[l].mac != mac
    ensures Step(p, w, SwapBoth(p, w, k, mac, stored, marked, s, rest).0, k, SwapMac(mac, stored, marked, s, rest))
  {
  }

  type Trace = seq<(Key, Event)>

  ghost predicate StepAt(p: Place, states: seq<World>, trace: Trace, i: nat)
    requires i < |trace| && |states| == |trace| + 1
  {
    Step(p, states[i], states[i + 1], trace[i].0, trace[i].1)
  }

  /** From an empty registry and a table of inventory's rows alone. */
  ghost predicate Run(p: Place, states: seq<World>, trace: Trace) {
    && |states| == |trace| + 1
    && states[0].r == D.Registry(map[], map[], map[], {}, map[])
    && (forall k: Key :: ValidName(k.0) ==> Absent(states[0].t.rows, k))
    && forall i :: 0 <= i < |trace| ==> StepAt(p, states, trace, i)
  }

  // --- The registry side ----------------------------------------------------------------------------------

  /** The registry moves as Devices says, with the answers the table gives. */
  lemma CreateKeepsInv(p: Place, w: World, w': World, k: Key, q: D.Request, stored: Fault, s: Call, rest: Rest,
                       reply: D.Reply)
    requires D.Inv(p.c, w.r) && CreateBoth(p, w, w', k, q, stored, s, rest, reply)
    ensures D.Inv(p.c, w'.r)
  {
    if !D.MayCreateAddress(p.c, w.r, k, q) || stored.Before? {
    } else if k in w.r.addresses {
      D.ReappliedKeepsInv(p.c, w.r, k, stored, PlanFor(p, D.WithReady(w.r, k, false), w.t, k, s, rest));
    } else {
      var held, pick :|
        D.PickedUnderLock(p.c, w.r, k, q, held, pick) && AfterPickBoth(p, w, w', k, pick, stored, s, rest, reply);
      if pick.Picked? {
        var plan := PlanFor(p, D.Given(w.r, k, pick.address), w.t, k, s, rest);
        D.AfterPickKeepsInv(p.c, w.r, k, q, held, pick, stored, plan);
        assert w'.r == D.AfterPick(w.r, k, pick, stored, plan).0;
      }
    }
  }

  lemma SwapKeepsInv(p: Place, w: World, k: Key, mac: string, stored: Fault, marked: Fault, s: Call, rest: Rest)
    requires D.Inv(p.c, w.r) && HasReservation(p, w.r, k) && mac != ""
    requires !D.MacElsewhere(w.r, w.r.addresses[k].trust, mac, k)
    ensures D.Inv(p.c, SwapBoth(p, w, k, mac, stored, marked, s, rest).0.r)
  {
    var put := D.WithMac(w.r, k, mac);
    D.SwapKeepsAllocation(p.c, w.r, k, w.r.devices[k].trust, mac);
    D.SameHolders(p.c, w.r, put);
    D.ReappliedKeepsInv(p.c, put, k, marked, PlanFor(p, D.WithReady(put, k, false), w.t, k, s, rest));
  }

  lemma StepKeepsRegistry(p: Place, w: World, w': World, k: Key, e: Event)
    requires D.Inv(p.c, w.r) && Step(p, w, w', k, e)
    ensures D.Inv(p.c, w'.r)
  {
    match e
    case Elsewhere(call) => D.StepKeepsInv(p.c, w.r, w'.r, k, call);
    case CreateAddress(q, stored, s, rest, reply) => CreateKeepsInv(p, w, w', k, q, stored, s, rest, reply);
    case SwapMac(mac, stored, marked, s, rest) => SwapKeepsInv(p, w, k, mac, stored, marked, s, rest);
    case DeleteAddress(q, dns, drop) =>
      D.DeleteAddressKeepsInv(p.c, w.r, k, Kea.Remove(w.t, DescriptionOf(k), q).1.Done? && dns, drop);
    case _ =>
  }

  // --- The table side ---------------------------------------------------------------------------------------

  /** Calls elsewhere leave every holder's address, MAC and readiness alone. */
  ghost predicate HoldersKept(r: D.Registry, r': D.Registry) {
    && (forall k :: k in r'.addresses ==> k in r.addresses && r'.addresses[k] == r.addresses[k])
    && (forall k :: k in r'.addresses && k in r'.devices ==> k in r.devices && r'.devices[k] == r.devices[k])
    && (forall t :: t in r'.tenants ==> t in r.tenants || ValidName(t))
  }

  lemma DeviceElsewhere(c: D.Config, r: D.Registry, k: Key, trust: string, mac: string, stored: Fault, marked: Fault,
                        plan: D.PushPlan)
    requires D.Inv(c, r) && !D.Moves(r, k, mac)
    ensures HoldersKept(r, D.CreateDevice(c, r, k, trust, mac, stored, marked, plan).0)
  {
    if k in r.addresses {
      assert D.HolderFits(c, r, k);
    }
  }

  lemma DeletedDeviceHoldsNothing(r: D.Registry, k: Key, drop: Fault)
    ensures HoldersKept(r, D.DeleteDevice(r, k, drop).0)
  {
  }

  lemma EndTenantKeepsHolders(r: D.Registry, t: string)
    ensures HoldersKept(r, D.DropTenant(r, t))
  {
  }

  /** Tenants, workloads and records are no holder's business. */
  lemma SameHoldersKept(r: D.Registry, r': D.Registry)
    requires r'.addresses == r.addresses && r'.devices == r.devices
    requires forall t :: t in r'.tenants ==> t in r.tenants || ValidName(t)
    ensures HoldersKept(r, r')
  {
  }

  lemma RecordCallsKeepHolders(c: D.Config, r: D.Registry, r': D.Registry, k: Key, call: D.Call)
    requires D.Step(c, r, r', k, call)
    requires call.PutRecordCall? || call.DeleteRecordCall? || call.CreateWorkloadCall? || call.DeleteWorkloadCall?
    ensures r'.addresses == r.addresses && r'.devices == r.devices && r'.tenants == r.tenants
  {
  }

  lemma ElsewhereKeepsHolders(c: D.Config, w: World, r': D.Registry, k: Key, call: D.Call)
    requires D.Inv(c, w.r) && StaysElsewhere(w, k, call) && D.Step(c, w.r, r', k, call)
    ensures HoldersKept(w.r, r')
    ensures forall l :: l in w.r.addresses && l !in r'.addresses ==> Absent(w.t.rows, l)
  {
    var r := w.r;
    match call
    case CreateDeviceCall(trust, mac, stored, marked, plan) =>
      DeviceElsewhere(c, r, k, trust, mac, stored, marked, plan);
    case DeleteDeviceCall(drop) => DeletedDeviceHoldsNothing(r, k, drop);
    case EndTenant => EndTenantKeepsHolders(r, k.0);
    case NewTenant(_) => SameHoldersKept(r, r');
    case SetStatus(_) => SameHoldersKept(r, r');
    case _ =>
      RecordCallsKeepHolders(c, r, r', k, call);
      SameHoldersKept(r, r');
  }

  /** Site.Validate on the ranges: every class's range is within its subnet. */
  ghost predicate WellPlaced(p: Place) {
    && p.subnets.Keys == p.c.ranges.Keys
    && forall trust, n: nat :: trust in p.c.ranges && p.c.ranges[trust].first <= n <= p.c.ranges[trust].last ==>
      p.ip(p.c.text(n)) == Kea.V4(n) && p.subnets[trust].Contains(Kea.V4(n))
  }

  lemma HoldersHaveReservations(p: Place, r: D.Registry, k: Key)
    requires WellPlaced(p) && D.Inv(p.c, r) && k in r.addresses
    ensures HasReservation(p, r, k)
  {
    assert D.HolderFits(p.c, r, k);
  }

  lemma ElsewhereKeepsNormalised(p: Place, w: World, r': D.Registry, k: Key, call: D.Call)
    requires Normalised(w.r) && StaysElsewhere(w, k, call) && D.Step(p.c, w.r, r', k, call)
    ensures Normalised(r')
  {
    match call
    case CreateDeviceCall(trust, mac, stored, marked, plan) =>
      PlainDevices(p.c, w.r, k, trust, mac, stored, marked, plan);
    case _ =>
      SameDevices(p.c, w.r, r', k, call);
  }

  lemma PlainDevices(c: D.Config, r: D.Registry, k: Key, trust: string, mac: string, stored: Fault, marked: Fault,
                     plan: D.PushPlan)
    requires !D.Moves(r, k, mac)
    ensures var r' := D.CreateDevice(c, r, k, trust, mac, stored, marked, plan).0;
      r'.devices == r.devices || r'.devices == r.devices[k := D.Device(trust, mac)]
  {
  }

  lemma SameDevices(c: D.Config, r: D.Registry, r': D.Registry, k: Key, call: D.Call)
    requires D.Step(c, r, r', k, call)
    requires !call.CreateDeviceCall? && !call.CreateAddressCall? && !call.DeleteAddressCall?
    ensures forall l :: l in r'.devices ==> l in r.devices && r'.devices[l] == r.devices[l]
  {
  }

  lemma ElsewhereKeepsSound(p: Place, w: World, w': World, k: Key, call: D.Call)
    requires WellPlaced(p) && D.Inv(p.c, w.r) && D.Inv(p.c, w'.r) && Sound(p, w) && Step(p, w, w', k, Elsewhere(call))
    ensures Sound(p, w')
  {
    ElsewhereKeepsHolders(p.c, w, w'.r, k, call);
    ElsewhereKeepsNormalised(p, w, w'.r, k, call);
    forall x, l: Key | x in w'.t.rows && ValidName(l.0) && x.description == DescriptionOf(l)
      ensures RowFits(p, w'.r, l, x)
    {
      assert RowFits(p, w.r, l, x);
      HoldersHaveReservations(p, w'.r, l);
    }
  }

  lemma ReensureKeepsSound(p: Place, w: World, w': World, k: Key, s: Call)
    requires Sound(p, w) && Step(p, w, w', k, Reensure(s))
    ensures Sound(p, w') && OnlyAbout(w, w', k)
    ensures Reserved(p, w, k) ==> Reserved(p, w', k)
    ensures Kea.Ensure(w.t, Wanted(p, w.r, k), s.uuid, s.plan).1.Done? ==> Reserved(p, w', k)
  {
    var r := Wanted(p, w.r, k);
    assert Single(w.t.rows, k);
    EnsureSpares(w.t, r, s.uuid, s.plan);
    EnsureKeepsAllSingle(w.t, r, s.uuid, s.plan);
    EnsureKeepsTruthful(p, w.r, w.t, k, s);
    if Kea.Ensure(w.t, r, s.uuid, s.plan).1.Done? || Reserved(p, w, k) {
      EnsureReserves(w.t, r, s.uuid, s.plan);
    }
  }

  lemma ApiMark(k: Key)
    ensures HasPrefix(DescriptionOf(k), Kea.API_MARK)
  {
  }

  lemma InventoryKeepsSound(p: Place, w: World, w': World, rows: seq<Kea.Row>, running: seq<Kea.Row>)
    requires Sound(p, w) && w' == w.(t := Kea.Table(rows, running)) && LeavesApiRows(w.t.rows, rows)
    ensures Sound(p, w')
    ensures forall k :: k in w.r.addresses ==> (Reserved(p, w', k) <==> Reserved(p, w, k))
  {
    forall x, k: Key | x in rows && ValidName(k.0) && x.description == DescriptionOf(k) ensures RowFits(p, w.r, k, x) {
      ApiMark(k);
      assert x in w.t.rows;
    }
    forall k | k in w.r.addresses ensures Reserved(p, w', k) <==> Reserved(p, w, k) {
      ApiMark(k);
      if HasReservation(p, w.r, k) {
        ReservedByMac(p, w, k);
        ReservedByMac(p, w', k);
      }
    }
  }

  lemma StepKeepsSound(p: Place, w: World, w': World, k: Key, e: Event)
    requires WellPlaced(p) && D.Inv(p.c, w.r) && D.Inv(p.c, w'.r) && Sound(p, w) && Step(p, w, w', k, e)
    ensures Sound(p, w')
  {
    match e
    case Elsewhere(call) => ElsewhereKeepsSound(p, w, w', k, call);
    case CreateAddress(q, stored, s, rest, reply) => CreateReserves(p, w, w', k, q, stored, s, rest, reply);
    case SwapMac(mac, stored, marked, s, rest) => SwapKeepsSound(p, w, k, mac, stored, marked, s, rest);
    case DeleteAddress(q, dns, drop) => DeleteReleases(p, w, k, q, dns, drop);
    case Unreserve(q) => ReleaseKeepsSound(p, w, k, q);
    case Reensure(s) => ReensureKeepsSound(p, w, w', k, s);
    case Inventory(rows, running) => InventoryKeepsSound(p, w, w', rows, running);
    case Rebuilt =>
  }

  lemma {:induction false} RunKeepsBoth(p: Place, states: seq<World>, trace: Trace, i: nat)
    requires WellPlaced(p) && Run(p, states, trace) && i <= |trace|
    ensures D.Inv(p.c, states[i].r) && Sound(p, states[i])
  {
    if i == 0 {
      D.RunKeepsInv(p.c, [states[0].r], 0);
      InitiallySound(p, states[0]);
    } else {
      RunKeepsBoth(p, states, trace, i - 1);
      assert StepAt(p, states, trace, i - 1);
      StepKeepsRegistry(p, states[i - 1], states[i], trace[i - 1].0, trace[i - 1].1);
      StepKeepsSound(p, states[i - 1], states[i], trace[i - 1].0, trace[i - 1].1);
    }
  }

  lemma InitiallySound(p: Place, w: World)
    requires w.r == D.Registry(map[], map[], map[], {}, map[])
    requires forall k: Key :: ValidName(k.0) ==> Absent(w.t.rows, k)
    ensures Sound(p, w)
  {
    forall k: Key | ValidName(k.0) ensures Single(w.t.rows, k) {
      assert Absent(w.t.rows, k);
      forall i | 0 <= i < |w.t.rows| ensures w.t.rows[i].description != DescriptionOf(k) {
        assert w.t.rows[i] in w.t.rows;
      }
    }
    forall x, k: Key | x in w.t.rows && ValidName(k.0) ensures x.description != DescriptionOf(k) {
      assert Absent(w.t.rows, k);
    }
  }

  // --- The guarantees ------------------------------------------------------------------------------------------

  /** At every point of every run, every row of the API's in the DHCP table is a
      device's that holds an address, once, and carries that address. */
  lemma TableIsTruthful(p: Place, states: seq<World>, trace: Trace, i: nat, x: Kea.Row, k: Key)
    requires WellPlaced(p) && Run(p, states, trace) && i <= |trace|
    requires x in states[i].t.rows && ValidName(k.0) && x.description == DescriptionOf(k)
    ensures k in states[i].r.addresses && x.ip == p.ip(states[i].r.addresses[k].address)
    ensures x.hostname == k.0 + "-" + k.1
    ensures Kea.AtMostOnce(states[i].t.rows, x.description)
  {
    RunKeepsBoth(p, states, trace, i);
    assert RowFits(p, states[i].r, k, x);
    assert Single(states[i].t.rows, k);
  }

  /** So a ready address is stranded exactly when the table has no row for it
      under the device's MAC. */
  lemma StrandedExactlyWhen(p: Place, states: seq<World>, trace: Trace, i: nat, k: Key)
    requires WellPlaced(p) && Run(p, states, trace) && i <= |trace| && ReadyHere(states[i].r, k)
    ensures k in states[i].r.devices
    ensures Stranded(p, states[i], k) <==>
      !exists x :: x in states[i].t.rows && x.description == DescriptionOf(k)
                   && Kea.EqualFold(x.hw, states[i].r.devices[k].mac)
  {
    RunKeepsBoth(p, states, trace, i);
    HoldersHaveReservations(p, states[i].r, k);
    ReservedByMac(p, states[i], k);
  }

  /** The four things that strand an address: a swap whose mark was lost, a
      deletion or the tenant's own that took the row and did not finish, and
      the loss of the router's table. */
  ghost predicate Strands(w: World, k: Key, e: Event, l: Key) {
    match e
    case SwapMac(_, stored, marked, _, _) => l == k && MarkLost(stored, marked)
    case DeleteAddress(q, dns, drop) => l == k && ReleaseUnfinished(w, k, q, dns, drop)
    case Unreserve(q) => l == k && q.read && !OwnDelete(w, k, q).Before?
    case Rebuilt => true
    case _ => false
  }

  /** From an address in order, a step strands it exactly when it is one of those. */
  lemma StepStrandsExactlyWhen(p: Place, w: World, w': World, k: Key, e: Event, l: Key)
    requires WellPlaced(p) && D.Inv(p.c, w.r) && D.Inv(p.c, w'.r) && Sound(p, w) && Step(p, w, w', k, e)
    requires ReadyHere(w.r, l) && Reserved(p, w, l)
    ensures Stranded(p, w', l) <==> Strands(w, k, e, l)
  {
    if e.Elsewhere? {
      ElsewhereKeepsHolders(p.c, w, w'.r, k, e.call);
      ElsewhereAlike(p, w, w', l);
    } else if e.Inventory? {
      InventoryKeepsSound(p, w, w', e.rows, e.running);
    } else if !e.Rebuilt? {
      if l == k {
        OwnStepStrandsExactlyWhen(p, w, w', k, e);
      } else {
        OtherStepStrandsNone(p, w, w', k, e, l);
      }
    }
  }

  lemma OtherStepStrandsNone(p: Place, w: World, w': World, k: Key, e: Event, l: Key)
    requires Sound(p, w) && Step(p, w, w', k, e) && !e.Elsewhere? && !e.Inventory? && !e.Rebuilt?
    requires ReadyHere(w.r, l) && Reserved(p, w, l) && l != k
    ensures !Stranded(p, w', l)
  {
    StepIsAboutK(p, w, w', k, e);
    if w' != w {
      OthersAlike(p, w, w', k, l);
    }
  }

  lemma ElsewhereAlike(p: Place, w: World, w': World, l: Key)
    requires WellPlaced(p) && D.Inv(p.c, w'.r) && HoldersKept(w.r, w'.r) && w'.t == w.t
    requires Reserved(p, w, l)
    ensures !Stranded(p, w', l)
  {
    if l in w'.r.addresses {
      HoldersHaveReservations(p, w'.r, l);
    }
  }

  lemma StepIsAboutK(p: Place, w: World, w': World, k: Key, e: Event)
    requires Sound(p, w) && Step(p, w, w', k, e) && !e.Elsewhere? && !e.Inventory? && !e.Rebuilt?
    ensures OnlyAbout(w, w', k) && AllSingle(w'.t.rows) && (w' == w || ValidName(k.0))
  {
    match e
    case CreateAddress(q, stored, s, rest, reply) => CreateReserves(p, w, w', k, q, stored, s, rest, reply);
    case SwapMac(mac, stored, marked, s, rest) => SwapKeepsSound(p, w, k, mac, stored, marked, s, rest);
    case DeleteAddress(q, dns, drop) => DeleteReleases(p, w, k, q, dns, drop);
    case Unreserve(q) => ReleaseKeepsSound(p, w, k, q);
    case Reensure(s) => ReensureKeepsSound(p, w, w', k, s);
  }

  lemma OwnStepStrandsExactlyWhen(p: Place, w: World, w': World, k: Key, e: Event)
    requires Sound(p, w) && Step(p, w, w', k, e) && !e.Elsewhere? && !e.Inventory? && !e.Rebuilt?
    requires ReadyHere(w.r, k) && Reserved(p, w, k)
    ensures Stranded(p, w', k) <==> Strands(w, k, e, k)
  {
    match e
    case CreateAddress(q, stored, s, rest, reply) => CreateReserves(p, w, w', k, q, stored, s, rest, reply);
    case SwapMac(mac, stored, marked, s, rest) => SwapStrandsExactlyWhen(p, w, k, mac, stored, marked, s, rest);
    case DeleteAddress(q, dns, drop) => DeleteStrandsExactlyWhen(p, w, k, q, dns, drop);
    case Unreserve(q) => ReleaseExactly(p, w, k, q);
    case Reensure(s) => ReensureKeepsSound(p, w, w', k, s);
  }

  /** An address that is not ready is never made ready and stranded in one step. */
  lemma NotReadyIsNotStranded(p: Place, w: World, w': World, k: Key, e: Event, l: Key)
    requires WellPlaced(p) && D.Inv(p.c, w.r) && Sound(p, w) && Step(p, w, w', k, e) && !ReadyHere(w.r, l)
    ensures !Stranded(p, w', l)
  {
    match e
    case Elsewhere(call) => ElsewhereKeepsHolders(p.c, w, w'.r, k, call);
    case CreateAddress(q, stored, s, rest, reply) => CreateReserves(p, w, w', k, q, stored, s, rest, reply);
    case SwapMac(mac, stored, marked, s, rest) => SwapOfUnready(p, w, k, mac, stored, marked, s, rest);
    case DeleteAddress(q, dns, drop) =>
    case _ =>
  }

  lemma SwapOfUnready(p: Place, w: World, k: Key, mac: string, stored: Fault, marked: Fault, s: Call, rest: Rest)
    requires Sound(p, w) && HasReservation(p, w.r, k) && Kea.Fold(mac) == mac
    ensures var w' := SwapBoth(p, w, k, mac, stored, marked, s, rest).0;
      && OnlyAbout(w, w', k) && (!ReadyHere(w.r, k) ==> !Stranded(p, w', k))
  {
    SwapKeepsSound(p, w, k, mac, stored, marked, s, rest);
    if !stored.Before? {
      var put := w.(r := D.WithMac(w.r, k, mac));
      TruthfulStill(p, w.r, put.r, w.t.rows, k);
      ReapplyReserves(p, put, k, marked, s, rest);
    }
  }

  /** Over every stretch of every run: an address that was not stranded at its
      start is stranded at its end only if one of the four happened to it in
      between; with none of them, ready means reserved. */
  lemma {:induction false} ReadyIsReserved(p: Place, states: seq<World>, trace: Trace, i: nat, j: nat, l: Key)
    requires WellPlaced(p) && Run(p, states, trace) && i <= j <= |trace| && !Stranded(p, states[i], l)
    requires forall n :: i <= n < j ==> !Strands(states[n], trace[n].0, trace[n].1, l)
    ensures ReadyHere(states[j].r, l) ==> Reserved(p, states[j], l)
    decreases j
  {
    if i < j {
      ReadyIsReserved(p, states, trace, i, j - 1, l);
      RunKeepsBoth(p, states, trace, j - 1);
      RunKeepsBoth(p, states, trace, j);
      assert StepAt(p, states, trace, j - 1);
      var w, w', k, e := states[j - 1], states[j], trace[j - 1].0, trace[j - 1].1;
      if ReadyHere(w.r, l) {
        StepStrandsExactlyWhen(p, w, w', k, e, l);
      } else {
        NotReadyIsNotStranded(p, w, w', k, e, l);
      }
    }
  }

  // --- ensureAddresses ---------------------------------------------------------------------------------------------

  /** How the i-th turn goes. */
  datatype Turn = Turn(s: Call, dns: bool)

  ghost predicate Ensurable(p: Place, r: D.Registry, keys: seq<Key>) {
    Distinct(keys) && forall i :: 0 <= i < |keys| ==> HasReservation(p, r, keys[i]) && ValidName(keys[i].0)
  }

  /** Each address in turn, up to the first failure. */
  ghost function EnsureEach(p: Place, r: D.Registry, t: Kea.Table, keys: seq<Key>, turns: nat -> Turn)
    : (Kea.Table, bool)
    requires Ensurable(p, r, keys)
  {
    if keys == [] then (t, true)
    else
      var n := |keys| - 1;
      var (t1, ok) := EnsureEach(p, r, t, keys[..n], turns);
      if !ok then (t1, false)
      else
        var (t2, reply) := Kea.Ensure(t1, Wanted(p, r, keys[n]), turns(n).s.uuid, turns(n).s.plan);
        (t2, reply.Done? && turns(n).dns)
  }

  /** One turn that succeeds adds its reservation to those that stand. */
  lemma TurnKeepsReserved(p: Place, r: D.Registry, t: Kea.Table, keys: seq<Key>, s: Call, i: nat)
    requires Ensurable(p, r, keys) && i < |keys| && AllSingle(t.rows)
    requires i < |keys| - 1 ==> Kea.Reserved(t.rows, Wanted(p, r, keys[i]))
    requires Kea.Ensure(t, Wanted(p, r, keys[|keys| - 1]), s.uuid, s.plan).1.Done?
    ensures Kea.Reserved(Kea.Ensure(t, Wanted(p, r, keys[|keys| - 1]), s.uuid, s.plan).0.rows, Wanted(p, r, keys[i]))
  {
    var k := keys[|keys| - 1];
    var last := Wanted(p, r, k);
    assert Single(t.rows, k) && Single(t.rows, keys[i]);
    if i == |keys| - 1 {
      EnsureReserves(t, last, s.uuid, s.plan);
    } else {
      Kea.DescriptionsDiffer(keys[i].0, keys[i].1, k.0, k.1);
      EnsureSpares(t, last, s.uuid, s.plan);
      EnsureKeepsSingle(t, last, s.uuid, s.plan, DescriptionOf(keys[i]));
      SparedStaysReserved(t.rows, Kea.Ensure(t, last, s.uuid, s.plan).0.rows, last.description, Wanted(p, r, keys[i]));
    }
  }

  /** One ensureAddresses that succeeds leaves every address of its list in the
      table, once, with the registry's address and MAC, whatever of the list the
      table held before. */
  lemma {:induction false} EnsureEachRestores(p: Place, r: D.Registry, t: Kea.Table, keys: seq<Key>, turns: nat -> Turn)
    requires Ensurable(p, r, keys) && AllSingle(t.rows)
    ensures AllSingle(EnsureEach(p, r, t, keys, turns).0.rows)
    ensures EnsureEach(p, r, t, keys, turns).1 ==>
      forall i :: 0 <= i < |keys| ==> Kea.Reserved(EnsureEach(p, r, t, keys, turns).0.rows, Wanted(p, r, keys[i]))
  {
    if keys != [] {
      var n := |keys| - 1;
      EnsureEachRestores(p, r, t, keys[..n], turns);
      var (t1, ok) := EnsureEach(p, r, t, keys[..n], turns);
      if ok {
        var s := turns(n).s;
        assert Single(t1.rows, keys[n]);
        EnsureKeepsAllSingle(t1, Wanted(p, r, keys[n]), s.uuid, s.plan);
        forall i | 0 <= i < |keys| && EnsureEach(p, r, t, keys, turns).1
          ensures Kea.Reserved(EnsureEach(p, r, t, keys, turns).0.rows, Wanted(p, r, keys[i]))
        {
          assert i < n ==> keys[..n][i] == keys[i];
          TurnKeepsReserved(p, r, t1, keys, s, i);
        }
      }
    }
  }

  /** Every call answered and every write through. */
  ghost predicate Unhindered(turns: nat -> Turn) {
    forall i :: turns(i).dns && turns(i).s.plan == Kea.Plan(true, true, Fine, Fine)
  }

  /** No two classes share part of a subnet. */
  ghost predicate ClassesApart(p: Place) {
    forall a, b :: a in p.subnets && b in p.subnets && a != b ==> p.subnets[a].Disjoint(p.subnets[b])
  }

  /** A row that is one of these holders' own. */
  ghost predicate IsOwnRow(p: Place, r: D.Registry, k: Key, x: Kea.Row)
    requires HasReservation(p, r, k)
  {
    x.description == DescriptionOf(k) && x.ip == Wanted(p, r, k).address && x.hw == Wanted(p, r, k).mac
  }

  lemma HeldAddressIsPlaced(p: Place, r: D.Registry, k: Key) returns (n: nat)
    requires WellPlaced(p) && D.Inv(p.c, r) && HasReservation(p, r, k)
    ensures r.addresses[k].address == p.c.text(n) && Wanted(p, r, k).address == Kea.V4(n)
    ensures Wanted(p, r, k).subnet.Contains(Kea.V4(n))
  {
    assert D.HolderFits(p.c, r, k);
    var trust := r.addresses[k].trust;
    n :| p.c.ranges[trust].first <= n <= p.c.ranges[trust].last && r.addresses[k].address == p.c.text(n);
  }

  lemma OwnRowsDoNotBlock(p: Place, r: D.Registry, k: Key, l: Key, x: Kea.Row)
    requires WellPlaced(p) && ClassesApart(p) && D.Inv(p.c, r) && Normalised(r) && k != l
    requires HasReservation(p, r, k) && HasReservation(p, r, l) && IsOwnRow(p, r, l, x)
    ensures !Kea.Blocks(Wanted(p, r, k), x)
  {
    assert D.Apart(r, k, l);
    var m := HeldAddressIsPlaced(p, r, k);
    var n := HeldAddressIsPlaced(p, r, l);
    if r.addresses[k].trust != r.addresses[l].trust {
      assert p.subnets[r.addresses[k].trust].Disjoint(p.subnets[r.addresses[l].trust]);
    }
  }

  /** The rows of a table after some turns: those it began with, and the holders' own. */
  ghost predicate OnlyAdds(p: Place, r: D.Registry, t: Kea.Table, keys: seq<Key>, rows: seq<Kea.Row>)
    requires Ensurable(p, r, keys)
  {
    forall x :: x in rows ==> x in t.rows || exists j :: 0 <= j < |keys| && IsOwnRow(p, r, keys[j], x)
  }

  /** Nothing in the table is of this list, or in its way. */
  ghost predicate Clear(p: Place, r: D.Registry, t: Kea.Table, keys: seq<Key>)
    requires Ensurable(p, r, keys)
  {
    forall x, i :: x in t.rows && 0 <= i < |keys| ==>
      x.description != DescriptionOf(keys[i]) && !Kea.Blocks(Wanted(p, r, keys[i]), x)
  }

  lemma OneMoreRow(p: Place, r: D.Registry, t: Kea.Table, keys: seq<Key>, rows: seq<Kea.Row>, uuid: nat)
    requires Ensurable(p, r, keys) && keys != [] && OnlyAdds(p, r, t, keys[..|keys| - 1], rows)
    ensures OnlyAdds(p, r, t, keys, rows + [Kea.RowFor(uuid, Wanted(p, r, keys[|keys| - 1]))])
  {
    var n := |keys| - 1;
    var row := Kea.RowFor(uuid, Wanted(p, r, keys[n]));
    assert IsOwnRow(p, r, keys[n], row);
    forall x | x in rows && x !in t.rows ensures exists j :: 0 <= j < |keys| && IsOwnRow(p, r, keys[j], x) {
      var j :| 0 <= j < |keys[..n]| && IsOwnRow(p, r, keys[..n][j], x);
      assert IsOwnRow(p, r, keys[j], x);
    }
  }

  /** The repair after the router is rebuilt: with no row of the list's in the
      table and none of anyone else's in the way, an unhindered ensureAddresses
      succeeds, so it restores every reservation. */
  lemma {:induction false} RebuiltIsRestored(p: Place, r: D.Registry, t: Kea.Table, keys: seq<Key>, turns: nat -> Turn)
    requires WellPlaced(p) && ClassesApart(p) && D.Inv(p.c, r) && Normalised(r) && Ensurable(p, r, keys)
      && Unhindered(turns)
    requires Clear(p, r, t, keys)
    ensures EnsureEach(p, r, t, keys, turns).1
    ensures OnlyAdds(p, r, t, keys, EnsureEach(p, r, t, keys, turns).0.rows)
  {
    if keys != [] {
      var n := |keys| - 1;
      RebuiltIsRestored(p, r, t, keys[..n], turns);
      var t1 := EnsureEach(p, r, t, keys[..n], turns).0;
      TurnGoesThrough(p, r, t, t1, keys);
      ClearTurnWrites(t1, Wanted(p, r, keys[n]), turns(n).s.uuid);
      assert turns(n).dns && turns(n).s.plan == Kea.Plan(true, true, Fine, Fine);
      OneMoreRow(p, r, t, keys, t1.rows, turns(n).s.uuid);
    }
  }

  lemma ClearTurnWrites(t: Kea.Table, r: Kea.Reservation, uuid: nat)
    requires !Kea.Blocked(t.rows, r) && Kea.OwnIndex(t.rows, r.description).None?
    ensures var rows := t.rows + [Kea.RowFor(uuid, r)];
      Kea.Ensure(t, r, uuid, Kea.Plan(true, true, Fine, Fine)) == (Kea.Table(rows, rows), Kea.Done)
  {
  }

  /** The last turn finds nothing of its own and nothing in its way. */
  lemma TurnGoesThrough(p: Place, r: D.Registry, t: Kea.Table, t1: Kea.Table, keys: seq<Key>)
    requires WellPlaced(p) && ClassesApart(p) && D.Inv(p.c, r) && Normalised(r) && Ensurable(p, r, keys) && keys != []
    requires OnlyAdds(p, r, t, keys[..|keys| - 1], t1.rows)
    requires Clear(p, r, t, keys)
    ensures var last := Wanted(p, r, keys[|keys| - 1]);
      !Kea.Blocked(t1.rows, last) && Kea.OwnIndex(t1.rows, last.description).None?
  {
    var n := |keys| - 1;
    var k := keys[n];
    forall x | x in t1.rows ensures !Kea.Blocks(Wanted(p, r, k), x) && x.description != DescriptionOf(k) {
      if x !in t.rows {
        var j :| 0 <= j < |keys[..n]| && IsOwnRow(p, r, keys[..n][j], x);
        assert keys[..n][j] == keys[j] && keys[j] != k;
        OwnRowsDoNotBlock(p, r, k, keys[j], x);
        Kea.DescriptionsDiffer(k.0, k.1, keys[j].0, keys[j].1);
      }
    }
    forall i | 0 <= i < |t1.rows|
      ensures !Kea.Blocks(Wanted(p, r, k), t1.rows[i]) && t1.rows[i].description != DescriptionOf(k)
    {
      assert t1.rows[i] in t1.rows;
    }
  }

  /** The loop as it runs, on the router's table. */
  class Router {
    var t: Kea.Table

    constructor (t: Kea.Table)
      ensures this.t == t
    {
      this.t := t;
    }

    method EnsureAddresses(p: Place, r: D.Registry, keys: seq<Key>, turns: nat -> Turn) returns (ok: bool)
      requires Ensurable(p, r, keys)
      modifies this
      ensures (t, ok) == EnsureEach(p, r, old(t), keys, turns)
      ensures AllSingle(old(t).rows) ==> AllSingle(t.rows)
      ensures AllSingle(old(t).rows) && ok ==>
        forall i :: 0 <= i < |keys| ==> Kea.Reserved(t.rows, Wanted(p, r, keys[i]))
    {
      if AllSingle(t.rows) {
        EnsureEachRestores(p, r, t, keys, turns);
      }
      assert keys[..|keys|] == keys;
      for i := 0 to |keys|
        invariant (t, true) == EnsureEach(p, r, old(t), keys[..i], turns)
      {
        assert keys[..i + 1][..i] == keys[..i];
        var reply;
        t, reply := PutReservation(t, Wanted(p, r, keys[i]), turns(i).s);
        if !reply.Done? || !turns(i).dns {
          EnsureEachStops(p, r, old(t), keys, turns, i + 1);
          return false;
        }
      }
      return true;
    }

    method PutReservation(t: Kea.Table, r: Kea.Reservation, s: Call) returns (t': Kea.Table, reply: Kea.Reply)
      ensures (t', reply) == Kea.Ensure(t, r, s.uuid, s.plan)
    {
      var server := new Kea.Server(t.rows);
      server.running := t.running;
      reply := server.EnsureReservation(r, s.uuid, s.plan);
      t' := Kea.Table(server.rows, server.running);
    }
  }

  lemma {:induction false} EnsureEachStops(p: Place, r: D.Registry, t: Kea.Table, keys: seq<Key>, turns: nat -> Turn,
                                           i: nat)
    requires Ensurable(p, r, keys) && i <= |keys| && !EnsureEach(p, r, t, keys[..i], turns).1
    ensures EnsureEach(p, r, t, keys, turns) == EnsureEach(p, r, t, keys[..i], turns)
  {
    if i < |keys| {
      var init := keys[..|keys| - 1];
      assert init[..i] == keys[..i];
      EnsureEachStops(p, r, t, init, turns, i);
    } else {
      assert keys[..i] == keys;
    }
  }
}
