/** internal/backend/opnsense/kea.go: the API's rows in a DHCP reservation table
    it shares with inventory's writer.

    `rows` is the table as saved; `running` is what the server was last
    reconfigured with. Writes may be lost, or land and be reported as failed. */
module Kea {
  import opened Basics
  import opened Text

  /** An address as the table spells it: netip.ParseAddr takes one spelling per IPv4 address. */
  datatype Ip = V4(n: nat) | Other(text: string)

  datatype Subnet = Subnet(first: nat, last: nat) {
    predicate Contains(ip: Ip) { ip.V4? && first <= ip.n <= last }
    predicate Disjoint(s: Subnet) { last < s.first || s.last < first }
  }

  datatype Row = Row(uuid: nat, hw: string, ip: Ip, hostname: string, description: string)

  datatype Reservation = Reservation(subnet: Subnet, address: Ip, mac: string, hostname: string, description: string)

  datatype Reply = Done | Conflict | Failed

  function LowerChar(c: char): char {
    if 'A' <= c <= 'Z' then (c as int + 32) as char else c
  }

  /** strings.EqualFold on MACs. */
  function Fold(s: string): string { seq(|s|, i requires 0 <= i < |s| => LowerChar(s[i])) }

  predicate EqualFold(a: string, b: string) { Fold(a) == Fold(b) }

  /** Two MACs are one when they agree letter by letter up to case. */
  lemma EqualFoldExactly(a: string, b: string)
    ensures EqualFold(a, b) <==> |a| == |b| && forall i :: 0 <= i < |a| ==> SameLetter(a[i] as int, b[i] as int)
  {
    if EqualFold(a, b) {
      assert |Fold(a)| == |Fold(b)|;
      forall i | 0 <= i < |a| ensures SameLetter(a[i] as int, b[i] as int) {
        assert Fold(a)[i] == Fold(b)[i];
      }
    } else if |a| == |b| {
      var i :| 0 <= i < |a| && Fold(a)[i] != Fold(b)[i];
      assert !SameLetter(a[i] as int, b[i] as int);
    }
  }

  /** The same ASCII code, or an upper-case letter's and its lower-case one's. */
  predicate SameLetter(x: int, y: int) {
    x == y || (65 <= x <= 90 && y == x + 32) || (65 <= y <= 90 && x == y + 32)
  }

  // --- Order in the table -----------------------------------------------------------------

  ghost predicate UuidsDistinct(rows: seq<Row>) {
    forall i, j :: 0 <= i < j < |rows| ==> rows[i].uuid != rows[j].uuid
  }

  /** Two rows may stand together: on the subnet they differ in address and in MAC. */
  ghost predicate Apart(s: Subnet, a: Row, b: Row) {
    s.Contains(a.ip) && s.Contains(b.ip) ==> a.ip != b.ip && !EqualFold(a.hw, b.hw)
  }

  ghost predicate OrderedOn(s: Subnet, rows: seq<Row>) {
    forall i, j :: 0 <= i < j < |rows| ==> Apart(s, rows[i], rows[j])
  }

  ghost predicate AtMostOnce(rows: seq<Row>, description: string) {
    forall i, j :: 0 <= i < j < |rows| ==> rows[i].description != description || rows[j].description != description
  }

  ghost predicate Ordered(s: Subnet, rows: seq<Row>, description: string) {
    UuidsDistinct(rows) && OrderedOn(s, rows) && AtMostOnce(rows, description)
  }

  /** Everyone else's rows, in their order. */
  function Others(rows: seq<Row>, description: string): seq<Row> {
    if rows == [] then []
    else
      var init, x := rows[..|rows| - 1], rows[|rows| - 1];
      Others(init, description) + (if x.description == description then [] else [x])
  }

  lemma {:induction false} OthersUpdate(rows: seq<Row>, description: string, i: nat, row: Row)
    requires i < |rows| && rows[i].description == description && row.description == description
    ensures Others(rows[i := row], description) == Others(rows, description)
  {
    var init := rows[..|rows| - 1];
    if i < |rows| - 1 {
      OthersUpdate(init, description, i, row);
      assert rows[i := row][..|rows| - 1] == init[i := row];
    } else {
      assert rows[i := row][..|rows| - 1] == init;
    }
  }

  function OneIfOther(row: Row, description: string): seq<Row> {
    if row.description == description then [] else [row]
  }

  lemma {:induction false} OthersFrom(rows: seq<Row>, description: string)
    requires rows != []
    ensures Others(rows, description) == OneIfOther(rows[0], description) + Others(rows[1..], description)
  {
    var init, tail := rows[..|rows| - 1], rows[1..];
    if |rows| == 1 {
      assert init == [] && tail == [];
    } else {
      OthersFrom(init, description);
      assert init[0] == rows[0] && init[1..] == tail[..|tail| - 1] && tail[|tail| - 1] == rows[|rows| - 1];
    }
  }

  // --- EnsureReservation --------------------------------------------------------------------

  /** Another row on the subnet holds the address or the MAC. */
  predicate Blocks(r: Reservation, row: Row) {
    row.description != r.description && r.subnet.Contains(row.ip) && (row.ip == r.address || EqualFold(row.hw, r.mac))
  }

  predicate Blocked(rows: seq<Row>, r: Reservation) {
    exists i :: 0 <= i < |rows| && Blocks(r, rows[i])
  }

  /** The scan's `own`: the last row with the description. */
  function OwnIndex(rows: seq<Row>, description: string): (r: Option<nat>)
    ensures r.Some? ==> r.value < |rows| && rows[r.value].description == description
    ensures r.None? ==> forall i :: 0 <= i < |rows| ==> rows[i].description != description
  {
    if rows == [] then None
    else if rows[|rows| - 1].description == description then Some(|rows| - 1)
    else OwnIndex(rows[..|rows| - 1], description)
  }

  predicate Matches(row: Row, r: Reservation) {
    EqualFold(row.hw, r.mac) && row.ip == r.address && row.hostname == r.hostname
  }

  function RowFor(uuid: nat, r: Reservation): Row {
    Row(uuid, r.mac, r.address, r.hostname, r.description)
  }

  /** The table with r written into it, over the row it already has or as a new one. */
  function Written(rows: seq<Row>, r: Reservation, uuid: nat): seq<Row> {
    match OwnIndex(rows, r.description)
    case None => rows + [RowFor(uuid, r)]
    case Some(i) => rows[i := RowFor(rows[i].uuid, r)]
  }

  predicate AlreadyThere(rows: seq<Row>, r: Reservation) {
    var own := OwnIndex(rows, r.description);
    own.Some? && Matches(rows[own.value], r)
  }

  datatype Table = Table(rows: seq<Row>, running: seq<Row>)

  /** Whether the reads work, how the write goes, and how taking the new configuration goes. */
  datatype Plan = Plan(read: bool, subnetFound: bool, write: Fault, reconfigure: Fault)

  /** The table saved as rows, and the server told to run it. */
  function Reconfigured(t: Table, rows: seq<Row>, f: Fault): (Table, Reply) {
    (Table(rows, if f.Before? then t.running else rows), if f.Fine? then Done else Failed)
  }

  function Ensure(t: Table, r: Reservation, uuid: nat, p: Plan): (Table, Reply) {
    if !p.read then (t, Failed)
    else if Blocked(t.rows, r) then (t, Conflict)
    else if AlreadyThere(t.rows, r) then (t, Done)
    else if !p.subnetFound || p.write.Before? then (t, Failed)
    else
      var rows := Written(t.rows, r, uuid);
      if p.write.After? then (t.(rows := rows), Failed) else Reconfigured(t, rows, p.reconfigure)
  }

  ghost predicate NewUuid(rows: seq<Row>, uuid: nat) {
    forall i :: 0 <= i < |rows| ==> rows[i].uuid != uuid
  }

  lemma WrittenIsOrdered(rows: seq<Row>, r: Reservation, uuid: nat, s: Subnet)
    requires Ordered(s, rows, r.description) && NewUuid(rows, uuid) && !Blocked(rows, r)
    requires r.subnet.Contains(r.address) && (s == r.subnet || s.Disjoint(r.subnet))
    ensures Ordered(s, Written(rows, r, uuid), r.description)
  {
    var rows' := Written(rows, r, uuid);
    forall i | 0 <= i < |rows| && rows[i].description != r.description
      ensures Apart(s, rows[i], RowFor(uuid, r)) && Apart(s, RowFor(uuid, r), rows[i])
    {
      assert !Blocks(r, rows[i]);
    }
    forall i, j | 0 <= i < j < |rows'| ensures Apart(s, rows'[i], rows'[j]) {
      if i < |rows| && j < |rows| {
        assert Apart(s, rows[i], rows[j]);
      }
    }
  }

  lemma WrittenSparesOthers(rows: seq<Row>, r: Reservation, uuid: nat)
    ensures Others(Written(rows, r, uuid), r.description) == Others(rows, r.description)
  {
    match OwnIndex(rows, r.description)
    case None =>
      assert (rows + [RowFor(uuid, r)])[..|rows|] == rows;
    case Some(i) =>
      OthersUpdate(rows, r.description, i, RowFor(rows[i].uuid, r));
  }

  /** EnsureReservation keeps every subnet in order, whatever fails, and never
      touches a row with another description. */
  lemma EnsureKeepsOrder(t: Table, r: Reservation, uuid: nat, p: Plan, s: Subnet)
    requires Ordered(s, t.rows, r.description) && NewUuid(t.rows, uuid)
    requires r.subnet.Contains(r.address) && (s == r.subnet || s.Disjoint(r.subnet))
    ensures var (t', reply) := Ensure(t, r, uuid, p);
      Ordered(s, t'.rows, r.description) && Others(t'.rows, r.description) == Others(t.rows, r.description)
  {
    if !Blocked(t.rows, r) {
      WrittenIsOrdered(t.rows, r, uuid, s);
      WrittenSparesOthers(t.rows, r, uuid);
    }
  }

  /** No description is doubled by either call, the API's own or another's. */
  lemma DescriptionsStaySingle(t: Table, r: Reservation, uuid: nat, p: Plan, q: RemovePlan, d: string)
    requires AtMostOnce(t.rows, d) && AtMostOnce(t.rows, r.description)
    ensures AtMostOnce(Ensure(t, r, uuid, p).0.rows, d) && AtMostOnce(Remove(t, r.description, q).0.rows, d)
  {
    CutKeepsSingle(t.rows, r.description, q.delete, d);
  }

  // --- Whose row is whose --------------------------------------------------------------------

  const API_MARK := "Deevnet API - "
  const INVENTORY_MARK := "Ansible managed"

  /** reservationDescription */
  function Description(tenant: string, device: string): string { API_MARK + tenant + "/" + device }

  /** Every device has a description of its own, and none is inventory's. */
  lemma DescriptionsDiffer(tenant: string, device: string, tenant': string, device': string)
    requires ValidName(tenant) && ValidName(tenant')
    ensures Description(tenant, device) == Description(tenant', device') <==> tenant == tenant' && device == device'
    ensures !HasPrefix(Description(tenant, device), INVENTORY_MARK)
  {
    var a, b := Description(tenant, device), Description(tenant', device');
    assert a[0] == 'D' && INVENTORY_MARK[0] == 'A';
    assert '/' !in tenant && '/' !in tenant';
    assert a[|API_MARK|..] == tenant + ['/'] + device && b[|API_MARK|..] == tenant' + ['/'] + device';
    SplitPrefix(tenant, device, '/');
    SplitPrefix(tenant', device', '/');
    if a == b {
      assert tenant == Split(a[|API_MARK|..], '/')[0] == tenant';
      assert device == a[|API_MARK| + |tenant| + 1..] == device';
    }
  }

  /** One row under the description, and it is r: in the table exactly once. */
  ghost predicate Reserved(rows: seq<Row>, r: Reservation) {
    && AtMostOnce(rows, r.description)
    && exists i :: 0 <= i < |rows| && rows[i].description == r.description && Matches(rows[i], r)
  }

  lemma {:induction false} OwnIndexIsOnly(rows: seq<Row>, description: string, i: nat)
    requires AtMostOnce(rows, description) && i < |rows| && rows[i].description == description
    ensures OwnIndex(rows, description) == Some(i)
  {
    if i < |rows| - 1 {
      OwnIndexIsOnly(rows[..|rows| - 1], description, i);
    }
  }

  /** A table that holds r once and nothing that blocks it is what r asks for. */
  lemma SettledIsDone(t: Table, r: Reservation, i: nat, uuid: nat, p: Plan)
    requires AtMostOnce(t.rows, r.description) && i < |t.rows| && t.rows[i].description == r.description
    requires Matches(t.rows[i], r) && !Blocked(t.rows, r) && p.read
    ensures Ensure(t, r, uuid, p) == (t, Done)
  {
    OwnIndexIsOnly(t.rows, r.description, i);
  }

  /** Writing r in blocks nothing and puts it where its own row is. */
  lemma WrittenSettles(rows: seq<Row>, r: Reservation, uuid: nat) returns (i: nat)
    requires !Blocked(rows, r)
    ensures var rows' := Written(rows, r, uuid);
      i < |rows'| && rows'[i].description == r.description && Matches(rows'[i], r) && !Blocked(rows', r)
  {
    var own := OwnIndex(rows, r.description);
    i := if own.Some? then own.value else |rows|;
    var rows' := Written(rows, r, uuid);
    forall j | 0 <= j < |rows'| ensures !Blocks(r, rows'[j]) {
      assert j != i ==> rows'[j] == rows[j] && !Blocks(r, rows[j]);
    }
  }

  /** Success leaves r reserved, exactly once, and asking again changes nothing. */
  lemma EnsureConverges(t: Table, r: Reservation, uuid: nat, p: Plan, again: nat, q: Plan)
    requires Ordered(r.subnet, t.rows, r.description) && NewUuid(t.rows, uuid) && r.subnet.Contains(r.address)
    requires Ensure(t, r, uuid, p).1.Done?
    ensures var t' := Ensure(t, r, uuid, p).0;
      && Reserved(t'.rows, r)
      && (q.read ==> Ensure(t', r, again, q) == (t', Done))
  {
    var t' := Ensure(t, r, uuid, p).0;
    EnsureKeepsOrder(t, r, uuid, p, r.subnet);
    var i: nat;
    if AlreadyThere(t.rows, r) {
      i := OwnIndex(t.rows, r.description).value;
    } else {
      i := WrittenSettles(t.rows, r, uuid);
    }
    if q.read {
      SettledIsDone(t', r, i, again, q);
    }
  }

  /** What an ensure answers: a conflict exactly when another row of the subnet
      has the address or the MAC, and then nothing is written. */
  lemma ConflictExactlyWhen(t: Table, r: Reservation, uuid: nat, p: Plan)
    requires p.read
    ensures Ensure(t, r, uuid, p).1 == Conflict <==>
      exists i :: 0 <= i < |t.rows| && t.rows[i].description != r.description
        && t.rows[i].ip.V4? && r.subnet.first <= t.rows[i].ip.n <= r.subnet.last
        && (t.rows[i].ip == r.address || EqualFold(t.rows[i].hw, r.mac))
    ensures Ensure(t, r, uuid, p).1 == Conflict ==> Ensure(t, r, uuid, p).0 == t
  {
    forall i | 0 <= i < |t.rows|
      ensures Blocks(r, t.rows[i]) <==>
        && t.rows[i].description != r.description
        && t.rows[i].ip.V4? && r.subnet.first <= t.rows[i].ip.n <= r.subnet.last
        && (t.rows[i].ip == r.address || EqualFold(t.rows[i].hw, r.mac))
    {
    }
  }

  /** And what success leaves, field by field. */
  lemma EnsuredRow(t: Table, r: Reservation, uuid: nat, p: Plan)
    requires Ensure(t, r, uuid, p).1.Done?
    ensures exists x ::
      && x in Ensure(t, r, uuid, p).0.rows && x.description == r.description
      && x.ip == r.address && x.hostname == r.hostname && EqualFold(x.hw, r.mac)
  {
    if AlreadyThere(t.rows, r) {
      var i := OwnIndex(t.rows, r.description).value;
      assert t.rows[i] in t.rows;
    } else {
      var i := WrittenSettles(t.rows, r, uuid);
      assert Written(t.rows, r, uuid)[i] in Written(t.rows, r, uuid);
    }
  }

  /** With nothing in the way and nothing failing it succeeds, and the server runs
      the table. */
  lemma EnsureGoesThrough(t: Table, r: Reservation, uuid: nat)
    requires !Blocked(t.rows, r)
    ensures Ensure(t, r, uuid, Plan(true, true, Fine, Fine)).1.Done?
    ensures t.running == t.rows ==>
      Ensure(t, r, uuid, Plan(true, true, Fine, Fine)).0.running ==
        Ensure(t, r, uuid, Plan(true, true, Fine, Fine)).0.rows
  {
  }

  /** A reservation is the API's by its description: "Deevnet API - tenant/device". */
  lemma DescriptionExactly(tenant: string, device: string)
    ensures Description(tenant, device) == "Deevnet API - " + tenant + "/" + device
  {
  }

  /** Whether success means the server runs what the table says: exactly when it
      did before, or when this call had something to write. A call that finds
      its row in place answers without reconfiguring. */
  lemma EnsureAppliesExactlyWhen(t: Table, r: Reservation, uuid: nat, p: Plan)
    requires Ensure(t, r, uuid, p).1.Done?
    ensures var t' := Ensure(t, r, uuid, p).0;
      t'.running == t'.rows <==> t.running == t.rows || !AlreadyThere(t.rows, r)
  {
  }

  /** So a reconfigure that fails is not made good by asking again. */
  lemma RetryDoesNotReconfigure(r: Reservation, uuid: nat)
    requires r.subnet.Contains(r.address)
    ensures var (t', reply) := Ensure(Table([], []), r, uuid, Plan(true, true, Fine, Before));
      && reply.Failed?
      && Ensure(t', r, uuid, Plan(true, true, Fine, Fine)) == (t', Done)
      && t'.running != t'.rows
  {
    var t' := Ensure(Table([], []), r, uuid, Plan(true, true, Fine, Before)).0;
    assert t'.rows == [RowFor(uuid, r)];
    assert !Blocks(r, t'.rows[0]);
    assert OwnIndex(t'.rows, r.description) == Some(0);
  }

  // --- RemoveReservation ------------------------------------------------------------------------

  function Without(rows: seq<Row>, i: nat): seq<Row>
    requires i < |rows|
  {
    rows[..i] + rows[i + 1..]
  }

  /** The rows left by deleting those with the description one by one, up to the
      first delete that fails. calls says how the delete of the row with a uuid goes. */
  function Cut(rows: seq<Row>, description: string, calls: nat -> Fault): seq<Row> {
    if rows == [] then []
    else if rows[0].description != description then [rows[0]] + Cut(rows[1..], description, calls)
    else if calls(rows[0].uuid).Before? then rows
    else if calls(rows[0].uuid).After? then rows[1..]
    else Cut(rows[1..], description, calls)
  }

  lemma {:induction false} CutMembers(rows: seq<Row>, description: string, calls: nat -> Fault)
    ensures forall x :: x in Cut(rows, description, calls) ==> x in rows
  {
    if rows != [] {
      CutMembers(rows[1..], description, calls);
    }
  }

  lemma CutAt(kept: seq<Row>, row: Row, rest: seq<Row>, description: string, calls: nat -> Fault)
    ensures row.description != description ==>
      kept + Cut([row] + rest, description, calls) == (kept + [row]) + Cut(rest, description, calls)
    ensures row.description == description ==>
      Cut([row] + rest, description, calls) ==
      match calls(row.uuid) case Before => [row] + rest case After => rest case Fine => Cut(rest, description, calls)
  {
    assert ([row] + rest)[1..] == rest;
  }

  /** Every delete goes through. */
  predicate AllGo(rows: seq<Row>, description: string, calls: nat -> Fault) {
    rows == [] ||
    ((rows[0].description == description ==> calls(rows[0].uuid).Fine?) && AllGo(rows[1..], description, calls))
  }

  predicate Present(rows: seq<Row>, description: string) {
    rows != [] && (rows[0].description == description || Present(rows[1..], description))
  }

  /** A cut takes rows with the description and no others. */
  lemma {:induction false} CutSparesOthers(rows: seq<Row>, description: string, calls: nat -> Fault)
    ensures Others(Cut(rows, description, calls), description) == Others(rows, description)
  {
    if rows != [] {
      OthersFrom(rows, description);
      CutSparesOthers(rows[1..], description, calls);
      if rows[0].description != description {
        var left := Cut(rows, description, calls);
        OthersFrom(left, description);
        assert left[1..] == Cut(rows[1..], description, calls);
      }
    }
  }

  /** Of a row that is the only one of its description, a cut leaves it exactly
      when its delete was lost. */
  lemma {:induction false} CutOfSingle(rows: seq<Row>, description: string, calls: nat -> Fault, i: nat)
    requires AtMostOnce(rows, description) && i < |rows| && rows[i].description == description
    ensures Cut(rows, description, calls) == if calls(rows[i].uuid).Before? then rows else Others(rows, description)
    ensures AllGo(rows, description, calls) <==> calls(rows[i].uuid).Fine?
    ensures Present(rows, description)
  {
    OthersFrom(rows, description);
    var tail := rows[1..];
    if i > 0 {
      CutOfSingle(tail, description, calls, i - 1);
      assert rows == [rows[0]] + tail;
    } else {
      assert !Present(tail, description) by { AbsentFrom(tail, description); }
      OthersIsAll(tail, description);
      AbsentGoes(tail, description, calls);
      CutTakesAll(tail, description, calls);
    }
  }

  lemma {:induction false} AbsentFrom(rows: seq<Row>, description: string)
    requires forall i :: 0 <= i < |rows| ==> rows[i].description != description
    ensures !Present(rows, description)
  {
    if rows != [] {
      AbsentFrom(rows[1..], description);
    }
  }

  lemma {:induction false} AbsentGoes(rows: seq<Row>, description: string, calls: nat -> Fault)
    requires !Present(rows, description)
    ensures AllGo(rows, description, calls)
  {
    if rows != [] {
      AbsentGoes(rows[1..], description, calls);
    }
  }

  /** And one that goes through takes them all. */
  lemma {:induction false} CutTakesAll(rows: seq<Row>, description: string, calls: nat -> Fault)
    requires AllGo(rows, description, calls)
    ensures Cut(rows, description, calls) == Others(rows, description)
  {
    if rows != [] {
      OthersFrom(rows, description);
      CutTakesAll(rows[1..], description, calls);
    }
  }

  ghost predicate Pairwise(rows: seq<Row>, ok: (Row, Row) -> bool) {
    forall i, j :: 0 <= i < j < |rows| ==> ok(rows[i], rows[j])
  }

  /** What holds of any two rows of a table holds of any two that are left. */
  lemma {:induction false} CutKeepsPairs(rows: seq<Row>, description: string, calls: nat -> Fault,
                                         ok: (Row, Row) -> bool)
    requires Pairwise(rows, ok)
    ensures Pairwise(Cut(rows, description, calls), ok)
  {
    if rows != [] {
      CutKeepsPairs(rows[1..], description, calls, ok);
      CutMembers(rows[1..], description, calls);
      var rest := Cut(rows[1..], description, calls);
      forall j | 0 <= j < |rest| ensures ok(rows[0], rest[j]) {
        assert rest[j] in rows[1..];
        var k :| 0 <= k < |rows[1..]| && rows[1..][k] == rest[j];
        assert ok(rows[0], rows[k + 1]);
      }
    }
  }

  lemma CutIsOrdered(rows: seq<Row>, description: string, calls: nat -> Fault, s: Subnet)
    requires UuidsDistinct(rows) && OrderedOn(s, rows)
    ensures UuidsDistinct(Cut(rows, description, calls)) && OrderedOn(s, Cut(rows, description, calls))
  {
    var left := Cut(rows, description, calls);
    var apart := (a: Row, b: Row) =>
      a.uuid != b.uuid && (s.Contains(a.ip) && s.Contains(b.ip) ==> a.ip != b.ip && !EqualFold(a.hw, b.hw));
    forall i, j | 0 <= i < j < |rows| ensures apart(rows[i], rows[j]) {
      assert Apart(s, rows[i], rows[j]);
    }
    CutKeepsPairs(rows, description, calls, apart);
    forall i, j | 0 <= i < j < |left| ensures Apart(s, left[i], left[j]) && left[i].uuid != left[j].uuid {
      assert apart(left[i], left[j]);
    }
  }

  lemma CutKeepsSingle(rows: seq<Row>, description: string, calls: nat -> Fault, d: string)
    requires AtMostOnce(rows, d)
    ensures AtMostOnce(Cut(rows, description, calls), d)
  {
    var left := Cut(rows, description, calls);
    var single := (a: Row, b: Row) => a.description != d || b.description != d;
    CutKeepsPairs(rows, description, calls, single);
    forall i, j | 0 <= i < j < |left| ensures left[i].description != d || left[j].description != d {
      assert single(left[i], left[j]);
    }
  }

  /** How each call of a removal goes. */
  datatype RemovePlan = RemovePlan(read: bool, delete: nat -> Fault, reconfigure: Fault)

  /** RemoveReservation: every row with the description, then one reconfigure if there was any. */
  function Remove(t: Table, description: string, p: RemovePlan): (Table, Reply) {
    if !p.read then (t, Failed)
    else
      var rows := Cut(t.rows, description, p.delete);
      if !AllGo(t.rows, description, p.delete) then (t.(rows := rows), Failed)
      else if !Present(t.rows, description) then (t.(rows := rows), Done)
      else Reconfigured(t, rows, p.reconfigure)
  }

  /** RemoveReservation, wherever it breaks off, keeps every subnet in order and
      touches no row with another description; success leaves exactly those
      rows, and means the server runs the table exactly when it did before or
      there was a row to delete. */
  lemma RemoveKeepsOrder(t: Table, description: string, p: RemovePlan, s: Subnet)
    requires UuidsDistinct(t.rows) && OrderedOn(s, t.rows)
    ensures var (t', reply) := Remove(t, description, p);
      && UuidsDistinct(t'.rows) && OrderedOn(s, t'.rows)
      && Others(t'.rows, description) == Others(t.rows, description)
      && (reply.Done? ==> t'.rows == Others(t.rows, description))
      && (reply.Done? ==> (t'.running == t'.rows <==> t.running == t.rows || Present(t.rows, description)))
  {
    CutIsOrdered(t.rows, description, p.delete, s);
    CutSparesOthers(t.rows, description, p.delete);
    if AllGo(t.rows, description, p.delete) {
      CutTakesAll(t.rows, description, p.delete);
    }
    if !Present(t.rows, description) {
      OthersIsAll(t.rows, description);
    }
  }

  lemma {:induction false} OthersIsAll(rows: seq<Row>, description: string)
    requires !Present(rows, description)
    ensures Others(rows, description) == rows
  {
    if rows != [] {
      OthersFrom(rows, description);
      OthersIsAll(rows[1..], description);
    }
  }

  /** What is left of a table besides one description is every other row. */
  lemma {:induction false} OthersExactly(rows: seq<Row>, description: string, x: Row)
    ensures x in Others(rows, description) <==> x in rows && x.description != description
  {
    if rows != [] {
      OthersExactly(rows[..|rows| - 1], description, x);
      assert rows == rows[..|rows| - 1] + [rows[|rows| - 1]];
    }
  }

  /** With nothing failing a removal succeeds, whether or not there was a row. */
  lemma RemoveGoesThrough(t: Table, description: string, delete: nat -> Fault)
    requires forall u :: delete(u).Fine?
    ensures Remove(t, description, RemovePlan(true, delete, Fine)).1.Done?
    ensures forall x :: x in Remove(t, description, RemovePlan(true, delete, Fine)).0.rows <==>
      x in t.rows && x.description != description
  {
    AllFineGoes(t.rows, description, delete);
    CutTakesAll(t.rows, description, delete);
    forall x ensures x in Others(t.rows, description) <==> x in t.rows && x.description != description {
      OthersExactly(t.rows, description, x);
    }
  }

  lemma {:induction false} AllFineGoes(rows: seq<Row>, description: string, delete: nat -> Fault)
    requires forall u :: delete(u).Fine?
    ensures AllGo(rows, description, delete)
  {
    if rows != [] {
      AllFineGoes(rows[1..], description, delete);
    }
  }

  /** The table as the client works it. */
  class Server {
    var rows: seq<Row>
    var running: seq<Row>

    constructor (rows: seq<Row>)
      ensures this.rows == rows && running == rows
    {
      this.rows, running := rows, rows;
    }

    ghost function State(): Table
      reads this
    {
      Table(rows, running)
    }

    method EnsureReservation(r: Reservation, uuid: nat, p: Plan) returns (reply: Reply)
      modifies this
      ensures (State(), reply) == Ensure(old(State()), r, uuid, p)
    {
      if !p.read {
        return Failed;
      }
      var own: Option<nat> := None;
      for i := 0 to |rows|
        invariant State() == old(State())
        invariant forall j :: 0 <= j < i ==> !Blocks(r, rows[j])
        invariant own == OwnIndex(rows[..i], r.description)
      {
        assert rows[..i + 1][..i] == rows[..i];
        var row := rows[i];
        if row.description == r.description {
          own := Some(i);
        } else if r.subnet.Contains(row.ip) {
          if row.ip == r.address {
            assert Blocks(r, rows[i]);
            return Conflict;
          }
          if EqualFold(row.hw, r.mac) {
            assert Blocks(r, rows[i]);
            return Conflict;
          }
        }
      }
      assert rows[..|rows|] == rows;
      if own.Some? && EqualFold(rows[own.value].hw, r.mac) && rows[own.value].ip == r.address
         && rows[own.value].hostname == r.hostname {
        return Done;
      }
      if !p.subnetFound || p.write.Before? {
        return Failed;
      }
      if own.None? {
        rows := rows + [RowFor(uuid, r)];
      } else {
        rows := rows[own.value := RowFor(rows[own.value].uuid, r)];
      }
      if p.write.After? || p.reconfigure.Before? {
        return Failed;
      }
      running := rows;
      return if p.reconfigure.Fine? then Done else Failed;
    }

    /** del_reservation: the row with the uuid, wherever it stands by now. */
    method DeleteRow(uuid: nat)
      requires UuidsDistinct(rows)
      modifies this`rows
      ensures UuidsDistinct(rows)
      ensures forall i :: 0 <= i < |old(rows)| && old(rows)[i].uuid == uuid ==> rows == Without(old(rows), i)
      ensures (forall i :: 0 <= i < |old(rows)| ==> old(rows)[i].uuid != uuid) ==> rows == old(rows)
    {
      var i := 0;
      while i < |rows| && rows[i].uuid != uuid
        invariant i <= |rows|
        invariant forall j :: 0 <= j < i ==> rows[j].uuid != uuid
      {
        i := i + 1;
      }
      if i < |rows| {
        rows := rows[..i] + rows[i + 1..];
      }
    }

    /** One of the scan's deletes: the row stands where the kept ones end. */
    method DeleteNext(ghost kept: seq<Row>, row: Row, ghost rest: seq<Row>, f: Fault)
      requires UuidsDistinct(rows) && rows == kept + [row] + rest
      modifies this`rows
      ensures UuidsDistinct(rows) && rows == if f.Before? then old(rows) else kept + rest
    {
      if !f.Before? {
        assert rows[|kept|] == row;
        DeleteRow(row.uuid);
      }
    }

    /** One row of the scan: passed over, or deleted if the call goes through. */
    method Visit(snapshot: seq<Row>, i: nat, ghost kept: seq<Row>, description: string, calls: nat -> Fault)
      returns (ok: bool, hit: bool, ghost kept': seq<Row>)
      requires i < |snapshot| && UuidsDistinct(rows) && rows == kept + snapshot[i..]
      modifies this`rows
      ensures hit <==> snapshot[i].description == description
      ensures ok <==> !hit || calls(snapshot[i].uuid).Fine?
      ensures ok ==> UuidsDistinct(rows) && rows == kept' + snapshot[i + 1..]
      ensures AllGo(snapshot[i..], description, calls) <==> ok && AllGo(snapshot[i + 1..], description, calls)
      ensures Present(snapshot[i..], description) <==> hit || Present(snapshot[i + 1..], description)
      ensures ok ==> kept + Cut(snapshot[i..], description, calls) == kept' + Cut(snapshot[i + 1..], description, calls)
      ensures !ok ==> rows == kept + Cut(snapshot[i..], description, calls)
    {
      var row := snapshot[i];
      ghost var rest := snapshot[i + 1..];
      assert snapshot[i..] == [row] + rest && snapshot[i..][1..] == rest;
      assert rows == kept + [row] + rest;
      CutAt(kept, row, rest, description, calls);
      hit := row.description == description;
      if !hit {
        return true, hit, kept + [row];
      }
      DeleteNext(kept, row, rest, calls(row.uuid));
      return calls(row.uuid).Fine?, hit, kept;
    }

    /** The scan over the rows read, with a call for each row found. */
    method DeleteRows(description: string, calls: nat -> Fault) returns (ok: bool, changed: bool)
      requires UuidsDistinct(rows)
      modifies this`rows
      ensures rows == Cut(old(rows), description, calls)
      ensures ok <==> AllGo(old(rows), description, calls)
      ensures ok ==> (changed <==> Present(old(rows), description))
    {
      var snapshot := rows;
      changed := false;
      ghost var kept: seq<Row> := [];
      assert snapshot[0..] == snapshot;
      for i := 0 to |snapshot|
        invariant UuidsDistinct(rows) && rows == kept + snapshot[i..]
        invariant Present(snapshot, description) <==> changed || Present(snapshot[i..], description)
        invariant AllGo(snapshot, description, calls) <==> AllGo(snapshot[i..], description, calls)
        invariant Cut(snapshot, description, calls) == kept + Cut(snapshot[i..], description, calls)
      {
        var hit;
        ok, hit, kept := Visit(snapshot, i, kept, description, calls);
        if !ok {
          return;
        }
        changed := changed || hit;
      }
      assert snapshot[|snapshot|..] == [];
      return true, changed;
    }

    /** RemoveReservation: the scan and its deletes, then one reconfigure. */
    method RemoveReservation(description: string, p: RemovePlan) returns (reply: Reply)
      requires UuidsDistinct(rows)
      modifies this
      ensures (State(), reply) == Remove(old(State()), description, p)
    {
      if !p.read {
        return Failed;
      }
      var ok, changed := DeleteRows(description, p.delete);
      if !ok || (changed && p.reconfigure.Before?) {
        return Failed;
      }
      if changed {
        running := rows;
        return if p.reconfigure.Fine? then Done else Failed;
      }
      return Done;
    }
  }
}
