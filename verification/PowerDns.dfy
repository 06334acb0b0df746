/** internal/backend/powerdns/powerdns.go: one zone of a tenant's, and what
    becomes of it when its index passes to another tenant.

    Every record carries who wrote it: a TSIG key, or nobody's key for what the
    substrate set up or the API adopted. No update lands inside one ensure;
    between ensures, and after one that broke off anywhere, updates under the
    keys the zone then allows go on. */
module PowerDns {
  import opened Basics
  import opened Text
  import Sorting

  const APEX_TTL := 3600

  datatype Id = Id(name: string, kind: string)

  /** contents holds each record's content as its whitespace-separated fields. */
  datatype RRset = RRset(ttl: int, contents: seq<seq<string>>, author: Option<string>)

  /** bound is TSIG-ALLOW-DNSUPDATE, from is ALLOW-DNSUPDATE-FROM. */
  datatype Zone = Zone(rrsets: map<Id, RRset>, bound: seq<string>, from: seq<string>)

  datatype Tenant = Tenant(key: string, apex: string, apexNs: string, updateFrom: seq<string>)

  datatype Reply = Done | Failed

  /** How each call of one ensureZone goes, in order. created is what a new
      zone's SOA says, which is the server's own configuration. */
  datatype Plan = Plan(get: bool, create: Fault, created: seq<string>, apex: Fault,
                       readBound: bool, purge: Fault,
                       readMeta: bool, meta: Fault, readFrom: bool, from: Fault)

  predicate SameSet(a: seq<string>, b: seq<string>) { multiset(a) == multiset(b) }

  predicate Substrate(id: Id, apex: string) { id.name == apex && (id.kind == "SOA" || id.kind == "NS") }

  // --- ensureApex ------------------------------------------------------------------------

  /** strconv.ParseUint(s, 10, 32) */
  function ParseSerial(s: string): Option<nat> {
    if s != [] && (forall i :: 0 <= i < |s| ==> Digit(s[i])) && DecimalValue(s) < 0x1_0000_0000
    then Some(DecimalValue(s)) else None
  }

  function TtlOr(ttl: int): int { if ttl <= 0 then APEX_TTL else ttl }

  /** An SOA this code corrects: one record, seven fields, another primary. */
  predicate ForeignSoa(rr: RRset, apexNs: string) {
    |rr.contents| == 1 && |rr.contents[0]| == 7 && rr.contents[0][0] != apexNs
  }

  /** The primary replaced and the serial carried forward by one. */
  function CorrectedSoa(rr: RRset, apexNs: string): RRset
    requires ForeignSoa(rr, apexNs) && ParseSerial(rr.contents[0][2]).Some?
  {
    var f := rr.contents[0];
    RRset(TtlOr(rr.ttl), [f[0 := apexNs][2 := Decimal(ParseSerial(f[2]).value + 1)]], None)
  }

  function SubstrateNs(ttl: int, apexNs: string): RRset { RRset(ttl, [[apexNs]], None) }

  predicate BadSerial(rrsets: map<Id, RRset>, t: Tenant) {
    var soa := Id(t.apex, "SOA");
    soa in rrsets && ForeignSoa(rrsets[soa], t.apexNs) && ParseSerial(rrsets[soa].contents[0][2]).None?
  }

  function SoaChange(rrsets: map<Id, RRset>, t: Tenant): map<Id, RRset>
    requires !BadSerial(rrsets, t)
  {
    var soa := Id(t.apex, "SOA");
    if soa in rrsets && ForeignSoa(rrsets[soa], t.apexNs) then map[soa := CorrectedSoa(rrsets[soa], t.apexNs)]
    else map[]
  }

  function NsChange(rrsets: map<Id, RRset>, t: Tenant): map<Id, RRset> {
    var ns := Id(t.apex, "NS");
    if ns !in rrsets then map[ns := SubstrateNs(APEX_TTL, t.apexNs)]
    else if rrsets[ns].contents == [[t.apexNs]] then map[]
    else map[ns := SubstrateNs(TtlOr(rrsets[ns].ttl), t.apexNs)]
  }

  /** What ensureApex asks the server to replace. */
  function ApexChanges(rrsets: map<Id, RRset>, t: Tenant): map<Id, RRset>
    requires !BadSerial(rrsets, t)
  {
    SoaChange(rrsets, t) + NsChange(rrsets, t)
  }

  // --- ensureZone, call by call -------------------------------------------------------------

  function EnsureApex(z: Zone, t: Tenant, f: Fault): (Zone, Reply) {
    if BadSerial(z.rrsets, t) then (z, Failed)
    else
      var changes := ApexChanges(z.rrsets, t);
      if changes == map[] then (z, Done)
      else if f.Before? then (z, Failed)
      else (z.(rrsets := z.rrsets + changes), if f.Fine? then Done else Failed)
  }

  predicate HandedOver(z: Zone, t: Tenant) { z.bound != [] && !SameSet(z.bound, [t.key]) }

  function Foreign(rrsets: map<Id, RRset>, apex: string): set<Id> {
    set id | id in rrsets && !Substrate(id, apex)
  }

  /** purgeIfHandedOver: everything but the apex SOA and NS of what was read goes. */
  function Purge(z: Zone, have: map<Id, RRset>, t: Tenant, read: bool, f: Fault): (Zone, Reply) {
    if !read then (z, Failed)
    else if !HandedOver(z, t) || Foreign(have, t.apex) == {} then (z, Done)
    else if f.Before? then (z, Failed)
    else (z.(rrsets := z.rrsets - Foreign(have, t.apex)), if f.Fine? then Done else Failed)
  }

  function Bind(z: Zone, t: Tenant, read: bool, f: Fault): (Zone, Reply) {
    if !read then (z, Failed)
    else if SameSet(z.bound, [t.key]) then (z, Done)
    else if f.Before? then (z, Failed)
    else (z.(bound := [t.key]), if f.Fine? then Done else Failed)
  }

  function SetFrom(z: Zone, t: Tenant, read: bool, f: Fault): (Zone, Reply) {
    if !read then (z, Failed)
    else if SameSet(z.from, t.updateFrom) then (z, Done)
    else if f.Before? then (z, Failed)
    else (z.(from := t.updateFrom), if f.Fine? then Done else Failed)
  }

  function NewZone(t: Tenant, created: seq<string>): Zone {
    Zone(map[Id(t.apex, "SOA") := RRset(APEX_TTL, [created], None),
             Id(t.apex, "NS") := SubstrateNs(APEX_TTL, t.apexNs)], [], [])
  }

  function FromPurge(z: Zone, have: map<Id, RRset>, t: Tenant, p: Plan): (Zone, Reply) {
    var (z2, r2) := Purge(z, have, t, p.readBound, p.purge);
    if !r2.Done? then (z2, r2)
    else
      var (z3, r3) := Bind(z2, t, p.readMeta, p.meta);
      if !r3.Done? then (z3, r3)
      else SetFrom(z3, t, p.readFrom, p.from)
  }

  function EnsureExisting(z: Zone, t: Tenant, p: Plan): (Zone, Reply) {
    var (z1, r1) := EnsureApex(z, t, p.apex);
    if !r1.Done? then (z1, r1) else FromPurge(z1, z.rrsets, t, p)
  }

  function EnsureZone(z: Option<Zone>, t: Tenant, p: Plan): (Option<Zone>, Reply) {
    if !p.get then (z, Failed)
    else
      match z
      case Some(have) => var (z', r) := EnsureExisting(have, t, p); (Some(z'), r)
      case None =>
        if p.create.Before? then (z, Failed)
        else if p.create.After? then (Some(NewZone(t, p.created)), Failed)
        else var (z', r) := EnsureExisting(NewZone(t, p.created), t, p); (Some(z'), r)
  }

  // --- Whose records a zone holds ---------------------------------------------------------------

  predicate Allowed(z: Zone, rr: RRset) { rr.author.None? || rr.author.value in z.bound }

  /** Beyond the apex SOA and NS, every record was written under a key the zone
      still allows, or under none. */
  ghost predicate Clean(z: Zone, apex: string) {
    forall id :: id in z.rrsets && !Substrate(id, apex) ==> Allowed(z, z.rrsets[id])
  }

  lemma ApexKeepsClean(z: Zone, t: Tenant, f: Fault)
    requires Clean(z, t.apex)
    ensures Clean(EnsureApex(z, t, f).0, t.apex)
    ensures EnsureApex(z, t, f).0.bound == z.bound && EnsureApex(z, t, f).0.from == z.from
    ensures forall id :: !Substrate(id, t.apex) ==>
      && (id in EnsureApex(z, t, f).0.rrsets <==> id in z.rrsets)
      && (id in z.rrsets ==> EnsureApex(z, t, f).0.rrsets[id] == z.rrsets[id])
  {
  }

  /** The two apex sets after ensureApex succeeds: NS the substrate's alone, the
      SOA's primary the substrate's wherever it has one to correct. */
  lemma ApexDone(z: Zone, t: Tenant, f: Fault)
    requires EnsureApex(z, t, f).1.Done?
    ensures var z' := EnsureApex(z, t, f).0; var ns := Id(t.apex, "NS"); var soa := Id(t.apex, "SOA");
      && ns in z'.rrsets && z'.rrsets[ns].contents == [[t.apexNs]]
      && (soa in z'.rrsets <==> soa in z.rrsets)
      && (soa in z'.rrsets ==> !ForeignSoa(z'.rrsets[soa], t.apexNs))
  {
    var ns, soa := Id(t.apex, "NS"), Id(t.apex, "SOA");
    assert |ns.kind| != |soa.kind|;
    var changes := ApexChanges(z.rrsets, t);
    assert ns in NsChange(z.rrsets, t) ==> ns in changes && changes[ns] == NsChange(z.rrsets, t)[ns];
    assert soa in SoaChange(z.rrsets, t) ==> soa in changes && changes[soa] == SoaChange(z.rrsets, t)[soa];
  }

  /** A serial this code can carry forward: decimal, and within 32 bits. */
  ghost predicate Serial32(s: string) {
    s != [] && (forall i :: 0 <= i < |s| ==> '0' <= s[i] <= '9') && DecimalValue(s) < 0x1_0000_0000
  }

  lemma ParsesExactly(s: string)
    ensures ParseSerial(s).Some? <==> Serial32(s)
    ensures Serial32(s) ==> ParseSerial(s).value == DecimalValue(s)
  {
    assert (forall i :: 0 <= i < |s| ==> '0' <= s[i] <= '9') <==> (forall i :: 0 <= i < |s| ==> Digit(s[i]));
  }

  /** What success leaves of an apex SOA of one record with seven fields: the
      substrate's primary; where that is new, the serial one on and the other
      fields, and a TTL that was set, as they were. Any other SOA is let be. */
  lemma ApexSoaExactly(z: Zone, t: Tenant, f: Fault)
    requires EnsureApex(z, t, f).1.Done? && Id(t.apex, "SOA") in z.rrsets
    ensures var soa := Id(t.apex, "SOA"); var rr := z.rrsets[soa];
      var z' := EnsureApex(z, t, f).0;
      && soa in z'.rrsets
      && (if |rr.contents| == 1 && |rr.contents[0]| == 7 && rr.contents[0][0] != t.apexNs then
            var was, now := rr.contents[0], z'.rrsets[soa].contents;
            && |now| == 1 && |now[0]| == 7 && now[0][0] == t.apexNs
            && Serial32(was[2]) && now[0][2] == Decimal(DecimalValue(was[2]) + 1)
            && now[0][1] == was[1] && now[0][3..] == was[3..]
            && z'.rrsets[soa].ttl == (if rr.ttl > 0 then rr.ttl else 3600)
          else z'.rrsets[soa] == rr)
  {
    var soa, ns := Id(t.apex, "SOA"), Id(t.apex, "NS");
    assert |ns.kind| != |soa.kind|;
    var rr := z.rrsets[soa];
    var changes := ApexChanges(z.rrsets, t);
    assert soa in SoaChange(z.rrsets, t) ==> soa in changes && changes[soa] == SoaChange(z.rrsets, t)[soa];
    if |rr.contents| == 1 && |rr.contents[0]| == 7 {
      ParsesExactly(rr.contents[0][2]);
    }
  }

  /** And of the apex NS: the substrate's name alone, under a TTL that was set or
      an hour. Nothing else in the zone is touched. */
  lemma ApexNsExactly(z: Zone, t: Tenant, f: Fault)
    requires EnsureApex(z, t, f).1.Done?
    ensures var ns := Id(t.apex, "NS");
      var z' := EnsureApex(z, t, f).0;
      && ns in z'.rrsets && z'.rrsets[ns].contents == [[t.apexNs]]
      && (if ns in z.rrsets && z.rrsets[ns].contents == [[t.apexNs]] then z'.rrsets[ns] == z.rrsets[ns]
          else z'.rrsets[ns].ttl == (if ns in z.rrsets && z.rrsets[ns].ttl > 0 then z.rrsets[ns].ttl else 3600))
  {
    var soa, ns := Id(t.apex, "SOA"), Id(t.apex, "NS");
    assert |ns.kind| != |soa.kind|;
    var changes := ApexChanges(z.rrsets, t);
    assert ns in NsChange(z.rrsets, t) ==> ns in changes && changes[ns] == NsChange(z.rrsets, t)[ns];
  }

  /** A serial that cannot be carried forward is an error, and nothing is written. */
  lemma UnreadableSerial(z: Zone, t: Tenant, f: Fault)
    requires Id(t.apex, "SOA") in z.rrsets
    requires var c := z.rrsets[Id(t.apex, "SOA")].contents;
      |c| == 1 && |c[0]| == 7 && c[0][0] != t.apexNs && !Serial32(c[0][2])
    ensures EnsureApex(z, t, f) == (z, Failed)
  {
    ParsesExactly(z.rrsets[Id(t.apex, "SOA")].contents[0][2]);
  }

  /** The serial is carried forward, never reset. */
  lemma SerialAdvances(rr: RRset, apexNs: string)
    requires ForeignSoa(rr, apexNs) && ParseSerial(rr.contents[0][2]).Some?
    ensures DecimalValue(CorrectedSoa(rr, apexNs).contents[0][2]) == ParseSerial(rr.contents[0][2]).value + 1
    ensures forall i :: 0 <= i < 7 && i != 0 && i != 2 ==> CorrectedSoa(rr, apexNs).contents[0][i] == rr.contents[0][i]
  {
    DecimalRoundTrip(ParseSerial(rr.contents[0][2]).value + 1);
  }

  lemma OneMemberSet(a: seq<string>, k: string)
    requires SameSet(a, [k])
    ensures a == [k]
  {
    assert |a| == |multiset(a)| == |multiset([k])| == 1;
    assert a[0] in multiset(a);
  }

  /** From the purge on: the zone is clean at every step, and bound to the tenant alone at the end. */
  lemma HandOver(z: Zone, have: map<Id, RRset>, t: Tenant, p: Plan)
    requires Clean(z, t.apex) && forall id :: !Substrate(id, t.apex) ==> (id in z.rrsets <==> id in have)
    ensures var (z', r) := FromPurge(z, have, t, p);
      && Clean(z', t.apex)
      && (!HandedOver(z, t) ==> z'.rrsets == z.rrsets)
      && (forall id :: Substrate(id, t.apex) ==> (id in z'.rrsets <==> id in z.rrsets))
      && (forall id :: Substrate(id, t.apex) && id in z.rrsets ==> z'.rrsets[id] == z.rrsets[id])
      && (r.Done? ==> z'.bound == [t.key] && SameSet(z'.from, t.updateFrom))
  {
    PurgeKeepsClean(z, have, t, p.readBound, p.purge);
    var (z2, r2) := Purge(z, have, t, p.readBound, p.purge);
    if r2.Done? {
      BindKeepsClean(z2, t, p.readMeta, p.meta);
    }
  }

  /** ensureZone on a zone that is there. Whatever call it breaks off at, the
      zone stays clean; a zone that was the tenant's or no one's keeps every
      record; success leaves the zone bound to the tenant alone, with the
      substrate's apex. */
  lemma EnsureExistingHandsOver(z: Zone, t: Tenant, p: Plan)
    requires Clean(z, t.apex)
    ensures var (z', r) := EnsureExisting(z, t, p);
      && Clean(z', t.apex)
      && (!HandedOver(z, t) ==> KeepsRecords(z, z', t.apex))
      && (r.Done? ==> z'.bound == [t.key] && SameSet(z'.from, t.updateFrom) && ApexIsSubstrates(z', t))
  {
    ApexKeepsClean(z, t, p.apex);
    var (z1, r1) := EnsureApex(z, t, p.apex);
    if r1.Done? {
      ApexDone(z, t, p.apex);
      HandOver(z1, z.rrsets, t, p);
    }
  }

  ghost predicate KeepsRecords(z: Zone, z': Zone, apex: string) {
    forall id :: !Substrate(id, apex) ==>
      (id in z'.rrsets <==> id in z.rrsets) && (id in z.rrsets ==> z'.rrsets[id] == z.rrsets[id])
  }

  ghost predicate ApexIsSubstrates(z: Zone, t: Tenant) {
    var ns := Id(t.apex, "NS");
    var soa := Id(t.apex, "SOA");
    && ns in z.rrsets && z.rrsets[ns].contents == [[t.apexNs]]
    && (soa in z.rrsets ==> !ForeignSoa(z.rrsets[soa], t.apexNs))
  }

  /** Handover in the records themselves: a zone bound to this key alone, or to
      none, keeps every record but the apex SOA and NS as it was; one bound
      otherwise is left with nothing but those two, wherever it succeeds. */
  lemma HandOverExactly(z: Zone, t: Tenant, p: Plan)
    requires Clean(z, t.apex)
    ensures var (z', r) := EnsureExisting(z, t, p);
      && (z.bound == [] || z.bound == [t.key] ==>
            forall id: Id :: !(id.name == t.apex && (id.kind == "SOA" || id.kind == "NS")) ==>
              (id in z'.rrsets <==> id in z.rrsets) && (id in z.rrsets ==> z'.rrsets[id] == z.rrsets[id]))
      && (r.Done? && z.bound != [] && z.bound != [t.key] ==>
            forall id :: id in z'.rrsets ==> id.name == t.apex && (id.kind == "SOA" || id.kind == "NS"))
      && (r.Done? ==> z'.bound == [t.key] && multiset(z'.from) == multiset(t.updateFrom))
  {
    EnsureExistingHandsOver(z, t, p);
    if SameSet(z.bound, [t.key]) {
      OneMemberSet(z.bound, t.key);
    }
    if EnsureExisting(z, t, p).1.Done? && z.bound != [] && z.bound != [t.key] {
      HandedOverIsEmptied(z, t, p);
    }
  }

  lemma HandedOverIsEmptied(z: Zone, t: Tenant, p: Plan)
    requires Clean(z, t.apex) && HandedOver(z, t) && EnsureExisting(z, t, p).1.Done?
    ensures forall id :: id in EnsureExisting(z, t, p).0.rrsets ==>
      id.name == t.apex && (id.kind == "SOA" || id.kind == "NS")
  {
    ApexKeepsClean(z, t, p.apex);
    var z1 := EnsureApex(z, t, p.apex).0;
    var z2 := Purge(z1, z.rrsets, t, p.readBound, p.purge).0;
    assert forall id :: id in z.rrsets && !Substrate(id, t.apex) ==> id in Foreign(z.rrsets, t.apex);
    assert forall id :: id in z2.rrsets ==> Substrate(id, t.apex);
  }

  /** A zone that was not there is made with the two apex sets alone, bound to the tenant. */
  lemma CreatedExactly(t: Tenant, p: Plan)
    requires EnsureZone(None, t, p).1.Done?
    ensures var z := EnsureZone(None, t, p).0;
      && z.Some? && z.value.bound == [t.key] && multiset(z.value.from) == multiset(t.updateFrom)
      && z.value.rrsets.Keys == {Id(t.apex, "SOA"), Id(t.apex, "NS")}
      && z.value.rrsets[Id(t.apex, "NS")].contents == [[t.apexNs]]
  {
    var made := NewZone(t, p.created);
    EnsureExistingHandsOver(made, t, p);
    HandOverExactly(made, t, p);
    ApexDone(made, t, p.apex);
  }

  /** Once the purge has gone through, nothing under another key is left. */
  lemma PurgeKeepsClean(z: Zone, have: map<Id, RRset>, t: Tenant, read: bool, f: Fault)
    requires Clean(z, t.apex)
    requires forall id :: !Substrate(id, t.apex) ==> (id in z.rrsets <==> id in have)
    ensures var (z', r) := Purge(z, have, t, read, f);
      && Clean(z', t.apex) && z'.bound == z.bound && z'.from == z.from
      && (!HandedOver(z, t) ==> z' == z)
      && (forall id :: Substrate(id, t.apex) && id in z.rrsets ==> id in z'.rrsets && z'.rrsets[id] == z.rrsets[id])
      && (forall id :: id in z'.rrsets ==> id in z.rrsets)
      && (r.Done? ==> OnlyUnder(z', t))
  {
    assert forall id :: id in z.rrsets && !Substrate(id, t.apex) ==> id in Foreign(have, t.apex);
    if !HandedOver(z, t) && z.bound != [] {
      OneMemberSet(z.bound, t.key);
    }
  }

  ghost predicate OnlyUnder(z: Zone, t: Tenant) {
    forall id :: id in z.rrsets && !Substrate(id, t.apex) ==>
      z.rrsets[id].author.None? || z.rrsets[id].author.value == t.key
  }

  lemma BindKeepsClean(z: Zone, t: Tenant, read: bool, f: Fault)
    requires Clean(z, t.apex) && OnlyUnder(z, t)
    ensures Clean(Bind(z, t, read, f).0, t.apex) && Bind(z, t, read, f).0.rrsets == z.rrsets
    ensures Bind(z, t, read, f).1.Done? ==> Bind(z, t, read, f).0.bound == [t.key]
  {
    if SameSet(z.bound, [t.key]) {
      OneMemberSet(z.bound, t.key);
    }
  }

  // --- Runs -----------------------------------------------------------------------------------------

  /** Updates are dynamic updates under a TSIG key, and the records the API itself
      publishes for the tenant the zone is bound to, PTR records among them:
      those count as written under that tenant's key. */
  datatype Event =
    | Ensures(t: Tenant, plan: Plan)
    | Updates(key: string, id: Id, rr: Option<RRset>)
    | Removed

  /** An update is let through under a key the zone allows, and may touch any record. */
  ghost predicate Step(apex: string, z: Option<Zone>, z': Option<Zone>, e: Event) {
    match e
    case Ensures(t, plan) => t.apex == apex && z' == EnsureZone(z, t, plan).0
    case Updates(key, id, rr) =>
      && z.Some? && key in z.value.bound && z'.Some?
      && z'.value == z.value.(rrsets :=
           if rr.Some? then z.value.rrsets[id := rr.value.(author := Some(key))] else z.value.rrsets - {id})
    case Removed => z' == None
  }

  /** The runs hold every ensure, every update under an allowed key, and a removal. */
  lemma StepsAreThere(apex: string, z: Zone, t: Tenant, p: Plan, key: string, id: Id, rr: RRset)
    ensures t.apex == apex ==> Step(apex, Some(z), EnsureZone(Some(z), t, p).0, Ensures(t, p))
    ensures t.apex == apex ==> Step(apex, None, EnsureZone(None, t, p).0, Ensures(t, p))
    ensures key in z.bound ==>
      var w := RRset(rr.ttl, rr.contents, Some(key));
      && Step(apex, Some(z), Some(Zone(z.rrsets[id := w], z.bound, z.from)), Updates(key, id, Some(rr)))
      && Step(apex, Some(z), Some(Zone(z.rrsets - {id}, z.bound, z.from)), Updates(key, id, None))
    ensures Step(apex, Some(z), None, Removed)
  {
  }

  ghost predicate Next(apex: string, z: Option<Zone>, z': Option<Zone>) {
    exists e :: Step(apex, z, z', e)
  }

  /** A run starts with no zone, or with one no key was bound to. */
  ghost predicate Run(apex: string, states: seq<Option<Zone>>) {
    && |states| >= 1
    && (states[0].Some? ==> states[0].value.bound == [] && Clean(states[0].value, apex))
    && forall i :: 0 <= i < |states| - 1 ==> StepAt(apex, states, i)
  }

  ghost predicate StepAt(apex: string, states: seq<Option<Zone>>, i: nat)
    requires i < |states| - 1
  {
    Next(apex, states[i], states[i + 1])
  }

  ghost predicate CleanOrNone(apex: string, z: Option<Zone>) { z.Some? ==> Clean(z.value, apex) }

  lemma EnsureZoneKeepsClean(z: Option<Zone>, t: Tenant, p: Plan)
    requires CleanOrNone(t.apex, z)
    ensures CleanOrNone(t.apex, EnsureZone(z, t, p).0)
  {
    EnsureExistingHandsOver(if z.Some? then z.value else NewZone(t, p.created), t, p);
  }

  lemma NextKeepsClean(apex: string, z: Option<Zone>, z': Option<Zone>)
    requires Next(apex, z, z') && CleanOrNone(apex, z)
    ensures CleanOrNone(apex, z')
  {
    var e :| Step(apex, z, z', e);
    if e.Ensures? {
      EnsureZoneKeepsClean(z, e.t, e.plan);
    }
  }

  lemma {:induction false} RunKeepsClean(apex: string, states: seq<Option<Zone>>, i: nat)
    requires Run(apex, states) && i < |states|
    ensures CleanOrNone(apex, states[i])
  {
    if i > 0 {
      RunKeepsClean(apex, states, i - 1);
      assert StepAt(apex, states, i - 1);
      NextKeepsClean(apex, states[i - 1], states[i]);
    }
  }

  /** Zone handover. At every point of every run, ensures broken off anywhere
      and updates between them, a zone whose policy names one key holds no
      record, the apex SOA and NS aside, written under any other. */
  lemma NoInheritedRecords(apex: string, states: seq<Option<Zone>>, i: nat, key: string, id: Id)
    requires Run(apex, states) && i < |states|
    requires states[i].Some? && SameSet(states[i].value.bound, [key])
    requires id in states[i].value.rrsets && !Substrate(id, apex)
    ensures states[i].value.rrsets[id].author == None || states[i].value.rrsets[id].author == Some(key)
  {
    RunKeepsClean(apex, states, i);
    OneMemberSet(states[i].value.bound, key);
  }

  // --- The change list ---------------------------------------------------------------------------------

  /** An SOA whose serial cannot be carried forward. */
  predicate BadSet(id: Id, rr: RRset, t: Tenant) {
    id == Id(t.apex, "SOA") && ForeignSoa(rr, t.apexNs) && ParseSerial(rr.contents[0][2]).None?
  }

  /** What one record set at the apex is to be replaced by, if it is. */
  function ChangeFor(id: Id, rr: RRset, t: Tenant): Option<RRset>
    requires !BadSet(id, rr, t)
  {
    if id == Id(t.apex, "SOA") then (if ForeignSoa(rr, t.apexNs) then Some(CorrectedSoa(rr, t.apexNs)) else None)
    else if id == Id(t.apex, "NS") && rr.contents != [[t.apexNs]] then Some(SubstrateNs(TtlOr(rr.ttl), t.apexNs))
    else None
  }

  /** The changes are those of the record sets gone through. */
  ghost predicate Gathered(have: map<Id, RRset>, left: set<(Id, RRset)>, t: Tenant, changes: map<Id, RRset>) {
    && (forall id :: id in changes ==> id in have)
    && forall id :: id in have ==> GatheredAt(have, left, t, changes, id)
  }

  ghost predicate GatheredAt(have: map<Id, RRset>, left: set<(Id, RRset)>, t: Tenant, changes: map<Id, RRset>, id: Id)
    requires id in have
  {
    if (id, have[id]) in left then id !in changes
    else
      && !BadSet(id, have[id], t)
      && (id in changes <==> ChangeFor(id, have[id], t).Some?)
      && (id in changes ==> ChangeFor(id, have[id], t) == Some(changes[id]))
  }

  lemma BadSetIsBadSerial(have: map<Id, RRset>, item: (Id, RRset), t: Tenant)
    requires item in have.Items && BadSet(item.0, item.1, t)
    ensures BadSerial(have, t)
  {
  }

  lemma GatherOne(have: map<Id, RRset>, left: set<(Id, RRset)>, item: (Id, RRset), t: Tenant, changes: map<Id, RRset>)
    requires left <= have.Items && item in left && Gathered(have, left, t, changes) && !BadSet(item.0, item.1, t)
    ensures var change := ChangeFor(item.0, item.1, t);
      Gathered(have, left - {item}, t, if change.Some? then changes[item.0 := change.value] else changes)
  {
    var change := ChangeFor(item.0, item.1, t);
    var changes' := if change.Some? then changes[item.0 := change.value] else changes;
    assert GatheredAt(have, left, t, changes, item.0);
    forall id | id in have ensures GatheredAt(have, left - {item}, t, changes', id) {
      assert GatheredAt(have, left, t, changes, id);
    }
  }

  lemma GatheredAll(have: map<Id, RRset>, t: Tenant, changes: map<Id, RRset>)
    requires Gathered(have, {}, t, changes)
    ensures !BadSerial(have, t)
    ensures ApexChanges(have, t) ==
      if Id(t.apex, "NS") in have then changes else changes[Id(t.apex, "NS") := SubstrateNs(APEX_TTL, t.apexNs)]
  {
    var soa, ns := Id(t.apex, "SOA"), Id(t.apex, "NS");
    assert |ns.kind| != |soa.kind|;
    assert soa in have ==> GatheredAt(have, {}, t, changes, soa);
    assert ns in have ==> GatheredAt(have, {}, t, changes, ns);
    forall id | id in changes ensures id == soa || id == ns {
      assert GatheredAt(have, {}, t, changes, id);
    }
  }

  // --- The client as it runs ----------------------------------------------------------------------------

  class Server {
    var zone: Option<Zone>

    constructor ()
      ensures zone == None
    {
      zone := None;
    }

    /** The change list, built record set by record set. */
    method BuildApexChanges(have: map<Id, RRset>, t: Tenant) returns (bad: bool, changes: map<Id, RRset>)
      ensures bad <==> BadSerial(have, t)
      ensures !bad ==> changes == ApexChanges(have, t)
    {
      changes, bad := map[], false;
      var items := have.Items;
      while items != {}
        invariant items <= have.Items
        invariant Gathered(have, items, t, changes)
        decreases |items|
      {
        var item :| item in items;
        if BadSet(item.0, item.1, t) {
          BadSetIsBadSerial(have, item, t);
          return true, map[];
        }
        var change := ChangeFor(item.0, item.1, t);
        GatherOne(have, items, item, t, changes);
        if change.Some? {
          changes := changes[item.0 := change.value];
        }
        items := items - {item};
      }
      GatheredAll(have, t, changes);
      if Id(t.apex, "NS") !in have {
        changes := changes[Id(t.apex, "NS") := SubstrateNs(APEX_TTL, t.apexNs)];
      }
    }

    /** The delete list, likewise. */
    method BuildDeletes(have: map<Id, RRset>, apex: string) returns (deletes: set<Id>)
      ensures deletes == Foreign(have, apex)
    {
      deletes := {};
      var ids := have.Keys;
      while ids != {}
        invariant ids <= have.Keys
        invariant deletes == set id | id in have.Keys - ids && !Substrate(id, apex)
        decreases |ids|
      {
        var id :| id in ids;
        if !Substrate(id, apex) {
          deletes := deletes + {id};
        }
        ids := ids - {id};
      }
    }

    method EnsureApexCall(have: map<Id, RRset>, t: Tenant, f: Fault) returns (r: Reply)
      requires zone.Some? && have == zone.value.rrsets
      modifies this
      ensures zone.Some? && (zone.value, r) == EnsureApex(old(zone).value, t, f)
    {
      var bad, changes := BuildApexChanges(have, t);
      if bad || (changes != map[] && f.Before?) {
        return Failed;
      }
      if changes == map[] {
        return Done;
      }
      zone := Some(zone.value.(rrsets := zone.value.rrsets + changes));
      return if f.Fine? then Done else Failed;
    }

    method PurgeCall(have: map<Id, RRset>, t: Tenant, read: bool, f: Fault) returns (r: Reply)
      requires zone.Some?
      modifies this
      ensures zone.Some? && (zone.value, r) == Purge(old(zone).value, have, t, read, f)
    {
      if !read {
        return Failed;
      }
      var same := Sorting.SameMembers(zone.value.bound, [t.key]);
      if zone.value.bound == [] || same {
        return Done;
      }
      var deletes := BuildDeletes(have, t.apex);
      if deletes == {} {
        return Done;
      }
      if f.Before? {
        return Failed;
      }
      zone := Some(zone.value.(rrsets := zone.value.rrsets - deletes));
      return if f.Fine? then Done else Failed;
    }

    method EnsureZoneCalls(t: Tenant, p: Plan) returns (r: Reply)
      modifies this
      ensures (zone, r) == EnsureZone(old(zone), t, p)
    {
      if !p.get {
        return Failed;
      }
      if zone.None? {
        if p.create.Before? {
          return Failed;
        }
        zone := Some(NewZone(t, p.created));
        if p.create.After? {
          return Failed;
        }
      }
      var have := zone.value.rrsets;
      r := EnsureApexCall(have, t, p.apex);
      if !r.Done? {
        return;
      }
      r := PurgeCall(have, t, p.readBound, p.purge);
      if !r.Done? {
        return;
      }
      var bound := Sorting.SameMembers(zone.value.bound, [t.key]);
      if !p.readMeta || (!bound && p.meta.Before?) {
        return Failed;
      }
      if !bound {
        zone := Some(zone.value.(bound := [t.key]));
        if p.meta.After? {
          return Failed;
        }
      }
      var from := Sorting.SameMembers(zone.value.from, t.updateFrom);
      if !p.readFrom || (!from && p.from.Before?) {
        return Failed;
      }
      if !from {
        zone := Some(zone.value.(from := t.updateFrom));
        if p.from.After? {
          return Failed;
        }
      }
      return Done;
    }
  }
}
