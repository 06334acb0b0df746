/** Which index a tenant gets: tenant.pickIndex, the fabric read behind it
    (proxmox.claims), and the locked insert around it (store.Create). */
module Indexes {
  import opened Basics
  import opened Site
  import Sorting

  /** An index the live fabric carries, and the zone that carries it. */
  datatype Claim = Claim(index: int, zone: string)

  // --- The fabric read --------------------------------------------------------------

  datatype Zone = Zone(name: string, vni: int, pendingVni: Option<int>)

  /** pending holds the zone, which may be empty, and the tag of a change not yet applied. */
  datatype VNet = VNet(zone: string, tag: int, pending: Option<(string, int)>)

  function PendingZone(v: VNet): string
    requires v.pending.Some?
  {
    if v.pending.value.0 == "" then v.zone else v.pending.value.0
  }

  ghost predicate ZoneClaims(site: Site, z: Zone, c: Claim) {
    c.zone == z.name &&
    (c.index == site.IndexForVrfVni(z.vni) ||
     (z.pendingVni.Some? && c.index == site.IndexForVrfVni(z.pendingVni.value)))
  }

  ghost predicate VNetClaims(site: Site, v: VNet, c: Claim) {
    || c == Claim(site.IndexForVnetTag(v.tag), v.zone)
    || (v.pending.Some? && c == Claim(site.IndexForVnetTag(v.pending.value.1), PendingZone(v)))
  }

  /** What the zones and VNets on the fabric, applied or pending, claim. */
  ghost predicate Claimed(site: Site, zones: seq<Zone>, vnets: seq<VNet>, c: Claim) {
    c.index != 0 &&
    ((exists z :: z in zones && ZoneClaims(site, z, c)) || (exists v :: v in vnets && VNetClaims(site, v, c)))
  }

  /** What is claimed, in the fabric's own numbers: an index of 1 to 63 whose VNI a
      zone of the name has or is to have, or whose ten tags hold a VNet's, or
      one it is to have, in the zone it is in or is to be moved to. */
  lemma ClaimedExactly(site: Site, zones: seq<Zone>, vnets: seq<VNet>, c: Claim)
    ensures Claimed(site, zones, vnets, c) <==>
      && 1 <= c.index <= 63
      && (|| (exists z :: z in zones && z.name == c.zone
                && (z.vni == site.vrfVniBase + c.index || z.pendingVni == Some(site.vrfVniBase + c.index)))
          || (exists v :: v in vnets
                && ((v.zone == c.zone && 0 <= v.tag - (site.vnetVniBase + 10 * c.index) < 10)
                    || (v.pending.Some? && 0 <= v.pending.value.1 - (site.vnetVniBase + 10 * c.index) < 10
                        && c.zone == if v.pending.value.0 == "" then v.zone else v.pending.value.0))))
  {
    forall tag ensures c.index != 0 && site.IndexForVnetTag(tag) == c.index <==>
      1 <= c.index <= 63 && 0 <= tag - (site.vnetVniBase + 10 * c.index) < 10
    {
      NumberingExactly(site, 0, tag);
    }
    forall vni ensures c.index != 0 && site.IndexForVrfVni(vni) == c.index <==>
      1 <= c.index <= 63 && vni == site.vrfVniBase + c.index
    {
      NumberingExactly(site, vni, 0);
    }
    if Claimed(site, zones, vnets, c) {
      if z :| z in zones && ZoneClaims(site, z, c) {
      } else {
        var v :| v in vnets && VNetClaims(site, v, c);
      }
    }
    if z :| z in zones && z.name == c.zone && 1 <= c.index <= 63
            && (z.vni == site.vrfVniBase + c.index || z.pendingVni == Some(site.vrfVniBase + c.index)) {
      assert ZoneClaims(site, z, c);
    }
    forall v | v in vnets && 1 <= c.index <= 63
               && ((v.zone == c.zone && 0 <= v.tag - (site.vnetVniBase + 10 * c.index) < 10)
                   || (v.pending.Some? && 0 <= v.pending.value.1 - (site.vnetVniBase + 10 * c.index) < 10
                       && c.zone == if v.pending.value.0 == "" then v.zone else v.pending.value.0))
      ensures VNetClaims(site, v, c)
    {
    }
  }

  function Elements(claims: seq<Claim>): set<Claim> { set c | c in claims }

  /** The `add` closure of claims: index 0 and repeats are dropped. */
  function AddClaim(out: seq<Claim>, c: Claim): (r: seq<Claim>)
    ensures Distinct(out) ==> Distinct(r)
    ensures forall d :: d in r <==> d in out || (d == c && c.index != 0)
  {
    if c.index != 0 && c !in out then out + [c] else out
  }

  /** claims: each claim once. */
  method Claims(site: Site, zones: seq<Zone>, vnets: seq<VNet>) returns (out: seq<Claim>)
    ensures Distinct(out)
    ensures forall c :: c in out <==> Claimed(site, zones, vnets, c)
  {
    out := [];
    for i := 0 to |zones|
      invariant Distinct(out)
      invariant forall c :: c in out <==> c.index != 0 && exists j :: 0 <= j < i && ZoneClaims(site, zones[j], c)
    {
      var z := zones[i];
      out := AddClaim(out, Claim(site.IndexForVrfVni(z.vni), z.name));
      if z.pendingVni.Some? {
        out := AddClaim(out, Claim(site.IndexForVrfVni(z.pendingVni.value), z.name));
      }
    }
    ghost var fromZones := out;
    for i := 0 to |vnets|
      invariant Distinct(out)
      invariant forall c :: c in out <==>
        c in fromZones || (c.index != 0 && exists j :: 0 <= j < i && VNetClaims(site, vnets[j], c))
    {
      var v := vnets[i];
      out := AddClaim(out, Claim(site.IndexForVnetTag(v.tag), v.zone));
      if v.pending.Some? {
        out := AddClaim(out, Claim(site.IndexForVnetTag(v.pending.value.1), PendingZone(v)));
      }
    }
  }

  // --- The pick ------------------------------------------------------------------------

  /** Free for this tenant: no row holds it and no one else's zone carries it.
      The tenant's own zone carrying it is the tenant coming back. */
  ghost predicate Free(name: string, held: set<int>, claims: set<Claim>, n: int) {
    n !in held && forall c :: c in claims && c.index == n ==> c.zone == name
  }

  ghost predicate OwnFree(name: string, held: set<int>, claims: set<Claim>, n: int) {
    MIN_INDEX <= n <= MAX_ALLOCATABLE && Claim(n, name) in claims && Free(name, held, claims, n)
  }

  ghost predicate RequestUsable(name: string, requested: int, held: set<int>, claims: set<Claim>) {
    requested != 0 && Free(name, held, claims, requested)
  }

  /** The rule: a usable request, else the lowest index the tenant's own zone
      still carries, else the lowest free one, else none. */
  ghost predicate IsPick(name: string, requested: int, held: set<int>, claims: set<Claim>, r: Option<int>) {
    if RequestUsable(name, requested, held, claims) then r == Some(requested)
    else if exists n :: OwnFree(name, held, claims, n) then
      r.Some? && OwnFree(name, held, claims, r.value) && forall n :: OwnFree(name, held, claims, n) ==> r.value <= n
    else if exists n :: MIN_INDEX <= n <= MAX_ALLOCATABLE && Free(name, held, claims, n) then
      && r.Some? && MIN_INDEX <= r.value <= MAX_ALLOCATABLE && Free(name, held, claims, r.value)
      && forall n :: MIN_INDEX <= n <= MAX_ALLOCATABLE && Free(name, held, claims, n) ==> r.value <= n
    else r == None
  }

  lemma PickIsUnique(name: string, requested: int, held: set<int>, claims: set<Claim>, r: Option<int>, q: Option<int>)
    requires IsPick(name, requested, held, claims, r) && IsPick(name, requested, held, claims, q)
    ensures r == q
  {
  }

  /** The pick, in indexes: taken is held by a row or carried by another's zone. A
      request that is not taken is granted; else the lowest of 1 to 62 that the
      tenant's own zone carries and is not taken; else the lowest that is not
      taken; and none exactly when every one of them is. */
  lemma PickExactly(name: string, requested: int, held: set<int>, claims: set<Claim>, r: Option<int>)
    requires IsPick(name, requested, held, claims, r)
    ensures var taken := (n: int) => n in held || exists c :: c in claims && c.index == n && c.zone != name;
      if requested != 0 && !taken(requested) then r == Some(requested)
      else if exists n :: 1 <= n <= 62 && Claim(n, name) in claims && !taken(n) then
        && r.Some? && 1 <= r.value <= 62 && Claim(r.value, name) in claims && !taken(r.value)
        && forall n :: 1 <= n < r.value && Claim(n, name) in claims ==> taken(n)
      else if r.Some? then
        1 <= r.value <= 62 && !taken(r.value) && forall n :: 1 <= n < r.value ==> taken(n)
      else forall n :: 1 <= n <= 62 ==> taken(n)
  {
    var taken := (n: int) => n in held || exists c :: c in claims && c.index == n && c.zone != name;
    assert forall n :: taken(n) <==> !Free(name, held, claims, n);
    assert forall n :: OwnFree(name, held, claims, n) <==> 1 <= n <= 62 && Claim(n, name) in claims && !taken(n);
  }

  predicate FreeIn(name: string, held: map<int, string>, fabric: map<int, seq<string>>, n: int) {
    n !in held && (n in fabric ==> forall i :: 0 <= i < |fabric[n]| ==> fabric[n][i] == name)
  }

  ghost predicate Indexed(claims: set<Claim>, fabric: map<int, seq<string>>) {
    forall n, z :: Claim(n, z) in claims <==> n in fabric && z in fabric[n]
  }

  lemma FreeInIsFree(name: string, held: map<int, string>, claims: set<Claim>, fabric: map<int, seq<string>>, n: int)
    requires Indexed(claims, fabric)
    ensures FreeIn(name, held, fabric, n) <==> Free(name, held.Keys, claims, n)
  {
    if FreeIn(name, held, fabric, n) {
      forall c | c in claims && c.index == n ensures c.zone == name {
        assert Claim(n, c.zone) in claims;
      }
    }
    if Free(name, held.Keys, claims, n) && n in fabric {
      forall i | 0 <= i < |fabric[n]| ensures fabric[n][i] == name {
        assert Claim(n, fabric[n][i]) in claims;
      }
    }
  }

  /** The claims by index. */
  method ByIndex(claims: seq<Claim>) returns (fabric: map<int, seq<string>>)
    ensures Indexed(Elements(claims), fabric)
  {
    fabric := map[];
    for i := 0 to |claims|
      invariant forall n, z :: (n in fabric && z in fabric[n]) <==> exists j :: 0 <= j < i && claims[j] == Claim(n, z)
    {
      var c := claims[i];
      var zones := if c.index in fabric then fabric[c.index] else [];
      fabric := fabric[c.index := zones + [c.zone]];
    }
    forall n, z ensures Claim(n, z) in Elements(claims) <==> n in fabric && z in fabric[n] {
      assert Claim(n, z) in Elements(claims) <==> exists j :: 0 <= j < |claims| && claims[j] == Claim(n, z);
    }
  }

  /** n once for every zone at n that is the tenant's own. */
  method AppendOwn(own: seq<int>, name: string, n: int, zones: seq<string>) returns (r: seq<int>)
    ensures forall m :: m in r <==> m in own || (m == n && name in zones)
  {
    r := own;
    for i := 0 to |zones|
      invariant forall m :: m in r <==> m in own || (m == n && name in zones[..i])
    {
      assert zones[..i + 1] == zones[..i] + [zones[i]];
      if zones[i] == name {
        r := r + [n];
      }
    }
    assert zones[..|zones|] == zones;
  }

  /** The indexes the tenant's own zone carries, lowest first. The map is
      visited in no particular order, which is why the list is sorted after. */
  method OwnIndexes(name: string, fabric: map<int, seq<string>>) returns (own: seq<int>)
    ensures forall n :: n in own <==> n in fabric && name in fabric[n]
    ensures Sorting.Sorted(own, Sorting.IntLe)
  {
    var found: seq<int> := [];
    var items := fabric.Items;
    while items != {}
      invariant items <= fabric.Items
      invariant forall n :: n in found <==> n in fabric && (n, fabric[n]) !in items && name in fabric[n]
      decreases |items|
    {
      var item :| item in items;
      found := AppendOwn(found, name, item.0, item.1);
      items := items - {item};
    }
    Sorting.SortSorted(found, Sorting.IntLe);
    own := Sorting.Sort(found, Sorting.IntLe);
    forall n ensures n in own <==> n in found {
      assert n in multiset(own) <==> n in multiset(found);
    }
  }

  method PickIndex(name: string, requested: int, held: map<int, string>, claims: seq<Claim>) returns (r: Option<int>)
    ensures IsPick(name, requested, held.Keys, Elements(claims), r)
  {
    ghost var all := Elements(claims);
    var fabric := ByIndex(claims);
    forall n ensures FreeIn(name, held, fabric, n) <==> Free(name, held.Keys, all, n) {
      FreeInIsFree(name, held, all, fabric, n);
    }
    if requested != 0 && FreeIn(name, held, fabric, requested) {
      return Some(requested);
    }
    var own := OwnIndexes(name, fabric);
    assert forall n :: n in own <==> Claim(n, name) in all;
    for i := 0 to |own|
      invariant forall j :: 0 <= j < i ==> !OwnFree(name, held.Keys, all, own[j])
    {
      var n := own[i];
      if MIN_INDEX <= n <= MAX_ALLOCATABLE && FreeIn(name, held, fabric, n) {
        assert OwnFree(name, held.Keys, all, n);
        forall m | OwnFree(name, held.Keys, all, m) ensures n <= m {
          var j :| 0 <= j < |own| && own[j] == m;
          assert i <= j;
          if i < j { assert Sorting.IntLe(own[i], own[j]); }
        }
        return Some(n);
      }
    }
    assert forall n :: !OwnFree(name, held.Keys, all, n);
    for n := MIN_INDEX to MAX_ALLOCATABLE + 1
      invariant forall m :: MIN_INDEX <= m < n ==> !Free(name, held.Keys, all, m)
    {
      if FreeIn(name, held, fabric, n) {
        return Some(n);
      }
    }
    return None;
  }

  // --- The locked insert -------------------------------------------------------------------

  datatype Status = Provisioning | Ready | Deleting

  datatype Row = Row(index: int, status: Status)

  function HeldIndexes(rows: map<string, Row>): set<int> {
    set n | n in rows :: rows[n].index
  }

  datatype Created = Inserted(row: Row) | Exists | Exhausted

  ghost predicate InsertRow(rows: map<string, Row>, rows': map<string, Row>,
                            name: string, requested: int, claims: set<Claim>, r: Created) {
    if name in rows then r == Exists && rows' == rows
    else if IsPick(name, requested, HeldIndexes(rows), claims, None) then r == Exhausted && rows' == rows
    else
      && r.Inserted? && r.row.status == Provisioning
      && IsPick(name, requested, HeldIndexes(rows), claims, Some(r.row.index))
      && rows' == rows[name := r.row]
  }

  /** What the locked create does, name by name: a name that is there is refused
      and one with no index to give; otherwise the one row is added, under an
      index no row holds, as provisioning. */
  lemma InsertExactly(rows: map<string, Row>, rows': map<string, Row>, name: string, requested: int,
                      claims: set<Claim>, r: Created)
    requires InsertRow(rows, rows', name, requested, claims, r)
    ensures r == Exists <==> name in rows
    ensures r.Inserted? ==>
      && name in rows' && rows'[name] == r.row && r.row.status == Provisioning
      && (forall t :: t in rows ==> rows[t].index != r.row.index && t in rows' && rows'[t] == rows[t])
      && (forall t :: t in rows' && t != name ==> t in rows)
    ensures !r.Inserted? ==> rows' == rows
  {
    if r.Inserted? {
      forall t | t in rows ensures rows[t].index != r.row.index {
        assert rows[t].index in HeldIndexes(rows);
      }
    }
  }

  class TenantStore {
    var rows: map<string, Row>

    constructor ()
      ensures rows == map[]
    {
      rows := map[];
    }

    /** SELECT idx, name FROM tenants, into a map by index. */
    method Held() returns (held: map<int, string>)
      ensures held.Keys == HeldIndexes(rows)
      ensures forall n :: n in held ==> held[n] in rows && rows[held[n]].index == n
    {
      held := map[];
      var left := rows.Keys;
      while left != {}
        invariant left <= rows.Keys
        invariant forall n :: n in held <==> exists t :: t in rows.Keys - left && rows[t].index == n
        invariant forall n :: n in held ==> held[n] in rows && rows[held[n]].index == n
        decreases |left|
      {
        var t :| t in left;
        held := held[rows[t].index := t];
        left := left - {t};
      }
      forall n ensures n in held <==> n in HeldIndexes(rows) {}
    }

    /** Create, from taking the allocation lock to releasing it. claims was read before. */
    method Create(name: string, requested: int, claims: seq<Claim>) returns (r: Created)
      modifies this
      ensures InsertRow(old(rows), rows, name, requested, Elements(claims), r)
    {
      var held := Held();
      if name in rows {
        return Exists;
      }
      var picked := PickIndex(name, requested, held, claims);
      match picked {
        case None =>
          return Exhausted;
        case Some(n) =>
          if IsPick(name, requested, HeldIndexes(rows), Elements(claims), None) {
            PickIsUnique(name, requested, held.Keys, Elements(claims), None, Some(n));
          }
          var row := Row(n, Provisioning);
          rows := rows[name := row];
          return Inserted(row);
      }
    }
  }
}
