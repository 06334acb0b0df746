/** internal/tenant/site.go: everything a site derives from one tenant index. */
module Site {
  import opened Text

  const MIN_INDEX := 1
  const MAX_ALLOCATABLE := 62
  const RESERVED_INDEX := 63
  const VNETS_PER_TENANT := 10
  const MAX_WORKLOADS := 40

  datatype Site = Site(
    name: string,
    octet: nat,
    rootDomain: string,
    certificateSites: seq<string>,
    vrfVniBase: int,
    vnetVniBase: int,
    tenantVmidBase: nat,
    macNamespace: string)
  {
    function VrfVni(index: int): int { vrfVniBase + index }

    /** The first of an index's ten VNet tags. */
    function VnetTagBase(index: int): int { vnetVniBase + index * VNETS_PER_TENANT }

    /** The index a VRF VNI seen on the fabric belongs to, or 0. */
    function IndexForVrfVni(vni: int): int {
      var n := vni - vrfVniBase;
      if n < MIN_INDEX || n > RESERVED_INDEX then 0 else n
    }

    /** The index whose VNet range holds the tag, or 0. */
    function IndexForVnetTag(tag: int): int {
      var off := tag - vnetVniBase;
      if off < 0 then 0
      else
        var n := off / VNETS_PER_TENANT;
        if n < MIN_INDEX || n > RESERVED_INDEX then 0 else n
    }

    function WorkloadVmid(index: nat, ordinal: nat): nat {
      tenantVmidBase + index * MAX_WORKLOADS + ordinal
    }

    /** .10 upwards in the tenant's /24. */
    function WorkloadAddress(index: nat, ordinal: nat): string {
      DottedQuad(10, octet, 128 + index, 10 + ordinal)
    }

    /** The VMID's low three bytes under the site's namespace. */
    function Mac(vmid: nat): string {
      MacText(macNamespace, vmid / 65536 % 256, vmid / 256 % 256, vmid % 256)
    }

    /** <tenant>.<root> */
    function ServiceZone(tenant: string): string { tenant + "." + rootDomain }

    /** <tenant>.<site>.<root> */
    function SiteZone(tenant: string, site: string): string { tenant + "." + site + "." + rootDomain }
  }

  function MacText(namespace: string, a: nat, b: nat, c: nat): string
    requires a < 256 && b < 256 && c < 256
  {
    namespace + ":" + Hex2(a) + ":" + Hex2(b) + ":" + Hex2(c)
  }

  /** Labels no tenant may take. */
  const RESERVED_NAMES := ["home", "mobile", "mgmt", "dvnt", "dvntm", "device", "mqtt", "artifacts"]

  predicate Reserved(name: string) { name in RESERVED_NAMES }

  /** The VNI map and the numbering are inverse, both ways, on every tenant index. */
  lemma VrfVniInverse(s: Site, index: int, vni: int)
    requires MIN_INDEX <= index <= RESERVED_INDEX
    ensures s.IndexForVrfVni(vni) == index <==> vni == s.VrfVni(index)
  {
  }

  /** Likewise the VNet map: an index owns its ten tags and no others. */
  lemma VnetTagInverse(s: Site, index: int, tag: int)
    requires MIN_INDEX <= index <= RESERVED_INDEX
    ensures s.IndexForVnetTag(tag) == index <==>
      s.VnetTagBase(index) <= tag < s.VnetTagBase(index) + VNETS_PER_TENANT
  {
  }

  /** The numbering itself: a tenant's VNI is its index above the base, and its
      VNet tags the ten from ten times its index above theirs. */
  lemma NumberingExactly(s: Site, vni: int, tag: int)
    ensures s.IndexForVrfVni(vni) == if 1 <= vni - s.vrfVniBase <= 63 then vni - s.vrfVniBase else 0
    ensures 10 <= tag - s.vnetVniBase < 640 ==>
      var n := s.IndexForVnetTag(tag); 1 <= n <= 63 && 10 * n <= tag - s.vnetVniBase < 10 * n + 10
    ensures !(10 <= tag - s.vnetVniBase < 640) ==> s.IndexForVnetTag(tag) == 0
  {
  }

  /** A workload's address is in its tenant's 10.octet.(128+index).0/24, from .10
      by ordinal, and its VMID in its tenant's forty. */
  lemma WorkloadInItsTenant(s: Site, index: nat, ordinal: nat)
    requires ordinal < 40
    ensures s.WorkloadAddress(index, ordinal) ==
      Join(["10", Decimal(s.octet), Decimal(128 + index), Decimal(10 + ordinal)], '.')
    ensures s.tenantVmidBase + 40 * index <= s.WorkloadVmid(index, ordinal) < s.tenantVmidBase + 40 * index + 40
    ensures s.WorkloadVmid(index, ordinal) == s.WorkloadVmid(index, 0) + ordinal
  {
    assert Decimal(10) == "10";
  }

  lemma ThreeBytes(a: nat, b: nat, c: nat)
    requires a < 256 && b < 256 && c < 256
    ensures var v := 65536 * a + 256 * b + c;
      v / 65536 % 256 == a && v / 256 % 256 == b && v % 256 == c
  {
    var v := 65536 * a + 256 * b + c;
    assert v / 256 == 256 * a + b;
    assert v / 65536 == a;
  }

  /** The MAC is the namespace and the VMID's low three bytes, high byte first. */
  lemma MacExactly(s: Site, a: nat, b: nat, c: nat)
    requires a < 256 && b < 256 && c < 256
    ensures s.Mac(65536 * a + 256 * b + c) == s.macNamespace + ":" + Hex2(a) + ":" + Hex2(b) + ":" + Hex2(c)
  {
    ThreeBytes(a, b, c);
    var v := 65536 * a + 256 * b + c;
    assert s.Mac(v) == MacText(s.macNamespace, v / 65536 % 256, v / 256 % 256, v % 256);
  }

  /** No tenant is named for a site, a global alias or the bus. */
  lemma ReservedExactly(name: string)
    ensures Reserved(name) <==>
      name in {"home", "mobile", "mgmt", "dvnt", "dvntm", "device", "mqtt", "artifacts"}
  {
    var r := RESERVED_NAMES;
    assert r[0] == "home" && r[1] == "mobile" && r[2] == "mgmt" && r[3] == "dvnt" && r[4] == "dvntm";
    assert r[5] == "device" && r[6] == "mqtt" && r[7] == "artifacts";
  }

  lemma MacBytes(v: nat)
    ensures v % 16777216 == v / 65536 % 256 * 65536 + v / 256 % 256 * 256 + v % 256
  {
    var b0, r0 := v % 256, v / 256;
    var b1, r1 := r0 % 256, r0 / 256;
    assert v / 65536 == r1;
    var b2, r2 := r1 % 256, r1 / 256;
    assert v == r2 * 16777216 + (b2 * 65536 + b1 * 256 + b0);
  }

  lemma MacTextInjective(ns: string, a: nat, b: nat, c: nat, a': nat, b': nat, c': nat)
    requires a < 256 && b < 256 && c < 256 && a' < 256 && b' < 256 && c' < 256
    requires MacText(ns, a, b, c) == MacText(ns, a', b', c')
    ensures a == a' && b == b' && c == c'
  {
    var m, m' := MacText(ns, a, b, c), MacText(ns, a', b', c');
    var n := |ns|;
    assert m[n + 1..n + 3] == Hex2(a) && m'[n + 1..n + 3] == Hex2(a');
    assert m[n + 4..n + 6] == Hex2(b) && m'[n + 4..n + 6] == Hex2(b');
    assert m[n + 7..n + 9] == Hex2(c) && m'[n + 7..n + 9] == Hex2(c');
    Hex2Injective(a, a');
    Hex2Injective(b, b');
    Hex2Injective(c, c');
  }

  lemma SameResidue(v: nat, w: nat)
    requires v <= w < v + 16777216 && v % 16777216 == w % 16777216
    ensures v == w
  {
  }

  /** VMIDs that lie within one 24-bit span have their own MACs, wherever the
      span starts and even where it wraps. */
  lemma MacInjective(s: Site, v: nat, w: nat)
    requires v <= w < v + 16777216 && s.Mac(v) == s.Mac(w)
    ensures v == w
  {
    MacTextInjective(s.macNamespace, v / 65536 % 256, v / 256 % 256, v % 256, w / 65536 % 256, w / 256 % 256, w % 256);
    MacBytes(v);
    MacBytes(w);
    SameResidue(v, w);
  }

  /** The VMID determines the index and the ordinal, whatever the base. */
  lemma VmidInjective(s: Site, i: nat, o: nat, i': nat, o': nat)
    requires o < MAX_WORKLOADS && o' < MAX_WORKLOADS
    ensures s.WorkloadVmid(i, o) == s.WorkloadVmid(i', o') <==> i == i' && o == o'
  {
    if s.WorkloadVmid(i, o) == s.WorkloadVmid(i', o') {
      assert (i * MAX_WORKLOADS + o) / MAX_WORKLOADS == i;
      assert (i' * MAX_WORKLOADS + o') / MAX_WORKLOADS == i';
    }
  }

  /** Index and ordinal determine the VMID, the MAC and the address, and are
      determined by each of them. */
  lemma WorkloadIdentityInjective(s: Site, i: nat, o: nat, i': nat, o': nat)
    requires i <= RESERVED_INDEX && i' <= RESERVED_INDEX && o < MAX_WORKLOADS && o' < MAX_WORKLOADS
    requires i != i' || o != o'
    ensures s.WorkloadVmid(i, o) != s.WorkloadVmid(i', o')
    ensures s.Mac(s.WorkloadVmid(i, o)) != s.Mac(s.WorkloadVmid(i', o'))
    ensures s.WorkloadAddress(i, o) != s.WorkloadAddress(i', o')
  {
    VmidInjective(s, i, o, i', o');
    var v, w := s.WorkloadVmid(i, o), s.WorkloadVmid(i', o');
    assert s.tenantVmidBase <= v < s.tenantVmidBase + 2560 && s.tenantVmidBase <= w < s.tenantVmidBase + 2560;
    SpanMacsDiffer(s, v, w);
    if s.WorkloadAddress(i, o) == s.WorkloadAddress(i', o') {
      DottedQuadInjective(10, s.octet, 128 + i, 10 + o, 10, s.octet, 128 + i', 10 + o');
    }
  }

  lemma SpanMacsDiffer(s: Site, v: nat, w: nat)
    requires v != w && v < w + 16777216 && w < v + 16777216
    ensures s.Mac(v) != s.Mac(w)
  {
    if s.Mac(v) == s.Mac(w) {
      if v <= w { MacInjective(s, v, w); } else { MacInjective(s, w, v); }
    }
  }
}
