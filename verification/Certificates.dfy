/** internal/tenant/certificates.go: which names a tenant's certificate holds. */
module Certificates {
  import opened Basics
  import opened Text
  import opened Site
  import Sorting

  const MAX_CERTIFICATE_NAMES := 8

  predicate DotFree(s: string) { '.' !in s }

  // --- Labels and sites ---------------------------------------------------------------

  predicate UsableLabel(l: string) { ValidLabel(l) && l != "device" }

  /** certificateLabels: the certificate's own label first. */
  method CertificateLabels(name: string, more: seq<string>) returns (labels: Option<seq<string>>)
    ensures labels.Some? <==>
      && (forall i :: 0 <= i < |more| + 1 ==> UsableLabel(([name] + more)[i]))
      && Distinct([name] + more) && |more| + 1 <= 8
    ensures labels.Some? ==> labels.value == [name] + more
  {
    var all := [name] + more;
    if !ValidLabel(name) || name == "device" {
      assert !UsableLabel(all[0]);
      return None;
    }
    var out := [name];
    for i := 0 to |more|
      invariant out == all[..i + 1]
      invariant forall j :: 0 <= j < i + 1 ==> UsableLabel(all[j])
      invariant Distinct(out)
    {
      assert more[i] == all[i + 1];
      if !ValidLabel(more[i]) || more[i] == "device" {
        assert !UsableLabel(all[i + 1]);
        return None;
      }
      if more[i] in out {
        var j :| 0 <= j < |out| && out[j] == more[i];
        assert all[j] == all[i + 1];
        return None;
      }
      out := out + [more[i]];
    }
    assert out == all;
    if |out| > MAX_CERTIFICATE_NAMES {
      return None;
    }
    return Some(out);
  }

  function AllowedSites(s: Site): seq<string> {
    if s.certificateSites == [] then [s.name] else s.certificateSites
  }

  /** certificateSites: this site alone when none is asked for. */
  method CertificateSites(s: Site, asked: seq<string>) returns (sites: Option<seq<string>>)
    ensures asked == [] ==> sites == Some([s.name])
    ensures asked != [] ==>
      (sites.Some? <==>
         && Distinct(asked)
         && forall i :: 0 <= i < |asked| ==>
           if s.certificateSites == [] then asked[i] == s.name else asked[i] in s.certificateSites)
    ensures asked != [] && sites.Some? ==> sites.value == asked
  {
    if |asked| == 0 {
      return Some([s.name]);
    }
    var out := [];
    for i := 0 to |asked|
      invariant out == asked[..i] && Distinct(out)
      invariant forall j :: 0 <= j < i ==> asked[j] in AllowedSites(s)
    {
      if asked[i] !in AllowedSites(s) {
        return None;
      }
      if asked[i] in out {
        var j :| 0 <= j < |out| && out[j] == asked[i];
        assert asked[j] == asked[i];
        return None;
      }
      out := out + [asked[i]];
    }
    assert out == asked;
    return Some(out);
  }

  // --- The names -----------------------------------------------------------------------

  /** <parts joined with dots>.<root> */
  function Name(parts: seq<string>, root: string): string
    requires |parts| >= 1
  {
    Join(parts, '.') + "." + root
  }

  function ServiceParts(tenant: string, labels: seq<string>): (r: seq<seq<string>>)
    ensures |r| == |labels|
  {
    seq(|labels|, i requires 0 <= i < |labels| => [labels[i], tenant])
  }

  function SiteParts(tenant: string, labels: seq<string>, site: string): (r: seq<seq<string>>)
    ensures |r| == |labels|
  {
    seq(|labels|, i requires 0 <= i < |labels| => [labels[i], tenant, site])
  }

  function AllSiteParts(tenant: string, labels: seq<string>, sites: seq<string>): seq<seq<string>> {
    if sites == [] then []
    else AllSiteParts(tenant, labels, sites[..|sites| - 1]) + SiteParts(tenant, labels, sites[|sites| - 1])
  }

  /** Each label's site-less name, then each label at each site, as parts under the root. */
  function NameParts(tenant: string, labels: seq<string>, sites: seq<string>): seq<seq<string>> {
    ServiceParts(tenant, labels) + AllSiteParts(tenant, labels, sites)
  }

  lemma {:induction false} SitePartsShape(tenant: string, labels: seq<string>, sites: seq<string>)
    ensures forall p :: p in AllSiteParts(tenant, labels, sites) ==>
      |p| == 3 && p[0] in labels && p[1] == tenant && p[2] in sites
  {
    if sites != [] {
      SitePartsShape(tenant, labels, sites[..|sites| - 1]);
      forall p | p in SiteParts(tenant, labels, sites[|sites| - 1])
        ensures |p| == 3 && p[0] in labels && p[1] == tenant && p[2] in sites
      {
        var i :| 0 <= i < |labels| && SiteParts(tenant, labels, sites[|sites| - 1])[i] == p;
      }
    }
  }

  lemma PartsShape(tenant: string, labels: seq<string>, sites: seq<string>, p: seq<string>)
    requires p in NameParts(tenant, labels, sites)
    ensures 2 <= |p| <= 3 && p[0] in labels && p[1] == tenant && (|p| == 3 ==> p[2] in sites)
  {
    SitePartsShape(tenant, labels, sites);
    if p in ServiceParts(tenant, labels) {
      var i :| 0 <= i < |labels| && ServiceParts(tenant, labels)[i] == p;
    }
  }

  lemma ConcatDistinct<T>(a: seq<T>, b: seq<T>)
    requires Distinct(a) && Distinct(b) && forall x :: x in a ==> x !in b
    ensures Distinct(a + b)
  {
    forall i, j | 0 <= i < j < |a + b| ensures (a + b)[i] != (a + b)[j] {
      if i < |a| <= j {
        assert (a + b)[i] in a && (a + b)[j] in b;
      }
    }
  }

  lemma {:induction false} SitePartsDistinct(tenant: string, labels: seq<string>, sites: seq<string>)
    requires Distinct(labels) && Distinct(sites)
    ensures Distinct(AllSiteParts(tenant, labels, sites))
  {
    if sites != [] {
      var init, last := sites[..|sites| - 1], sites[|sites| - 1];
      SitePartsDistinct(tenant, labels, init);
      SitePartsShape(tenant, labels, init);
      var block := SiteParts(tenant, labels, last);
      forall i, j | 0 <= i < j < |block| ensures block[i] != block[j] {
        assert block[i][0] == labels[i] && block[j][0] == labels[j];
      }
      forall p | p in AllSiteParts(tenant, labels, init) ensures p !in block {
        assert p[2] != last;
        forall i | 0 <= i < |block| ensures block[i] != p {
          assert block[i][2] == last;
        }
      }
      ConcatDistinct(AllSiteParts(tenant, labels, init), block);
    }
  }

  lemma NamePartsDistinct(tenant: string, labels: seq<string>, sites: seq<string>)
    requires Distinct(labels) && Distinct(sites)
    ensures Distinct(NameParts(tenant, labels, sites))
  {
    SitePartsDistinct(tenant, labels, sites);
    SitePartsShape(tenant, labels, sites);
    var service := ServiceParts(tenant, labels);
    forall i, j | 0 <= i < j < |service| ensures service[i] != service[j] {
      assert service[i][0] == labels[i] && service[j][0] == labels[j];
    }
    forall p | p in service ensures p !in AllSiteParts(tenant, labels, sites) {
      var i :| 0 <= i < |service| && service[i] == p;
      assert |p| == 2;
    }
    ConcatDistinct(service, AllSiteParts(tenant, labels, sites));
  }

  lemma LabelsAreDotFree(l: string)
    requires ValidLabel(l) || ValidName(l)
    ensures DotFree(l)
  {
    forall i | 0 <= i < |l| ensures l[i] != '.' {}
  }

  /** Under one root, dot-free parts are read back from the name. */
  lemma NameInjective(p: seq<string>, q: seq<string>, root: string)
    requires |p| >= 1 && |q| >= 1 && Name(p, root) == Name(q, root)
    requires (forall i :: 0 <= i < |p| ==> DotFree(p[i])) && (forall i :: 0 <= i < |q| ==> DotFree(q[i]))
    ensures p == q
  {
    var n := Name(p, root);
    assert n[..|n| - |root| - 1] == Join(p, '.');
    assert n[..|n| - |root| - 1] == Join(q, '.');
    SplitJoin(p, '.');
    SplitJoin(q, '.');
  }

  /** A certificate as it is issued: usable distinct labels, distinct sites, a real tenant. */
  datatype Request = Request(tenant: string, labels: seq<string>, sites: seq<string>)

  ghost predicate Issuable(r: Request) {
    && ValidName(r.tenant) && !Reserved(r.tenant)
    && Distinct(r.labels) && Distinct(r.sites)
    && (forall i :: 0 <= i < |r.labels| ==> UsableLabel(r.labels[i]))
    && (forall i :: 0 <= i < |r.sites| ==> DotFree(r.sites[i]))
  }

  /** The names under the root that a list of parts stands for. */
  function NamesOf(parts: seq<seq<string>>, root: string): (ns: seq<string>)
    ensures |ns| == |parts|
  {
    seq(|parts|, i requires 0 <= i < |parts| => if |parts[i]| >= 1 then Name(parts[i], root) else "")
  }

  function Names(r: Request, root: string): seq<string> {
    NamesOf(NameParts(r.tenant, r.labels, r.sites), root)
  }

  lemma PartsAreDotFree(r: Request, k: nat)
    requires Issuable(r) && k < |NameParts(r.tenant, r.labels, r.sites)|
    ensures var p := NameParts(r.tenant, r.labels, r.sites)[k];
      2 <= |p| <= 3 && p[1] == r.tenant && forall i :: 0 <= i < |p| ==> DotFree(p[i])
  {
    var p := NameParts(r.tenant, r.labels, r.sites)[k];
    PartsShape(r.tenant, r.labels, r.sites, p);
    LabelsAreDotFree(p[0]);
    LabelsAreDotFree(r.tenant);
  }

  /** No name is in a certificate twice. */
  lemma NamesAreDistinct(r: Request, root: string)
    requires Issuable(r)
    ensures Distinct(Names(r, root))
  {
    var parts := NameParts(r.tenant, r.labels, r.sites);
    NamePartsDistinct(r.tenant, r.labels, r.sites);
    forall i, j | 0 <= i < j < |parts| ensures Names(r, root)[i] != Names(r, root)[j] {
      PartsAreDotFree(r, i);
      PartsAreDotFree(r, j);
      if Name(parts[i], root) == Name(parts[j], root) {
        NameInjective(parts[i], parts[j], root);
      }
    }
  }

  /** Certificates of different tenants share no name. */
  lemma TenantsShareNoName(r: Request, q: Request, root: string, i: nat, j: nat)
    requires Issuable(r) && Issuable(q) && r.tenant != q.tenant
    requires i < |Names(r, root)| && j < |Names(q, root)|
    ensures Names(r, root)[i] != Names(q, root)[j]
  {
    var p, p' := NameParts(r.tenant, r.labels, r.sites)[i], NameParts(q.tenant, q.labels, q.sites)[j];
    PartsAreDotFree(r, i);
    PartsAreDotFree(q, j);
    if Name(p, root) == Name(p', root) {
      NameInjective(p, p', root);
    }
  }

  /** And none is a host directly under a reserved label: <host>.<site>.<root>. */
  lemma NoReservedHost(r: Request, root: string, i: nat, host: string, site: string)
    requires Issuable(r) && i < |Names(r, root)| && DotFree(host) && Reserved(site)
    ensures Names(r, root)[i] != Name([host, site], root)
  {
    var p := NameParts(r.tenant, r.labels, r.sites)[i];
    PartsAreDotFree(r, i);
    ReservedAreDotFree(site);
    if Name(p, root) == Name([host, site], root) {
      NameInjective(p, [host, site], root);
    }
  }

  lemma ReservedAreDotFree(site: string)
    requires Reserved(site)
    ensures DotFree(site)
  {
    var i :| 0 <= i < |RESERVED_NAMES| && RESERVED_NAMES[i] == site;
  }

  lemma {:induction false} SitePartsComplete(tenant: string, labels: seq<string>, sites: seq<string>, l: string,
                                             at: string)
    requires l in labels && at in sites
    ensures [l, tenant, at] in AllSiteParts(tenant, labels, sites)
  {
    var init, last := sites[..|sites| - 1], sites[|sites| - 1];
    if at == last {
      var i :| 0 <= i < |labels| && labels[i] == l;
      assert SiteParts(tenant, labels, last)[i] == [l, tenant, at];
    } else {
      var i :| 0 <= i < |sites| && sites[i] == at;
      assert init[i] == at;
      SitePartsComplete(tenant, labels, init, l, at);
    }
  }

  /** Every label is named without a site and at every site, and the
      certificate's own label comes first of all, so it is the common name. */
  lemma NamesAreComplete(r: Request, root: string, l: string, at: string)
    requires l in r.labels
    ensures Name([l, r.tenant], root) in Names(r, root)
    ensures at in r.sites ==> Name([l, r.tenant, at], root) in Names(r, root)
    ensures Names(r, root)[0] == Name([r.labels[0], r.tenant], root)
  {
    var parts := NameParts(r.tenant, r.labels, r.sites);
    var i :| 0 <= i < |r.labels| && r.labels[i] == l;
    assert parts[i] == [l, r.tenant] && parts[0] == [r.labels[0], r.tenant];
    assert Names(r, root)[i] == Name([l, r.tenant], root);
    if at in r.sites {
      SitePartsComplete(r.tenant, r.labels, r.sites, l, at);
      assert [l, r.tenant, at] in parts;
      var j :| 0 <= j < |parts| && parts[j] == [l, r.tenant, at];
      assert Names(r, root)[j] == Name([l, r.tenant, at], root);
    }
  }

  /** A label that may be named: one that is no device's parent. */
  lemma UsableExactly(l: string)
    ensures UsableLabel(l) <==> ValidLabel(l) && l != "device"
  {
  }

  /** The names as text: <label>.<tenant>.<root> first, then <label>.<tenant>.<site>.<root>. */
  lemma NamesExactly(r: Request, root: string, n: string)
    ensures n in Names(r, root) <==>
      || (exists l :: l in r.labels && n == l + "." + r.tenant + "." + root)
      || (exists l, at :: l in r.labels && at in r.sites && n == l + "." + r.tenant + "." + at + "." + root)
  {
    if n in Names(r, root) {
      NameIsOfLabel(r, root, n);
    }
    if l :| l in r.labels && n == l + "." + r.tenant + "." + root {
      NamesAreComplete(r, root, l, "");
      TwoParts(l, r.tenant, root);
    }
    if l, at :| l in r.labels && at in r.sites && n == l + "." + r.tenant + "." + at + "." + root {
      NamesAreComplete(r, root, l, at);
      ThreeParts(l, r.tenant, at, root);
    }
  }

  lemma NameIsOfLabel(r: Request, root: string, n: string)
    requires n in Names(r, root)
    ensures
      || (exists l :: l in r.labels && n == l + "." + r.tenant + "." + root)
      || (exists l, at :: l in r.labels && at in r.sites && n == l + "." + r.tenant + "." + at + "." + root)
  {
    var parts := NameParts(r.tenant, r.labels, r.sites);
    var k :| 0 <= k < |parts| && Names(r, root)[k] == n;
    var p := parts[k];
    PartsShape(r.tenant, r.labels, r.sites, p);
    if |p| == 2 {
      TwoParts(p[0], p[1], root);
      assert p == [p[0], p[1]];
    } else {
      ThreeParts(p[0], p[1], p[2], root);
      assert p == [p[0], p[1], p[2]];
    }
  }

  lemma TwoParts(a: string, b: string, root: string)
    ensures Name([a, b], root) == a + "." + b + "." + root
  {
    assert Join([a, b], '.') == a + ['.'] + b;
  }

  lemma ThreeParts(a: string, b: string, c: string, root: string)
    ensures Name([a, b, c], root) == a + "." + b + "." + c + "." + root
  {
    JoinThree(a, b, c, '.');
  }

  // --- certificateNames as it runs ------------------------------------------------------------

  lemma ServiceName(s: Site, tenant: string, l: string)
    ensures l + "." + s.ServiceZone(tenant) == Name([l, tenant], s.rootDomain)
  {
    assert Join([l, tenant], '.') == l + ['.'] + tenant;
  }

  lemma SiteName(s: Site, tenant: string, l: string, at: string)
    ensures l + "." + s.SiteZone(tenant, at) == Name([l, tenant, at], s.rootDomain)
  {
    JoinThree(l, tenant, at, '.');
  }

  lemma NamesOfConcat(a: seq<seq<string>>, b: seq<seq<string>>, root: string)
    ensures NamesOf(a + b, root) == NamesOf(a, root) + NamesOf(b, root)
  {
  }

  /** One pass over the labels, at a site or at none. */
  method LabelNames(s: Site, tenant: string, labels: seq<string>, at: Option<string>) returns (names: seq<string>)
    ensures names ==
      NamesOf(if at.Some? then SiteParts(tenant, labels, at.value) else ServiceParts(tenant, labels), s.rootDomain)
  {
    names := [];
    for i := 0 to |labels|
      invariant |names| == i
      invariant forall j :: 0 <= j < i ==>
        names[j] == Name(if at.Some? then [labels[j], tenant, at.value] else [labels[j], tenant], s.rootDomain)
    {
      match at {
        case None =>
          ServiceName(s, tenant, labels[i]);
          names := names + [labels[i] + "." + s.ServiceZone(tenant)];
        case Some(site) =>
          SiteName(s, tenant, labels[i], site);
          names := names + [labels[i] + "." + s.SiteZone(tenant, site)];
      }
    }
  }

  method CertificateNames(s: Site, tenant: string, labels: seq<string>, sites: seq<string>) returns (names: seq<string>)
    ensures names == Names(Request(tenant, labels, sites), s.rootDomain)
  {
    names := LabelNames(s, tenant, labels, None);
    for i := 0 to |sites|
      invariant names == NamesOf(ServiceParts(tenant, labels) + AllSiteParts(tenant, labels, sites[..i]), s.rootDomain)
    {
      assert sites[..i + 1][..i] == sites[..i];
      var more := LabelNames(s, tenant, labels, Some(sites[i]));
      var before := ServiceParts(tenant, labels) + AllSiteParts(tenant, labels, sites[..i]);
      NamesOfConcat(before, SiteParts(tenant, labels, sites[i]), s.rootDomain);
      assert before + SiteParts(tenant, labels, sites[i]) ==
        ServiceParts(tenant, labels) + AllSiteParts(tenant, labels, sites[..i + 1]);
      names := names + more;
    }
    assert sites[..|sites|] == sites;
  }

  /** checkSigned's comparison: the signer may list the names in any order, and
      may neither drop, add nor repeat one. */
  method SameNames(signed: seq<string>, asked: seq<string>) returns (same: bool)
    ensures same <==> multiset(signed) == multiset(asked)
  {
    same := Sorting.SameMembers(signed, asked);
  }
}
