/** internal/store/workloads.go: ordinals, and the identity derived from them. */
module Workloads {
  import opened Site

  datatype Sizing = Sizing(cores: nat, memoryMb: nat, diskGb: nat, sshKeys: seq<string>)

  datatype Ids = Ids(vmid: nat, mac: string, address: string)

  /** What an index and an ordinal are turned into. */
  type Numbering = (nat, nat) -> Ids

  /** The site's own numbering. */
  function SiteNumbering(s: Site): Numbering {
    (index: nat, ordinal: nat) =>
      Ids(s.WorkloadVmid(index, ordinal), s.Mac(s.WorkloadVmid(index, ordinal)), s.WorkloadAddress(index, ordinal))
  }

  datatype Workload = Workload(ordinal: nat, ids: Ids, sizing: Sizing)

  /** A workload's key: its tenant and its name there. */
  type Key = (string, string)

  datatype Registry = Registry(tenants: map<string, nat>, workloads: map<Key, Workload>)

  datatype Outcome = Placed(workload: Workload) | NotFound | Exhausted

  ghost predicate Taken(r: Registry, tenant: string, ordinal: nat) {
    exists name :: (tenant, name) in r.workloads && r.workloads[(tenant, name)].ordinal == ordinal
  }

  /** The lowest ordinal the tenant has not given out. */
  ghost predicate LowestFree(r: Registry, tenant: string, ordinal: nat) {
    !Taken(r, tenant, ordinal) && forall n: nat :: n < ordinal ==> Taken(r, tenant, n)
  }

  /** Which of the three is which. */
  lemma SiteNumberingExactly(s: Site, index: nat, ordinal: nat)
    ensures var ids := SiteNumbering(s)(index, ordinal);
      && ids.vmid == s.WorkloadVmid(index, ordinal) && ids.mac == s.Mac(ids.vmid)
      && ids.address == s.WorkloadAddress(index, ordinal)
  {
  }

  // --- Runs ---------------------------------------------------------------------------

  /** One transaction against the registry. The index a tenant is created with
      is its allocator's to choose, among those no row holds. */
  ghost predicate CreateTenant(r: Registry, r': Registry, tenant: string, index: nat) {
    && tenant !in r.tenants
    && MIN_INDEX <= index <= MAX_ALLOCATABLE
    && (forall t :: t in r.tenants ==> r.tenants[t] != index)
    && r' == r.(tenants := r.tenants[tenant := index])
  }

  ghost predicate DeleteTenant(r: Registry, r': Registry, tenant: string) {
    r' == Registry(r.tenants - {tenant}, map k | k in r.workloads && k.0 != tenant :: r.workloads[k])
  }

  ghost predicate CreateWorkload(num: Numbering, r: Registry, r': Registry, key: Key, sizing: Sizing, out: Outcome) {
    if key in r.workloads then
      var w := r.workloads[key].(sizing := sizing);
      out == Placed(w) && r' == r.(workloads := r.workloads[key := w])
    else if key.0 !in r.tenants then
      out == NotFound && r' == r
    else if forall n: nat :: n < MAX_WORKLOADS ==> Taken(r, key.0, n) then
      out == Exhausted && r' == r
    else
      && out.Placed?
      && LowestFree(r, key.0, out.workload.ordinal)
      && out.workload == Workload(out.workload.ordinal, num(r.tenants[key.0], out.workload.ordinal), sizing)
      && r' == r.(workloads := r.workloads[key := out.workload])
  }

  ghost predicate DeleteWorkload(r: Registry, r': Registry, key: Key) {
    r' == r.(workloads := r.workloads - {key})
  }

  ghost predicate Next(num: Numbering, r: Registry, r': Registry) {
    || (exists tenant, index :: CreateTenant(r, r', tenant, index))
    || (exists tenant :: DeleteTenant(r, r', tenant))
    || (exists key, sizing, out :: CreateWorkload(num, r, r', key, sizing, out))
    || (exists key :: DeleteWorkload(r, r', key))
  }

  /** Registries some run of transactions reaches from an empty one. */
  ghost predicate Run(num: Numbering, states: seq<Registry>) {
    && |states| >= 1 && states[0] == Registry(map[], map[])
    && forall i :: 0 <= i < |states| - 1 ==> StepAt(num, states, i)
  }

  ghost predicate StepAt(num: Numbering, states: seq<Registry>, i: nat)
    requires i < |states| - 1
  {
    Next(num, states[i], states[i + 1])
  }

  /** The runs are not empty of what the store does: a tenant may take any index of
      1 to 62 no row holds, any workload may go, and a tenant with all its own. */
  lemma StepsAreThere(num: Numbering, r: Registry, tenant: string, index: nat, key: Key)
    ensures tenant !in r.tenants && 1 <= index <= 62 && (forall t :: t in r.tenants ==> r.tenants[t] != index) ==>
      Next(num, r, Registry(r.tenants[tenant := index], r.workloads))
    ensures Next(num, r, Registry(r.tenants, r.workloads - {key}))
    ensures Next(num, r, Registry(r.tenants - {tenant}, map k | k in r.workloads && k.0 != tenant :: r.workloads[k]))
  {
    if tenant !in r.tenants && 1 <= index <= 62 && (forall t :: t in r.tenants ==> r.tenants[t] != index) {
      assert CreateTenant(r, Registry(r.tenants[tenant := index], r.workloads), tenant, index);
    }
    assert DeleteWorkload(r, Registry(r.tenants, r.workloads - {key}), key);
    var left := Registry(r.tenants - {tenant}, map k | k in r.workloads && k.0 != tenant :: r.workloads[k]);
    assert DeleteTenant(r, left, tenant);
  }

  ghost predicate Derived(num: Numbering, r: Registry, key: Key)
    requires key in r.workloads
  {
    && key.0 in r.tenants
    && r.workloads[key].ordinal < MAX_WORKLOADS
    && r.workloads[key].ids == num(r.tenants[key.0], r.workloads[key].ordinal)
  }

  ghost predicate Inv(num: Numbering, r: Registry) {
    && (forall t :: t in r.tenants ==> MIN_INDEX <= r.tenants[t] <= MAX_ALLOCATABLE)
    && (forall t, u :: t in r.tenants && u in r.tenants && r.tenants[t] == r.tenants[u] ==> t == u)
    && (forall k :: k in r.workloads ==> Derived(num, r, k))
    && (forall k, l :: k in r.workloads && l in r.workloads && k.0 == l.0 && k != l ==>
          r.workloads[k].ordinal != r.workloads[l].ordinal)
  }

  lemma PlacedKeepsInv(num: Numbering, r: Registry, key: Key, w: Workload)
    requires Inv(num, r) && key.0 in r.tenants && w.ordinal < MAX_WORKLOADS && !Taken(r, key.0, w.ordinal)
    requires w.ids == num(r.tenants[key.0], w.ordinal)
    ensures Inv(num, r.(workloads := r.workloads[key := w]))
  {
    var r' := r.(workloads := r.workloads[key := w]);
    forall k | k in r.workloads && k.0 == key.0 ensures r.workloads[k].ordinal != w.ordinal {
      assert k == (key.0, k.1);
    }
    forall k | k in r'.workloads ensures Derived(num, r', k) {
      assert k == key || Derived(num, r, k);
    }
  }

  lemma ResizedKeepsInv(num: Numbering, r: Registry, key: Key, sizing: Sizing)
    requires Inv(num, r) && key in r.workloads
    ensures Inv(num, r.(workloads := r.workloads[key := r.workloads[key].(sizing := sizing)]))
  {
    var r' := r.(workloads := r.workloads[key := r.workloads[key].(sizing := sizing)]);
    forall k | k in r'.workloads ensures Derived(num, r', k) {
      assert Derived(num, r, k);
    }
  }

  lemma CreateWorkloadKeepsInv(num: Numbering, r: Registry, r': Registry, key: Key, sizing: Sizing, out: Outcome)
    requires Inv(num, r) && CreateWorkload(num, r, r', key, sizing, out)
    ensures Inv(num, r')
  {
    if key in r.workloads {
      ResizedKeepsInv(num, r, key, sizing);
    } else if out.Placed? {
      var n :| 0 <= n < MAX_WORKLOADS && !Taken(r, key.0, n);
      assert out.workload.ordinal <= n;
      PlacedKeepsInv(num, r, key, out.workload);
    }
  }

  /** A deleted workload's ordinal is its tenant's to give out again. */
  lemma DeletedKeepsInv(num: Numbering, r: Registry, key: Key)
    requires Inv(num, r)
    ensures var r' := r.(workloads := r.workloads - {key});
      Inv(num, r') && (key in r.workloads ==> !Taken(r', key.0, r.workloads[key].ordinal))
  {
    var r' := r.(workloads := r.workloads - {key});
    forall k | k in r'.workloads ensures Derived(num, r', k) { assert Derived(num, r, k); }
    if key in r.workloads {
      forall name | (key.0, name) in r'.workloads
        ensures r'.workloads[(key.0, name)].ordinal != r.workloads[key].ordinal
      {
      }
    }
  }

  /** What a create leaves and answers: a known workload with only its sizing
      new; an unknown tenant refused; the lowest of forty ordinals that none of
      the tenant's has, and what the site derives from it; or, with all forty
      given, refused. No other workload is touched. */
  lemma CreateExactly(num: Numbering, r: Registry, r': Registry, key: Key, sizing: Sizing, out: Outcome)
    requires CreateWorkload(num, r, r', key, sizing, out)
    ensures forall k :: k != key ==>
      (k in r'.workloads <==> k in r.workloads) && (k in r.workloads ==> r'.workloads[k] == r.workloads[k])
    ensures r'.tenants == r.tenants
    ensures if key in r.workloads then
        && key in r'.workloads && out == Placed(r'.workloads[key]) && r'.workloads[key].sizing == sizing
        && r'.workloads[key].ordinal == r.workloads[key].ordinal && r'.workloads[key].ids == r.workloads[key].ids
      else if key.0 !in r.tenants then out == NotFound && key !in r'.workloads
      else if forall n: nat :: n < 40 ==> Taken(r, key.0, n) then out == Exhausted && key !in r'.workloads
      else
        && key in r'.workloads && out == Placed(r'.workloads[key]) && r'.workloads[key].sizing == sizing
        && r'.workloads[key].ids == num(r.tenants[key.0], r'.workloads[key].ordinal)
        && (forall k :: k in r.workloads && k.0 == key.0 ==> r.workloads[k].ordinal != r'.workloads[key].ordinal)
        && (forall n: nat :: n < r'.workloads[key].ordinal ==> Taken(r, key.0, n))
  {
    if key !in r.workloads && out.Placed? {
      forall k | k in r.workloads && k.0 == key.0 ensures r.workloads[k].ordinal != out.workload.ordinal {
        assert k == (key.0, k.1);
      }
    }
  }

  lemma NextKeepsInv(num: Numbering, r: Registry, r': Registry)
    requires Inv(num, r) && Next(num, r, r')
    ensures Inv(num, r')
  {
    if tenant, index :| CreateTenant(r, r', tenant, index) {
      forall k | k in r'.workloads ensures Derived(num, r', k) { assert Derived(num, r, k); }
    } else if tenant :| DeleteTenant(r, r', tenant) {
      forall k | k in r'.workloads ensures Derived(num, r', k) { assert Derived(num, r, k); }
    } else if key, sizing, out :| CreateWorkload(num, r, r', key, sizing, out) {
      CreateWorkloadKeepsInv(num, r, r', key, sizing, out);
    } else {
      var key :| DeleteWorkload(r, r', key);
      DeletedKeepsInv(num, r, key);
    }
  }

  lemma {:induction false} RunKeepsInv(num: Numbering, states: seq<Registry>, i: nat)
    requires Run(num, states) && i < |states|
    ensures Inv(num, states[i])
  {
    if i > 0 {
      RunKeepsInv(num, states, i - 1);
      assert StepAt(num, states, i - 1);
      NextKeepsInv(num, states[i - 1], states[i]);
    }
  }

  lemma DistinctIdentity(s: Site, r: Registry, k: Key, l: Key)
    requires Inv(SiteNumbering(s), r) && k in r.workloads && l in r.workloads && k != l
    ensures r.workloads[k].ids.vmid != r.workloads[l].ids.vmid
    ensures r.workloads[k].ids.mac != r.workloads[l].ids.mac
    ensures r.workloads[k].ids.address != r.workloads[l].ids.address
  {
    assert Derived(SiteNumbering(s), r, k) && Derived(SiteNumbering(s), r, l);
    var (i, o) := (r.tenants[k.0], r.workloads[k].ordinal);
    var (i', o') := (r.tenants[l.0], r.workloads[l].ordinal);
    assert i != i' || o != o';
    WorkloadIdentityInjective(s, i, o, i', o');
  }

  /** In every registry any run reaches, no two workloads of any tenants share
      a VMID, a MAC or an address. */
  lemma IdentitiesAreDistinct(s: Site, states: seq<Registry>, i: nat, k: Key, l: Key)
    requires Run(SiteNumbering(s), states) && i < |states|
    requires k in states[i].workloads && l in states[i].workloads && k != l
    ensures states[i].workloads[k].ids.vmid != states[i].workloads[l].ids.vmid
    ensures states[i].workloads[k].ids.mac != states[i].workloads[l].ids.mac
    ensures states[i].workloads[k].ids.address != states[i].workloads[l].ids.address
  {
    RunKeepsInv(SiteNumbering(s), states, i);
    DistinctIdentity(s, states[i], k, l);
  }

  /** A workload keeps its ordinal, VMID, MAC and address for as long as it has a row. */
  lemma {:induction false} IdentityForLife(num: Numbering, states: seq<Registry>, i: nat, j: nat, key: Key)
    requires Run(num, states) && i <= j < |states|
    requires forall n :: i <= n <= j ==> key in states[n].workloads
    ensures states[j].workloads[key].(sizing := states[i].workloads[key].sizing) == states[i].workloads[key]
    decreases j
  {
    if i < j {
      IdentityForLife(num, states, i, j - 1, key);
      assert StepAt(num, states, j - 1);
      assert key in states[j - 1].workloads;
    }
  }

  // --- The transaction as the store runs it ---------------------------------------------

  class Store {
    const site: Site
    var tenants: map<string, nat>
    var workloads: map<Key, Workload>

    constructor (site: Site)
      ensures this.site == site && State() == Registry(map[], map[])
    {
      this.site := site;
      tenants, workloads := map[], map[];
    }

    ghost function State(): Registry
      reads this
    {
      Registry(tenants, workloads)
    }

    /** The ordinals the tenant's rows carry, read row by row. */
    method TakenOrdinals(tenant: string) returns (taken: set<nat>)
      ensures forall n :: n in taken <==> Taken(State(), tenant, n)
    {
      taken := {};
      var rows := workloads.Keys;
      while rows != {}
        invariant rows <= workloads.Keys
        invariant forall n :: n in taken <==>
          exists k :: k in workloads.Keys - rows && k.0 == tenant && workloads[k].ordinal == n
        decreases |rows|
      {
        var k :| k in rows;
        if k.0 == tenant {
          taken := taken + {workloads[k].ordinal};
        }
        rows := rows - {k};
      }
      forall n ensures n in taken <==> Taken(State(), tenant, n) {
        if n in taken {
          var k :| k in workloads.Keys && k.0 == tenant && workloads[k].ordinal == n;
          assert k == (tenant, k.1);
        }
        if name :| (tenant, name) in workloads && workloads[(tenant, name)].ordinal == n {
          assert (tenant, name) in workloads.Keys && (tenant, name).0 == tenant;
        }
      }
    }

    /** CreateWorkload, inside its one locked transaction. */
    method Create(key: Key, sizing: Sizing) returns (out: Outcome)
      modifies this
      ensures CreateWorkload(SiteNumbering(site), old(State()), State(), key, sizing, out)
      ensures key in old(workloads) ==> key in workloads && workloads[key].ids == old(workloads)[key].ids
      ensures forall k :: k != key ==> (k in workloads <==> k in old(workloads))
      ensures forall k :: k != key && k in workloads ==> workloads[k] == old(workloads)[k]
    {
      if key in workloads {
        var w := workloads[key].(sizing := sizing);
        workloads := workloads[key := w];
        return Placed(w);
      }
      if key.0 !in tenants {
        return NotFound;
      }
      var taken := TakenOrdinals(key.0);
      var next := 0;
      while next < MAX_WORKLOADS && next in taken
        invariant next <= MAX_WORKLOADS
        invariant forall n: nat :: n < next ==> Taken(State(), key.0, n)
      {
        next := next + 1;
      }
      if next == MAX_WORKLOADS {
        return Exhausted;
      }
      assert !Taken(State(), key.0, next);
      var w := Workload(next, SiteNumbering(site)(tenants[key.0], next), sizing);
      workloads := workloads[key := w];
      return Placed(w);
    }

    /** DeleteWorkload: whatever was derived before still is, and the ordinal is free again. */
    method Delete(key: Key) returns (found: bool)
      modifies this
      ensures found <==> key in old(workloads)
      ensures DeleteWorkload(old(State()), State(), key)
      ensures Inv(SiteNumbering(site), old(State())) ==>
        Inv(SiteNumbering(site), State()) && (found ==> !Taken(State(), key.0, old(workloads)[key].ordinal))
    {
      ghost var before := State();
      found := key in workloads;
      workloads := workloads - {key};
      if Inv(SiteNumbering(site), before) {
        DeletedKeepsInv(SiteNumbering(site), before, key);
      }
    }
  }
}
