/** Row first on the way in, backend first on the way out: the create, delete
    and reconcile orders of internal/tenant/service.go, wifikeys.go,
    brokeraccounts.go, addresses.go and logtokens.go, as interleaved steps.

    One operation runs per tenant at a time and operations of different tenants
    interleave. A backend call may fail before it takes effect, or take effect
    and be reported as failed; an operation may stop anywhere. Which backends
    the site has does not change during a run. */
module Orphans {
  import opened Basics
  datatype Kind = BrokerAccount | WiFiKey | DhcpReservation | LogUser

  /** A tenant has one pair of log-store users, which has no name of its own. */
  datatype Resource = Resource(kind: Kind, tenant: string, name: string)

  datatype Status = Provisioning | Ready | Deleting

  datatype Op =
    | Issuing(r: Resource, isNew: bool)
    | Revoking(r: Resource, gone: bool)
    | Ensuring(todo: seq<Resource>)
    | Removing(todo: seq<Resource>)

  /** rows are the accounts, keys and addresses of the registry; backends is
      everything the broker, the controller, the DHCP server and the log store
      hold of the API's. */
  datatype State = State(tenants: map<string, Status>, rows: set<Resource>, backends: set<Resource>,
                         ops: map<string, Op>)

  /** The tenant's own row is what stands for its log-store users. */
  predicate HasRow(s: State, r: Resource) {
    if r.kind == LogUser then r.tenant in s.tenants && r.name == "" else r in s.rows
  }

  function RowsOfOthers(s: State, t: string): set<Resource> { set r | r in s.rows && r.tenant != t }

  datatype Event =
    | NewTenant
    | StartEnsure(todo: seq<Resource>)
    | EnsureNext(reported: bool)
    | FinishEnsure(ok: bool)
    | PutRow(r: Resource)
    | WriteBackend
    | Withdraw
    | StartRevoke(r: Resource)
    | RevokeBackend(reported: bool)
    | DropRow
    | StartDelete(todo: seq<Resource>)
    | DeleteNext(reported: bool)
    | DropTenant
    | Stop

  ghost predicate Idle(s: State, t: string) { t !in s.ops }

  ghost predicate Doing(s: State, t: string) { t in s.ops && t in s.tenants }

  ghost predicate Step(s: State, s': State, t: string, e: Event) {
    match e
    case NewTenant =>
      // the locked insert
      t !in s.tenants && Idle(s, t) && s' == s.(tenants := s.tenants[t := Provisioning])
    case StartEnsure(todo) =>
      // Create over a row, or Reconcile: the log users and the reservations the rows call for
      && t in s.tenants && s.tenants[t] != Deleting && Idle(s, t)
      && (forall r :: r in todo ==> r.tenant == t && HasRow(s, r))
      && s' == s.(ops := s.ops[t := Ensuring(todo)])
    case EnsureNext(reported) =>
      && Doing(s, t) && s.ops[t].Ensuring? && s.ops[t].todo != []
      && s' == s.(backends := s.backends + {s.ops[t].todo[0]},
                  ops := if reported then s.ops[t := Ensuring(s.ops[t].todo[1..])] else s.ops - {t})
    case FinishEnsure(ok) =>
      && Doing(s, t) && s.ops[t].Ensuring?
      && s' == s.(tenants := s.tenants[t := if ok then Ready else Provisioning], ops := s.ops - {t})
    case PutRow(r) =>
      // CreateBrokerAccount, CreateWiFiKey, CreateDeviceAddress: only for a ready tenant, and the row first
      && t in s.tenants && s.tenants[t] == Ready && Idle(s, t) && r.tenant == t && r.kind != LogUser
      && s' == s.(rows := s.rows + {r}, ops := s.ops[t := Issuing(r, r !in s.rows)])
    case WriteBackend =>
      && Doing(s, t) && s.ops[t].Issuing?
      && s' == s.(backends := s.backends + {s.ops[t].r}, ops := s.ops - {t})
    case Withdraw =>
      // pushAddress: a conflict on the DHCP server, which wrote nothing, takes a new row back
      && Doing(s, t) && s.ops[t].Issuing? && s.ops[t].r.kind == DhcpReservation && s.ops[t].isNew
      && s' == s.(rows := s.rows - {s.ops[t].r}, ops := s.ops - {t})
    case StartRevoke(r) =>
      t in s.tenants && Idle(s, t) && r in s.rows && r.tenant == t && s' == s.(ops := s.ops[t := Revoking(r, false)])
    case RevokeBackend(reported) =>
      && Doing(s, t) && s.ops[t].Revoking? && !s.ops[t].gone
      && s' == s.(backends := s.backends - {s.ops[t].r},
                  ops := if reported then s.ops[t := Revoking(s.ops[t].r, true)] else s.ops - {t})
    case DropRow =>
      && Doing(s, t) && s.ops[t].Revoking? && s.ops[t].gone
      && s' == s.(rows := s.rows - {s.ops[t].r}, ops := s.ops - {t})
    case StartDelete(todo) =>
      // the status first, then the lists of everything the tenant has
      && t in s.tenants && Idle(s, t)
      && (forall r :: r in todo <==> r.tenant == t && HasRow(s, r))
      && s' == s.(tenants := s.tenants[t := Deleting], ops := s.ops[t := Removing(todo)])
    case DeleteNext(reported) =>
      && Doing(s, t) && s.ops[t].Removing? && s.ops[t].todo != []
      && s' == s.(backends := s.backends - {s.ops[t].todo[0]},
                  ops := if reported then s.ops[t := Removing(s.ops[t].todo[1..])] else s.ops - {t})
    case DropTenant =>
      // the row, and what cascades from it
      && Doing(s, t) && s.ops[t].Removing? && s.ops[t].todo == []
      && s' == s.(tenants := s.tenants - {t}, rows := RowsOfOthers(s, t), ops := s.ops - {t})
    case Stop =>
      s' == s.(ops := s.ops - {t})
  }

  /** The machine does what the service does: every step is there whenever the
      code would take it, and leaves what the code leaves. */
  lemma IssueStepsAreThere(s: State, t: string, r: Resource)
    ensures t !in s.tenants && t !in s.ops ==>
      Step(s, State(s.tenants[t := Provisioning], s.rows, s.backends, s.ops), t, NewTenant)
    ensures t in s.tenants && s.tenants[t] == Ready && t !in s.ops && r.tenant == t && r.kind != LogUser ==>
      Step(s, State(s.tenants, s.rows + {r}, s.backends, s.ops[t := Issuing(r, r !in s.rows)]), t, PutRow(r))
    ensures t in s.ops && t in s.tenants && s.ops[t].Issuing? ==>
      Step(s, State(s.tenants, s.rows, s.backends + {s.ops[t].r}, s.ops - {t}), t, WriteBackend)
    ensures (t in s.ops && t in s.tenants && s.ops[t].Issuing?
             && s.ops[t].r.kind == DhcpReservation && s.ops[t].isNew) ==>
      Step(s, State(s.tenants, s.rows - {s.ops[t].r}, s.backends, s.ops - {t}), t, Withdraw)
    ensures t in s.tenants && t !in s.ops && r in s.rows && r.tenant == t ==>
      Step(s, State(s.tenants, s.rows, s.backends, s.ops[t := Revoking(r, false)]), t, StartRevoke(r))
    ensures t in s.ops && t in s.tenants && s.ops[t].Revoking? && !s.ops[t].gone ==>
      && Step(s, State(s.tenants, s.rows, s.backends - {s.ops[t].r}, s.ops[t := Revoking(s.ops[t].r, true)]), t,
              RevokeBackend(true))
      && Step(s, State(s.tenants, s.rows, s.backends - {s.ops[t].r}, s.ops - {t}), t, RevokeBackend(false))
    ensures t in s.ops && t in s.tenants && s.ops[t].Revoking? && s.ops[t].gone ==>
      Step(s, State(s.tenants, s.rows - {s.ops[t].r}, s.backends, s.ops - {t}), t, DropRow)
    ensures Step(s, State(s.tenants, s.rows, s.backends, s.ops - {t}), t, Stop)
  {
  }

  lemma TenantStepsAreThere(s: State, t: string, todo: seq<Resource>)
    ensures (t in s.tenants && s.tenants[t] != Deleting && t !in s.ops
             && (forall r :: r in todo ==> r.tenant == t && HasRow(s, r))) ==>
      Step(s, State(s.tenants, s.rows, s.backends, s.ops[t := Ensuring(todo)]), t, StartEnsure(todo))
    ensures t in s.ops && t in s.tenants && s.ops[t].Ensuring? && s.ops[t].todo != [] ==>
      Step(s, State(s.tenants, s.rows, s.backends + {s.ops[t].todo[0]}, s.ops[t := Ensuring(s.ops[t].todo[1..])]), t,
           EnsureNext(true))
    ensures t in s.ops && t in s.tenants && s.ops[t].Ensuring? ==>
      Step(s, State(s.tenants[t := Ready], s.rows, s.backends, s.ops - {t}), t, FinishEnsure(true))
    ensures t in s.tenants && t !in s.ops && (forall r :: r in todo <==> r.tenant == t && HasRow(s, r)) ==>
      Step(s, State(s.tenants[t := Deleting], s.rows, s.backends, s.ops[t := Removing(todo)]), t, StartDelete(todo))
    ensures t in s.ops && t in s.tenants && s.ops[t].Removing? && s.ops[t].todo != [] ==>
      Step(s, State(s.tenants, s.rows, s.backends - {s.ops[t].todo[0]}, s.ops[t := Removing(s.ops[t].todo[1..])]), t,
           DeleteNext(true))
    ensures t in s.ops && t in s.tenants && s.ops[t].Removing? && s.ops[t].todo == [] ==>
      Step(s, State(s.tenants - {t}, (set r | r in s.rows && r.tenant != t), s.backends, s.ops - {t}), t, DropTenant)
  {
  }

  ghost predicate Next(s: State, s': State) { exists t, e :: Step(s, s', t, e) }

  ghost predicate StepAt(states: seq<State>, i: nat)
    requires i < |states| - 1
  {
    Next(states[i], states[i + 1])
  }

  ghost predicate Run(states: seq<State>) {
    && |states| >= 1 && states[0] == State(map[], {}, {}, map[])
    && forall i :: 0 <= i < |states| - 1 ==> StepAt(states, i)
  }

  // --- What every step keeps --------------------------------------------------------------

  ghost predicate NoOrphans(s: State) { forall r :: r in s.backends ==> HasRow(s, r) }

  ghost predicate RowsHaveTenants(s: State) {
    forall r :: r in s.rows ==> r.tenant in s.tenants && r.kind != LogUser
  }

  /** What an operation under way may rely on. */
  ghost predicate OpFits(s: State, t: string)
    requires t in s.ops
  {
    match s.ops[t]
    case Issuing(r, isNew) =>
      t in s.tenants && s.tenants[t] != Deleting && r.tenant == t && r in s.rows && (isNew ==> r !in s.backends)
    case Revoking(r, gone) => t in s.tenants && r.tenant == t && r in s.rows && (gone ==> r !in s.backends)
    case Ensuring(todo) =>
      t in s.tenants && s.tenants[t] != Deleting && forall r :: r in todo ==> r.tenant == t && HasRow(s, r)
    case Removing(todo) =>
      && t in s.tenants && s.tenants[t] == Deleting
      && (forall r :: r in todo ==> r.tenant == t)
      && (forall r :: r in s.backends && r.tenant == t ==> r in todo)
  }

  ghost predicate Inv(s: State) {
    NoOrphans(s) && RowsHaveTenants(s) && forall t :: t in s.ops ==> OpFits(s, t)
  }

  /** A step of one tenant's leaves every other tenant's rows, backends and operation alone. */
  ghost predicate OnlyOwn(s: State, s': State, t: string) {
    && (forall u :: u != t ==> (u in s'.tenants <==> u in s.tenants))
    && (forall u :: u != t && u in s.tenants ==> s'.tenants[u] == s.tenants[u])
    && (forall u :: u != t && u in s'.ops ==> u in s.ops && s'.ops[u] == s.ops[u])
    && (forall r: Resource :: r.tenant != t ==> (r in s'.rows <==> r in s.rows))
    && (forall r: Resource :: r.tenant != t ==> (r in s'.backends <==> r in s.backends))
  }

  lemma StepIsOwn(s: State, s': State, t: string, e: Event)
    requires Inv(s) && Step(s, s', t, e)
    ensures OnlyOwn(s, s', t)
  {
    if t in s.ops {
      assert OpFits(s, t);
      if (s.ops[t].Ensuring? || s.ops[t].Removing?) && s.ops[t].todo != [] {
        assert s.ops[t].todo[0] in s.ops[t].todo;
      }
    }
  }

  lemma OthersFit(s: State, s': State, t: string)
    requires Inv(s) && OnlyOwn(s, s', t)
    ensures forall u :: u in s'.ops && u != t ==> OpFits(s', u)
    ensures forall r :: r in s'.backends && r.tenant != t ==> HasRow(s', r)
    ensures forall r :: r in s'.rows && r.tenant != t ==> r.tenant in s'.tenants && r.kind != LogUser
  {
    forall u | u in s'.ops && u != t ensures OpFits(s', u) {
      assert OpFits(s, u);
    }
  }

  /** The tenant's own part of the invariant, step by step. */
  lemma OwnPartKept(s: State, s': State, t: string, e: Event)
    requires Inv(s) && Step(s, s', t, e)
    ensures forall r :: r in s'.backends && r.tenant == t ==> HasRow(s', r)
    ensures forall r :: r in s'.rows && r.tenant == t ==> r.tenant in s'.tenants && r.kind != LogUser
    ensures t in s'.ops ==> OpFits(s', t)
  {
    if t in s.ops {
      assert OpFits(s, t);
    }
    match e
    case EnsureNext(reported) => Advance(s.ops[t].todo);
    case DeleteNext(reported) => Advance(s.ops[t].todo);
    case _ =>
  }

  lemma Advance(todo: seq<Resource>)
    requires todo != []
    ensures todo[0] in todo
    ensures forall r :: r in todo <==> r == todo[0] || r in todo[1..]
  {
    assert todo == [todo[0]] + todo[1..];
  }

  lemma NextKeepsInv(s: State, s': State)
    requires Inv(s) && Next(s, s')
    ensures Inv(s')
  {
    var t, e :| Step(s, s', t, e);
    StepIsOwn(s, s', t, e);
    OthersFit(s, s', t);
    OwnPartKept(s, s', t, e);
  }

  lemma {:induction false} RunKeepsInv(states: seq<State>, i: nat)
    requires Run(states) && i < |states|
    ensures Inv(states[i])
  {
    if i > 0 {
      RunKeepsInv(states, i - 1);
      assert StepAt(states, i - 1);
      NextKeepsInv(states[i - 1], states[i]);
    }
  }

  // --- The guarantees -----------------------------------------------------------------------------

  /** At every point of every run, everything a backend holds has a registry row. */
  lemma NothingIsOrphaned(states: seq<State>, i: nat, r: Resource)
    requires Run(states) && i < |states| && r in states[i].backends
    ensures HasRow(states[i], r) && r.tenant in states[i].tenants
  {
    RunKeepsInv(states, i);
  }

  function Of(rs: set<Resource>, t: string): set<Resource> { set r | r in rs && r.tenant == t }

  ghost predicate BeingDeleted(s: State, t: string) { t in s.tenants && s.tenants[t] == Deleting }

  /** No step adds anything of a tenant that is being deleted, in a backend or in the registry. */
  lemma DeletingOnlyShrinks(s: State, s': State, t: string)
    requires Inv(s) && Next(s, s') && BeingDeleted(s, t)
    ensures Of(s'.backends, t) <= Of(s.backends, t) && Of(s'.rows, t) <= Of(s.rows, t)
  {
    var u, e :| Step(s, s', u, e);
    if u != t {
      StepIsOwn(s, s', u, e);
    } else {
      OwnStepShrinks(s, s', t, e);
    }
  }

  lemma OwnStepShrinks(s: State, s': State, t: string, e: Event)
    requires Inv(s) && Step(s, s', t, e) && BeingDeleted(s, t)
    ensures s'.backends <= s.backends && s'.rows <= s.rows
  {
    if t in s.ops {
      assert OpFits(s, t);
    }
  }

  /** So from the moment a delete is under way until the row is gone, or as long
      as it takes, what the tenant has anywhere only shrinks. */
  lemma {:induction false} ShrinksThroughout(states: seq<State>, i: nat, j: nat, t: string)
    requires Run(states) && i <= j < |states|
    requires forall n :: i <= n <= j ==> BeingDeleted(states[n], t)
    ensures Of(states[j].backends, t) <= Of(states[i].backends, t) && Of(states[j].rows, t) <= Of(states[i].rows, t)
    decreases j
  {
    if i < j {
      ShrinksThroughout(states, i, j - 1, t);
      RunKeepsInv(states, j - 1);
      assert StepAt(states, j - 1);
      assert BeingDeleted(states[j - 1], t);
      DeletingOnlyShrinks(states[j - 1], states[j], t);
    }
  }

  /** When the row does go, no backend holds anything of the tenant's. */
  lemma DeletedLeavesNothing(states: seq<State>, i: nat, t: string)
    requires Run(states) && i + 1 < |states| && Step(states[i], states[i + 1], t, DropTenant)
    ensures Of(states[i + 1].backends, t) == {} && Of(states[i + 1].rows, t) == {}
  {
    RunKeepsInv(states, i);
    assert OpFits(states[i], t);
  }

  // --- Delete as it runs --------------------------------------------------------------------------------

  datatype Reply = Done | NotFound | HasWorkloads | StepFailed

  /** How each call of one Delete goes. */
  datatype DeletePlan = DeletePlan(claimsRead: bool, marked: bool, listed: bool, calls: nat -> Fault, drop: Fault)

  class Service {
    /** The tenants that have workloads, which a delete refuses. */
    const workloads: set<string>
    var tenants: map<string, Status>
    var rows: set<Resource>
    var backends: set<Resource>

    constructor (workloads: set<string>)
      ensures this.workloads == workloads && tenants == map[] && rows == {} && backends == {}
    {
      this.workloads := workloads;
      tenants, rows, backends := map[], {}, {};
    }

    ghost predicate Valid()
      reads this
    {
      var s := State(tenants, rows, backends, map[]);
      NoOrphans(s) && RowsHaveTenants(s)
    }

    /** One backend removal. Whatever becomes of it, nothing is orphaned by it. */
    method Remove(r: Resource, f: Fault) returns (ok: bool)
      modifies this`backends
      ensures old(Valid()) ==> Valid()
      ensures ok ==> r !in backends
      ensures backends == (if f.Before? then old(backends) else old(backends) - {r}) && (ok <==> f.Fine?)
    {
      if !f.Before? {
        backends := backends - {r};
      }
      ok := f.Fine?;
    }

    /** The registry's lists of what the tenant has. The log store is first. */
    method ListAll(t: string) returns (todo: seq<Resource>)
      requires t in tenants
      ensures forall r :: r in todo ==> r.tenant == t
      ensures forall r: Resource :: r.tenant == t && HasRow(State(tenants, rows, backends, map[]), r) ==> r in todo
    {
      todo := [Resource(LogUser, t, "")];
      var left := rows;
      while left != {}
        invariant left <= rows
        invariant forall r :: r in todo <==> r == Resource(LogUser, t, "") || (r in rows - left && r.tenant == t)
        decreases |left|
      {
        var r :| r in left;
        if r.tenant == t {
          todo := todo + [r];
        }
        left := left - {r};
      }
    }

    /** Delete: stops at the first failure with the row still there, and drops
        the row only when nothing of the tenant's is left in a backend. */
    method Delete(t: string, p: DeletePlan) returns (reply: Reply)
      requires Valid()
      modifies this`tenants, this`rows, this`backends
      ensures Valid()
      ensures reply.NotFound? <==> t !in old(tenants)
      ensures reply.HasWorkloads? <==> t in old(tenants) && t in workloads
      ensures reply.NotFound? || reply.HasWorkloads? ==>
        tenants == old(tenants) && rows == old(rows) && backends == old(backends)
      ensures Of(backends, t) <= Of(old(backends), t)
      ensures forall r: Resource :: r.tenant != t ==> (r in backends <==> r in old(backends))
      ensures forall r: Resource :: r.tenant != t ==> (r in rows <==> r in old(rows))
      ensures reply.Done? ==> t !in tenants
      ensures t !in tenants ==> Of(backends, t) == {} && Of(rows, t) == {}
      ensures t in tenants ==> rows == old(rows) && (backends != old(backends) ==> tenants[t] == Deleting)
    {
      if t !in tenants {
        return NotFound;
      }
      if t in workloads {
        return HasWorkloads;
      }
      if !p.claimsRead || !p.marked {
        return StepFailed;
      }
      tenants := tenants[t := Deleting];
      if !p.listed {
        return StepFailed;
      }
      var todo := ListAll(t);
      assert forall r :: r in backends && r.tenant == t ==> r in todo;
      for i := 0 to |todo|
        invariant t in tenants && tenants == old(tenants)[t := Deleting] && rows == old(rows)
        invariant backends <= old(backends)
        invariant forall r :: r in old(backends) && r !in backends ==> r.tenant == t
        invariant forall j :: 0 <= j < i ==> todo[j] !in backends
      {
        assert todo[i] in todo;
        var removed := Remove(todo[i], p.calls(i));
        if !removed {
          return StepFailed;
        }
      }
      if p.drop.Before? {
        return StepFailed;
      }
      tenants, rows := tenants - {t}, set r | r in rows && r.tenant != t;
      return if p.drop.Fine? then Done else StepFailed;
    }
  }
}
