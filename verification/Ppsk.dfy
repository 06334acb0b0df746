/** internal/backend/omada/omada.go: tenants' Wi-Fi keys in a controller profile
    that refuses to have its last key deleted.

    Every call to the controller may be lost before it takes effect or answered
    with an error after it did. This module is one EnsureKey or RemoveKey with
    the profile to itself; Profiles interleaves the calls of all tenants. */
module Ppsk {
  import opened Basics
  import opened Text

  const PLACEHOLDER := "DEEVNET-PLACEHOLDER-DO-NOT-USE"

  datatype Entry = Entry(name: string, psk: string, mac: string, vlan: int)

  /** Refused is the controller's own answer to a delete that would empty the
      profile, or to a second key of one name. */
  datatype Reply = Done | Failed | Refused | Invalid

  // --- The profile ------------------------------------------------------------------

  predicate Holds(keys: seq<Entry>, name: string) {
    exists i :: 0 <= i < |keys| && keys[i].name == name
  }

  predicate DistinctNames(keys: seq<Entry>) {
    forall i, j :: 0 <= i < j < |keys| ==> keys[i].name != keys[j].name
  }

  /** The entries under none of these names, in their order. */
  function Keep(keys: seq<Entry>, drop: set<string>): (r: seq<Entry>)
    ensures forall e :: e in r <==> e in keys && e.name !in drop
  {
    if keys == [] then []
    else if keys[0].name in drop then Keep(keys[1..], drop)
    else [keys[0]] + Keep(keys[1..], drop)
  }

  /** Everyone else's keys, as the holder of name sees the profile. */
  function Others(keys: seq<Entry>, name: string): seq<Entry> {
    Keep(keys, {name, PLACEHOLDER})
  }

  lemma HoldsByMember(keys: seq<Entry>, name: string)
    ensures Holds(keys, name) <==> exists e :: e in keys && e.name == name
  {
    if i :| 0 <= i < |keys| && keys[i].name == name {
      assert keys[i] in keys;
    }
  }

  lemma {:induction false} KeepAppend(keys: seq<Entry>, e: Entry, drop: set<string>)
    ensures Keep(keys + [e], drop) == Keep(keys, drop) + (if e.name in drop then [] else [e])
  {
    if keys != [] {
      assert (keys + [e])[1..] == keys[1..] + [e];
      KeepAppend(keys[1..], e, drop);
    } else {
      assert (keys + [e])[1..] == [];
    }
  }

  lemma {:induction false} KeepTwice(keys: seq<Entry>, a: set<string>, b: set<string>)
    ensures Keep(Keep(keys, a), b) == Keep(keys, a + b)
  {
    if keys != [] {
      KeepTwice(keys[1..], a, b);
      if keys[0].name !in a {
        assert Keep(keys, a)[1..] == Keep(keys[1..], a);
      }
    }
  }

  lemma {:induction false} KeepAll(keys: seq<Entry>, drop: set<string>)
    requires forall e :: e in keys ==> e.name !in drop
    ensures Keep(keys, drop) == keys
  {
    if keys != [] {
      KeepAll(keys[1..], drop);
    }
  }

  lemma {:induction false} KeepNone(keys: seq<Entry>, drop: set<string>)
    requires forall e :: e in keys ==> e.name in drop
    ensures Keep(keys, drop) == []
  {
    if keys != [] {
      KeepNone(keys[1..], drop);
    }
  }

  lemma {:induction false} KeepDistinct(keys: seq<Entry>, drop: set<string>)
    requires DistinctNames(keys)
    ensures DistinctNames(Keep(keys, drop))
  {
    if keys != [] {
      KeepDistinct(keys[1..], drop);
      var r := Keep(keys[1..], drop);
      forall j | 0 <= j < |r| ensures r[j].name != keys[0].name {
        assert r[j] in keys[1..];
      }
    }
  }

  // --- The controller's two writes ------------------------------------------------------

  /** add-psk */
  function Add(keys: seq<Entry>, e: Entry, f: Fault): (seq<Entry>, Reply) {
    if f.Before? then (keys, Failed)
    else if Holds(keys, e.name) then (keys, Refused)
    else (keys + [e], if f.Fine? then Done else Failed)
  }

  /** delete-psk: a name that is the profile's only entry is refused. */
  function Delete(keys: seq<Entry>, name: string, f: Fault): (seq<Entry>, Reply) {
    if f.Before? then (keys, Failed)
    else if Holds(keys, name) && Keep(keys, {name}) == [] then (keys, Refused)
    else (Keep(keys, {name}), if f.Fine? then Done else Failed)
  }

  // --- The client ---------------------------------------------------------------------------

  datatype KeySpec = KeySpec(name: string, psk: string, vlan: int, mac: string) {
    function AsEntry(): Entry { Entry(name, psk, mac, vlan) }
  }

  predicate ValidPsk(s: string) {
    8 <= |s| <= 63 && forall i :: 0 <= i < |s| ==> '!' <= s[i] <= '~'
  }

  predicate ValidSpec(k: KeySpec) {
    ValidPsk(k.psk) && 1 <= |k.name| <= 64 && k.name != PLACEHOLDER && 1 <= k.vlan <= 4094
  }

  /** What becomes of each controller call of one EnsureKey or RemoveKey. A
      false read is a failed one; resolving the site and profile counts as part
      of the first. */
  datatype Plan = Plan(read: bool, guard: Fault, correct: Fault, add: Fault, reread: bool, sweep: Fault)

  const UNDISTURBED := Plan(true, Fine, Fine, Fine, true, Fine)

  function Find(keys: seq<Entry>, name: string): (r: Option<Entry>)
    ensures r.Some? <==> Holds(keys, name)
    ensures r.Some? ==> r.value in keys && r.value.name == name
  {
    if keys == [] then None
    else if keys[0].name == name then Some(keys[0])
    else
      var r := Find(keys[1..], name);
      assert forall i :: 1 <= i < |keys| ==> keys[i] == keys[1..][i - 1];
      r
  }

  /** vlanOf: the revoked key's VLAN, when it is one. */
  function VlanOf(keys: seq<Entry>, name: string): int {
    if keys == [] then 1
    else if keys[0].name == name && 1 <= keys[0].vlan <= 4094 then keys[0].vlan
    else VlanOf(keys[1..], name)
  }

  function PlaceholderEntry(keys: seq<Entry>, name: string, psk: string): Entry {
    Entry(PLACEHOLDER, psk, "", VlanOf(keys, name))
  }

  /** The placeholder's VLAN is always one the controller takes, and the revoked key's own when that is. */
  lemma {:induction false} PlaceholderVlan(keys: seq<Entry>, e: Entry)
    requires DistinctNames(keys) && e in keys
    ensures 1 <= VlanOf(keys, e.name) <= 4094
    ensures 1 <= e.vlan <= 4094 ==> VlanOf(keys, e.name) == e.vlan
  {
    if keys[0] == e {
      if !(1 <= e.vlan <= 4094) {
        VlanOfAbsent(keys[1..], e.name);
      }
    } else {
      var i :| 0 <= i < |keys| && keys[i] == e;
      assert keys[1..][i - 1] == e;
      PlaceholderVlan(keys[1..], e);
    }
  }

  lemma {:induction false} VlanOfAbsent(keys: seq<Entry>, name: string)
    requires forall i :: 0 <= i < |keys| ==> keys[i].name != name
    ensures VlanOf(keys, name) == 1
  {
    if keys != [] {
      VlanOfAbsent(keys[1..], name);
    }
  }

  /** The profile as it was read has nothing beside name to keep it from being emptied. */
  predicate NeedsPlaceholder(seen: seq<Entry>, name: string) {
    !Holds(seen, PLACEHOLDER) && Others(seen, name) == []
  }

  /** guardMinimum: a placeholder goes in first when name was all there was. */
  function GuardSeen(seen: seq<Entry>, keys: seq<Entry>, name: string, psk: string, f: Fault): (seq<Entry>, Reply) {
    if NeedsPlaceholder(seen, name) then Add(keys, PlaceholderEntry(seen, name, psk), f) else (keys, Done)
  }

  function Guard(keys: seq<Entry>, name: string, psk: string, f: Fault): (seq<Entry>, Reply) {
    GuardSeen(keys, keys, name, psk, f)
  }

  /** EnsureKey's end: a placeholder that was read goes. */
  function SweepSeen(seen: seq<Entry>, keys: seq<Entry>, f: Fault): (seq<Entry>, Reply) {
    if Holds(seen, PLACEHOLDER) then Delete(keys, PLACEHOLDER, f) else (keys, Done)
  }

  function Sweep(keys: seq<Entry>, p: Plan): (seq<Entry>, Reply) {
    if !p.reread then (keys, Failed) else SweepSeen(keys, keys, p.sweep)
  }

  function AddAndSweep(keys: seq<Entry>, k: KeySpec, p: Plan): (seq<Entry>, Reply) {
    var (added, r) := Add(keys, k.AsEntry(), p.add);
    if r.Done? then Sweep(added, p) else (added, r)
  }

  /** Guard, then delete: how a key leaves, for a revocation or a correction. */
  function Withdraw(keys: seq<Entry>, name: string, psk: string, p: Plan): (seq<Entry>, Reply) {
    var (guarded, r) := Guard(keys, name, psk, p.guard);
    if r.Done? then Delete(guarded, name, p.correct) else (guarded, r)
  }

  function Ensure(keys: seq<Entry>, k: KeySpec, psk: string, p: Plan): (seq<Entry>, Reply) {
    if !ValidSpec(k) then (keys, Invalid)
    else if !p.read then (keys, Failed)
    else
      match Find(keys, k.name)
      case None => AddAndSweep(keys, k, p)
      case Some(e) =>
        if e == k.AsEntry() then Sweep(keys, p)
        else
          var (cleared, r) := Withdraw(keys, k.name, psk, p);
          if r.Done? then AddAndSweep(cleared, k, p) else (cleared, r)
  }

  function Remove(keys: seq<Entry>, name: string, psk: string, p: Plan): (seq<Entry>, Reply) {
    if !p.read then (keys, Failed)
    else if !Holds(keys, name) then (keys, Done)
    else Withdraw(keys, name, psk, p)
  }

  // --- What each piece keeps ------------------------------------------------------------------

  /** From one profile to the next without touching anyone but name: no other
      key moves, no name is doubled, and a profile that held a key still does. */
  predicate Undisturbed(keys: seq<Entry>, keys': seq<Entry>, name: string) {
    && DistinctNames(keys')
    && Others(keys', name) == Others(keys, name)
    && (keys != [] ==> keys' != [])
  }

  lemma AddUndisturbed(keys: seq<Entry>, e: Entry, f: Fault, name: string)
    requires DistinctNames(keys) && (e.name == name || e.name == PLACEHOLDER)
    requires !Holds(keys, e.name)
    ensures Undisturbed(keys, Add(keys, e, f).0, name) && !Add(keys, e, f).1.Refused?
  {
    KeepAppend(keys, e, {name, PLACEHOLDER});
  }

  lemma DeleteUndisturbed(keys: seq<Entry>, drop: string, f: Fault, name: string)
    requires DistinctNames(keys) && (drop == name || drop == PLACEHOLDER)
    requires exists e :: e in keys && e.name != drop
    ensures Undisturbed(keys, Delete(keys, drop, f).0, name) && !Delete(keys, drop, f).1.Refused?
  {
    var e :| e in keys && e.name != drop;
    assert e in Keep(keys, {drop});
    KeepDistinct(keys, {drop});
    KeepTwice(keys, {drop}, {name, PLACEHOLDER});
    assert {drop} + {name, PLACEHOLDER} == {name, PLACEHOLDER};
  }

  lemma SweepUndisturbed(keys: seq<Entry>, name: string, p: Plan)
    requires DistinctNames(keys) && Holds(keys, name) && name != PLACEHOLDER
    ensures Undisturbed(keys, Sweep(keys, p).0, name) && !Sweep(keys, p).1.Refused?
    ensures Sweep(keys, p).1.Done? ==> Sweep(keys, p).0 == Keep(keys, {PLACEHOLDER})
  {
    if p.reread && Holds(keys, PLACEHOLDER) {
      var i :| 0 <= i < |keys| && keys[i].name == name;
      assert keys[i] in keys;
      DeleteUndisturbed(keys, PLACEHOLDER, p.sweep, name);
    } else {
      forall e | e in keys && p.reread ensures e.name != PLACEHOLDER {
        var i :| 0 <= i < |keys| && keys[i] == e;
      }
      if p.reread {
        KeepAll(keys, {PLACEHOLDER});
      }
    }
  }

  lemma GuardUndisturbed(keys: seq<Entry>, name: string, psk: string, f: Fault)
    requires DistinctNames(keys) && name != PLACEHOLDER && Holds(keys, name)
    ensures Undisturbed(keys, Guard(keys, name, psk, f).0, name) && !Guard(keys, name, psk, f).1.Refused?
    ensures Holds(Guard(keys, name, psk, f).0, name)
    ensures Guard(keys, name, psk, f).1.Done? ==> exists e :: e in Guard(keys, name, psk, f).0 && e.name != name
  {
    var keys' := Guard(keys, name, psk, f).0;
    if Holds(keys, PLACEHOLDER) {
      var i :| 0 <= i < |keys| && keys[i].name == PLACEHOLDER;
      assert keys[i] in keys' && keys[i].name != name;
    } else if Others(keys, name) != [] {
      assert Others(keys, name)[0] in keys';
    } else {
      AddUndisturbed(keys, PlaceholderEntry(keys, name, psk), f, name);
      var i :| 0 <= i < |keys| && keys[i].name == name;
      assert keys'[i] == keys[i];
      if !f.Before? {
        assert keys'[|keys|] in keys';
      }
    }
  }

  lemma UndisturbedTransitive(a: seq<Entry>, b: seq<Entry>, c: seq<Entry>, name: string)
    requires Undisturbed(a, b, name) && Undisturbed(b, c, name)
    ensures Undisturbed(a, c, name)
  {
  }

  lemma WithdrawUndisturbed(keys: seq<Entry>, name: string, psk: string, p: Plan)
    requires DistinctNames(keys) && name != PLACEHOLDER && Holds(keys, name)
    ensures Undisturbed(keys, Withdraw(keys, name, psk, p).0, name) && !Withdraw(keys, name, psk, p).1.Refused?
    ensures Withdraw(keys, name, psk, p).1.Done? ==> !Holds(Withdraw(keys, name, psk, p).0, name)
  {
    GuardUndisturbed(keys, name, psk, p.guard);
    var (guarded, r) := Guard(keys, name, psk, p.guard);
    if r.Done? {
      DeleteUndisturbed(guarded, name, p.correct, name);
      var keys' := Delete(guarded, name, p.correct).0;
      UndisturbedTransitive(keys, guarded, keys', name);
    }
  }

  /** The profile holds k, and otherwise exactly these keys: no placeholder, and k once. */
  predicate Exactly(keys: seq<Entry>, k: KeySpec, others: seq<Entry>) {
    k.AsEntry() in keys && DistinctNames(keys) && Keep(keys, {k.name}) == others
  }

  lemma SweptIsExact(keys: seq<Entry>, k: KeySpec, p: Plan)
    requires DistinctNames(keys) && ValidSpec(k) && k.AsEntry() in keys
    requires Sweep(keys, p).1.Done?
    ensures Exactly(Sweep(keys, p).0, k, Others(keys, k.name))
  {
    var i :| 0 <= i < |keys| && keys[i] == k.AsEntry();
    assert Holds(keys, k.name);
    SweepUndisturbed(keys, k.name, p);
    KeepTwice(keys, {PLACEHOLDER}, {k.name});
    assert {PLACEHOLDER} + {k.name} == {k.name, PLACEHOLDER};
  }

  lemma AddAndSweepUndisturbed(keys: seq<Entry>, k: KeySpec, p: Plan)
    requires DistinctNames(keys) && ValidSpec(k) && !Holds(keys, k.name)
    ensures var (keys', r) := AddAndSweep(keys, k, p);
      Undisturbed(keys, keys', k.name) && !r.Refused? && (r.Done? ==> Exactly(keys', k, Others(keys, k.name)))
  {
    AddUndisturbed(keys, k.AsEntry(), p.add, k.name);
    var (added, r) := Add(keys, k.AsEntry(), p.add);
    if r.Done? {
      assert added[|keys|] == k.AsEntry();
      SweepUndisturbed(added, k.name, p);
      UndisturbedTransitive(keys, added, Sweep(added, p).0, k.name);
      if Sweep(added, p).1.Done? {
        SweptIsExact(added, k, p);
      }
    }
  }

  // --- The protocol -------------------------------------------------------------------------------

  /** EnsureKey, whatever goes wrong on the way: the controller never has cause
      to refuse it, nobody else's key changes, and success leaves exactly the
      other keys and the one asked for. */
  lemma EnsureKeyProtocol(keys: seq<Entry>, k: KeySpec, psk: string, p: Plan)
    requires DistinctNames(keys)
    ensures var (keys', r) := Ensure(keys, k, psk, p);
      Undisturbed(keys, keys', k.name) && !r.Refused? && (r.Done? ==> Exactly(keys', k, Others(keys, k.name)))
  {
    if ValidSpec(k) && p.read {
      match Find(keys, k.name)
      case None =>
        AddAndSweepUndisturbed(keys, k, p);
      case Some(e) =>
        if e == k.AsEntry() {
          SweepUndisturbed(keys, k.name, p);
          if Sweep(keys, p).1.Done? {
            SweptIsExact(keys, k, p);
          }
        } else {
          WithdrawUndisturbed(keys, k.name, psk, p);
          var (cleared, r) := Withdraw(keys, k.name, psk, p);
          if r.Done? {
            AddAndSweepUndisturbed(cleared, k, p);
            UndisturbedTransitive(keys, cleared, AddAndSweep(cleared, k, p).0, k.name);
          }
        }
    }
  }

  /** RemoveKey the same: success leaves nothing under the name. */
  lemma RemoveKeyProtocol(keys: seq<Entry>, name: string, psk: string, p: Plan)
    requires DistinctNames(keys) && name != PLACEHOLDER
    ensures var (keys', r) := Remove(keys, name, psk, p);
      Undisturbed(keys, keys', name) && !r.Refused? && (r.Done? ==> !Holds(keys', name))
  {
    if p.read && Holds(keys, name) {
      WithdrawUndisturbed(keys, name, psk, p);
    }
  }

  /** What an ensure takes: a PSK of 8 to 63 visible characters, a name of 1 to 64
      that is not the placeholder's, a VLAN of 1 to 4094. Anything else is
      refused with nothing done. */
  lemma EnsureTakesExactly(keys: seq<Entry>, k: KeySpec, psk: string, p: Plan)
    ensures Ensure(keys, k, psk, p).1.Invalid? <==>
      !(&& 8 <= |k.psk| <= 63 && (forall i :: 0 <= i < |k.psk| ==> 33 <= k.psk[i] as int <= 126)
        && 1 <= |k.name| <= 64 && k.name != "DEEVNET-PLACEHOLDER-DO-NOT-USE" && 1 <= k.vlan <= 4094)
    ensures Ensure(keys, k, psk, p).1.Invalid? ==> Ensure(keys, k, psk, p).0 == keys
  {
    assert (forall i :: 0 <= i < |k.psk| ==> 33 <= k.psk[i] as int <= 126) <==>
      (forall i :: 0 <= i < |k.psk| ==> '!' <= k.psk[i] <= '~');
  }

  /** What success puts in: the key under its name with its own PSK, MAC and VLAN. */
  lemma EnsuredEntry(keys: seq<Entry>, k: KeySpec, psk: string, p: Plan)
    requires DistinctNames(keys) && Ensure(keys, k, psk, p).1.Done?
    ensures exists e ::
      e in Ensure(keys, k, psk, p).0 && e.name == k.name && e.psk == k.psk && e.mac == k.mac && e.vlan == k.vlan
  {
    EnsureKeyProtocol(keys, k, psk, p);
  }

  /** A key that is there as asked, with no placeholder beside it, is left alone. */
  lemma EnsureLeavesWhatIsRight(keys: seq<Entry>, k: KeySpec, psk: string, p: Plan)
    requires DistinctNames(keys) && ValidSpec(k) && p.read && p.reread
    requires Entry(k.name, k.psk, k.mac, k.vlan) in keys && forall e :: e in keys ==> e.name != PLACEHOLDER
    ensures Ensure(keys, k, psk, p) == (keys, Done)
  {
    var e := Entry(k.name, k.psk, k.mac, k.vlan);
    FindOnly(keys, e);
  }

  lemma {:induction false} FindOnly(keys: seq<Entry>, e: Entry)
    requires DistinctNames(keys) && e in keys
    ensures Find(keys, e.name) == Some(e)
  {
    if keys[0] != e {
      var i :| 0 <= i < |keys| && keys[i] == e;
      assert keys[1..][i - 1] == e;
      FindOnly(keys[1..], e);
    }
  }

  /** What a removal answers: nothing to remove is success, with nothing done; and
      with no call failing any key but a lone placeholder goes. */
  lemma RemoveExactly(keys: seq<Entry>, name: string, psk: string, p: Plan)
    requires DistinctNames(keys)
    ensures p.read && (forall e :: e in keys ==> e.name != name) ==> Remove(keys, name, psk, p) == (keys, Done)
    ensures name != PLACEHOLDER ==> Remove(keys, name, psk, UNDISTURBED).1.Done?
    ensures !p.read ==> Remove(keys, name, psk, p) == (keys, Failed)
  {
    HoldsByMember(keys, name);
    if name != PLACEHOLDER {
      RemoveKeyProtocol(keys, name, psk, UNDISTURBED);
    }
  }

  /** When a placeholder goes in: exactly when there is none and name is all there
      is; it then has the revoked key's VLAN and no MAC. */
  lemma GuardAddsExactlyWhen(keys: seq<Entry>, name: string, psk: string)
    ensures var (keys', r) := Guard(keys, name, psk, Fine);
      && r.Done?
      && (if forall e :: e in keys ==> e.name == name && e.name != PLACEHOLDER
          then keys' == keys + [Entry("DEEVNET-PLACEHOLDER-DO-NOT-USE", psk, "", VlanOf(keys, name))]
          else keys' == keys)
  {
    HoldsByMember(keys, PLACEHOLDER);
    if forall e :: e in keys ==> e.name == name && e.name != PLACEHOLDER {
      KeepNone(keys, {name, PLACEHOLDER});
    } else {
      var e :| e in keys && (e.name != name || e.name == PLACEHOLDER);
      assert e.name != PLACEHOLDER ==> e in Others(keys, name);
    }
  }

  /** Removing the placeholder by name is the one call the controller would
      refuse, and then only when it is alone. */
  lemma RemoveRefusedExactly(keys: seq<Entry>, name: string, psk: string, p: Plan)
    requires DistinctNames(keys) && p.read && !p.correct.Before?
    ensures Remove(keys, name, psk, p).1.Refused? <==>
      name == PLACEHOLDER && Holds(keys, name) && Others(keys, name) == []
  {
    if name != PLACEHOLDER {
      RemoveKeyProtocol(keys, name, psk, p);
    } else {
      assert {name, PLACEHOLDER} == {name};
    }
  }

  /** An undisturbed EnsureKey of a well-formed key always succeeds. */
  lemma EnsureSucceeds(keys: seq<Entry>, k: KeySpec, psk: string)
    requires DistinctNames(keys) && ValidSpec(k)
    ensures Ensure(keys, k, psk, UNDISTURBED).1.Done?
  {
    EnsureKeyProtocol(keys, k, psk, UNDISTURBED);
  }

  /** What overlap can do: two revocations that both read the profile before
      either deleted each see the other's key, and neither puts a placeholder
      in. The controller then refuses the second exactly when the two keys were
      all there was. */
  lemma OverlappingRemovesCollide(keys: seq<Entry>, a: string, b: string, psk: string)
    requires DistinctNames(keys) && Holds(keys, a) && Holds(keys, b)
    requires a != b && a != PLACEHOLDER && b != PLACEHOLDER
    ensures Guard(keys, a, psk, Fine) == (keys, Done) == Guard(keys, b, psk, Fine)
    ensures Delete(Delete(keys, a, Fine).0, b, Fine).1.Refused? <==> Keep(keys, {a, b}) == []
  {
    HoldsByMember(keys, a);
    HoldsByMember(keys, b);
    var x :| x in keys && x.name == a;
    var y :| y in keys && y.name == b;
    assert y in Others(keys, a) && x in Others(keys, b);
    var left := Keep(keys, {a});
    HoldsByMember(left, b);
    assert y in left;
    KeepTwice(keys, {a}, {b});
    assert {a} + {b} == {a, b};
  }

  // --- Key names ----------------------------------------------------------------------------------

  function KeyName(tenant: string, key: string): string { tenant + "-" + key }

  /** No key a tenant can ask for is the placeholder, and no two tenants can ask for one key. */
  lemma KeyNames(tenant: string, key: string, tenant': string, key': string)
    requires ValidName(tenant) && ValidLabel(key) && ValidName(tenant') && ValidLabel(key')
    ensures KeyName(tenant, key) != PLACEHOLDER && |KeyName(tenant, key)| <= 64
    ensures KeyName(tenant, key) == KeyName(tenant', key') ==> tenant == tenant' && key == key'
  {
    assert KeyName(tenant, key)[0] == tenant[0];
    assert '-' !in tenant && '-' !in tenant';
    SplitPrefix(tenant, key, '-');
    SplitPrefix(tenant', key', '-');
    if KeyName(tenant, key) == KeyName(tenant', key') {
      assert tenant == Split(KeyName(tenant, key), '-')[0] == tenant';
      assert key == KeyName(tenant, key)[|tenant| + 1..] == key';
    }
  }

  // --- The client as it runs ------------------------------------------------------------------------

  /** The remote profile, changed call by call. */
  class Controller {
    var keys: seq<Entry>

    constructor (keys: seq<Entry>)
      ensures this.keys == keys
    {
      this.keys := keys;
    }

    /** add-psk: no name is ever doubled, no other entry moves, and success puts e in. */
    method AddPsk(e: Entry, f: Fault) returns (r: Reply)
      modifies this
      ensures (keys, r) == Add(old(keys), e, f)
      ensures DistinctNames(old(keys)) ==> DistinctNames(keys)
      ensures Keep(keys, {e.name}) == Keep(old(keys), {e.name})
      ensures r.Done? ==> e in keys
    {
      KeepAppend(keys, e, {e.name});
      if f.Before? {
        return Failed;
      }
      if Holds(keys, e.name) {
        return Refused;
      }
      keys := keys + [e];
      return if f.Fine? then Done else Failed;
    }

    /** delete-psk: no other entry moves, a profile that held a key still does,
        and success leaves nothing under the name. */
    method DeletePsk(name: string, f: Fault) returns (r: Reply)
      modifies this
      ensures (keys, r) == Delete(old(keys), name, f)
      ensures DistinctNames(old(keys)) ==> DistinctNames(keys)
      ensures Keep(keys, {name}) == Keep(old(keys), {name})
      ensures Holds(old(keys), name) ==> keys != []
      ensures r.Done? ==> !Holds(keys, name)
    {
      if DistinctNames(keys) {
        KeepDistinct(keys, {name});
      }
      KeepTwice(keys, {name}, {name});
      assert {name} + {name} == {name};
      if f.Before? {
        return Failed;
      }
      if Holds(keys, name) && Keep(keys, {name}) == [] {
        return Refused;
      }
      keys := Keep(keys, {name});
      return if f.Fine? then Done else Failed;
    }

    method HasPlaceholder(existing: seq<Entry>) returns (has: bool)
      ensures has <==> Holds(existing, PLACEHOLDER)
    {
      for i := 0 to |existing|
        invariant forall j :: 0 <= j < i ==> existing[j].name != PLACEHOLDER
      {
        if existing[i].name == PLACEHOLDER {
          return true;
        }
      }
      return false;
    }

    method FindVlan(existing: seq<Entry>, name: string) returns (vlan: int)
      ensures vlan == VlanOf(existing, name)
    {
      for i := 0 to |existing|
        invariant VlanOf(existing, name) == VlanOf(existing[i..], name)
      {
        assert existing[i..][1..] == existing[i + 1..];
        if existing[i].name == name && 1 <= existing[i].vlan <= 4094 {
          return existing[i].vlan;
        }
      }
      return 1;
    }

    method GuardMinimum(existing: seq<Entry>, name: string, psk: string, f: Fault) returns (r: Reply)
      requires existing == keys
      modifies this
      ensures (keys, r) == Guard(old(keys), name, psk, f)
    {
      var others := 0;
      for i := 0 to |existing|
        invariant keys == existing
        invariant others == |Others(existing[..i], name)|
      {
        assert existing[..i + 1] == existing[..i] + [existing[i]];
        KeepAppend(existing[..i], existing[i], {name, PLACEHOLDER});
        if existing[i].name != name && existing[i].name != PLACEHOLDER {
          others := others + 1;
        }
      }
      assert existing[..|existing|] == existing;
      var has := HasPlaceholder(existing);
      if has || others > 0 {
        return Done;
      }
      var vlan := FindVlan(existing, name);
      r := AddPsk(Entry(PLACEHOLDER, psk, "", vlan), f);
    }

    method FinishEnsure(k: KeySpec, p: Plan, needsWrite: bool) returns (r: Reply)
      modifies this
      ensures (keys, r) == if needsWrite then AddAndSweep(old(keys), k, p) else Sweep(old(keys), p)
    {
      if needsWrite {
        r := AddPsk(Entry(k.name, k.psk, k.mac, k.vlan), p.add);
        if !r.Done? {
          return;
        }
      }
      if !p.reread {
        return Failed;
      }
      var has := HasPlaceholder(keys);
      if has {
        r := DeletePsk(PLACEHOLDER, p.sweep);
      } else {
        r := Done;
      }
    }

    /** EnsureKey's search. */
    method FindEntry(existing: seq<Entry>, name: string) returns (e: Option<Entry>)
      ensures e == Find(existing, name)
    {
      for i := 0 to |existing|
        invariant Find(existing, name) == Find(existing[i..], name)
      {
        assert existing[i..][1..] == existing[i + 1..];
        if existing[i].name == name {
          return Some(existing[i]);
        }
      }
      return None;
    }

    /** The correction: guard, then delete. */
    method WithdrawKey(existing: seq<Entry>, name: string, placeholderPsk: string, p: Plan) returns (r: Reply)
      requires existing == keys
      modifies this
      ensures (keys, r) == Withdraw(old(keys), name, placeholderPsk, p)
    {
      r := GuardMinimum(existing, name, placeholderPsk, p.guard);
      if r.Done? {
        r := DeletePsk(name, p.correct);
      }
    }

    /** EnsureKey */
    method EnsureKey(k: KeySpec, placeholderPsk: string, p: Plan) returns (r: Reply)
      requires DistinctNames(keys)
      modifies this
      ensures (keys, r) == Ensure(old(keys), k, placeholderPsk, p)
      ensures Undisturbed(old(keys), keys, k.name) && !r.Refused?
      ensures r.Done? ==> Exactly(keys, k, Others(old(keys), k.name))
    {
      EnsureKeyProtocol(keys, k, placeholderPsk, p);
      if !ValidSpec(k) {
        return Invalid;
      }
      if !p.read {
        return Failed;
      }
      var found := FindEntry(keys, k.name);
      var needsWrite := true;
      if found.Some? {
        if found.value.psk == k.psk && found.value.vlan == k.vlan && found.value.mac == k.mac {
          needsWrite := false;
        } else {
          r := WithdrawKey(keys, k.name, placeholderPsk, p);
          if !r.Done? {
            return;
          }
        }
      }
      r := FinishEnsure(k, p, needsWrite);
    }

    /** RemoveKey */
    method RemoveKey(name: string, placeholderPsk: string, p: Plan) returns (r: Reply)
      requires DistinctNames(keys)
      modifies this
      ensures (keys, r) == Remove(old(keys), name, placeholderPsk, p)
      ensures name != PLACEHOLDER ==> Undisturbed(old(keys), keys, name) && !r.Refused?
      ensures name != PLACEHOLDER && r.Done? ==> !Holds(keys, name)
    {
      if name != PLACEHOLDER {
        RemoveKeyProtocol(keys, name, placeholderPsk, p);
      }
      if !p.read {
        return Failed;
      }
      var existing := keys;
      var found := false;
      for i := 0 to |existing|
        invariant keys == existing && (found ==> Holds(existing, name))
        invariant !found ==> forall j :: 0 <= j < i ==> existing[j].name != name
      {
        if existing[i].name == name {
          found := true;
          break;
        }
      }
      if !found {
        return Done;
      }
      r := WithdrawKey(existing, name, placeholderPsk, p);
    }
  }
}
