/** Every tenant's EnsureKey and RemoveKey on one profile, interleaved call by
    call. Nothing in the service or in internal/backend/omada serialises them:
    each reads the profile, and what it then adds and deletes lands in whatever
    the profile has become.

    One call per key name is under way at a time. Each of its steps may be lost
    or take effect and be reported as failed, and the call may stop anywhere. */
module Profiles {
  import opened Basics
  import opened Text
  import opened Ppsk

  /** EnsureKey of k, or RemoveKey. */
  datatype Want = Put(k: KeySpec) | Gone

  /** How far a call has come. Correcting has read the profile and is to guard,
      Guarded is to delete its key, Cleared is to add it, Present has it in and
      is to read again, Reread is to sweep what it then saw. */
  datatype Phase =
    | Correcting(seen: seq<Entry>)
    | Guarded(seen: seq<Entry>)
    | Cleared
    | Present
    | Reread(seen: seq<Entry>)

  datatype Op = Op(want: Want, psk: string, phase: Phase)

  datatype State = State(keys: seq<Entry>, ops: map<string, Op>)

  datatype Event =
    | Start(want: Want, psk: string)
    | Guarding(f: Fault)
    | Dropping(f: Fault)
    | Adding(f: Fault)
    | Looking
    | Sweeping(f: Fault)
    | Stop

  /** What the first read leads to; None is a removal with nothing to remove. */
  function FirstPhase(keys: seq<Entry>, name: string, want: Want): Option<Phase> {
    match Find(keys, name)
    case None => if want.Put? then Some(Cleared) else None
    case Some(e) => if want.Put? && e == want.k.AsEntry() then Some(Present) else Some(Correcting(keys))
  }

  predicate MayStart(name: string, want: Want) {
    name != PLACEHOLDER && (want.Put? ==> ValidSpec(want.k) && want.k.name == name)
  }

  predicate Enabled(s: State, name: string, e: Event) {
    match e
    case Start(want, _) => name !in s.ops && MayStart(name, want)
    case Guarding(_) => name in s.ops && s.ops[name].phase.Correcting?
    case Dropping(_) => name in s.ops && s.ops[name].phase.Guarded?
    case Adding(_) => name in s.ops && s.ops[name].phase.Cleared? && s.ops[name].want.Put?
    case Looking => name in s.ops && s.ops[name].phase.Present?
    case Sweeping(_) => name in s.ops && s.ops[name].phase.Reread?
    case Stop => name in s.ops
  }

  /** What the controller does with the step. */
  function Effect(s: State, name: string, e: Event): (seq<Entry>, Reply)
    requires Enabled(s, name, e)
  {
    match e
    case Start(_, _) => (s.keys, Done)
    case Guarding(f) => GuardSeen(s.ops[name].phase.seen, s.keys, name, s.ops[name].psk, f)
    case Dropping(f) => Delete(s.keys, name, f)
    case Adding(f) => Add(s.keys, s.ops[name].want.k.AsEntry(), f)
    case Looking => (s.keys, Done)
    case Sweeping(f) => SweepSeen(s.ops[name].phase.seen, s.keys, f)
    case Stop => (s.keys, Failed)
  }

  /** Where the call stands after it; an error or the last step ends it. */
  function Onward(s: State, name: string, e: Event): Option<Op>
    requires Enabled(s, name, e)
  {
    if !Effect(s, name, e).1.Done? then None
    else
      match e
      case Start(want, psk) =>
        (match FirstPhase(s.keys, name, want) case None => None case Some(phase) => Some(Op(want, psk, phase)))
      case Guarding(_) => Some(s.ops[name].(phase := Guarded(s.ops[name].phase.seen)))
      case Dropping(_) => if s.ops[name].want.Put? then Some(s.ops[name].(phase := Cleared)) else None
      case Adding(_) => Some(s.ops[name].(phase := Present))
      case Looking => Some(s.ops[name].(phase := Reread(s.keys)))
      case Sweeping(_) => None
      case Stop => None
  }

  function Next(s: State, name: string, e: Event): State
    requires Enabled(s, name, e)
  {
    var op := Onward(s, name, e);
    State(Effect(s, name, e).0, if op.Some? then s.ops[name := op.value] else s.ops - {name})
  }

  type Trace = seq<(string, Event)>

  ghost predicate StepAt(states: seq<State>, trace: Trace, i: nat)
    requires i < |trace| && |states| == |trace| + 1
  {
    Enabled(states[i], trace[i].0, trace[i].1) && states[i + 1] == Next(states[i], trace[i].0, trace[i].1)
  }

  /** From a profile with no name doubled and no call under way. */
  ghost predicate Run(states: seq<State>, trace: Trace) {
    && |states| == |trace| + 1
    && DistinctNames(states[0].keys) && states[0].ops == map[]
    && forall i :: 0 <= i < |trace| ==> StepAt(states, trace, i)
  }

  // --- What one step does to the profile -----------------------------------------------------

  lemma {:induction false} KeepSubset(keys: seq<Entry>, keys': seq<Entry>, small: set<string>, big: set<string>)
    requires Keep(keys, small) == Keep(keys', small) && small <= big
    ensures Keep(keys, big) == Keep(keys', big)
  {
    KeepTwice(keys, small, big);
    KeepTwice(keys', small, big);
    assert small + big == big;
  }

  lemma AddLeavesOthers(keys: seq<Entry>, e: Entry, f: Fault)
    ensures Keep(Add(keys, e, f).0, {e.name}) == Keep(keys, {e.name})
    ensures DistinctNames(keys) ==> DistinctNames(Add(keys, e, f).0)
    ensures keys != [] ==> Add(keys, e, f).0 != []
  {
    KeepAppend(keys, e, {e.name});
  }

  lemma DeleteLeavesOthers(keys: seq<Entry>, name: string, f: Fault)
    ensures Keep(Delete(keys, name, f).0, {name}) == Keep(keys, {name})
    ensures DistinctNames(keys) ==> DistinctNames(Delete(keys, name, f).0)
    ensures keys != [] ==> Delete(keys, name, f).0 != []
  {
    KeepTwice(keys, {name}, {name});
    assert {name} + {name} == {name};
    if DistinctNames(keys) {
      KeepDistinct(keys, {name});
    }
    if keys != [] && Keep(keys, {name}) == [] {
      assert keys[0] in keys;
      assert Holds(keys, name);
    }
  }

  /** Whatever a call read and however stale that is, a step of its moves no key
      but its own and the placeholder, doubles none, and empties no profile. */
  lemma StepIsUndisturbing(s: State, name: string, e: Event)
    requires Enabled(s, name, e) && DistinctNames(s.keys) && OpFits(s, name)
    ensures Undisturbed(s.keys, Next(s, name, e).keys, name)
  {
    var keys' := Effect(s, name, e).0;
    match e
    case Guarding(f) =>
      AddLeavesOthers(s.keys, PlaceholderEntry(s.ops[name].phase.seen, name, s.ops[name].psk), f);
      KeepSubset(s.keys, keys', {PLACEHOLDER}, {name, PLACEHOLDER});
    case Dropping(f) =>
      DeleteLeavesOthers(s.keys, name, f);
      KeepSubset(s.keys, keys', {name}, {name, PLACEHOLDER});
    case Adding(f) =>
      AddLeavesOthers(s.keys, s.ops[name].want.k.AsEntry(), f);
      KeepSubset(s.keys, keys', {name}, {name, PLACEHOLDER});
    case Sweeping(f) =>
      DeleteLeavesOthers(s.keys, PLACEHOLDER, f);
      KeepSubset(s.keys, keys', {PLACEHOLDER}, {name, PLACEHOLDER});
    case _ =>
  }

  // --- What every step keeps --------------------------------------------------------------------

  /** A call knows how its own key stands, whatever the others have done. */
  ghost predicate OpFits(s: State, name: string) {
    name in s.ops ==>
      && MayStart(name, s.ops[name].want)
      && match s.ops[name].phase
         case Correcting(seen) => Holds(s.keys, name) && Holds(seen, name)
         case Guarded(seen) => Holds(s.keys, name)
         case Cleared => s.ops[name].want.Put? && !Holds(s.keys, name)
         case Present => s.ops[name].want.Put? && s.ops[name].want.k.AsEntry() in s.keys
         case Reread(_) => s.ops[name].want.Put? && s.ops[name].want.k.AsEntry() in s.keys
  }

  ghost predicate Inv(s: State) {
    DistinctNames(s.keys) && forall name :: name in s.ops ==> OpFits(s, name)
  }

  /** The entries of one name are the same in two profiles that agree outside other names. */
  lemma SameEntries(keys: seq<Entry>, keys': seq<Entry>, drop: set<string>, e: Entry)
    requires Keep(keys, drop) == Keep(keys', drop) && e.name !in drop
    ensures e in keys <==> e in keys'
  {
    assert e in keys <==> e in Keep(keys, drop);
    assert e in keys' <==> e in Keep(keys', drop);
  }

  lemma SameHolds(keys: seq<Entry>, keys': seq<Entry>, drop: set<string>, name: string)
    requires Keep(keys, drop) == Keep(keys', drop) && name !in drop
    ensures Holds(keys, name) <==> Holds(keys', name)
  {
    HoldsByMember(keys, name);
    HoldsByMember(keys', name);
    forall e: Entry | e.name == name ensures e in keys <==> e in keys' { SameEntries(keys, keys', drop, e); }
  }

  lemma OthersStillFit(s: State, s': State, name: string, other: string)
    requires Keep(s.keys, {name, PLACEHOLDER}) == Keep(s'.keys, {name, PLACEHOLDER})
    requires other != name && other in s'.ops ==> other in s.ops && s'.ops[other] == s.ops[other]
    requires other != name && OpFits(s, other)
    ensures OpFits(s', other)
  {
    if other in s'.ops {
      SameHolds(s.keys, s'.keys, {name, PLACEHOLDER}, other);
      if s.ops[other].want.Put? {
        SameEntries(s.keys, s'.keys, {name, PLACEHOLDER}, s.ops[other].want.k.AsEntry());
      }
    }
  }

  lemma AddedIsIn(keys: seq<Entry>, e: Entry)
    ensures e in keys + [e]
  {
    assert (keys + [e])[|keys|] == e;
  }

  lemma OwnStillFits(s: State, name: string, e: Event)
    requires Enabled(s, name, e) && DistinctNames(s.keys) && OpFits(s, name)
    ensures OpFits(Next(s, name, e), name)
  {
    var s' := Next(s, name, e);
    match e
    case Start(want, _) =>
      HoldsByMember(s.keys, name);
    case Guarding(f) =>
      AddLeavesOthers(s.keys, PlaceholderEntry(s.ops[name].phase.seen, name, s.ops[name].psk), f);
      SameHolds(s.keys, s'.keys, {PLACEHOLDER}, name);
    case Dropping(f) =>
      HoldsByMember(s'.keys, name);
    case Adding(f) =>
      AddedIsIn(s.keys, s.ops[name].want.k.AsEntry());
    case _ =>
  }

  lemma NextKeepsInv(s: State, name: string, e: Event)
    requires Inv(s) && Enabled(s, name, e)
    ensures Inv(Next(s, name, e))
  {
    var s' := Next(s, name, e);
    assert OpFits(s, name);
    StepIsUndisturbing(s, name, e);
    OwnStillFits(s, name, e);
    forall other | other in s'.ops && other != name ensures OpFits(s', other) {
      assert OpFits(s, other);
      OthersStillFit(s, s', name, other);
    }
  }

  lemma {:induction false} RunKeepsInv(states: seq<State>, trace: Trace, i: nat)
    requires Run(states, trace) && i <= |trace|
    ensures Inv(states[i])
  {
    if i > 0 {
      RunKeepsInv(states, trace, i - 1);
      assert StepAt(states, trace, i - 1);
      NextKeepsInv(states[i - 1], trace[i - 1].0, trace[i - 1].1);
    }
  }

  // --- Over every run ---------------------------------------------------------------------------------

  /** Between any two points of any run: whatever was not stepped on by name is
      there untouched and in its order, no name is doubled, and a profile that
      held a key was never emptied. */
  lemma {:induction false} OnlyOwnersMove(states: seq<State>, trace: Trace, i: nat, j: nat, moved: set<string>)
    requires Run(states, trace) && i <= j <= |trace|
    requires forall m :: i <= m < j ==> trace[m].0 in moved
    ensures Keep(states[j].keys, moved + {PLACEHOLDER}) == Keep(states[i].keys, moved + {PLACEHOLDER})
    ensures DistinctNames(states[j].keys)
    ensures states[i].keys != [] ==> states[j].keys != []
    decreases j
  {
    RunKeepsInv(states, trace, j);
    if i < j {
      OnlyOwnersMove(states, trace, i, j - 1, moved);
      RunKeepsInv(states, trace, j - 1);
      assert StepAt(states, trace, j - 1);
      var s, name := states[j - 1], trace[j - 1].0;
      assert OpFits(s, name);
      StepIsUndisturbing(s, name, trace[j - 1].1);
      KeepSubset(s.keys, states[j].keys, {name, PLACEHOLDER}, moved + {PLACEHOLDER});
    }
  }

  ghost predicate Owns(tenant: string, name: string) {
    exists key :: ValidLabel(key) && name == KeyName(tenant, key)
  }

  /** A tenant's keys change only by its own steps: over any stretch in which it
      takes none, every key of its stays, and none appears. */
  lemma TenantsApart(states: seq<State>, trace: Trace, i: nat, j: nat, tenant: string, e: Entry)
    requires Run(states, trace) && i <= j <= |trace|
    requires ValidName(tenant) && Owns(tenant, e.name)
    requires forall m :: i <= m < j ==> !Owns(tenant, trace[m].0)
    ensures e in states[j].keys <==> e in states[i].keys
  {
    var moved := set m | i <= m < j :: trace[m].0;
    assert e.name !in moved;
    var key :| ValidLabel(key) && e.name == KeyName(tenant, key);
    KeyNames(tenant, key, tenant, key);
    OnlyOwnersMove(states, trace, i, j, moved);
    SameEntries(states[i].keys, states[j].keys, moved + {PLACEHOLDER}, e);
  }

  /** An EnsureKey that reports success has its key in the profile, once and as
      asked, and the placeholder it saw is out, whatever ran beside it. */
  lemma EnsureEnds(states: seq<State>, trace: Trace, i: nat)
    requires Run(states, trace) && i < |trace| && trace[i].1.Sweeping?
    requires Enabled(states[i], trace[i].0, trace[i].1) && Effect(states[i], trace[i].0, trace[i].1).1.Done?
    ensures var op := states[i].ops[trace[i].0];
      && op.want.Put? && op.want.k.name == trace[i].0
      && op.want.k.AsEntry() in states[i + 1].keys && DistinctNames(states[i + 1].keys)
      && (Holds(op.phase.seen, PLACEHOLDER) || !Holds(states[i].keys, PLACEHOLDER) ==>
        !Holds(states[i + 1].keys, PLACEHOLDER))
  {
    RunKeepsInv(states, trace, i);
    RunKeepsInv(states, trace, i + 1);
    assert StepAt(states, trace, i);
    var s, name := states[i], trace[i].0;
    assert OpFits(s, name);
    DeleteLeavesOthers(s.keys, PLACEHOLDER, trace[i].1.f);
    SameEntries(s.keys, states[i + 1].keys, {PLACEHOLDER}, s.ops[name].want.k.AsEntry());
    HoldsByMember(states[i + 1].keys, PLACEHOLDER);
  }

  /** A RemoveKey that reports success leaves nothing under its name. */
  lemma RemoveEnds(states: seq<State>, trace: Trace, i: nat)
    requires Run(states, trace) && i < |trace| && trace[i].1.Dropping?
    requires Enabled(states[i], trace[i].0, trace[i].1) && Effect(states[i], trace[i].0, trace[i].1).1.Done?
    ensures !Holds(states[i + 1].keys, trace[i].0)
  {
    assert StepAt(states, trace, i);
    HoldsByMember(states[i + 1].keys, trace[i].0);
  }

  /** No placeholder comes back but by a guard. */
  lemma {:induction false} NoPlaceholderUnlessGuarded(states: seq<State>, trace: Trace, i: nat, j: nat)
    requires Run(states, trace) && i <= j <= |trace| && !Holds(states[i].keys, PLACEHOLDER)
    requires forall m :: i <= m < j ==> !trace[m].1.Guarding?
    ensures !Holds(states[j].keys, PLACEHOLDER)
    decreases j
  {
    if i < j {
      NoPlaceholderUnlessGuarded(states, trace, i, j - 1);
      RunKeepsInv(states, trace, j - 1);
      assert StepAt(states, trace, j - 1);
      var s, name, e := states[j - 1], trace[j - 1].0, trace[j - 1].1;
      assert OpFits(s, name);
      if e.Dropping? {
        DeleteLeavesOthers(s.keys, name, e.f);
        SameHolds(s.keys, states[j].keys, {name}, PLACEHOLDER);
      } else if e.Adding? {
        AddLeavesOthers(s.keys, s.ops[name].want.k.AsEntry(), e.f);
        SameHolds(s.keys, states[j].keys, {name}, PLACEHOLDER);
      } else if e.Sweeping? {
        HoldsByMember(s.keys, PLACEHOLDER);
        HoldsByMember(states[j].keys, PLACEHOLDER);
      }
    }
  }

  // --- When the controller refuses ------------------------------------------------------------------------

  /** At any point of any run the controller refuses a step exactly when it is a
      delete of the only key left, or a guard that another call's placeholder
      got ahead of. Adding a key and sweeping are never refused. */
  lemma RefusedExactlyWhen(states: seq<State>, trace: Trace, i: nat)
    requires Run(states, trace) && i < |trace| && Enabled(states[i], trace[i].0, trace[i].1)
    ensures var s, name, e := states[i], trace[i].0, trace[i].1;
      Effect(s, name, e).1.Refused? <==>
        || (e.Dropping? && !e.f.Before? && Keep(s.keys, {name}) == [])
        || (e.Guarding? && !e.f.Before? && NeedsPlaceholder(s.ops[name].phase.seen, name) && Holds(s.keys, PLACEHOLDER))
  {
    RunKeepsInv(states, trace, i);
    var s, name, e := states[i], trace[i].0, trace[i].1;
    assert OpFits(s, name);
    if e.Sweeping? {
      assert s.ops[name].want.k.AsEntry() in Keep(s.keys, {PLACEHOLDER});
    }
  }

  /** Between a call's first read and its delete, with no other call taking a
      key away, something beside its own key stays. */
  ghost predicate Backed(s: State, name: string) {
    name in s.ops ==>
      match s.ops[name].phase
      case Correcting(seen) => forall e :: e in seen && e.name != name ==> e in s.keys
      case Guarded(_) => exists e :: e in s.keys && e.name != name
      case _ => true
  }

  ghost predicate TakesAway(e: Event) { e.Dropping? || e.Sweeping? }

  lemma OwnStepBacks(s: State, name: string, e: Event)
    requires Enabled(s, name, e) && DistinctNames(s.keys) && OpFits(s, name) && Backed(s, name)
    ensures Backed(Next(s, name, e), name)
  {
    if e.Guarding? && Effect(s, name, e).1.Done? {
      var seen, s' := s.ops[name].phase.seen, Next(s, name, e);
      if NeedsPlaceholder(seen, name) {
        AddedIsIn(s.keys, PlaceholderEntry(seen, name, s.ops[name].psk));
      } else if Holds(seen, PLACEHOLDER) {
        HoldsByMember(seen, PLACEHOLDER);
      } else {
        assert Others(seen, name)[0] in seen;
      }
    }
  }

  lemma OtherStepBacks(s: State, other: string, e: Event, name: string)
    requires Enabled(s, other, e) && !TakesAway(e) && other != name && Backed(s, name)
    ensures Backed(Next(s, other, e), name)
  {
    forall x | x in s.keys ensures x in Next(s, other, e).keys {
      if e.Guarding? || e.Adding? {
        var i :| 0 <= i < |s.keys| && s.keys[i] == x;
        assert Next(s, other, e).keys[i] == x;
      }
    }
  }

  lemma {:induction false} StaysBacked(states: seq<State>, trace: Trace, i: nat, j: nat, name: string)
    requires Run(states, trace) && i <= j <= |trace| && name !in states[i].ops
    requires forall m :: i <= m < j && trace[m].0 != name ==> !TakesAway(trace[m].1)
    ensures Backed(states[j], name)
    decreases j
  {
    if i < j {
      StaysBacked(states, trace, i, j - 1, name);
      RunKeepsInv(states, trace, j - 1);
      assert StepAt(states, trace, j - 1);
      var s, other := states[j - 1], trace[j - 1].0;
      assert OpFits(s, other);
      if other == name {
        OwnStepBacks(s, name, trace[j - 1].1);
      } else {
        OtherStepBacks(s, other, trace[j - 1].1, name);
      }
    }
  }

  /** A revocation or correction is refused only because, since the call began,
      another call took a key or the placeholder away. */
  lemma RefusalNeedsOverlap(states: seq<State>, trace: Trace, i: nat, j: nat)
    requires Run(states, trace) && i <= j < |trace| && trace[j].1.Dropping? && trace[j].0 !in states[i].ops
    requires Enabled(states[j], trace[j].0, trace[j].1) && Effect(states[j], trace[j].0, trace[j].1).1.Refused?
    ensures exists m :: i <= m < j && trace[m].0 != trace[j].0 && TakesAway(trace[m].1)
  {
    var name := trace[j].0;
    if forall m :: i <= m < j && trace[m].0 != name ==> !TakesAway(trace[m].1) {
      StaysBacked(states, trace, i, j, name);
      RefusedExactlyWhen(states, trace, j);
    }
  }

  // --- Convergence -------------------------------------------------------------------------------------------

  /** After any run, an EnsureKey with the profile to itself that succeeds
      leaves exactly the others' keys as they then stand and the one asked for,
      with no placeholder; and if only this key's calls had run since some
      point, broken off wherever, the others' are as they stood there. */
  lemma Converges(states: seq<State>, trace: Trace, i: nat, j: nat, k: KeySpec, psk: string, p: Plan)
    requires Run(states, trace) && i <= j <= |trace|
    requires Ensure(states[j].keys, k, psk, p).1.Done?
    ensures Exactly(Ensure(states[j].keys, k, psk, p).0, k, Others(states[j].keys, k.name))
    ensures (forall m :: i <= m < j ==> trace[m].0 == k.name) ==>
      Others(states[j].keys, k.name) == Others(states[i].keys, k.name)
  {
    RunKeepsInv(states, trace, j);
    EnsureKeyProtocol(states[j].keys, k, psk, p);
    if forall m :: i <= m < j ==> trace[m].0 == k.name {
      OnlyOwnersMove(states, trace, i, j, {k.name});
      assert {k.name} + {PLACEHOLDER} == {k.name, PLACEHOLDER};
    }
  }

  // --- One call alone -------------------------------------------------------------------------------------------

  function After(s: State, name: string, e: Event): State {
    if Enabled(s, name, e) then Next(s, name, e) else s
  }

  /** The steps in order, with the plan's outcomes. */
  function AloneFromAdd(s: State, name: string, p: Plan): State {
    After(After(After(s, name, Adding(p.add)), name, if p.reread then Looking else Stop), name, Sweeping(p.sweep))
  }

  function AloneFromGuard(s: State, name: string, p: Plan): State {
    AloneFromAdd(After(After(s, name, Guarding(p.guard)), name, Dropping(p.correct)), name, p)
  }

  lemma FromAddIsAddAndSweep(s: State, name: string, p: Plan)
    requires name in s.ops && s.ops[name].want.Put? && s.ops[name].phase.Cleared?
    ensures AloneFromAdd(s, name, p).keys == AddAndSweep(s.keys, s.ops[name].want.k, p).0
    ensures name !in AloneFromAdd(s, name, p).ops
  {
  }

  lemma FromPresentIsSweep(s: State, name: string, p: Plan)
    requires name in s.ops && s.ops[name].want.Put? && s.ops[name].phase.Present?
    ensures AloneFromAdd(s, name, p).keys == Sweep(s.keys, p).0
    ensures name !in AloneFromAdd(s, name, p).ops
  {
  }

  lemma FromGuardIsWithdraw(s: State, name: string, p: Plan)
    requires name in s.ops && s.ops[name].phase == Correcting(s.keys)
    ensures var (keys, r) := Withdraw(s.keys, name, s.ops[name].psk, p);
      var s' := After(After(s, name, Guarding(p.guard)), name, Dropping(p.correct));
      && s'.keys == keys
      && (name in s'.ops <==> r.Done? && s.ops[name].want.Put?)
      && (name in s'.ops ==> s'.ops[name] == s.ops[name].(phase := Cleared))
  {
  }

  /** A call nobody interleaves with does exactly what EnsureKey and RemoveKey
      do with the profile to themselves. */
  lemma AloneIsOneCall(s: State, name: string, want: Want, psk: string, p: Plan)
    requires name !in s.ops && MayStart(name, want) && p.read
    ensures var s' := AloneFromGuard(After(s, name, Start(want, psk)), name, p);
      && name !in s'.ops
      && s'.keys == if want.Put? then Ensure(s.keys, want.k, psk, p).0 else Remove(s.keys, name, psk, p).0
  {
    var s0 := After(s, name, Start(want, psk));
    if name in s0.ops {
      match s0.ops[name].phase
      case Correcting(_) =>
        FromGuardIsWithdraw(s0, name, p);
        var s1 := After(After(s0, name, Guarding(p.guard)), name, Dropping(p.correct));
        if name in s1.ops {
          FromAddIsAddAndSweep(s1, name, p);
        }
      case Cleared => FromAddIsAddAndSweep(s0, name, p);
      case Present => FromPresentIsSweep(s0, name, p);
      case _ =>
    }
  }
}
