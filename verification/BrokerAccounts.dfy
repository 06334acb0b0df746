/** internal/tenant/brokeraccounts.go: one MQTT account's password, from its
    first row to its deletion. The registry keeps the hash, the broker is sent
    it, and the plaintext is returned once and kept nowhere.

    A registry write or a call to the account writer may fail before it takes
    effect or after. Calls for one account do not overlap. */
module BrokerAccounts {
  import opened Basics

  /** bcrypt, of which all that is used is that a hash is not empty and accepts its password. */
  datatype Bcrypt = Bcrypt(hash: (string, nat) -> string, verify: (string, string) -> bool)

  ghost predicate Lawful(b: Bcrypt) {
    forall p, salt :: b.hash(p, salt) != "" && b.verify(p, b.hash(p, salt))
  }

  datatype Grant = Grant(publish: seq<string>, subscribe: seq<string>)

  datatype Account = Account(hash: string, grant: Grant, ready: bool)

  datatype Held = Held(hash: string, grant: Grant)

  /** row is the registry's account, broker what the broker's database holds. */
  datatype State = State(row: Option<Account>, broker: Option<Held>)

  datatype Reply = Done | NotFound | StoreFailed | StepFailed

  /** chooseBrokerSecret: the supplied password, else the stored hash, else a
      new password. The plaintext is empty when a stored hash is kept. */
  function ChooseSecret(b: Bcrypt, supplied: string, existing: Option<Account>, minted: string, salt: nat)
    : (string, string)
  {
    if supplied != "" then (b.hash(supplied, salt), supplied)
    else if existing.Some? && existing.value.hash != "" then (existing.value.hash, "")
    else (b.hash(minted, salt), minted)
  }

  datatype CreatePlan = CreatePlan(store: Fault, write: Fault, mark: Fault)

  /** CreateBrokerAccount past its checks: the row, then the broker, then the
      status. A failed registry write returns nothing, a failed writer returns
      the password with the error. */
  function Create(b: Bcrypt, st: State, g: Grant, supplied: string, minted: string, salt: nat, p: CreatePlan)
    : (State, string, Reply)
  {
    var (hash, plaintext) := ChooseSecret(b, supplied, st.row, minted, salt);
    var a := Account(hash, g, false);
    if p.store.Before? then (st, "", StoreFailed)
    else if p.store.After? then (st.(row := Some(a)), "", StoreFailed)
    else
      var broker := if p.write.Before? then st.broker else Some(Held(hash, g));
      if !p.write.Fine? then (State(Some(a), broker), plaintext, StepFailed)
      else if p.mark.Before? then (State(Some(a), broker), plaintext, StoreFailed)
      else (State(Some(a.(ready := true)), broker), plaintext, if p.mark.Fine? then Done else StoreFailed)
  }

  /** DeleteBrokerAccount: the broker, then the row. */
  function Delete(st: State, remove: Fault, drop: Fault): (State, Reply) {
    if st.row.None? then (st, NotFound)
    else if remove.Before? then (st, StepFailed)
    else if remove.After? then (st.(broker := None), StepFailed)
    else if drop.Before? then (st.(broker := None), StoreFailed)
    else (State(None, None), if drop.Fine? then Done else StoreFailed)
  }

  // --- Runs --------------------------------------------------------------------------------

  datatype Call =
    | CreateCall(grant: Grant, minted: string, salt: nat, plan: CreatePlan)
    | DeleteCall(remove: Fault, drop: Fault)

  /** The account, and the passwords returned for it since its row was first made. */
  datatype World = World(st: State, returned: seq<string>)

  function Do(b: Bcrypt, w: World, c: Call): World {
    match c
    case CreateCall(g, minted, salt, plan) =>
      var (st, password, _) := Create(b, w.st, g, "", minted, salt, plan);
      World(st, if password == "" then w.returned else w.returned + [password])
    case DeleteCall(remove, drop) =>
      var (st, _) := Delete(w.st, remove, drop);
      World(st, if st.row.None? then [] else w.returned)
  }

  function AfterCalls(b: Bcrypt, w: World, calls: seq<Call>): World {
    if calls == [] then w else Do(b, AfterCalls(b, w, calls[..|calls| - 1]), calls[|calls| - 1])
  }

  const NOTHING := World(State(None, None), [])

  /** The broker holds nothing or the row's hash, and whatever was returned opens it. */
  ghost predicate Sound(b: Bcrypt, w: World) {
    && (w.st.row.Some? ==> w.st.row.value.hash != "")
    && (w.st.broker.Some? ==> w.st.row.Some? && w.st.broker.value.hash == w.st.row.value.hash)
    && |w.returned| <= 1
    && (|w.returned| == 1 ==> w.st.row.Some? && b.verify(w.returned[0], w.st.row.value.hash))
  }

  lemma CreateKeepsSound(b: Bcrypt, w: World, g: Grant, minted: string, salt: nat, p: CreatePlan)
    requires Lawful(b) && Sound(b, w)
    ensures var w' := Do(b, w, CreateCall(g, minted, salt, p));
      Sound(b, w') && (w.st.row.Some? ==> w'.st.row.Some? && w'.st.row.value.hash == w.st.row.value.hash)
  {
    if w.st.row.None? {
      assert w.returned == [];
    }
  }

  lemma DeleteKeepsSound(b: Bcrypt, w: World, remove: Fault, drop: Fault)
    requires Sound(b, w)
    ensures var w' := Do(b, w, DeleteCall(remove, drop));
      Sound(b, w') && (w.st.row.Some? && w'.st.row.Some? ==> w'.st.row.value.hash == w.st.row.value.hash)
  {
  }

  lemma DoKeepsSound(b: Bcrypt, w: World, c: Call)
    requires Lawful(b) && Sound(b, w)
    ensures Sound(b, Do(b, w, c))
    ensures w.st.row.Some? && Do(b, w, c).st.row.Some? ==> Do(b, w, c).st.row.value.hash == w.st.row.value.hash
  {
    match c
    case CreateCall(g, minted, salt, plan) => CreateKeepsSound(b, w, g, minted, salt, plan);
    case DeleteCall(remove, drop) => DeleteKeepsSound(b, w, remove, drop);
  }

  lemma {:induction false} RunKeepsSound(b: Bcrypt, calls: seq<Call>)
    requires Lawful(b)
    ensures Sound(b, AfterCalls(b, NOTHING, calls))
  {
    if calls != [] {
      RunKeepsSound(b, calls[..|calls| - 1]);
      DoKeepsSound(b, AfterCalls(b, NOTHING, calls[..|calls| - 1]), calls[|calls| - 1]);
    }
  }

  /** Credential stability. After any calls, in any order and failing anyhow, a
      broker that holds the account holds the registry's hash, at most one
      password was ever returned for it, and that password verifies. */
  lemma CredentialHolds(b: Bcrypt, calls: seq<Call>)
    requires Lawful(b)
    ensures var w := AfterCalls(b, NOTHING, calls);
      && (w.st.broker.Some? ==> w.st.row.Some? && w.st.broker.value.hash == w.st.row.value.hash)
      && |w.returned| <= 1
      && (|w.returned| == 1 ==> w.st.row.Some? && b.verify(w.returned[0], w.st.row.value.hash))
  {
    RunKeepsSound(b, calls);
  }

  /** From one row to the next state it still stands in, the hash is the same. */
  lemma {:induction false} HashNeverChanges(b: Bcrypt, calls: seq<Call>, i: nat, j: nat)
    requires Lawful(b) && i <= j <= |calls|
    requires forall n :: i <= n <= j ==> AfterCalls(b, NOTHING, calls[..n]).st.row.Some?
    ensures AfterCalls(b, NOTHING, calls[..j]).st.row.Some? && AfterCalls(b, NOTHING, calls[..i]).st.row.Some?
    ensures AfterCalls(b, NOTHING, calls[..j]).st.row.value.hash == AfterCalls(b, NOTHING, calls[..i]).st.row.value.hash
    decreases j
  {
    if i < j {
      HashNeverChanges(b, calls, i, j - 1);
      RunKeepsSound(b, calls[..j - 1]);
      assert calls[..j][..j - 1] == calls[..j - 1];
      DoKeepsSound(b, AfterCalls(b, NOTHING, calls[..j - 1]), calls[j - 1]);
    }
  }

  /** A call that succeeds leaves the broker with exactly the registry's hash and patterns. */
  lemma SuccessAgrees(b: Bcrypt, st: State, g: Grant, supplied: string, minted: string, salt: nat, p: CreatePlan)
    requires Create(b, st, g, supplied, minted, salt, p).2.Done?
    ensures var st' := Create(b, st, g, supplied, minted, salt, p).0;
      && st'.row.Some? && st'.row.value.ready && st'.row.value.grant == g
      && st'.broker == Some(Held(st'.row.value.hash, g))
  {
  }

  /** What a create answers and leaves, call by call. */
  lemma CreateExactly(b: Bcrypt, st: State, g: Grant, supplied: string, minted: string, salt: nat, p: CreatePlan)
    ensures var (st', password, reply) := Create(b, st, g, supplied, minted, salt, p);
      var hash := if supplied != "" then b.hash(supplied, salt)
                  else if st.row.Some? && st.row.value.hash != "" then st.row.value.hash
                  else b.hash(minted, salt);
      && (reply == Done <==> p.store == Fine && p.write == Fine && p.mark == Fine)
      && (reply == StepFailed <==> p.store == Fine && p.write != Fine)
      && (if p.store == Before then st'.row == st.row
          else st'.row.Some? && st'.row.value.hash == hash && st'.row.value.grant == g)
      && (if p.store != Fine || p.write == Before then st'.broker == st.broker
          else st'.broker.Some? && st'.broker.value.hash == hash && st'.broker.value.grant == g)
      && (password == if p.store != Fine then ""
                      else if supplied != "" then supplied
                      else if st.row.Some? && st.row.value.hash != "" then ""
                      else minted)
  {
  }

  /** And a delete. */
  lemma DeleteExactly(st: State, remove: Fault, drop: Fault)
    ensures var (st', reply) := Delete(st, remove, drop);
      && (reply == NotFound <==> st.row == None)
      && (reply == Done <==> st.row.Some? && remove == Fine && drop == Fine)
      && (st.row.Some? && remove != Before ==> st'.broker == None)
      && (st.row.Some? && (remove != Fine || drop == Before) ==> st'.row == st.row)
      && (st.row.Some? && remove == Before ==> st' == st)
      && (st.row == None ==> st' == st)
  {
  }

  /** A password supplied on a restore is the one the account then has. */
  lemma RestoreTakesThePassword(b: Bcrypt, st: State, g: Grant, supplied: string, minted: string, salt: nat,
                                p: CreatePlan)
    requires Lawful(b) && supplied != "" && !p.store.Before?
    ensures var st' := Create(b, st, g, supplied, minted, salt, p).0;
      st'.row.Some? && b.verify(supplied, st'.row.value.hash)
  {
  }

  /** When a new account's password reaches its tenant: exactly when the
      registry write was reported. A row stored behind a reported failure keeps
      a hash whose password no one was given, and later calls keep that hash. */
  lemma PasswordReturnedExactlyWhen(b: Bcrypt, g: Grant, minted: string, salt: nat, p: CreatePlan)
    requires minted != ""
    ensures var (st, password, _) := Create(b, State(None, None), g, "", minted, salt, p);
      && (password == minted <==> p.store.Fine?) && (password == "" <==> !p.store.Fine?)
  {
  }

  lemma {:induction false} LostPasswordStaysLost(b: Bcrypt, g: Grant, minted: string, salt: nat, calls: seq<Call>)
    requires Lawful(b) && forall i :: 0 <= i < |calls| ==> calls[i].CreateCall?
    ensures var lost := World(Create(b, State(None, None), g, "", minted, salt, CreatePlan(After, Fine, Fine)).0, []);
      var w := AfterCalls(b, lost, calls);
      w.st.row.Some? && w.st.row.value.hash == b.hash(minted, salt) && w.returned == []
  {
    if calls != [] {
      LostPasswordStaysLost(b, g, minted, salt, calls[..|calls| - 1]);
    }
  }

  // --- The calls as they run ------------------------------------------------------------------

  class Service {
    const bcrypt: Bcrypt
    var row: Option<Account>
    var broker: Option<Held>
    /** The passwords returned for the account since its row was first made. */
    ghost var returned: seq<string>

    constructor (bcrypt: Bcrypt)
      ensures this.bcrypt == bcrypt && View() == NOTHING && Valid()
    {
      this.bcrypt, row, broker, returned := bcrypt, None, None, [];
    }

    ghost function View(): World
      reads this
    {
      World(State(row, broker), returned)
    }

    /** The broker holds nothing or the row's hash, and the one password returned opens it. */
    ghost predicate Valid()
      reads this
    {
      Sound(bcrypt, View())
    }

    /** CreateBrokerAccount without a supplied password. Wherever it breaks off,
        the credential stays sound and a stored hash stays the hash. */
    method CreateBrokerAccount(g: Grant, minted: string, salt: nat, p: CreatePlan)
      returns (password: string, reply: Reply)
      requires Lawful(bcrypt) && Valid()
      modifies this`row, this`broker, this`returned
      ensures Valid()
      ensures View() == Do(bcrypt, old(View()), CreateCall(g, minted, salt, p))
      ensures old(row).Some? ==> row.Some? && row.value.hash == old(row).value.hash && password == ""
      ensures password != "" ==> row.Some? && bcrypt.verify(password, row.value.hash)
      ensures reply.Done? ==> row.Some? && row.value.ready && broker == Some(Held(row.value.hash, g))
    {
      CreateKeepsSound(bcrypt, View(), g, minted, salt, p);
      password, reply := PutAccount(g, "", minted, salt, p);
      if password != "" {
        returned := returned + [password];
      }
    }

    /** The call itself, with or without a password supplied. */
    method PutAccount(g: Grant, supplied: string, minted: string, salt: nat, p: CreatePlan)
      returns (password: string, reply: Reply)
      modifies this`row, this`broker
      ensures (State(row, broker), password, reply) ==
        Create(bcrypt, State(old(row), old(broker)), g, supplied, minted, salt, p)
      ensures broker.Some? && broker != old(broker) ==> row.Some? && broker.value.hash == row.value.hash
      ensures Lawful(bcrypt) && supplied != "" && !p.store.Before? ==>
        row.Some? && bcrypt.verify(supplied, row.value.hash)
    {
      var (hash, plaintext) := ChooseSecret(bcrypt, supplied, row, minted, salt);
      if p.store.Before? {
        return "", StoreFailed;
      }
      row := Some(Account(hash, g, false));
      if p.store.After? {
        return "", StoreFailed;
      }
      if !p.write.Before? {
        broker := Some(Held(hash, g));
      }
      if !p.write.Fine? {
        return plaintext, StepFailed;
      }
      if p.mark.Before? {
        return plaintext, StoreFailed;
      }
      row := Some(row.value.(ready := true));
      return plaintext, if p.mark.Fine? then Done else StoreFailed;
    }

    /** DeleteBrokerAccount: the row outlives the broker's account, so an account
        the broker honours always has one; and until the row goes, its hash stays. */
    method DeleteBrokerAccount(remove: Fault, drop: Fault) returns (reply: Reply)
      requires Valid()
      modifies this`row, this`broker, this`returned
      ensures Valid()
      ensures View() == Do(bcrypt, old(View()), DeleteCall(remove, drop))
      ensures broker.Some? ==> row == old(row) && broker == old(broker)
      ensures row.Some? ==> row == old(row)
      ensures reply.Done? ==> row.None? && broker.None?
    {
      DeleteKeepsSound(bcrypt, View(), remove, drop);
      if row.None? {
        returned := [];
        return NotFound;
      }
      if remove.Before? {
        return StepFailed;
      }
      broker := None;
      if remove.After? {
        return StepFailed;
      }
      if drop.Before? {
        return StoreFailed;
      }
      row, returned := None, [];
      return if drop.Fine? then Done else StoreFailed;
    }
  }
}
