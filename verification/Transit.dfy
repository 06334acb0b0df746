/** internal/openbao/openbao.go: sealing and opening stored secrets while one
    Transit key replaces another. The cipher is whatever Transit's is; all that
    is used of it is that a key opens what it sealed and that no ciphertext
    opens under two keys. */
module Transit {
  import opened Basics
  import opened Text

  const CIPHERTEXT_PREFIX := "vault:v"

  /** enc takes a key, a plaintext and a nonce; dec a key and a ciphertext. */
  datatype Cipher = Cipher(enc: (string, string, nat) -> string, dec: (string, string) -> Option<string>)

  ghost predicate Lawful(x: Cipher) {
    && (forall k, p, n :: HasPrefix(x.enc(k, p, n), CIPHERTEXT_PREFIX))
    && (forall k, p, n :: x.dec(k, x.enc(k, p, n)) == Some(p))
    && (forall k, k', s :: x.dec(k, s).Some? && x.dec(k', s).Some? ==> k == k')
  }

  datatype Client = Client(cipher: Cipher, current: string, previous: Option<string>)

  /** How one call is answered: on its merits, not at all, or with a refusal
      that says nothing about the ciphertext. */
  datatype Answer = Serves | Unavailable | Refuses

  /** Denied is every error but OpenBao being down. */
  datatype Result<+T> = Got(value: T) | Down | Denied

  predicate IsCiphertext(stored: string) { HasPrefix(stored, CIPHERTEXT_PREFIX) }

  function Decrypt(c: Client, key: string, stored: string, a: Answer): Result<string> {
    match a
    case Unavailable => Down
    case Refuses => Denied
    case Serves => match c.cipher.dec(key, stored) case Some(p) => Got(p) case None => Denied
  }

  function Seal(c: Client, plain: string, nonce: nat, a: Answer): Result<string> {
    match a
    case Unavailable => Down
    case Refuses => Denied
    case Serves => Got(c.cipher.enc(c.current, plain, nonce))
  }

  /** open: the current key, then the previous one for what it refuses. When
      the second attempt fails the first one's error is returned, even if the
      second only found OpenBao down. */
  function Open(c: Client, stored: string, a: Answer, b: Answer): Result<string> {
    if !IsCiphertext(stored) then Got(stored)
    else
      var r := Decrypt(c, c.current, stored, a);
      if !r.Denied? || c.previous.None? then r
      else
        var q := Decrypt(c, c.previous.value, stored, b);
        if q.Got? then q else r
  }

  datatype Answers = Answers(probe: Answer, current: Answer, previous: Answer, seal: Answer)

  /** Reseal: the value under the current key, and whether that changed it. */
  function Reseal(c: Client, stored: string, nonce: nat, a: Answers): Result<(string, bool)> {
    if stored == "" then Got((stored, false))
    else
      var probe := if IsCiphertext(stored) then Decrypt(c, c.current, stored, a.probe) else Denied;
      if probe.Got? then Got((stored, false))
      else if probe.Down? then Down
      else
        match Open(c, stored, a.current, a.previous)
        case Down => Down
        case Denied => Denied
        case Got(plain) =>
          match Seal(c, plain, nonce, a.seal)
          case Down => Down
          case Denied => Denied
          case Got(sealed) => Got((sealed, true))
  }

  /** What a stored value says when OpenBao answers. */
  function View(c: Client, stored: string): Option<string> {
    if !IsCiphertext(stored) then Some(stored)
    else
      var p := c.cipher.dec(c.current, stored);
      if p.Some? || c.previous.None? then p else c.cipher.dec(c.previous.value, stored)
  }

  /** It opens with the current key alone. */
  predicate SealedCurrent(c: Client, stored: string) {
    IsCiphertext(stored) && c.cipher.dec(c.current, stored).Some?
  }

  /** What open finds when it is answered: plain text as it is, a ciphertext under
      the current key, else under the previous one if there is one, else nothing. */
  lemma OpenServed(c: Client, stored: string)
    ensures Open(c, stored, Serves, Serves) ==
      if |stored| < 7 || stored[..7] != "vault:v" then Got(stored)
      else if c.cipher.dec(c.current, stored).Some? then Got(c.cipher.dec(c.current, stored).value)
      else if c.previous.Some? && c.cipher.dec(c.previous.value, stored).Some?
      then Got(c.cipher.dec(c.previous.value, stored).value)
      else Denied
  {
  }

  /** And what a reseal then does: nothing to an empty value or one under the
      current key, the same words under the current key to any other that opens. */
  lemma ResealServed(c: Client, stored: string, nonce: nat)
    requires Lawful(c.cipher)
    ensures var r := Reseal(c, stored, nonce, Answers(Serves, Serves, Serves, Serves));
      if stored == "" || (IsCiphertext(stored) && c.cipher.dec(c.current, stored).Some?) then r == Got((stored, false))
      else if Open(c, stored, Serves, Serves).Got?
      then r == Got((c.cipher.enc(c.current, Open(c, stored, Serves, Serves).value, nonce), true))
      else r == Denied
  {
  }

  lemma SealedValue(c: Client, plain: string, nonce: nat)
    requires Lawful(c.cipher)
    ensures SealedCurrent(c, c.cipher.enc(c.current, plain, nonce))
    ensures View(c, c.cipher.enc(c.current, plain, nonce)) == Some(plain)
  {
  }

  /** An opened value is what the stored one says, whichever key it took and
      whatever else went wrong. */
  lemma OpenIsView(c: Client, stored: string, a: Answer, b: Answer)
    requires Lawful(c.cipher) && Open(c, stored, a, b).Got?
    ensures View(c, stored) == Some(Open(c, stored, a, b).value)
  {
  }

  /** Resealing never changes what a value says. It leaves alone what the
      current key opens, if it was told so, and what neither key opens. */
  lemma ResealIsFaithful(c: Client, stored: string, nonce: nat, a: Answers)
    requires Lawful(c.cipher) && Reseal(c, stored, nonce, a).Got?
    ensures var (next, changed) := Reseal(c, stored, nonce, a).value;
      && View(c, next) == View(c, stored)
      && (changed ==> SealedCurrent(c, next) && View(c, stored).Some?)
      && (changed && !a.probe.Refuses? ==> !SealedCurrent(c, stored))
      && (!changed ==> next == stored && (stored == "" || SealedCurrent(c, stored)))
  {
    var (next, changed) := Reseal(c, stored, nonce, a).value;
    if changed {
      OpenIsView(c, stored, a.current, a.previous);
      SealedValue(c, Open(c, stored, a.current, a.previous).value, nonce);
    }
  }

  /** The answers that keep back a value a key opens: the current key would open
      it but is refused for another reason and the second attempt does not
      help, or the previous key would but that attempt does not get an answer. */
  predicate KeepsBack(c: Client, stored: string, a: Answer, b: Answer) {
    IsCiphertext(stored) &&
    (|| (a.Refuses? && c.cipher.dec(c.current, stored).Some?
         && (c.previous.None? || c.previous.value != c.current || !b.Serves?))
     || (!a.Unavailable? && c.cipher.dec(c.current, stored).None?
         && c.previous.Some? && c.cipher.dec(c.previous.value, stored).Some? && !b.Serves?))
  }

  /** When open refuses a value that one of the keys opens: exactly by such answers. */
  lemma OpenRefusesOpenableExactlyWhen(c: Client, stored: string, a: Answer, b: Answer)
    requires Lawful(c.cipher)
    ensures (Open(c, stored, a, b).Denied? && View(c, stored).Some?) <==> KeepsBack(c, stored, a, b)
  {
  }

  /** With OpenBao in one state throughout an open, a refusal means what it
      says: it refuses everything, or it answers and neither key opens the value. */
  lemma SteadyOpenRefusesExactlyWhen(c: Client, stored: string, a: Answer)
    requires Lawful(c.cipher)
    ensures Open(c, stored, a, a).Denied? <==>
      IsCiphertext(stored) && (a.Refuses? || (a.Serves? && View(c, stored).None?))
  {
  }

  /** OpenBao in one state from the first call to the last, and not refusing for
      reasons of its own. */
  predicate Steady(a: Answers) {
    a.probe == a.current == a.previous == a.seal && !a.probe.Refuses?
  }

  /** Then a reseal refuses a value exactly when OpenBao answers and neither key opens it. */
  lemma SteadyResealRefusesExactlyWhen(c: Client, stored: string, nonce: nat, a: Answers)
    requires Lawful(c.cipher) && Steady(a)
    ensures Reseal(c, stored, nonce, a).Denied? <==> a.probe.Serves? && View(c, stored).None?
  {
  }

  /** And whatever the answers, a value neither key opens is never resealed. */
  lemma LostIsNeverResealed(c: Client, stored: string, nonce: nat, a: Answers)
    requires Lawful(c.cipher) && View(c, stored).None?
    ensures !Reseal(c, stored, nonce, a).Got?
  {
  }

  /** The failing case: OpenBao going down between the two attempts reads as a refusal. */
  lemma OutageReadsAsRefusal(c: Client, plain: string, nonce: nat)
    requires Lawful(c.cipher) && c.previous.Some? && c.previous.value != c.current
    ensures var stored := c.cipher.enc(c.previous.value, plain, nonce);
      && View(c, stored) == Some(plain)
      && Open(c, stored, Serves, Unavailable).Denied?
  {
    var stored := c.cipher.enc(c.previous.value, plain, nonce);
    assert c.cipher.dec(c.previous.value, stored) == Some(plain);
    assert c.cipher.dec(c.current, stored).None?;
  }

  /** When a value already under the current key is sealed again: exactly when
      the probe is refused for another reason and the later calls are answered. */
  lemma RewritesCurrentExactlyWhen(c: Client, stored: string, nonce: nat, a: Answers)
    requires Lawful(c.cipher) && SealedCurrent(c, stored)
    ensures (Reseal(c, stored, nonce, a).Got? && Reseal(c, stored, nonce, a).value.1) <==>
      (a.probe.Refuses? && a.seal.Serves? &&
        (a.current.Serves? || (a.current.Refuses? && c.previous == Some(c.current) && a.previous.Serves?)))
  {
    assert c.cipher.dec(c.current, stored).Some? && stored != "";
  }
}
