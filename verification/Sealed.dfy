/** internal/store/store.go's seal and open, between Transit's ciphertexts and the
    secrets the service works with: what a read makes of a value it is refused,
    and what the next ensure does about it. */
module Sealed {
  import opened Basics
  import T = Transit
  import S = Secrets
  import R = Reseal

  /** How the two attempts at one value are answered. */
  type Ask = (T.Answer, T.Answer)

  datatype Asks = Asks(tsig: Ask, state: Ask, ingest: Ask, read: Ask, password: Ask)

  /** openOne: OpenBao being down is an error; any other refusal reads as an empty secret. */
  function OpenOne(c: T.Client, stored: string, ask: Ask): Option<string> {
    match T.Open(c, stored, ask.0, ask.1)
    case Down => None
    case Denied => Some("")
    case Got(plain) => Some(plain)
  }

  predicate Refused(c: T.Client, stored: string, ask: Ask) { T.Open(c, stored, ask.0, ask.1).Denied? }

  predicate Unreachable(c: T.Client, stored: string, ask: Ask) { T.Open(c, stored, ask.0, ask.1).Down? }

  /** What a stored value says; one neither key opens says nothing any more. */
  function Plain(c: T.Client, stored: string): string {
    match T.View(c, stored) case Some(p) => p case None => ""
  }

  function PlainRow(c: T.Client, s: S.Secrets): S.Secrets {
    S.Secrets(Plain(c, s.tsig), Plain(c, s.state), s.apiTokenHash,
              Plain(c, s.logIngest), Plain(c, s.logRead), Plain(c, s.dashboardPassword))
  }

  /** What a read finds, when it finds anything: a refused value empty, any other as it is. */
  function ReadRow(c: T.Client, s: S.Secrets, asks: Asks): S.Secrets {
    S.Secrets(ReadOne(c, s.tsig, asks.tsig), ReadOne(c, s.state, asks.state), s.apiTokenHash,
              ReadOne(c, s.logIngest, asks.ingest), ReadOne(c, s.logRead, asks.read),
              ReadOne(c, s.dashboardPassword, asks.password))
  }

  function ReadOne(c: T.Client, stored: string, ask: Ask): string {
    if Refused(c, stored, ask) then "" else Plain(c, stored)
  }

  predicate AnyUnreachable(c: T.Client, s: S.Secrets, asks: Asks) {
    || Unreachable(c, s.tsig, asks.tsig) || Unreachable(c, s.state, asks.state)
    || Unreachable(c, s.logIngest, asks.ingest) || Unreachable(c, s.logRead, asks.read)
    || Unreachable(c, s.dashboardPassword, asks.password)
  }

  lemma OpenOneExactly(c: T.Client, stored: string, ask: Ask)
    requires T.Lawful(c.cipher)
    ensures OpenOne(c, stored, ask) == if Unreachable(c, stored, ask) then None else Some(ReadOne(c, stored, ask))
  {
    if T.Open(c, stored, ask.0, ask.1).Got? {
      T.OpenIsView(c, stored, ask.0, ask.1);
    }
  }

  /** open: field by field. It fails exactly when OpenBao is down for one of
      them, and otherwise finds every value that was not refused. */
  method OpenAll(c: T.Client, s: S.Secrets, asks: Asks) returns (r: Option<S.Secrets>, unreadable: bool)
    requires T.Lawful(c.cipher)
    ensures r.None? <==> AnyUnreachable(c, s, asks)
    ensures r.Some? ==> r.value == ReadRow(c, s, asks)
    ensures r.Some? ==> (unreadable <==> Refused(c, s.tsig, asks.tsig) || Refused(c, s.state, asks.state))
  {
    unreadable := false;
    OpenOneExactly(c, s.tsig, asks.tsig);
    OpenOneExactly(c, s.state, asks.state);
    OpenOneExactly(c, s.logIngest, asks.ingest);
    OpenOneExactly(c, s.logRead, asks.read);
    OpenOneExactly(c, s.dashboardPassword, asks.password);
    var tsig := OpenOne(c, s.tsig, asks.tsig);
    if tsig.None? {
      return None, false;
    }
    var state := OpenOne(c, s.state, asks.state);
    if state.None? {
      return None, false;
    }
    var ingest := OpenOne(c, s.logIngest, asks.ingest);
    if ingest.None? {
      return None, false;
    }
    var read := OpenOne(c, s.logRead, asks.read);
    if read.None? {
      return None, false;
    }
    var password := OpenOne(c, s.dashboardPassword, asks.password);
    if password.None? {
      return None, false;
    }
    unreadable := Refused(c, s.tsig, asks.tsig) || Refused(c, s.state, asks.state);
    r := Some(S.Secrets(tsig.value, state.value, s.apiTokenHash, ingest.value, read.value, password.value));
  }

  /** seal: every field under the current key. */
  function SealAll(c: T.Client, s: S.Secrets, nonce: nat -> nat): S.Secrets {
    S.Secrets(c.cipher.enc(c.current, s.tsig, nonce(0)), c.cipher.enc(c.current, s.state, nonce(1)), s.apiTokenHash,
              c.cipher.enc(c.current, s.logIngest, nonce(2)), c.cipher.enc(c.current, s.logRead, nonce(3)),
              c.cipher.enc(c.current, s.dashboardPassword, nonce(4)))
  }

  /** What is stored says what was given, so the service's SetSecrets is the registry's. */
  lemma SealedSaysTheSame(c: T.Client, s: S.Secrets, nonce: nat -> nat)
    requires T.Lawful(c.cipher)
    ensures PlainRow(c, SealAll(c, s, nonce)) == s
  {
    T.SealedValue(c, s.tsig, nonce(0));
    T.SealedValue(c, s.state, nonce(1));
    T.SealedValue(c, s.logIngest, nonce(2));
    T.SealedValue(c, s.logRead, nonce(3));
    T.SealedValue(c, s.dashboardPassword, nonce(4));
  }

  /** The cells a tenant's sealed fields are stored in. */
  ghost predicate RowStored(cells: R.Cells, name: string, s: S.Secrets) {
    && HasCell(cells, name, "tsig_secret", s.tsig) && HasCell(cells, name, "state_secret", s.state)
    && HasCell(cells, name, "log_ingest_token", s.logIngest) && HasCell(cells, name, "log_read_token", s.logRead)
    && HasCell(cells, name, "dashboard_password", s.dashboardPassword)
  }

  ghost predicate HasCell(cells: R.Cells, name: string, column: string, value: string) {
    var cell := R.Cell("tenants", column, [name]);
    cell in cells && cells[cell] == value
  }

  /** What a clean reseal is for: every field of every tenant then says without
      the previous key what it says with it. */
  lemma ResealedNeedsNoPreviousKey(c: T.Client, cells: R.Cells, name: string, s: S.Secrets)
    requires T.Lawful(c.cipher) && RowStored(cells, name, s)
    requires forall cell :: cell in cells && R.IsSecret(cell) ==> cells[cell] == "" || T.SealedCurrent(c, cells[cell])
    ensures PlainRow(c.(previous := None), s) == PlainRow(c, s)
  {
    assert R.IsSecret(R.Cell("tenants", "tsig_secret", [name]))
      && R.IsSecret(R.Cell("tenants", "state_secret", [name]));
    assert R.IsSecret(R.Cell("tenants", "log_ingest_token", [name]));
    assert R.IsSecret(R.Cell("tenants", "log_read_token", [name]));
    assert R.IsSecret(R.Cell("tenants", "dashboard_password", [name]));
  }

  // --- What the next ensure does with such a read ------------------------------------------------

  /** Each attempt at one value finds OpenBao in one state, which is not a
      refusal of its own. */
  predicate Steady(asks: Asks) {
    && SteadyAsk(asks.tsig) && SteadyAsk(asks.state) && SteadyAsk(asks.ingest) && SteadyAsk(asks.read)
    && SteadyAsk(asks.password)
  }

  predicate SteadyAsk(ask: Ask) { ask.0 == ask.1 && !ask.0.Refuses? }

  lemma SteadyReadsOne(c: T.Client, stored: string, ask: Ask)
    requires T.Lawful(c.cipher) && SteadyAsk(ask)
    ensures ReadOne(c, stored, ask) == Plain(c, stored)
  {
    T.SteadyOpenRefusesExactlyWhen(c, stored, ask.0);
  }

  /** Then a read that succeeds finds exactly what is stored, so the comment's
      promise holds: nothing that works is minted over. */
  lemma SteadyReadIsExact(c: T.Client, s: S.Secrets, asks: Asks)
    requires T.Lawful(c.cipher) && Steady(asks)
    ensures ReadRow(c, s, asks) == PlainRow(c, s)
  {
    SteadyReadsOne(c, s.tsig, asks.tsig);
    SteadyReadsOne(c, s.state, asks.state);
    SteadyReadsOne(c, s.logIngest, asks.ingest);
    SteadyReadsOne(c, s.logRead, asks.read);
    SteadyReadsOne(c, s.dashboardPassword, asks.password);
  }

  /** A registry row as it stands, and as a read of it came out. */
  ghost predicate ReadAs(c: T.Client, stored: S.Secrets, asks: Asks, row: S.Row, rec: S.Row) {
    && T.Lawful(c.cipher) && !AnyUnreachable(c, stored, asks)
    && row.secrets == PlainRow(c, stored) && rec == row.(secrets := ReadRow(c, stored, asks))
  }

  /** The two attempts at a value are answered so that it is kept back though a key opens it. */
  predicate KeptBack(c: T.Client, stored: string, ask: Ask) { T.KeepsBack(c, stored, ask.0, ask.1) }

  lemma RefusedIsKeptBack(c: T.Client, stored: string, ask: Ask)
    requires T.Lawful(c.cipher) && Plain(c, stored) != ""
    ensures Refused(c, stored, ask) <==> KeptBack(c, stored, ask)
  {
    T.OpenRefusesOpenableExactlyWhen(c, stored, ask.0, ask.1);
  }

  /** When the log step replaces a pair that works: exactly when the site has a
      log store and the answers kept back one of the two. It then writes back
      every other secret the read was refused as empty, too. */
  lemma PairReplacedExactlyWhen(site: S.Site, c: T.Client, stored: S.Secrets, asks: Asks, st: S.State, rec: S.Row,
                                m: S.Mint, p: S.Plan)
    requires ReadAs(c, stored, asks, st.row, rec) && !S.NeedsTokens(st.row.secrets)
    requires S.NewValues(m, st.row.secrets) && !p.setLog.Before?
    ensures var s' := S.EnsureLogTokens(site, st, rec, m, p).0.row.secrets;
      var mints := site.hasLog
        && (KeptBack(c, stored.logIngest, asks.ingest) || KeptBack(c, stored.logRead, asks.read));
      && (S.Pair(s') != S.Pair(st.row.secrets) <==> mints)
      && (mints ==>
            && s'.tsig == (if Refused(c, stored.tsig, asks.tsig) then "" else st.row.secrets.tsig)
            && s'.state == (if Refused(c, stored.state, asks.state) then "" else st.row.secrets.state)
            && s'.dashboardPassword ==
                 (if Refused(c, stored.dashboardPassword, asks.password) then "" else st.row.secrets.dashboardPassword))
      && (!mints ==> s' == st.row.secrets)
  {
    RefusedIsKeptBack(c, stored.logIngest, asks.ingest);
    RefusedIsKeptBack(c, stored.logRead, asks.read);
  }

  /** And when the dashboard step replaces a password that works. */
  lemma PasswordReplacedExactlyWhen(site: S.Site, c: T.Client, stored: S.Secrets, asks: Asks, st: S.State, rec: S.Row,
                                    m: S.Mint, p: S.Plan)
    requires ReadAs(c, stored, asks, st.row, rec) && st.row.secrets.dashboardPassword != ""
    requires S.Usable(m) && m.password != st.row.secrets.dashboardPassword && !p.setLogin.Before?
    ensures var s' := S.EnsureDashboards(site, st, rec, m, p).0.row.secrets;
      s'.dashboardPassword != st.row.secrets.dashboardPassword <==>
      site.hasDashboards && rec.secrets.logRead != "" && KeptBack(c, stored.dashboardPassword, asks.password)
  {
    RefusedIsKeptBack(c, stored.dashboardPassword, asks.password);
  }

  /** The case: OpenBao goes down between the two attempts at one token, and a
      pair that works is replaced. */
  lemma OutageMintsOver(c: T.Client, s: S.Secrets, nonce: nat -> nat, st: S.State, m: S.Mint, p: S.Plan)
    requires T.Lawful(c.cipher) && c.previous.Some? && c.previous.value != c.current
    requires !S.NeedsTokens(s) && S.NewValues(m, s) && !p.setLog.Before?
    requires st.row.secrets == s
    ensures var earlier := T.Client(c.cipher, c.previous.value, None);
      var stored := SealAll(earlier, s, nonce);
      var fine: Ask := (T.Serves, T.Serves);
      var asks := Asks(fine, fine, fine, (T.Serves, T.Unavailable), fine);
      var rec := st.row.(secrets := ReadRow(c, stored, asks));
      && PlainRow(c, stored) == s && !AnyUnreachable(c, stored, asks)
      && S.Pair(S.EnsureLogTokens(S.Site(true, true), st, rec, m, p).0.row.secrets) == (m.ingest, m.read)
  {
    var earlier := T.Client(c.cipher, c.previous.value, None);
    var stored := SealAll(earlier, s, nonce);
    PreviousOpens(c, s.tsig, nonce(0));
    PreviousOpens(c, s.state, nonce(1));
    PreviousOpens(c, s.logIngest, nonce(2));
    PreviousOpens(c, s.logRead, nonce(3));
    PreviousOpens(c, s.dashboardPassword, nonce(4));
    T.OutageReadsAsRefusal(c, s.logRead, nonce(3));
  }

  lemma PreviousOpens(c: T.Client, plain: string, nonce: nat)
    requires T.Lawful(c.cipher) && c.previous.Some? && c.previous.value != c.current
    ensures var stored := c.cipher.enc(c.previous.value, plain, nonce);
      T.View(c, stored) == Some(plain) && T.Open(c, stored, T.Serves, T.Serves) == T.Got(plain)
  {
    var stored := c.cipher.enc(c.previous.value, plain, nonce);
    assert c.cipher.dec(c.previous.value, stored) == Some(plain);
    assert c.cipher.dec(c.current, stored).None?;
  }
}
