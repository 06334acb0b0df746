/** A tenant's log tokens and dashboard login in the registry, the log store and
    the dashboard server: internal/tenant/logtokens.go, dashboards.go, and the
    parts of internal/tenant/service.go that mint, store and return them.

    Calls to the two backends may fail before or after taking effect, and so may
    the registry's own writes and the read between the two steps. */
module Secrets {
  import opened Basics

  datatype Secrets = Secrets(tsig: string, state: string, apiTokenHash: string,
                             logIngest: string, logRead: string, dashboardPassword: string)

  datatype Status = Provisioning | Ready | Deleting

  datatype Row = Row(index: nat, secrets: Secrets, org: int, status: Status)

  datatype LogUsers = LogUsers(index: nat, ingest: string, read: string)

  /** The tenant's login and the token its data sources carry. */
  datatype Login = Login(index: nat, password: string, readToken: string)

  datatype State = State(row: Row, log: Option<LogUsers>, login: Option<Login>)

  /** Which of the two optional backends the site has. */
  datatype Site = Site(hasLog: bool, hasDashboards: bool)

  /** Fresh random values. */
  datatype Mint = Mint(ingest: string, read: string, password: string)

  ghost predicate Usable(m: Mint) { m.ingest != "" && m.read != "" && m.password != "" }

  /** others: every step before the log store. org is what the dashboard server
      answers. reload is the read between the two steps, readBack the one at the
      end; setStatus is the write that records the outcome. */
  datatype Plan = Plan(others: bool, setLog: Fault, putLog: Fault, reload: bool, setLogin: Fault, putLogin: Fault,
                       org: int, setOrg: Fault, setStatus: Fault, readBack: bool)

  predicate NeedsTokens(s: Secrets) { s.logIngest == "" || s.logRead == "" }

  function SetSecrets(st: State, s: Secrets, f: Fault): (State, bool) {
    (if f.Before? then st else st.(row := st.row.(secrets := s)), f.Fine?)
  }

  // --- The two steps, on the record they are handed -----------------------------------------

  /** ensureLogTokens */
  function EnsureLogTokens(site: Site, st: State, rec: Row, m: Mint, p: Plan): (State, bool) {
    if !site.hasLog then (st, true)
    else
      var s := if NeedsTokens(rec.secrets) then rec.secrets.(logIngest := m.ingest, logRead := m.read) else rec.secrets;
      var (st1, ok) := if NeedsTokens(rec.secrets) then SetSecrets(st, s, p.setLog) else (st, true);
      if !ok then (st1, false)
      else
        var told := st1.(log := Some(LogUsers(rec.index, s.logIngest, s.logRead)));
        (if p.putLog.Before? then st1 else told, p.putLog.Fine?)
  }

  /** ensureDashboards */
  function EnsureDashboards(site: Site, st: State, rec: Row, m: Mint, p: Plan): (State, bool) {
    if !site.hasDashboards then (st, true)
    else if rec.secrets.logRead == "" then (st, false)
    else
      var mint := rec.secrets.dashboardPassword == "";
      var s := if mint then rec.secrets.(dashboardPassword := m.password) else rec.secrets;
      var (st1, ok) := if mint then SetSecrets(st, s, p.setLogin) else (st, true);
      if !ok then (st1, false)
      else
        var st2 := if p.putLogin.Before? then st1
                   else st1.(login := Some(Login(rec.index, s.dashboardPassword, s.logRead)));
        if !p.putLogin.Fine? then (st2, false)
        else if p.org == rec.org then (st2, true)
        else (if p.setOrg.Before? then st2 else st2.(row := st2.row.(org := p.org)), p.setOrg.Fine?)
  }

  /** The status write: a failed ensure is recorded, or at least tried; a
      successful one is a success only if it could be. */
  function Recorded(st: State, ok: bool, f: Fault): (State, bool) {
    (if f.Before? then st else st.(row := st.row.(status := if ok then Ready else Provisioning)), ok && f.Fine?)
  }

  /** ensure: the log store step sees the record as it came in, the dashboard
      step one read again, unless that read fails and the old one has to do. */
  function Ensure(site: Site, st: State, rec: Row, m: Mint, p: Plan): (State, bool) {
    if !p.others then Recorded(st, false, p.setStatus)
    else
      var (st1, ok1) := EnsureLogTokens(site, st, rec, m, p);
      if !ok1 then Recorded(st1, false, p.setStatus)
      else
        var (st2, ok2) := EnsureDashboards(site, st1, if p.reload then st1.row else rec, m, p);
        Recorded(st2, ok2, p.setStatus)
  }

  /** The record ensure hands back: read again, unless that fails. A success
      that could not be recorded hands back the record it was given; that is
      a failure too, and no theorem below rests on what it returns. */
  function ReadBack(st: State, rec: Row, p: Plan): Row { if p.readBack then st.row else rec }

  // --- Agreement ----------------------------------------------------------------------------------

  /** The log store holds the registry's pair, the data sources hold that read
      token, and the login has the registry's password. */
  ghost predicate Agrees(site: Site, st: State) {
    && (site.hasLog ==> !NeedsTokens(st.row.secrets) && LogAgrees(st))
    && (site.hasDashboards ==> st.row.secrets.dashboardPassword != "" && LoginAgrees(st))
  }

  ghost predicate LogAgrees(st: State) {
    st.log == Some(LogUsers(st.row.index, st.row.secrets.logIngest, st.row.secrets.logRead))
  }

  ghost predicate LoginAgrees(st: State) {
    st.login == Some(Login(st.row.index, st.row.secrets.dashboardPassword, st.row.secrets.logRead))
  }

  /** The read between the steps worked, or there was nothing new for it to show. */
  predicate SeesTokens(site: Site, rec: Row, p: Plan) {
    p.reload || !site.hasLog || !site.hasDashboards || !NeedsTokens(rec.secrets)
  }

  /** Success means agreement, if the dashboard step saw the tokens. */
  lemma EnsureAgrees(site: Site, st: State, m: Mint, p: Plan)
    requires Usable(m) && SeesTokens(site, st.row, p)
    requires Ensure(site, st, st.row, m, p).1
    ensures var st' := Ensure(site, st, st.row, m, p).0;
      Agrees(site, st') && st'.row.status == Ready && st'.row.index == st.row.index
  {
  }

  /** The same, field by field: which token is where. */
  lemma EnsureSends(site: Site, st: State, m: Mint, p: Plan)
    requires Usable(m) && SeesTokens(site, st.row, p) && Ensure(site, st, st.row, m, p).1
    ensures var st' := Ensure(site, st, st.row, m, p).0;
      && (site.hasLog ==>
            && st'.log.Some? && st'.log.value.index == st.row.index
            && st'.log.value.ingest == st'.row.secrets.logIngest != ""
            && st'.log.value.read == st'.row.secrets.logRead != "")
      && (site.hasDashboards ==>
            && st'.login.Some? && st'.login.value.index == st.row.index
            && st'.login.value.password == st'.row.secrets.dashboardPassword != ""
            && st'.login.value.readToken == st'.row.secrets.logRead
            && st'.row.org == p.org)
      && (!site.hasLog ==> st'.log == st.log) && (!site.hasDashboards ==> st'.login == st.login)
  {
  }

  /** What is minted: a whole pair when either token is missing, a password when
      it is; nothing else of the row's secrets ever changes. */
  lemma EnsureMintsExactly(site: Site, st: State, m: Mint, p: Plan)
    requires SeesTokens(site, st.row, p) && Ensure(site, st, st.row, m, p).1
    ensures var s, s' := st.row.secrets, Ensure(site, st, st.row, m, p).0.row.secrets;
      var mints := site.hasLog && (s.logIngest == "" || s.logRead == "");
      && s'.tsig == s.tsig && s'.state == s.state && s'.apiTokenHash == s.apiTokenHash
      && s'.logIngest == (if mints then m.ingest else s.logIngest)
      && s'.logRead == (if mints then m.read else s.logRead)
      && s'.dashboardPassword ==
           (if site.hasDashboards && s.dashboardPassword == "" then m.password else s.dashboardPassword)
  {
  }

  /** When it fails: a step before, a store or backend call not reported, no read
      token for the dashboards, or the status not recorded. With none of these
      it succeeds. */
  lemma EnsureSucceedsWhen(site: Site, st: State, m: Mint, org: int)
    requires Usable(m)
    ensures Ensure(site, st, st.row, m, Plan(true, Fine, Fine, true, Fine, Fine, org, Fine, Fine, true)).1 <==>
      site.hasDashboards ==> site.hasLog || st.row.secrets.logRead != ""
  {
  }

  /** Failure is recorded as provisioning if it can be. */
  lemma FailureIsRecorded(site: Site, st: State, m: Mint, p: Plan)
    requires !Ensure(site, st, st.row, m, p).1 && p.setStatus.Fine?
    ensures Ensure(site, st, st.row, m, p).0.row.status == Provisioning
  {
  }

  /** And only then: a successful ensure agrees exactly when it did. Half a
      stored pair and a failed read between the steps end in success with the
      dashboards on a token the log store does not know. */
  lemma EnsureAgreesExactlyWhen(site: Site, st: State, m: Mint, p: Plan)
    requires Usable(m) && m.read != st.row.secrets.logRead
    requires Ensure(site, st, st.row, m, p).1
    ensures Agrees(site, Ensure(site, st, st.row, m, p).0) <==> SeesTokens(site, st.row, p)
  {
    if SeesTokens(site, st.row, p) {
      EnsureAgrees(site, st, m, p);
    }
  }

  lemma StaleReadDisagrees(m: Mint)
    requires Usable(m) && m.read != "r"
    ensures var site := Site(true, true);
      var st := State(Row(1, Secrets("t", "s", "h", "", "r", "d"), 0, Ready), None, None);
      var (st', ok) := Ensure(site, st, st.row, m, Plan(true, Fine, Fine, false, Fine, Fine, 0, Fine, Fine, true));
      ok && !Agrees(site, st')
  {
  }

  /** Asking again once all agree mints nothing and moves nothing. */
  lemma SecondEnsureMintsNothing(site: Site, st: State, m: Mint, p: Plan)
    requires Agrees(site, st)
    ensures var st' := Ensure(site, st, st.row, m, p).0;
      st'.row.secrets == st.row.secrets && Agrees(site, st')
  {
  }

  /** Broken off anywhere, an ensure never loses a secret the tenant was given:
      a stored token or password is only ever added, provided the dashboard
      step saw what was stored. */
  lemma EnsureOnlyAdds(site: Site, st: State, m: Mint, p: Plan)
    requires !NeedsTokens(st.row.secrets)
    ensures var s, s' := st.row.secrets, Ensure(site, st, st.row, m, p).0.row.secrets;
      && s'.(dashboardPassword := s.dashboardPassword) == s
      && (s.dashboardPassword != "" ==> s' == s)
  {
  }

  function Repeated(site: Site, st: State, tries: seq<(Mint, Plan)>): State {
    if tries == [] then st
    else
      var before := Repeated(site, st, tries[..|tries| - 1]);
      Ensure(site, before, before.row, tries[|tries| - 1].0, tries[|tries| - 1].1).0
  }

  /** Over any number of reconciles, each broken off anywhere or not, the pair
      the registry holds stays the pair, and a password once set stays set. */
  lemma {:induction false} ReconcilesKeepSecrets(site: Site, st: State, tries: seq<(Mint, Plan)>)
    requires !NeedsTokens(st.row.secrets)
    ensures var s, s' := st.row.secrets, Repeated(site, st, tries).row.secrets;
      && s'.(dashboardPassword := s.dashboardPassword) == s
      && (s.dashboardPassword != "" ==> s' == s)
  {
    if tries != [] {
      ReconcilesKeepSecrets(site, st, tries[..|tries| - 1]);
      EnsureOnlyAdds(site, Repeated(site, st, tries[..|tries| - 1]), tries[|tries| - 1].0, tries[|tries| - 1].1);
    }
  }

  // --- Create, restore, reconcile -------------------------------------------------------------------

  /** What a response hands back of these; empty where it hands back nothing. */
  datatype Issued = Issued(logIngest: string, logRead: string, dashboardPassword: string)

  /** createNew: a fresh pair in the row and in the response, whoever supplied
      the other secrets, and the password of the record read back. */
  function CreateNew(site: Site, index: nat, supplied: Secrets, m: Mint, p: Plan): (State, Issued, bool) {
    var secrets := supplied.(logIngest := m.ingest, logRead := m.read, dashboardPassword := "");
    var st := State(Row(index, secrets, 0, Provisioning), None, None);
    var (st', ok) := Ensure(site, st, st.row, m, p);
    (st', Issued(m.ingest, m.read, ReadBack(st', st.row, p).secrets.dashboardPassword), ok)
  }

  /** A new tenant is handed the pair that works, and the password exactly when
      there is none or the record could be read back at the end. */
  lemma CreateReturnsWorkingSecrets(site: Site, index: nat, supplied: Secrets, m: Mint, p: Plan)
    requires Usable(m) && CreateNew(site, index, supplied, m, p).2
    ensures var (st, issued, _) := CreateNew(site, index, supplied, m, p);
      && Agrees(site, st) && st.row.status == Ready
      && issued.logIngest == st.row.secrets.logIngest && issued.logRead == st.row.secrets.logRead
      && (issued.dashboardPassword == st.row.secrets.dashboardPassword <==> !site.hasDashboards || p.readBack)
  {
  }

  /** The failing case: everything succeeds but the last read, and the response
      has no password though the login has one. */
  lemma UnreadPasswordIsMissing(supplied: Secrets, m: Mint)
    requires Usable(m)
    ensures var (st, issued, ok) :=
        CreateNew(Site(true, true), 1, supplied, m, Plan(true, Fine, Fine, true, Fine, Fine, 0, Fine, Fine, false));
      ok && issued.dashboardPassword == "" && st.login.Some? && st.login.value.password == m.password
  {
  }

  /** Nothing is missing that an ensure would mint. */
  predicate MintsNothing(site: Site, s: Secrets) {
    (site.hasLog ==> !NeedsTokens(s)) && (site.hasDashboards ==> s.dashboardPassword != "")
  }

  function IssuedFrom(s: Secrets): Issued { Issued(s.logIngest, s.logRead, s.dashboardPassword) }

  /** A tenant that is being deleted is refused. */
  function Reconcile(site: Site, st: State, m: Mint, p: Plan): (State, Issued, bool) {
    if st.row.status.Deleting? then (st, Issued("", "", ""), false)
    else
      var (st', ok) := Ensure(site, st, st.row, m, p);
      (st', IssuedFrom(ReadBack(st', st.row, p).secrets), ok)
  }

  /** A tenant that is being deleted is left alone; any other is ensured. */
  lemma ReconcileRefusesExactlyWhen(site: Site, st: State, m: Mint, p: Plan)
    ensures if st.row.status == Deleting then Reconcile(site, st, m, p).0 == st && !Reconcile(site, st, m, p).2
      else Reconcile(site, st, m, p).0 == Ensure(site, st, st.row, m, p).0
           && Reconcile(site, st, m, p).2 == Ensure(site, st, st.row, m, p).1
  {
  }

  /** A reconcile hands back what the registry then holds exactly when its last
      read worked or there was nothing to mint. */
  lemma ReconcileReturnsExactlyWhen(site: Site, st: State, m: Mint, p: Plan)
    requires Usable(m) && m.ingest != st.row.secrets.logIngest && m.read != st.row.secrets.logRead
    requires SeesTokens(site, st.row, p) && Reconcile(site, st, m, p).2
    ensures var (st', issued, _) := Reconcile(site, st, m, p);
      issued == IssuedFrom(st'.row.secrets) <==> p.readBack || MintsNothing(site, st.row.secrets)
  {
  }

  /** And what the registry holds is what works. */
  lemma ReconcileReturnsWorkingSecrets(site: Site, st: State, m: Mint, p: Plan)
    requires Usable(m) && SeesTokens(site, st.row, p) && Reconcile(site, st, m, p).2
    requires p.readBack || MintsNothing(site, st.row.secrets)
    ensures var (st', issued, _) := Reconcile(site, st, m, p);
      && Agrees(site, st')
      && (site.hasLog ==> st'.log == Some(LogUsers(st.row.index, issued.logIngest, issued.logRead)))
      && (site.hasDashboards ==> st'.login.Some? && st'.login.value.password == issued.dashboardPassword)
  {
    EnsureAgrees(site, st, m, p);
  }

  // --- Create over a row that is there ------------------------------------------------------------------

  /** A restore brings all three of its secrets; a resume brings none and is
      issued a new API token. */
  datatype Restore = Supplied(tsig: string, state: string, hash: string) | Resumed(hash: string)

  /** A ready tenant is touched only by one that brings its secrets, a deleting one by none. */
  predicate MayRestore(row: Row, q: Restore) {
    row.status.Provisioning? || (row.status.Ready? && q.Supplied?)
  }

  /** What the row is set to before the steps: what was supplied and nothing
      else, or what it held with the new token's hash. */
  function Carried(s: Secrets, q: Restore): Secrets {
    match q
    case Supplied(tsig, state, hash) => Secrets(tsig, state, hash, "", "", "")
    case Resumed(hash) => s.(apiTokenHash := hash)
  }

  /** restoreExisting. Neither branch puts the pair in the response. */
  function RestoreExisting(site: Site, st: State, q: Restore, m: Mint, stored: Fault, p: Plan): (State, Issued, bool) {
    if !MayRestore(st.row, q) then (st, Issued("", "", ""), false)
    else
      var (st1, ok) := SetSecrets(st, Carried(st.row.secrets, q), stored);
      if !ok then (st1, Issued("", "", ""), false)
      else
        var (st', done) := Ensure(site, st1, st1.row, m, p);
        (st', Issued("", "", ReadBack(st', st1.row, p).secrets.dashboardPassword), done)
  }

  function Pair(s: Secrets): (string, string) { (s.logIngest, s.logRead) }

  /** The mint repeats nothing the row holds. */
  ghost predicate NewValues(m: Mint, s: Secrets) { Usable(m) && m.ingest != s.logIngest && m.read != s.logRead }

  /** A restore or resume that succeeds agrees everywhere exactly when the
      dashboard step saw the tokens; with the secrets supplied it always did. */
  lemma RestoreAgreesExactlyWhen(site: Site, st: State, q: Restore, m: Mint, stored: Fault, p: Plan)
    requires NewValues(m, st.row.secrets) && RestoreExisting(site, st, q, m, stored, p).2
    ensures var st' := RestoreExisting(site, st, q, m, stored, p).0;
      && (Agrees(site, st') <==> SeesTokens(site, st.row.(secrets := Carried(st.row.secrets, q)), p))
      && (q.Supplied? ==> Agrees(site, st'))
  {
  }

  /** Which pair the row then holds: a new one exactly when the site has a log
      store and secrets were supplied or the stored pair was incomplete;
      otherwise the stored one, which for supplied secrets is none. */
  lemma RestoreRotatesExactlyWhen(site: Site, st: State, q: Restore, m: Mint, stored: Fault, p: Plan)
    requires NewValues(m, st.row.secrets) && RestoreExisting(site, st, q, m, stored, p).2
    requires SeesTokens(site, st.row.(secrets := Carried(st.row.secrets, q)), p)
    ensures var s' := RestoreExisting(site, st, q, m, stored, p).0.row.secrets;
      var mints := site.hasLog && (q.Supplied? || NeedsTokens(st.row.secrets));
      && (Pair(s') == (m.ingest, m.read) <==> mints)
      && (!mints ==> Pair(s') == if q.Supplied? then ("", "") else Pair(st.row.secrets))
  {
  }

  /** What the response then says: the registry's pair exactly when the site has
      no log store and none was carried, and the registry's password exactly
      when the last read worked or none was minted. */
  lemma RestoreReturnsExactlyWhen(site: Site, st: State, q: Restore, m: Mint, stored: Fault, p: Plan)
    requires NewValues(m, st.row.secrets) && RestoreExisting(site, st, q, m, stored, p).2
    ensures var (st', issued, _) := RestoreExisting(site, st, q, m, stored, p);
      var s := Carried(st.row.secrets, q);
      && ((issued.logIngest, issued.logRead) == Pair(st'.row.secrets) <==> !site.hasLog && Pair(s) == ("", ""))
      && (issued.dashboardPassword == st'.row.secrets.dashboardPassword <==>
            !site.hasDashboards || p.readBack || s.dashboardPassword != "")
  {
  }

  /** Whatever becomes of it, an ensure leaves the index and the tenant's own secrets alone. */
  lemma EnsureKeepsOwn(site: Site, st: State, m: Mint, p: Plan)
    ensures var row := Ensure(site, st, st.row, m, p).0.row;
      && row.index == st.row.index && row.secrets.tsig == st.row.secrets.tsig
      && row.secrets.state == st.row.secrets.state && row.secrets.apiTokenHash == st.row.secrets.apiTokenHash
  {
  }

  /** What a restore or resume does to the tenant's own secrets: supplied ones go
      where they belong; a resume keeps them and takes the new token's hash. A
      ready tenant without secrets, and a deleting one, are refused untouched. */
  lemma RestorePutsExactly(site: Site, st: State, q: Restore, m: Mint, p: Plan)
    ensures var (st', issued, ok) := RestoreExisting(site, st, q, m, Fine, p);
      if st.row.status == Deleting || (st.row.status == Ready && q.Resumed?) then st' == st && !ok
      else
        && st'.row.index == st.row.index
        && st'.row.secrets.tsig == (if q.Supplied? then q.tsig else st.row.secrets.tsig)
        && st'.row.secrets.state == (if q.Supplied? then q.state else st.row.secrets.state)
        && st'.row.secrets.apiTokenHash == q.hash
  {
    if MayRestore(st.row, q) {
      EnsureKeepsOwn(site, SetSecrets(st, Carried(st.row.secrets, q), Fine).0, m, p);
    }
  }

  /** And a create: what was supplied, the new pair, and the index it was given. */
  lemma CreatePutsExactly(site: Site, index: nat, supplied: Secrets, m: Mint, p: Plan)
    requires Usable(m)
    ensures var (st, issued, ok) := CreateNew(site, index, supplied, m, p);
      && st.row.index == index && st.row.secrets.tsig == supplied.tsig && st.row.secrets.state == supplied.state
      && st.row.secrets.apiTokenHash == supplied.apiTokenHash
      && st.row.secrets.logIngest == m.ingest == issued.logIngest && st.row.secrets.logRead == m.read == issued.logRead
  {
  }

  /** The case itself: a restore over a registry that survived replaces a pair
      that worked, and answers without the new one. */
  lemma RestoreRotates(m: Mint)
    requires Usable(m) && m.ingest != "i" && m.read != "r"
    ensures var st := State(Row(1, Secrets("t", "s", "h", "i", "r", "d"), 0, Ready),
                            Some(LogUsers(1, "i", "r")), Some(Login(1, "d", "r")));
      var (st', issued, ok) := RestoreExisting(Site(true, true), st, Supplied("t", "s", "h"), m, Fine,
                                               Plan(true, Fine, Fine, true, Fine, Fine, 0, Fine, Fine, true));
      && Agrees(Site(true, true), st) && ok
      && st'.log == Some(LogUsers(1, m.ingest, m.read)) && issued.logIngest == "" && issued.logRead == ""
  {
  }

  // --- The calls as they run ----------------------------------------------------------------------------

  class Service {
    const site: Site
    var row: Row
    var log: Option<LogUsers>
    var login: Option<Login>

    constructor (site: Site, row: Row)
      ensures this.site == site && View() == State(row, None, None)
    {
      this.site, this.row, log, login := site, row, None, None;
    }

    ghost function View(): State
      reads this
    {
      State(row, log, login)
    }

    method WriteSecrets(s: Secrets, f: Fault) returns (ok: bool)
      modifies this`row
      ensures (View(), ok) == SetSecrets(old(View()), s, f)
    {
      if !f.Before? {
        row := row.(secrets := s);
      }
      ok := f.Fine?;
    }

    /** ensureLogTokens. The pair is stored before it is sent, so wherever this
        breaks off the log store is as it was or has the registry's pair. */
    method LogStep(rec: Row, m: Mint, p: Plan) returns (ok: bool)
      modifies this`row, this`log
      ensures (View(), ok) == EnsureLogTokens(site, old(View()), rec, m, p)
      ensures rec == old(row) ==> log == old(log) || LogAgrees(View())
      ensures rec == old(row) && ok && site.hasLog && Usable(m) ==> LogAgrees(View()) && !NeedsTokens(row.secrets)
      ensures rec == old(row) && !NeedsTokens(rec.secrets) ==> row == old(row)
    {
      if !site.hasLog {
        return true;
      }
      var s := rec.secrets;
      if s.logIngest == "" || s.logRead == "" {
        s := s.(logIngest := m.ingest, logRead := m.read);
        ok := WriteSecrets(s, p.setLog);
        if !ok {
          return;
        }
      }
      if !p.putLog.Before? {
        log := Some(LogUsers(rec.index, s.logIngest, s.logRead));
      }
      return p.putLog.Fine?;
    }

    /** ensureDashboards, which keeps the same order. */
    method DashboardStep(rec: Row, m: Mint, p: Plan) returns (ok: bool)
      modifies this`row, this`login
      ensures (View(), ok) == EnsureDashboards(site, old(View()), rec, m, p)
      ensures rec == old(row) ==> login == old(login) || LoginAgrees(View())
      ensures rec == old(row) && ok && site.hasDashboards && Usable(m) ==>
        LoginAgrees(View()) && row.secrets.dashboardPassword != ""
      ensures rec == old(row) ==> Pair(row.secrets) == Pair(rec.secrets)
      ensures rec == old(row) && rec.secrets.dashboardPassword != "" ==> row.secrets == rec.secrets
    {
      if !site.hasDashboards {
        return true;
      }
      if rec.secrets.logRead == "" {
        return false;
      }
      var s := rec.secrets;
      if s.dashboardPassword == "" {
        s := s.(dashboardPassword := m.password);
        ok := WriteSecrets(s, p.setLogin);
        if !ok {
          return;
        }
      }
      if !p.putLogin.Before? {
        login := Some(Login(rec.index, s.dashboardPassword, s.logRead));
      }
      if !p.putLogin.Fine? {
        return false;
      }
      if p.org != rec.org {
        if !p.setOrg.Before? {
          row := row.(org := p.org);
        }
        return p.setOrg.Fine?;
      }
      return true;
    }

    /** ensure */
    method EnsureSteps(rec: Row, m: Mint, p: Plan) returns (ok: bool, back: Row)
      modifies this`row, this`log, this`login
      ensures (View(), ok) == Ensure(site, old(View()), rec, m, p)
      ensures ok ==> back == ReadBack(View(), rec, p)
      ensures rec == old(row) && Usable(m) && SeesTokens(site, rec, p) && ok ==>
        Agrees(site, View()) && row.status == Ready
      ensures rec == old(row) && !NeedsTokens(rec.secrets) ==> Pair(row.secrets) == Pair(rec.secrets)
    {
      ok := p.others;
      if ok {
        ok := LogStep(rec, m, p);
      }
      if ok {
        var read := if p.reload then row else rec;
        ok := DashboardStep(read, m, p);
      }
      if !p.setStatus.Before? {
        row := row.(status := if ok then Ready else Provisioning);
      }
      if ok && !p.setStatus.Fine? {
        return false, rec;
      }
      back := if p.readBack then row else rec;
    }
  }
}
