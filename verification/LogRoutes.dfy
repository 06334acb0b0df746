/** cmd/deevnet-log-user/main.go: the vmauth configuration rendered from the
    base file and the tenants' files, and where it sends a request. vmauth
    finds the user by bearer token and takes that user's first entry whose path
    and header match; the entry decides the partition. */
module LogRoutes {
  import opened Basics
  import opened Text

  datatype TenantFile = TenantFile(tenant: string, index: nat, ingestToken: string, readToken: string)

  datatype Base = Base(backend: string, operatorToken: string, bridgeToken: string)

  datatype Paths = Select | Insert

  /** selector is a whole "Name: value" header line, empty for the catch-all. */
  datatype Route = Route(paths: Paths, selector: string, account: nat, project: nat)

  datatype User = User(name: string, token: string, routes: seq<Route>)

  const PARTITION_HEADER := "X-Deevnet-Partition: "
  const TENANT_HEADER := "X-Deevnet-Tenant: "

  function PartitionValue(account: nat, project: nat): string { Decimal(account) + "-" + Decimal(project) }

  /** partition */
  function Partition(account: nat, project: nat): string { PARTITION_HEADER + PartitionValue(account, project) }

  /** tenantSelector */
  function TenantSelector(name: string): string { TENANT_HEADER + name }

  // --- What vmauth does with it -----------------------------------------------------------

  /** path is None for one that is neither /select/ nor /insert/; headers by name. */
  datatype Request = Request(token: string, path: Option<Paths>, headers: map<string, string>)

  /** A header name has no colon in it. */
  ghost predicate WellFormed(q: Request) { forall n :: n in q.headers ==> ':' !in n }

  function Header(q: Request, name: string): Option<string> {
    if name in q.headers then Some(q.headers[name]) else None
  }

  /** No selector, or a header line of the request's. */
  predicate HeaderMatches(selector: string, q: Request) {
    selector == "" || exists n :: n in q.headers && selector == n + ": " + q.headers[n]
  }

  /** A line selects exactly the requests whose header of that name has that value. */
  lemma HeaderLine(name: string, value: string, q: Request)
    requires WellFormed(q) && ':' !in name
    ensures HeaderMatches(name + ": " + value, q) <==> Header(q, name) == Some(value)
  {
    var line := name + ": " + value;
    assert line == name + [':'] + (" " + value);
    SplitPrefix(name, " " + value, ':');
    forall n | n in q.headers && line == n + ": " + q.headers[n] ensures n == name && q.headers[n] == value {
      assert line == n + [':'] + (" " + q.headers[n]);
      SplitPrefix(n, " " + q.headers[n], ':');
      assert n == Split(line, ':')[0] == name;
      assert value == line[|name| + 2..] == q.headers[n];
    }
    assert |line| > 0;
  }

  predicate RouteMatches(r: Route, q: Request) { q.path == Some(r.paths) && HeaderMatches(r.selector, q) }

  function FirstMatch(routes: seq<Route>, q: Request): Option<(nat, nat)> {
    if routes == [] then None
    else if RouteMatches(routes[0], q) then Some((routes[0].account, routes[0].project))
    else FirstMatch(routes[1..], q)
  }

  function Lookup(users: seq<User>, token: string): Option<User> {
    if users == [] then None
    else if users[0].token == token then Some(users[0])
    else Lookup(users[1..], token)
  }

  /** The partition a request reaches, if any. */
  function Serve(users: seq<User>, q: Request): Option<(nat, nat)> {
    match Lookup(users, q.token)
    case None => None
    case Some(u) => FirstMatch(u.routes, q)
  }

  // --- The rendered configuration --------------------------------------------------------------

  function Selected(given: seq<Route>, catchAll: bool): seq<Route> {
    if given == [] then []
    else
      var init, r := given[..|given| - 1], given[|given| - 1];
      Selected(init, catchAll) + (if (r.selector == "") == catchAll then [r] else [])
  }

  /** withSelectorsFirst: a stable partition, the catch-all last. */
  method WithSelectorsFirst(given: seq<Route>) returns (out: seq<Route>)
    ensures out == Selected(given, false) + Selected(given, true)
  {
    var sel, catch := [], [];
    for i := 0 to |given|
      invariant sel == Selected(given[..i], false) && catch == Selected(given[..i], true)
    {
      assert given[..i + 1][..i] == given[..i];
      if given[i].selector == "" {
        catch := catch + [given[i]];
      } else {
        sel := sel + [given[i]];
      }
    }
    assert given[..|given|] == given;
    out := sel + catch;
  }

  function PartitionRoutes(index: nat): seq<Route> {
    [Route(Select, Partition(index, 0), index, 0), Route(Select, Partition(index, 1), index, 1),
     Route(Select, Partition(index, 2), index, 2)]
  }

  function OperatorSelectors(tenants: seq<TenantFile>): seq<Route> {
    if tenants == [] then []
    else OperatorSelectors(tenants[..|tenants| - 1]) + PartitionRoutes(tenants[|tenants| - 1].index)
  }

  function OperatorUser(b: Base, tenants: seq<TenantFile>): User {
    User("operator-read", b.operatorToken, OperatorSelectors(tenants) + [Route(Select, "", 0, 0)])
  }

  function IngestUser(t: TenantFile): User {
    User("ingest-" + t.tenant, t.ingestToken, [Route(Insert, "", t.index, 0)])
  }

  function ReadUser(t: TenantFile): User {
    User("read-" + t.tenant, t.readToken, PartitionRoutes(t.index) + [Route(Select, "", t.index, 0)])
  }

  function TenantUsers(tenants: seq<TenantFile>): (us: seq<User>)
    ensures |us| == 2 * |tenants|
  {
    if tenants == [] then []
    else TenantUsers(tenants[..|tenants| - 1]) + [IngestUser(tenants[|tenants| - 1]), ReadUser(tenants[|tenants| - 1])]
  }

  function BridgeRoutes(tenants: seq<TenantFile>): (rs: seq<Route>)
    ensures |rs| == |tenants|
  {
    seq(|tenants|, i requires 0 <= i < |tenants| =>
      Route(Insert, TenantSelector(tenants[i].tenant), tenants[i].index, 2))
  }

  function BridgeUsers(b: Base, tenants: seq<TenantFile>): seq<User> {
    if b.bridgeToken == "" || tenants == [] then [] else [User("mqtt-bridge", b.bridgeToken, BridgeRoutes(tenants))]
  }

  function Rendered(b: Base, tenants: seq<TenantFile>): seq<User> {
    [OperatorUser(b, tenants)] + TenantUsers(tenants) + BridgeUsers(b, tenants)
  }

  /** Whose user is whose, by name. */
  lemma UsersNamed(b: Base, t: TenantFile, tenants: seq<TenantFile>)
    ensures OperatorUser(b, tenants).name == "operator-read"
    ensures IngestUser(t).name == "ingest-" + t.tenant && ReadUser(t).name == "read-" + t.tenant
    ensures forall u :: u in BridgeUsers(b, tenants) ==> u.name == "mqtt-bridge"
  {
  }

  // --- Validation ---------------------------------------------------------------------------------

  const MIN_TOKEN := 32
  const MAX_TOKEN := 128
  const MAX_INDEX := 63

  predicate TokenChar(c: char) {
    'A' <= c <= 'Z' || 'a' <= c <= 'z' || '0' <= c <= '9' || c == '.' || c == '_' || c == '~' || c == '-'
  }

  predicate ValidToken(tok: string) {
    MIN_TOKEN <= |tok| <= MAX_TOKEN && forall i :: 0 <= i < |tok| ==> TokenChar(tok[i])
  }

  predicate ValidTenantFile(t: TenantFile) {
    && ValidName(t.tenant) && 1 <= t.index <= MAX_INDEX
    && ValidToken(t.ingestToken) && ValidToken(t.readToken) && t.ingestToken != t.readToken
  }

  /** The base file's tokens go through the same check, paired with themselves and one character more. */
  predicate ValidBaseToken(tok: string) { ValidToken(tok) && ValidToken(tok + "x") }

  predicate Renderable(b: Base, tenants: seq<TenantFile>) {
    && b.backend != "" && ValidBaseToken(b.operatorToken)
    && (forall i :: 0 <= i < |tenants| ==> ValidTenantFile(tenants[i]))
    && (b.bridgeToken != "" ==> ValidBaseToken(b.bridgeToken))
  }

  /** Which files render, as text: a backend, base tokens of 32 to 127 characters
      of the set, and tenant files with an index of 1 to 63 and two different
      tokens of 32 to 128. */
  lemma RenderableExactly(b: Base, tenants: seq<TenantFile>)
    ensures Renderable(b, tenants) <==>
      && b.backend != "" && 32 <= |b.operatorToken| <= 127 && OfTokenChars(b.operatorToken)
      && (b.bridgeToken != "" ==> 32 <= |b.bridgeToken| <= 127 && OfTokenChars(b.bridgeToken))
      && forall i :: 0 <= i < |tenants| ==>
        var t := tenants[i];
        && ValidName(t.tenant) && 1 <= t.index <= 63 && t.ingestToken != t.readToken
        && 32 <= |t.ingestToken| <= 128 && OfTokenChars(t.ingestToken)
        && 32 <= |t.readToken| <= 128 && OfTokenChars(t.readToken)
  {
    BaseTokenExactly(b.operatorToken);
    BaseTokenExactly(b.bridgeToken);
  }

  /** `^[A-Za-z0-9._~-]+$` */
  predicate OfTokenChars(s: string) {
    forall i :: 0 <= i < |s| ==>
      'A' <= s[i] <= 'Z' || 'a' <= s[i] <= 'z' || '0' <= s[i] <= '9' || s[i] in {'.', '_', '~', '-'}
  }

  lemma BaseTokenExactly(tok: string)
    ensures ValidBaseToken(tok) <==> 32 <= |tok| <= 127 && OfTokenChars(tok)
  {
    var longer := tok + "x";
    assert longer[|tok|] == 'x' && forall i :: 0 <= i < |tok| ==> longer[i] == tok[i];
  }

  lemma {:induction false} SelectorsApart(routes: seq<Route>, catchAll: bool)
    requires forall i :: 0 <= i < |routes| ==> routes[i].selector != ""
    ensures Selected(routes, catchAll) == if catchAll then [] else routes
  {
    if routes != [] {
      SelectorsApart(routes[..|routes| - 1], catchAll);
      assert routes == routes[..|routes| - 1] + [routes[|routes| - 1]];
    }
  }

  lemma {:induction false} SelectedAppend(a: seq<Route>, b: seq<Route>, catchAll: bool)
    ensures Selected(a + b, catchAll) == Selected(a, catchAll) + Selected(b, catchAll)
  {
    if b == [] {
      assert a + b == a;
    } else {
      SelectedAppend(a, b[..|b| - 1], catchAll);
      assert (a + b)[..|a + b| - 1] == a + b[..|b| - 1];
    }
  }

  /** A list led by its catch-all and followed by selectors comes out with the catch-all last. */
  lemma CatchAllLast(catch: Route, routes: seq<Route>)
    requires catch.selector == "" && forall i :: 0 <= i < |routes| ==> routes[i].selector != ""
    ensures Selected([catch] + routes, false) + Selected([catch] + routes, true) == routes + [catch]
  {
    CatchAllPart(catch, routes, false);
    CatchAllPart(catch, routes, true);
  }

  lemma CatchAllPart(catch: Route, routes: seq<Route>, catchAll: bool)
    requires catch.selector == "" && forall i :: 0 <= i < |routes| ==> routes[i].selector != ""
    ensures Selected([catch] + routes, catchAll) == if catchAll then [catch] else routes
  {
    SelectedOne(catch, catchAll);
    SelectedAppend([catch], routes, catchAll);
    SelectorsApart(routes, catchAll);
  }

  lemma SelectedOne(r: Route, catchAll: bool)
    ensures Selected([r], catchAll) == if (r.selector == "") == catchAll then [r] else []
  {
    assert [r][..0] == [];
  }

  lemma {:induction false} OperatorSelectorsSelect(tenants: seq<TenantFile>)
    ensures forall i :: 0 <= i < |OperatorSelectors(tenants)| ==> OperatorSelectors(tenants)[i].selector != ""
  {
    if tenants != [] {
      OperatorSelectorsSelect(tenants[..|tenants| - 1]);
    }
  }

  /** The operator's entries, as they are appended. */
  method AppendOperatorRoutes(tenants: seq<TenantFile>) returns (operator: seq<Route>)
    ensures operator == [Route(Select, "", 0, 0)] + OperatorSelectors(tenants)
  {
    operator := [Route(Select, "", 0, 0)];
    for i := 0 to |tenants|
      invariant operator == [Route(Select, "", 0, 0)] + OperatorSelectors(tenants[..i])
    {
      assert tenants[..i + 1][..i] == tenants[..i];
      operator := AppendPartitions(operator, tenants[i].index);
    }
    assert tenants[..|tenants|] == tenants;
  }

  method AppendPartitions(routes: seq<Route>, index: nat) returns (out: seq<Route>)
    ensures out == routes + PartitionRoutes(index)
  {
    out := routes;
    for p := 0 to 3
      invariant out == routes + PartitionRoutes(index)[..p]
    {
      assert PartitionRoutes(index)[p] == Route(Select, Partition(index, p), index, p);
      assert PartitionRoutes(index)[..p + 1] == PartitionRoutes(index)[..p] + [PartitionRoutes(index)[p]];
      out := out + [Route(Select, Partition(index, p), index, p)];
    }
    assert PartitionRoutes(index)[..3] == PartitionRoutes(index);
  }

  /** The operator's user, its selector entries tried before the catch-all. */
  method OperatorEntry(b: Base, tenants: seq<TenantFile>) returns (user: User)
    ensures user == OperatorUser(b, tenants)
  {
    var operator := AppendOperatorRoutes(tenants);
    OperatorSelectorsSelect(tenants);
    CatchAllLast(Route(Select, "", 0, 0), OperatorSelectors(tenants));
    var ordered := WithSelectorsFirst(operator);
    user := User("operator-read", b.operatorToken, ordered);
  }

  /** One tenant's two users. */
  method TenantEntries(t: TenantFile) returns (users: seq<User>)
    ensures users == [IngestUser(t), ReadUser(t)]
  {
    var catch := Route(Select, "", t.index, 0);
    var unordered := AppendPartitions([catch], t.index);
    forall i | 0 <= i < 3 ensures PartitionRoutes(t.index)[i].selector != "" {}
    CatchAllLast(catch, PartitionRoutes(t.index));
    var ordered := WithSelectorsFirst(unordered);
    users := [User("ingest-" + t.tenant, t.ingestToken, [Route(Insert, "", t.index, 0)]),
              User("read-" + t.tenant, t.readToken, ordered)];
  }

  /** The bridge's user, left out when there is no tenant it could write for. */
  method BridgeEntry(b: Base, tenants: seq<TenantFile>) returns (users: seq<User>)
    requires b.bridgeToken != ""
    ensures users == BridgeUsers(b, tenants)
  {
    var routes := [];
    for i := 0 to |tenants|
      invariant routes == BridgeRoutes(tenants)[..i]
    {
      assert BridgeRoutes(tenants)[i] == Route(Insert, TenantSelector(tenants[i].tenant), tenants[i].index, 2);
      routes := routes + [Route(Insert, TenantSelector(tenants[i].tenant), tenants[i].index, 2)];
    }
    assert routes == BridgeRoutes(tenants);
    users := if |routes| > 0 then [User("mqtt-bridge", b.bridgeToken, routes)] else [];
  }

  /** render, user by user. None is an error and nothing is written. */
  method Render(b: Base, tenants: seq<TenantFile>) returns (users: Option<seq<User>>)
    ensures users.Some? <==> Renderable(b, tenants)
    ensures users.Some? ==> users.value == Rendered(b, tenants)
  {
    if b.backend == "" || !ValidBaseToken(b.operatorToken) {
      return None;
    }
    var operator := OperatorEntry(b, tenants);
    var out := [operator];
    for i := 0 to |tenants|
      invariant forall j :: 0 <= j < i ==> ValidTenantFile(tenants[j])
      invariant out == [OperatorUser(b, tenants)] + TenantUsers(tenants[..i])
    {
      if !ValidTenantFile(tenants[i]) {
        return None;
      }
      assert tenants[..i + 1][..i] == tenants[..i];
      var entries := TenantEntries(tenants[i]);
      out := out + entries;
    }
    assert tenants[..|tenants|] == tenants;
    if b.bridgeToken != "" {
      if !ValidBaseToken(b.bridgeToken) {
        return None;
      }
      var bridge := BridgeEntry(b, tenants);
      out := out + bridge;
    }
    return Some(out);
  }

  // --- Where requests go ------------------------------------------------------------------------------

  ghost predicate TokensDistinct(users: seq<User>) {
    forall i, j :: 0 <= i < j < |users| ==> users[i].token != users[j].token
  }

  lemma {:induction false} LookupAt(users: seq<User>, i: nat)
    requires TokensDistinct(users) && i < |users|
    ensures Lookup(users, users[i].token) == Some(users[i])
  {
    if i > 0 {
      LookupAt(users[1..], i - 1);
    }
  }

  lemma {:induction false} TenantUsersAt(tenants: seq<TenantFile>, i: nat)
    requires i < |tenants|
    ensures TenantUsers(tenants)[2 * i] == IngestUser(tenants[i])
    ensures TenantUsers(tenants)[2 * i + 1] == ReadUser(tenants[i])
  {
    if i < |tenants| - 1 {
      TenantUsersAt(tenants[..|tenants| - 1], i);
    }
  }

  /** The text of a partition is account, dash, project, and determines both. */
  lemma PartitionsDiffer(i: nat, p: nat, j: nat, r: nat)
    ensures PartitionValue(i, p) == Decimal(i) + "-" + Decimal(p)
    ensures PartitionValue(i, p) == PartitionValue(j, r) <==> i == j && p == r
  {
    if PartitionValue(i, p) == PartitionValue(j, r) {
      SplitPrefix(Decimal(i), Decimal(p), '-');
      SplitPrefix(Decimal(j), Decimal(r), '-');
      SplitSingle(Decimal(p), '-');
      SplitSingle(Decimal(r), '-');
      var parts := Split(PartitionValue(i, p), '-');
      assert parts == [Decimal(i), Decimal(p)] == [Decimal(j), Decimal(r)];
      assert parts[0] == Decimal(i) == Decimal(j) && parts[1] == Decimal(p) == Decimal(r);
      DecimalInjective(i, j);
      DecimalInjective(p, r);
    }
  }

  /** A partition entry answers to its own partition header and to nothing else. */
  lemma PartitionHeader(i: nat, p: nat, q: Request)
    requires WellFormed(q)
    ensures HeaderMatches(Partition(i, p), q) <==>
      Header(q, "X-Deevnet-Partition") == Some(Decimal(i) + "-" + Decimal(p))
  {
    HeaderLine("X-Deevnet-Partition", Decimal(i) + "-" + Decimal(p), q);
    assert Partition(i, p) == "X-Deevnet-Partition" + ": " + (Decimal(i) + "-" + Decimal(p));
  }

  /** A tenant entry, likewise. */
  lemma TenantHeader(name: string, q: Request)
    requires WellFormed(q)
    ensures HeaderMatches(TenantSelector(name), q) <==> Header(q, "X-Deevnet-Tenant") == Some(name)
  {
    HeaderLine("X-Deevnet-Tenant", name, q);
    assert TenantSelector(name) == "X-Deevnet-Tenant" + ": " + name;
  }

  /** An ingest token writes its tenant's own partition and does nothing else. */
  lemma IngestReaches(b: Base, tenants: seq<TenantFile>, i: nat, q: Request)
    requires TokensDistinct(Rendered(b, tenants)) && i < |tenants| && q.token == tenants[i].ingestToken
    ensures Serve(Rendered(b, tenants), q) == if q.path == Some(Insert) then Some((tenants[i].index, 0)) else None
  {
    TenantUsersAt(tenants, i);
    var users := Rendered(b, tenants);
    assert users[2 * i + 1] == IngestUser(tenants[i]);
    LookupAt(users, 2 * i + 1);
    var routes := IngestUser(tenants[i]).routes;
    assert routes[1..] == [];
    assert FirstMatch(routes, q) ==
      if RouteMatches(routes[0], q) then Some((tenants[i].index, 0)) else FirstMatch([], q);
  }

  lemma ReadRoutesServe(index: nat, q: Request)
    requires WellFormed(q)
    ensures FirstMatch(PartitionRoutes(index) + [Route(Select, "", index, 0)], q) ==
      if q.path != Some(Select) then None
      else if Header(q, "X-Deevnet-Partition") == Some(Decimal(index) + "-" + Decimal(1)) then Some((index, 1))
      else if Header(q, "X-Deevnet-Partition") == Some(Decimal(index) + "-" + Decimal(2)) then Some((index, 2))
      else Some((index, 0))
  {
    PartitionHeader(index, 0, q);
    PartitionHeader(index, 1, q);
    PartitionHeader(index, 2, q);
    PartitionsDiffer(index, 1, index, 2);
    PartitionsDiffer(index, 0, index, 1);
    PartitionsDiffer(index, 0, index, 2);
    var rs := PartitionRoutes(index) + [Route(Select, "", index, 0)];
    assert rs[1..][0] == rs[1] && rs[1..][1..] == rs[2..] && rs[2..][1..] == rs[3..] && rs[3..][1..] == [];
    assert FirstMatch(rs[3..], q) == if q.path == Some(Select) then Some((index, 0)) else None;
    assert FirstMatch(rs[2..], q) == if RouteMatches(rs[2], q) then Some((index, 2)) else FirstMatch(rs[3..], q);
    assert FirstMatch(rs[1..], q) == if RouteMatches(rs[1], q) then Some((index, 1)) else FirstMatch(rs[2..], q);
  }

  /** A read token reads its tenant's three partitions: the one it selects, else the first. */
  lemma ReadReaches(b: Base, tenants: seq<TenantFile>, i: nat, q: Request)
    requires WellFormed(q)
    requires TokensDistinct(Rendered(b, tenants)) && i < |tenants| && q.token == tenants[i].readToken
    ensures var index := tenants[i].index;
      Serve(Rendered(b, tenants), q) ==
      if q.path != Some(Select) then None
      else if Header(q, "X-Deevnet-Partition") == Some(Decimal(index) + "-" + Decimal(1)) then Some((index, 1))
      else if Header(q, "X-Deevnet-Partition") == Some(Decimal(index) + "-" + Decimal(2)) then Some((index, 2))
      else Some((index, 0))
  {
    TenantUsersAt(tenants, i);
    var users := Rendered(b, tenants);
    assert users[2 * i + 2] == ReadUser(tenants[i]);
    LookupAt(users, 2 * i + 2);
    ReadRoutesServe(tenants[i].index, q);
  }

  lemma {:induction false} BridgeServes(tenants: seq<TenantFile>, q: Request)
    requires WellFormed(q)
    ensures FirstMatch(BridgeRoutes(tenants), q) == None ==>
      q.path != Some(Insert) || forall i :: 0 <= i < |tenants| ==>
        Header(q, "X-Deevnet-Tenant") != Some(tenants[i].tenant)
    ensures FirstMatch(BridgeRoutes(tenants), q).Some? ==>
      && q.path == Some(Insert)
      && exists i :: 0 <= i < |tenants| && Header(q, "X-Deevnet-Tenant") == Some(tenants[i].tenant)
                     && FirstMatch(BridgeRoutes(tenants), q) == Some((tenants[i].index, 2))
  {
    if tenants != [] {
      var rest := tenants[1..];
      BridgeServes(rest, q);
      assert BridgeRoutes(tenants)[1..] == BridgeRoutes(rest);
      TenantHeader(tenants[0].tenant, q);
      assert forall i :: 1 <= i < |tenants| ==> tenants[i] == rest[i - 1];
    }
  }

  /** The bridge writes the device partition of the tenant it names, and nothing for any other name. */
  lemma BridgeReaches(b: Base, tenants: seq<TenantFile>, q: Request)
    requires WellFormed(q)
    requires TokensDistinct(Rendered(b, tenants)) && b.bridgeToken != "" && b.bridgeToken != b.operatorToken
    requires q.token == b.bridgeToken
    requires forall i, j :: 0 <= i < j < |tenants| ==> tenants[i].tenant != tenants[j].tenant
    ensures q.path == Some(Insert) ==>
      forall i :: 0 <= i < |tenants| && Header(q, "X-Deevnet-Tenant") == Some(tenants[i].tenant) ==>
        Serve(Rendered(b, tenants), q) == Some((tenants[i].index, 2))
    ensures q.path != Some(Insert) ==> Serve(Rendered(b, tenants), q) == None
    ensures (forall i :: 0 <= i < |tenants| ==> Header(q, "X-Deevnet-Tenant") != Some(tenants[i].tenant)) ==>
      Serve(Rendered(b, tenants), q) == None
  {
    var users := Rendered(b, tenants);
    if tenants == [] {
      assert users == [OperatorUser(b, tenants)] && users[1..] == [];
      assert Lookup([], q.token).None? && Lookup(users, q.token) == Lookup(users[1..], q.token);
    } else {
      var last := |users| - 1;
      assert users[last] == User("mqtt-bridge", b.bridgeToken, BridgeRoutes(tenants));
      LookupAt(users, last);
      BridgeServes(tenants, q);
    }
  }

  /** The partition the request selects, if some tenant has it. */
  ghost function Selection(tenants: seq<TenantFile>, q: Request): Option<(nat, nat)> {
    if exists i, p :: Picks(tenants, q, i, p) then Some(PickedBy(tenants, q)) else None
  }

  /** Tenant by tenant: an earlier one's, or one of the last one's three. */
  lemma SelectionStep(tenants: seq<TenantFile>, q: Request)
    requires tenants != []
    ensures var t := tenants[|tenants| - 1];
      Selection(tenants, q) ==
      if Selection(tenants[..|tenants| - 1], q).Some? then Selection(tenants[..|tenants| - 1], q)
      else if AsksFor(q, t.index, 0) then Some((t.index, 0))
      else if AsksFor(q, t.index, 1) then Some((t.index, 1))
      else if AsksFor(q, t.index, 2) then Some((t.index, 2))
      else None
  {
    var init, t := tenants[..|tenants| - 1], tenants[|tenants| - 1];
    if i, p :| Picks(init, q, i, p) {
      PickedEarlier(tenants, q, i, p);
    } else if AsksFor(q, t.index, 0) {
      PickedLast(tenants, q, 0);
    } else if AsksFor(q, t.index, 1) {
      PickedLast(tenants, q, 1);
    } else if AsksFor(q, t.index, 2) {
      PickedLast(tenants, q, 2);
    } else {
      forall i, p ensures !Picks(tenants, q, i, p) {
        assert i < |tenants| - 1 ==> !Picks(init, q, i, p);
        assert i == |tenants| - 1 && 0 <= p < 3 ==> !AsksFor(q, t.index, p);
      }
    }
  }

  lemma {:induction false} SelectorsServe(tenants: seq<TenantFile>, tail: seq<Route>, q: Request)
    requires WellFormed(q) && q.path == Some(Select)
    ensures FirstMatch(OperatorSelectors(tenants) + tail, q) ==
      if Selection(tenants, q).Some? then Selection(tenants, q) else FirstMatch(tail, q)
  {
    if tenants == [] {
      assert OperatorSelectors(tenants) + tail == tail;
    } else {
      var init, t := tenants[..|tenants| - 1], tenants[|tenants| - 1];
      var mine := PartitionRoutes(t.index) + tail;
      assert OperatorSelectors(tenants) + tail == OperatorSelectors(init) + mine;
      SelectorsServe(init, mine, q);
      PartitionRoutesServe(t.index, tail, q);
      SelectionStep(tenants, q);
    }
  }

  predicate AsksFor(q: Request, account: nat, project: nat) {
    Header(q, "X-Deevnet-Partition") == Some(Decimal(account) + "-" + Decimal(project))
  }

  lemma PickedEarlier(tenants: seq<TenantFile>, q: Request, i: int, p: int)
    requires tenants != [] && Picks(tenants[..|tenants| - 1], q, i, p)
    ensures Picks(tenants, q, i, p) && PickedBy(tenants, q) == PickedBy(tenants[..|tenants| - 1], q)
  {
    PickedIsUnique(tenants, q, i, p);
    PickedIsUnique(tenants[..|tenants| - 1], q, i, p);
  }

  lemma PickedLast(tenants: seq<TenantFile>, q: Request, p: nat)
    requires tenants != [] && p < 3 && AsksFor(q, tenants[|tenants| - 1].index, p)
    ensures Picks(tenants, q, |tenants| - 1, p) && PickedBy(tenants, q) == (tenants[|tenants| - 1].index, p)
  {
    PickedIsUnique(tenants, q, |tenants| - 1, p);
  }

  /** The request selects project p of the i-th tenant. */
  predicate Picks(tenants: seq<TenantFile>, q: Request, i: int, p: int) {
    && 0 <= i < |tenants| && 0 <= p < 3
    && Header(q, "X-Deevnet-Partition") == Some(Decimal(tenants[i].index) + "-" + Decimal(p))
  }

  ghost function PickedBy(tenants: seq<TenantFile>, q: Request): (r: (nat, nat))
    requires exists i, p :: Picks(tenants, q, i, p)
    ensures exists i, p :: Picks(tenants, q, i, p) && r == (tenants[i].index, p)
  {
    var i, p :| Picks(tenants, q, i, p);
    (tenants[i].index, p)
  }

  lemma PickedIsUnique(tenants: seq<TenantFile>, q: Request, i: int, p: int)
    requires Picks(tenants, q, i, p)
    ensures PickedBy(tenants, q) == (tenants[i].index, p)
  {
    var picked := PickedBy(tenants, q);
    var j, r :| Picks(tenants, q, j, r) && picked == (tenants[j].index, r);
    PartitionsDiffer(tenants[i].index, p, tenants[j].index, r);
  }

  lemma PartitionRoutesServe(index: nat, tail: seq<Route>, q: Request)
    requires WellFormed(q)
    requires q.path == Some(Select)
    ensures FirstMatch(PartitionRoutes(index) + tail, q) ==
      if Header(q, "X-Deevnet-Partition") == Some(Decimal(index) + "-" + Decimal(0)) then Some((index, 0))
      else if Header(q, "X-Deevnet-Partition") == Some(Decimal(index) + "-" + Decimal(1)) then Some((index, 1))
      else if Header(q, "X-Deevnet-Partition") == Some(Decimal(index) + "-" + Decimal(2)) then Some((index, 2))
      else FirstMatch(tail, q)
  {
    PartitionHeader(index, 0, q);
    PartitionHeader(index, 1, q);
    PartitionHeader(index, 2, q);
    var rs := PartitionRoutes(index) + tail;
    assert rs[1..][0] == rs[1] && rs[1..][1..] == rs[2..];
    assert rs[2..][0] == rs[2] && rs[2..][1..] == rs[3..] && rs[3..] == tail;
    assert FirstMatch(rs[2..], q) == if RouteMatches(rs[2], q) then Some((index, 2)) else FirstMatch(tail, q);
    assert FirstMatch(rs[1..], q) == if RouteMatches(rs[1], q) then Some((index, 1)) else FirstMatch(rs[2..], q);
  }

  /** The operator reads the partition it selects, if a tenant has it, and the substrate's otherwise. */
  lemma OperatorReaches(b: Base, tenants: seq<TenantFile>, q: Request)
    requires WellFormed(q)
    requires q.token == b.operatorToken && q.path == Some(Select)
    ensures forall i, p: nat :: 0 <= i < |tenants| && p < 3 && AsksFor(q, tenants[i].index, p) ==>
      Serve(Rendered(b, tenants), q) == Some((tenants[i].index, p))
    ensures (forall i, p: nat :: 0 <= i < |tenants| && p < 3 ==> !AsksFor(q, tenants[i].index, p)) ==>
      Serve(Rendered(b, tenants), q) == Some((0, 0))
  {
    assert forall i, p :: Picks(tenants, q, i, p) <==>
      0 <= i < |tenants| && 0 <= p < 3 && AsksFor(q, tenants[i].index, p);
    var users := Rendered(b, tenants);
    assert users[0] == OperatorUser(b, tenants);
    var catch := [Route(Select, "", 0, 0)];
    SelectorsServe(tenants, catch, q);
    forall i, p | Picks(tenants, q, i, p) ensures Serve(users, q) == Some((tenants[i].index, p)) {
      PickedIsUnique(tenants, q, i, p);
    }
  }

  lemma {:induction false} OperatorWritesNothing(b: Base, tenants: seq<TenantFile>, q: Request)
    requires q.token == b.operatorToken && q.path != Some(Select)
    ensures Serve(Rendered(b, tenants), q) == None
  {
    assert Rendered(b, tenants)[0] == OperatorUser(b, tenants);
    NoInsertRoutes(tenants);
    NoMatch(OperatorSelectors(tenants) + [Route(Select, "", 0, 0)], q);
  }

  lemma {:induction false} NoInsertRoutes(tenants: seq<TenantFile>)
    ensures forall i :: 0 <= i < |OperatorSelectors(tenants)| ==> OperatorSelectors(tenants)[i].paths == Select
  {
    if tenants != [] {
      NoInsertRoutes(tenants[..|tenants| - 1]);
    }
  }

  lemma {:induction false} NoMatch(routes: seq<Route>, q: Request)
    requires forall i :: 0 <= i < |routes| ==> q.path != Some(routes[i].paths)
    ensures FirstMatch(routes, q) == None
  {
    if routes != [] {
      NoMatch(routes[1..], q);
    }
  }
}
