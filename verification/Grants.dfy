/** internal/brokeracct/contract.go: what an MQTT account may be granted.

    The API prefixes a tenant's patterns and keeps the log level for devices'
    own logs; the writer on the messaging host checks the prefixed patterns
    again. Both work on the text of a filter. The theorems say what that text
    test means in topics. */
module Grants {
  import opened Basics
  import opened Text
  import opened Topics

  const MAX_PATTERN := 256
  const MAX_PATTERNS := 32
  const LOG_LEVEL := "log"

  datatype Refusal =
    | TooMany | EmptyPattern | TooLong | OutsidePrefix | HasPercent
    | LeadingSlash | LeadingDollar
    | PlusInsideLevel | HashInsideLevel | HashNotLast
    | NothingGranted
    | WorkloadPublishesLog | PublishesForeignLog | DeviceReadsLog

  datatype Result<+T> = Ok(value: T) | Err(error: Refusal)

  function Prefix(tenant: string): string { tenant + "/" }

  /** validWildcards: + and # each alone in a level, # last. */
  method ValidWildcards(pattern: string) returns (bad: Option<Refusal>)
    ensures bad.None? <==> LevelsWellFormed(Levels(pattern))
  {
    var levels := Levels(pattern);
    for i := 0 to |levels|
      invariant forall j :: 0 <= j < i ==> LevelWellFormed(levels[j], j == |levels| - 1)
    {
      var level := levels[i];
      if '+' in level && level != "+" {
        assert !LevelWellFormed(levels[i], i == |levels| - 1);
        return Some(PlusInsideLevel);
      }
      if '#' in level {
        if level != "#" {
          assert !LevelWellFormed(levels[i], i == |levels| - 1);
          return Some(HashInsideLevel);
        }
        if i != |levels| - 1 {
          assert !LevelWellFormed(levels[i], i == |levels| - 1);
          return Some(HashNotLast);
        }
      }
    }
    return None;
  }

  /** What the writer accepts of one pattern under a prefix. */
  predicate WriterAccepts(pattern: string, prefix: string) {
    && 1 <= |pattern| <= MAX_PATTERN
    && HasPrefix(pattern, prefix)
    && '%' !in pattern
    && LevelsWellFormed(Levels(pattern))
  }

  /** validPatterns, the writer's last check before a permission is written. */
  method ValidPatterns(patterns: seq<string>, prefix: string) returns (bad: Option<Refusal>)
    ensures bad.None? <==>
      |patterns| <= MAX_PATTERNS && forall i :: 0 <= i < |patterns| ==> WriterAccepts(patterns[i], prefix)
  {
    if |patterns| > MAX_PATTERNS {
      return Some(TooMany);
    }
    for i := 0 to |patterns|
      invariant forall j :: 0 <= j < i ==> WriterAccepts(patterns[j], prefix)
    {
      var p := patterns[i];
      if p == "" {
        return Some(EmptyPattern);
      } else if |p| > MAX_PATTERN {
        return Some(TooLong);
      } else if !HasPrefix(p, prefix) {
        return Some(OutsidePrefix);
      } else if '%' in p {
        return Some(HasPercent);
      }
      var wildcards := ValidWildcards(p);
      if wildcards.Some? {
        assert !WriterAccepts(patterns[i], prefix);
        return wildcards;
      }
    }
    return None;
  }

  /** What the API accepts of one pattern as a tenant declares it. */
  predicate ApiAccepts(tenant: string, relative: string) {
    && 1 <= |relative| <= MAX_PATTERN
    && relative[0] != '/' && relative[0] != '$'
    && '%' !in relative
    && LevelsWellFormed(Levels(Prefix(tenant) + relative))
  }

  method PrefixPattern(tenant: string, relative: string) returns (r: Result<string>)
    ensures r.Ok? <==> ApiAccepts(tenant, relative)
    ensures r.Ok? ==> r.value == Prefix(tenant) + relative
  {
    if relative == "" {
      return Err(EmptyPattern);
    } else if |relative| > MAX_PATTERN {
      return Err(TooLong);
    } else if HasPrefix(relative, "/") {
      return Err(LeadingSlash);
    } else if HasPrefix(relative, "$") {
      return Err(LeadingDollar);
    } else if '%' in relative {
      return Err(HasPercent);
    }
    var absolute := Prefix(tenant) + relative;
    var wildcards := ValidWildcards(absolute);
    if wildcards.Some? {
      return Err(wildcards.value);
    }
    return Ok(absolute);
  }

  /** A tenant's whole list in absolute form. */
  function Absolutes(tenant: string, relatives: seq<string>): (out: seq<string>)
    ensures |out| == |relatives|
    ensures forall i :: 0 <= i < |relatives| ==> out[i] == Prefix(tenant) + relatives[i]
  {
    seq(|relatives|, i requires 0 <= i < |relatives| => Prefix(tenant) + relatives[i])
  }

  predicate ApiAcceptsAll(tenant: string, relatives: seq<string>) {
    |relatives| <= MAX_PATTERNS && forall i :: 0 <= i < |relatives| ==> ApiAccepts(tenant, relatives[i])
  }

  method PrefixPatterns(tenant: string, relatives: seq<string>) returns (r: Result<seq<string>>)
    ensures r.Ok? <==> ApiAcceptsAll(tenant, relatives)
    ensures r.Ok? ==> r.value == Absolutes(tenant, relatives)
  {
    if |relatives| == 0 {
      return Ok([]);
    }
    if |relatives| > MAX_PATTERNS {
      return Err(TooMany);
    }
    var out := [];
    for i := 0 to |relatives|
      invariant |out| == i
      invariant forall j :: 0 <= j < i ==> ApiAccepts(tenant, relatives[j]) && out[j] == Prefix(tenant) + relatives[j]
    {
      var one := PrefixPattern(tenant, relatives[i]);
      if one.Err? {
        return Err(one.error);
      }
      out := out + [one.value];
    }
    return Ok(out);
  }

  // --- The reserved log level -------------------------------------------------

  /** The filter that covers one tenant's log space, and the one the bridge subscribes to. */
  function LogSpace(tenant: string): string { tenant + "/" + LOG_LEVEL + "/#" }

  const BRIDGE_FILTER := "+/log/#"

  /** touchesLog over the filter's levels from level i on, where wanted holds <tenant>, log. */
  predicate TouchesFrom(levels: seq<string>, wanted: seq<string>) {
    wanted == [] ||
    (levels != [] && (levels[0] == "#" ||
                      ((levels[0] == "+" || levels[0] == wanted[0]) && TouchesFrom(levels[1..], wanted[1..]))))
  }

  predicate Touches(tenant: string, filter: string) {
    TouchesFrom(Levels(filter), [tenant, LOG_LEVEL])
  }

  /** touchesLog: the loop over the two reserved levels. */
  method TouchesLog(tenant: string, filter: string) returns (touches: bool)
    ensures touches <==> Touches(tenant, filter)
  {
    var levels := Levels(filter);
    var wanted := [tenant, LOG_LEVEL];
    for i := 0 to 2
      invariant i <= |levels|
      invariant Touches(tenant, filter) <==> TouchesFrom(levels[i..], wanted[i..])
    {
      if i >= |levels| {
        return false;
      }
      if levels[i] == "#" {
        return true;
      } else if levels[i] == "+" || levels[i] == wanted[i] {
        assert levels[i..][1..] == levels[i + 1..] && wanted[i..][1..] == wanted[i + 1..];
      } else {
        return false;
      }
    }
    return true;
  }

  function OwnLogTopic(tenant: string, device: string): string {
    tenant + "/" + LOG_LEVEL + "/" + device
  }

  predicate PublishAllowed(tenant: string, device: string, p: string) {
    Touches(tenant, p) ==> device != "" && p == OwnLogTopic(tenant, device)
  }

  predicate SubscribeAllowed(tenant: string, device: string, s: string) {
    Touches(tenant, s) ==> device == ""
  }

  /** CheckLogGrants on absolute patterns; device is empty for a workload's account. */
  method CheckLogGrants(tenant: string, device: string, publish: seq<string>, subscribe: seq<string>)
    returns (bad: Option<Refusal>)
    ensures bad.None? <==>
      && (forall i :: 0 <= i < |publish| ==> PublishAllowed(tenant, device, publish[i]))
      && (forall i :: 0 <= i < |subscribe| ==> SubscribeAllowed(tenant, device, subscribe[i]))
  {
    var own := OwnLogTopic(tenant, device);
    for i := 0 to |publish|
      invariant forall j :: 0 <= j < i ==> PublishAllowed(tenant, device, publish[j])
    {
      var touches := TouchesLog(tenant, publish[i]);
      if touches {
        if device == "" {
          assert !PublishAllowed(tenant, device, publish[i]);
          return Some(WorkloadPublishesLog);
        }
        if publish[i] != own {
          assert !PublishAllowed(tenant, device, publish[i]);
          return Some(PublishesForeignLog);
        }
      }
    }
    for i := 0 to |subscribe|
      invariant forall j :: 0 <= j < i ==> SubscribeAllowed(tenant, device, subscribe[j])
    {
      var touches := TouchesLog(tenant, subscribe[i]);
      if touches && device != "" {
        assert !SubscribeAllowed(tenant, device, subscribe[i]);
        return Some(DeviceReadsLog);
      }
    }
    return None;
  }

  // --- What the text test means in topics ---------------------------------------

  lemma LogSpaceLevels(tenant: string)
    requires '/' !in tenant
    ensures Levels(LogSpace(tenant)) == [tenant, LOG_LEVEL, "#"]
    ensures Levels(BRIDGE_FILTER) == ["+", LOG_LEVEL, "#"]
  {
    SplitJoin([tenant, LOG_LEVEL, "#"], '/');
    JoinThree(tenant, LOG_LEVEL, "#", '/');
    assert LogSpace(tenant) == tenant + ['/'] + LOG_LEVEL + ['/'] + "#";
    SplitJoin(["+", LOG_LEVEL, "#"], '/');
    JoinThree("+", LOG_LEVEL, "#", '/');
    assert BRIDGE_FILTER == "+" + ['/'] + LOG_LEVEL + ['/'] + "#";
  }

  /** The log space is the topics whose first two levels are <tenant> and log. */
  lemma InLogSpace(tenant: string, topic: string)
    requires ValidName(tenant)
    ensures Matches(LogSpace(tenant), topic) <==>
      |Levels(topic)| >= 2 && Levels(topic)[0] == tenant && Levels(topic)[1] == LOG_LEVEL
  {
    LogSpaceLevels(tenant);
    assert !HasPrefix(LogSpace(tenant), "+") && !HasPrefix(LogSpace(tenant), "#") by {
      assert LogSpace(tenant)[0] == tenant[0];
    }
    var f, t := Levels(LogSpace(tenant)), Levels(topic);
    assert f[1..] == [LOG_LEVEL, "#"] && [LOG_LEVEL, "#"][1..] == ["#"];
    assert tenant[0] != '+' && tenant[0] != '#';
    assert MatchLevels(f, t) == (tenant == t[0] && MatchLevels([LOG_LEVEL, "#"], t[1..]));
    if t[1..] != [] {
      assert t[1..][0] == t[1];
      assert MatchLevels(["#"], t[1..][1..]);
    }
  }

  /** A topic in the log space is matched only by filters that touch it. No
      filter, well formed or not, reaches the space unseen. */
  lemma MatchingTouches(tenant: string, filter: string, topic: string)
    requires ValidName(tenant)
    requires Matches(LogSpace(tenant), topic) && Matches(filter, topic)
    ensures Touches(tenant, filter)
  {
    InLogSpace(tenant, topic);
    var f, t := Levels(filter), Levels(topic);
    var wanted := [tenant, LOG_LEVEL];
    assert wanted[1..] == [LOG_LEVEL] && wanted[1..][1..] == [];
    assert t[1..][0] == t[1];
    if f[0] != "#" {
      assert MatchLevels(f[1..], t[1..]);
      assert f[1..] != [];
      assert f[1..][0] == "#" || f[1..][0] == "+" || f[1..][0] == LOG_LEVEL;
    }
  }

  /** A topic under <tenant>/log that a touching, well-formed filter matches. */
  function CommonTopicLevels(tenant: string, filter: string): seq<string> {
    var levels := Levels(filter);
    [tenant, LOG_LEVEL] +
      (if |levels| <= 2 || levels[0] == "#" || levels[1] == "#" then [] else Concretise(levels[2..]))
  }

  lemma CommonTopicMatches(tenant: string, filter: string)
    requires ValidName(tenant) && LevelsWellFormed(Levels(filter)) && Touches(tenant, filter)
    ensures MatchLevels(Levels(filter), CommonTopicLevels(tenant, filter))
  {
    var f, t := Levels(filter), CommonTopicLevels(tenant, filter);
    var wanted := [tenant, LOG_LEVEL];
    assert wanted[1..] == [LOG_LEVEL];
    assert LevelWellFormed(f[0], 0 == |f| - 1);
    if f[0] == "#" {
      assert '#' in "#";
    } else {
      assert TouchesFrom(f[1..], wanted[1..]);
      assert f[1..][0] == f[1];
      assert LevelWellFormed(f[1], 1 == |f| - 1);
      if f[1] == "#" {
        assert '#' in "#";
        assert t[1..] == [LOG_LEVEL];
      } else {
        var rest := f[2..];
        forall i | 0 <= i < |rest| ensures LevelWellFormed(rest[i], i == |rest| - 1) {
          assert rest[i] == f[i + 2];
        }
        ConcretiseMatches(rest);
        assert f[1..][1..] == rest && t[1..][1..] == Concretise(rest);
        assert MatchLevels(f[1..], t[1..]);
      }
    }
  }

  /** Its levels can stand in a topic. */
  lemma CommonTopicIsPlain(tenant: string, filter: string)
    requires ValidName(tenant) && LevelsWellFormed(Levels(filter))
    ensures forall i :: 0 <= i < |CommonTopicLevels(tenant, filter)| ==>
      var l := CommonTopicLevels(tenant, filter)[i]; '/' !in l && '+' !in l && '#' !in l
    ensures '\0' !in filter ==>
      forall i :: 0 <= i < |CommonTopicLevels(tenant, filter)| ==> '\0' !in CommonTopicLevels(tenant, filter)[i]
  {
    var f, t := Levels(filter), CommonTopicLevels(tenant, filter);
    if |f| > 2 && f[0] != "#" && f[1] != "#" {
      var rest := f[2..];
      SplitMembers(filter, '/', '\0');
      forall i | 0 <= i < |rest| ensures LevelWellFormed(rest[i], i == |rest| - 1) && '/' !in rest[i] {
        assert rest[i] == f[i + 2];
      }
      ConcretiseLevels(rest);
      assert forall i :: 2 <= i < |t| ==> t[i] == Concretise(rest)[i - 2];
    }
  }

  lemma CommonTopic(tenant: string, filter: string) returns (topic: string)
    requires ValidName(tenant) && LevelsWellFormed(Levels(filter)) && Touches(tenant, filter)
    ensures PlainTopic(topic) && Matches(LogSpace(tenant), topic) && Matches(filter, topic)
    ensures '\0' !in filter ==> ValidTopic(topic)
  {
    var t := CommonTopicLevels(tenant, filter);
    CommonTopicMatches(tenant, filter);
    CommonTopicIsPlain(tenant, filter);
    TopicFromLevels(t);
    topic := Join(t, '/');
    assert topic[0] == topic[..1][0] == tenant[0];
    InLogSpace(tenant, topic);
  }

  /** touchesLog is exact: true precisely when the broker could deliver some
      topic of the log space on this filter. */
  lemma TouchesLogExact(tenant: string, filter: string)
    requires ValidName(tenant) && WellFormedFilter(filter)
    ensures Touches(tenant, filter) <==>
      exists topic :: ValidTopic(topic) && Matches(LogSpace(tenant), topic) && Matches(filter, topic)
  {
    if Touches(tenant, filter) {
      var topic := CommonTopic(tenant, filter);
    }
    if topic :| ValidTopic(topic) && Matches(LogSpace(tenant), topic) && Matches(filter, topic) {
      MatchingTouches(tenant, filter, topic);
    }
  }

  // --- What an accepted account can and cannot reach ------------------------------

  /** What CreateBrokerAccount lets through: both lists prefixed, something
      granted, and the log level respected. */
  datatype Account = Account(tenant: string, device: string, publish: seq<string>, subscribe: seq<string>)

  predicate Accepted(a: Account) {
    && ValidName(a.tenant) && (a.device != "" ==> ValidLabel(a.device))
    && ApiAcceptsAll(a.tenant, a.publish) && ApiAcceptsAll(a.tenant, a.subscribe)
    && (a.publish != [] || a.subscribe != [])
    && (forall i :: 0 <= i < |a.publish| ==> PublishAllowed(a.tenant, a.device, Prefix(a.tenant) + a.publish[i]))
    && (forall i :: 0 <= i < |a.subscribe| ==> SubscribeAllowed(a.tenant, a.device, Prefix(a.tenant) + a.subscribe[i]))
  }

  predicate MayPublish(a: Account, topic: string) {
    exists i :: 0 <= i < |a.publish| && Matches(Prefix(a.tenant) + a.publish[i], topic)
  }

  predicate MayReceive(a: Account, topic: string) {
    exists i :: 0 <= i < |a.subscribe| && Matches(Prefix(a.tenant) + a.subscribe[i], topic)
  }

  /** The decision CreateBrokerAccount makes, over the four checks in their order. */
  method CheckAccount(a: Account) returns (r: Result<(seq<string>, seq<string>)>)
    requires ValidName(a.tenant) && (a.device != "" ==> ValidLabel(a.device))
    ensures r.Ok? <==> Accepted(a)
    ensures r.Ok? ==> r.value == (Absolutes(a.tenant, a.publish), Absolutes(a.tenant, a.subscribe))
  {
    var pub := PrefixPatterns(a.tenant, a.publish);
    if pub.Err? {
      return Err(pub.error);
    }
    var sub := PrefixPatterns(a.tenant, a.subscribe);
    if sub.Err? {
      return Err(sub.error);
    }
    if |pub.value| == 0 && |sub.value| == 0 {
      return Err(NothingGranted);
    }
    var bad := CheckLogGrants(a.tenant, a.device, pub.value, sub.value);
    forall i | 0 <= i < |a.publish| ensures pub.value[i] == Prefix(a.tenant) + a.publish[i] {}
    forall i | 0 <= i < |a.subscribe| ensures sub.value[i] == Prefix(a.tenant) + a.subscribe[i] {}
    if bad.Some? {
      return Err(bad.value);
    }
    return Ok((pub.value, sub.value));
  }

  /** The filter and the tenant's log space meet in some topic. */
  ghost predicate MeetsLog(tenant: string, filter: string) {
    exists topic :: PlainTopic(topic) && Matches(tenant + "/log/#", topic) && Matches(filter, topic)
  }

  lemma TouchesIsMeeting(tenant: string, filter: string)
    requires ValidName(tenant) && LevelsWellFormed(Levels(filter))
    ensures Touches(tenant, filter) <==> MeetsLog(tenant, filter)
  {
    assert LogSpace(tenant) == tenant + "/log/#";
    if Touches(tenant, filter) {
      var topic := CommonTopic(tenant, filter);
    }
    if topic :| PlainTopic(topic) && Matches(tenant + "/log/#", topic) && Matches(filter, topic) {
      MatchingTouches(tenant, filter, topic);
    }
  }

  /** A relative pattern the API takes, read as text. */
  ghost predicate TakenAsText(relative: string) {
    && 1 <= |relative| <= 256 && relative[0] != '/' && relative[0] != '$' && '%' !in relative
    && WildcardsInPlace(relative, '/')
  }

  lemma ApiAcceptsExactly(tenant: string, relative: string)
    requires ValidName(tenant)
    ensures ApiAccepts(tenant, relative) <==> TakenAsText(relative)
  {
    SplitPrefix(tenant, relative, '/');
    assert Prefix(tenant) + relative == tenant + ['/'] + relative;
    WildcardsByPosition(relative, '/');
    assert '+' !in tenant && '#' !in tenant;
    WellFormedCons(tenant, Levels(relative));
  }

  /** What the writer takes of one pattern, read as text. */
  lemma WriterAcceptsExactly(tenant: string, pattern: string)
    ensures WriterAccepts(pattern, Prefix(tenant)) <==>
      && 1 <= |pattern| <= 256 && '%' !in pattern && WildcardsInPlace(pattern, '/')
      && |tenant| < |pattern| && pattern[..|tenant|] == tenant && pattern[|tenant|] == '/'
  {
    WildcardsByPosition(pattern, '/');
    if |tenant| < |pattern| {
      assert pattern[..|tenant| + 1] == pattern[..|tenant|] + [pattern[|tenant|]];
    }
  }

  /** Which accounts are accepted, in topics: lists of at most 32 patterns the API
      takes, something granted, every publish pattern that meets the tenant's log
      space the device's own log topic, and, for a device only, no subscribe
      pattern that meets it. A workload may subscribe there. */
  lemma AcceptedExactly(a: Account)
    requires ValidName(a.tenant) && (a.device != "" ==> ValidLabel(a.device))
    ensures Accepted(a) <==>
      && |a.publish| <= 32 && |a.subscribe| <= 32 && (a.publish != [] || a.subscribe != [])
      && (forall i :: 0 <= i < |a.publish| ==> TakenAsText(a.publish[i]))
      && (forall i :: 0 <= i < |a.subscribe| ==> TakenAsText(a.subscribe[i]))
      && (forall i :: 0 <= i < |a.publish| && MeetsLog(a.tenant, a.tenant + "/" + a.publish[i]) ==>
            a.device != "" && a.tenant + "/" + a.publish[i] == a.tenant + "/log/" + a.device)
      && (a.device != "" ==>
            forall i :: 0 <= i < |a.subscribe| ==> !MeetsLog(a.tenant, a.tenant + "/" + a.subscribe[i]))
  {
    forall i | 0 <= i < |a.publish|
      ensures ApiAccepts(a.tenant, a.publish[i]) <==> TakenAsText(a.publish[i])
      ensures TakenAsText(a.publish[i]) ==>
        (Touches(a.tenant, a.tenant + "/" + a.publish[i]) <==> MeetsLog(a.tenant, a.tenant + "/" + a.publish[i]))
    {
      TakenMeets(a.tenant, a.publish[i]);
    }
    forall i | 0 <= i < |a.subscribe|
      ensures ApiAccepts(a.tenant, a.subscribe[i]) <==> TakenAsText(a.subscribe[i])
      ensures TakenAsText(a.subscribe[i]) ==>
        (Touches(a.tenant, a.tenant + "/" + a.subscribe[i]) <==> MeetsLog(a.tenant, a.tenant + "/" + a.subscribe[i]))
    {
      TakenMeets(a.tenant, a.subscribe[i]);
    }
    assert a.device != "" ==> OwnLogTopic(a.tenant, a.device) == a.tenant + "/log/" + a.device;
  }

  lemma TakenMeets(tenant: string, relative: string)
    requires ValidName(tenant)
    ensures ApiAccepts(tenant, relative) <==> TakenAsText(relative)
    ensures TakenAsText(relative) ==>
      (Touches(tenant, tenant + "/" + relative) <==> MeetsLog(tenant, tenant + "/" + relative))
  {
    ApiAcceptsExactly(tenant, relative);
    if TakenAsText(relative) {
      assert Prefix(tenant) + relative == tenant + "/" + relative;
      TouchesIsMeeting(tenant, tenant + "/" + relative);
    }
  }

  lemma PrefixedTopicFirstLevel(tenant: string, relative: string, topic: string)
    requires ValidName(tenant) && Matches(Prefix(tenant) + relative, topic)
    ensures Levels(topic)[0] == tenant
  {
    SplitPrefix(tenant, relative, '/');
    assert Prefix(tenant) + relative == tenant + ['/'] + relative;
    FirstLevel(Prefix(tenant) + relative, topic, tenant);
  }

  /** No topic is within reach of two tenants' accounts. */
  lemma TopicConfinement(a: Account, b: Account, topic: string)
    requires Accepted(a) && Accepted(b)
    requires MayPublish(a, topic) || MayReceive(a, topic)
    requires MayPublish(b, topic) || MayReceive(b, topic)
    ensures a.tenant == b.tenant
  {
    WithinReach(a, topic);
    WithinReach(b, topic);
  }

  lemma WithinReach(a: Account, topic: string)
    requires Accepted(a) && (MayPublish(a, topic) || MayReceive(a, topic))
    ensures Levels(topic)[0] == a.tenant
  {
    if i :| 0 <= i < |a.publish| && Matches(Prefix(a.tenant) + a.publish[i], topic) {
      PrefixedTopicFirstLevel(a.tenant, a.publish[i], topic);
    } else {
      var i :| 0 <= i < |a.subscribe| && Matches(Prefix(a.tenant) + a.subscribe[i], topic);
      PrefixedTopicFirstLevel(a.tenant, a.subscribe[i], topic);
    }
  }

  /** What the bridge's +/log/# receives from under a tenant's first level is in that tenant's log space. */
  lemma BridgeTopic(tenant: string, topic: string)
    requires ValidName(tenant) && Levels(topic)[0] == tenant && Matches(BRIDGE_FILTER, topic)
    ensures Matches(LogSpace(tenant), topic)
  {
    LogSpaceLevels(tenant);
    InLogSpace(tenant, topic);
    var f, t := Levels(BRIDGE_FILTER), Levels(topic);
    assert f[1..] == [LOG_LEVEL, "#"];
    assert MatchLevels(f[1..], t[1..]);
    assert t[1..][0] == t[1];
  }

  /** Every line the bridge takes from an accepted account is that account's own
      device's log, under exactly its own topic. */
  lemma BridgeReceivesOnlyOwnLog(a: Account, topic: string)
    requires Accepted(a) && MayPublish(a, topic) && Matches(BRIDGE_FILTER, topic)
    ensures a.device != "" && topic == OwnLogTopic(a.tenant, a.device)
  {
    var i :| 0 <= i < |a.publish| && Matches(Prefix(a.tenant) + a.publish[i], topic);
    var p := Prefix(a.tenant) + a.publish[i];
    PrefixedTopicFirstLevel(a.tenant, a.publish[i], topic);
    BridgeTopic(a.tenant, topic);
    MatchingTouches(a.tenant, p, topic);
    assert PublishAllowed(a.tenant, a.device, p);
    OwnLogTopicLevels(a.tenant, a.device);
    LiteralMatchesItself(Levels(p), Levels(topic));
    SplitInjective(p, topic, '/');
  }

  lemma OwnLogTopicLevels(tenant: string, device: string)
    requires ValidName(tenant) && ValidLabel(device)
    ensures Levels(OwnLogTopic(tenant, device)) == [tenant, LOG_LEVEL, device]
    ensures "+" !in [tenant, LOG_LEVEL, device] && "#" !in [tenant, LOG_LEVEL, device]
  {
    var parts := [tenant, LOG_LEVEL, device];
    assert '/' !in device by {
      forall i | 0 <= i < |device| ensures device[i] != '/' {}
    }
    SplitJoin(parts, '/');
    JoinThree(tenant, LOG_LEVEL, device, '/');
    assert OwnLogTopic(tenant, device) == Join(parts, '/');
    assert tenant[0] != '+' && tenant[0] != '#' && device[0] != '+' && device[0] != '#';
  }

  /** No device account hears anything in the log space, its own tenant's or another's. */
  lemma DeviceHearsNoLog(a: Account, topic: string)
    requires Accepted(a) && a.device != "" && Matches(BRIDGE_FILTER, topic)
    ensures !MayReceive(a, topic)
  {
    if i :| 0 <= i < |a.subscribe| && Matches(Prefix(a.tenant) + a.subscribe[i], topic) {
      assert SubscribeAllowed(a.tenant, a.device, Prefix(a.tenant) + a.subscribe[i]);
      PrefixedTopicFirstLevel(a.tenant, a.subscribe[i], topic);
      BridgeTopic(a.tenant, topic);
      MatchingTouches(a.tenant, Prefix(a.tenant) + a.subscribe[i], topic);
    }
  }

  // --- Agreement of the two ends ---------------------------------------------------

  /** For a list the API accepts, the writer accepts the prefixed list exactly
      when no absolute pattern is over its limit. The API bounds the relative
      pattern by the same number, so a pattern within one prefix's length of
      the limit passes the API and is refused by the writer. */
  lemma WriterAgreesUpToLength(tenant: string, relatives: seq<string>)
    requires ValidName(tenant) && ApiAcceptsAll(tenant, relatives)
    ensures (forall i :: 0 <= i < |relatives| ==> WriterAccepts(Absolutes(tenant, relatives)[i], Prefix(tenant)))
      <==> (forall i :: 0 <= i < |relatives| ==> |tenant| + 1 + |relatives[i]| <= MAX_PATTERN)
  {
    forall i | 0 <= i < |relatives|
      ensures WriterAccepts(Absolutes(tenant, relatives)[i], Prefix(tenant))
        <==> |tenant| + 1 + |relatives[i]| <= MAX_PATTERN
    {
      var p := Absolutes(tenant, relatives)[i];
      assert ApiAccepts(tenant, relatives[i]);
      assert p[..|Prefix(tenant)|] == Prefix(tenant);
      assert '%' !in tenant by {
        forall j | 0 <= j < |tenant| ensures tenant[j] != '%' {}
      }
    }
  }

  // --- The writer's whole check -----------------------------------------------------

  const VERSION := 1
  const HASH_LENGTH := 60

  datatype Request = Request(version: int, op: string, tenant: string, account: string, passwordHash: string,
                             publish: seq<string>, subscribe: seq<string>)

  predicate ValidHash(hash: string) { |hash| == HASH_LENGTH && HasPrefix(hash, "$2a$") }

  /** What the writer lets through: a delete that names an account and nothing
      more, or a put whose every pattern is under its tenant's prefix. */
  predicate WriterValid(r: Request) {
    && r.version == VERSION && ValidName(r.tenant) && ValidLabel(r.account)
    && (r.op == "delete" || r.op == "put")
    && (r.op == "delete" ==> r.passwordHash == "" && r.publish == [] && r.subscribe == [])
    && (r.op == "put" ==>
          && ValidHash(r.passwordHash) && (r.publish != [] || r.subscribe != [])
          && |r.publish| <= MAX_PATTERNS && |r.subscribe| <= MAX_PATTERNS
          && (forall i :: 0 <= i < |r.publish| ==> WriterAccepts(r.publish[i], Prefix(r.tenant)))
          && (forall i :: 0 <= i < |r.subscribe| ==> WriterAccepts(r.subscribe[i], Prefix(r.tenant))))
  }

  method Validate(r: Request) returns (ok: bool)
    ensures ok <==> WriterValid(r)
  {
    if r.version != VERSION || !ValidName(r.tenant) || !ValidLabel(r.account) {
      return false;
    }
    if r.op == "delete" {
      return r.passwordHash == "" && |r.publish| == 0 && |r.subscribe| == 0;
    }
    if r.op != "put" || !ValidHash(r.passwordHash) || (|r.publish| == 0 && |r.subscribe| == 0) {
      return false;
    }
    var publish := ValidPatterns(r.publish, Prefix(r.tenant));
    if publish.Some? {
      return false;
    }
    var subscribe := ValidPatterns(r.subscribe, Prefix(r.tenant));
    return subscribe.None?;
  }

  /** The writer alone keeps tenants apart, whatever the API did or did not check. */
  lemma WriterConfinement(r: Request, q: Request, p: string, p': string, topic: string)
    requires WriterValid(r) && WriterValid(q)
    requires p in r.publish + r.subscribe && p' in q.publish + q.subscribe
    requires Matches(p, topic) && Matches(p', topic)
    ensures r.tenant == q.tenant
  {
    assert WriterAccepts(p, Prefix(r.tenant)) && WriterAccepts(p', Prefix(q.tenant));
    assert p == Prefix(r.tenant) + p[|Prefix(r.tenant)|..];
    assert p' == Prefix(q.tenant) + p'[|Prefix(q.tenant)|..];
    PrefixedTopicFirstLevel(r.tenant, p[|Prefix(r.tenant)|..], topic);
    PrefixedTopicFirstLevel(q.tenant, p'[|Prefix(q.tenant)|..], topic);
  }

  /** The put the API builds for an account it accepted passes the writer exactly
      when no absolute pattern is over the limit. */
  lemma WriterTakesApiRequest(a: Account, name: string, hash: string)
    requires Accepted(a) && ValidLabel(name) && ValidHash(hash)
    ensures WriterValid(Request(VERSION, "put", a.tenant, name, hash,
                                Absolutes(a.tenant, a.publish), Absolutes(a.tenant, a.subscribe)))
      <==> (forall r :: r in a.publish + a.subscribe ==> |a.tenant| + 1 + |r| <= MAX_PATTERN)
  {
    WriterAgreesUpToLength(a.tenant, a.publish);
    WriterAgreesUpToLength(a.tenant, a.subscribe);
    assert forall r :: r in a.publish + a.subscribe <==> r in a.publish || r in a.subscribe;
    assert forall r :: r in a.publish <==> exists i :: 0 <= i < |a.publish| && a.publish[i] == r;
    assert forall r :: r in a.subscribe <==> exists i :: 0 <= i < |a.subscribe| && a.subscribe[i] == r;
  }

  /** The writer's whole check, read as text. */
  lemma WriterValidExactly(r: Request)
    ensures WriterValid(r) <==>
      && r.version == 1 && ValidName(r.tenant) && ValidLabel(r.account)
      && (|| (r.op == "delete" && r.passwordHash == "" && r.publish == [] && r.subscribe == [])
          || (&& r.op == "put" && |r.passwordHash| == 60 && r.passwordHash[..4] == "$2a$"
              && (r.publish != [] || r.subscribe != []) && |r.publish| <= 32 && |r.subscribe| <= 32
              && (forall i :: 0 <= i < |r.publish| ==> WriterAccepts(r.publish[i], Prefix(r.tenant)))
              && (forall i :: 0 <= i < |r.subscribe| ==> WriterAccepts(r.subscribe[i], Prefix(r.tenant)))))
  {
  }

  /** The gap is real: a pattern the API takes and the writer refuses. */
  lemma LongPatternRefusedByWriter(relative: string)
    requires |relative| == MAX_PATTERN && forall i :: 0 <= i < |relative| ==> relative[i] == 'a'
    ensures ApiAccepts("eds", relative) && !WriterAccepts(Prefix("eds") + relative, Prefix("eds"))
  {
    var p := Prefix("eds") + relative;
    assert p == "eds" + ['/'] + relative;
    SplitPrefix("eds", relative, '/');
    SplitSingle(relative, '/');
    var levels := Levels(p);
    assert levels == ["eds", relative];
    assert '+' !in relative && '#' !in relative;
    assert LevelWellFormed(levels[0], false) && LevelWellFormed(levels[1], true);
  }
}
