/** Topic names and topic filters as section 4.7 of MQTT 3.1.1 defines them.
    This is the broker's side: the meaning that the API's syntactic checks on a
    grant are measured against. */
module Topics {
  import opened Text

  function Levels(s: string): seq<string> { Split(s, '/') }

  /** Section 4.7.1: `+` is one level, `#` is the level above it and every level below. */
  predicate MatchLevels(filter: seq<string>, topic: seq<string>) {
    if filter == [] then topic == []
    else if filter[0] == "#" then |filter| == 1
    else topic != [] && (filter[0] == "+" || filter[0] == topic[0]) && MatchLevels(filter[1..], topic[1..])
  }

  /** Section 4.7.2: a filter that starts with a wildcard does not match a topic that starts with `$`. */
  predicate Matches(filter: string, topic: string) {
    && MatchLevels(Levels(filter), Levels(topic))
    && !(HasPrefix(topic, "$") && (HasPrefix(filter, "+") || HasPrefix(filter, "#")))
  }

  /** Section 4.7.3: a topic name has at least one character, no wildcard and no null. */
  predicate ValidTopic(topic: string) {
    topic != [] && '+' !in topic && '#' !in topic && '\0' !in topic
  }

  /** The wildcard rule on one level of a filter: alone in it, and `#` only in the last. */
  predicate LevelWellFormed(level: string, last: bool) {
    ('+' in level ==> level == "+") && ('#' in level ==> level == "#" && last)
  }

  predicate LevelsWellFormed(levels: seq<string>) {
    forall i :: 0 <= i < |levels| ==> LevelWellFormed(levels[i], i == |levels| - 1)
  }

  predicate WellFormedFilter(filter: string) {
    filter != [] && '\0' !in filter && LevelsWellFormed(Levels(filter))
  }

  /** Levels that the filter matches: wildcards filled in, a final `#` dropped. */
  function Concretise(filter: seq<string>): seq<string> {
    if filter == [] || filter[0] == "#" then []
    else [if filter[0] == "+" then "x" else filter[0]] + Concretise(filter[1..])
  }

  lemma {:induction false} ConcretiseMatches(filter: seq<string>)
    requires LevelsWellFormed(filter)
    ensures MatchLevels(filter, Concretise(filter))
  {
    if filter != [] {
      if filter[0] == "#" {
        assert LevelWellFormed(filter[0], 0 == |filter| - 1);
        assert '#' in "#";
      } else {
        var rest := filter[1..];
        forall i | 0 <= i < |rest| ensures LevelWellFormed(rest[i], i == |rest| - 1) {
          assert rest[i] == filter[i + 1];
        }
        ConcretiseMatches(rest);
        assert Concretise(filter)[1..] == Concretise(rest);
      }
    }
  }

  /** Every level Concretise produces can be a level of a topic name. */
  lemma {:induction false} ConcretiseLevels(filter: seq<string>)
    requires LevelsWellFormed(filter)
    requires forall i :: 0 <= i < |filter| ==> '/' !in filter[i]
    ensures forall i :: 0 <= i < |Concretise(filter)| ==>
      var l := Concretise(filter)[i]; '/' !in l && '+' !in l && '#' !in l
    ensures (forall i :: 0 <= i < |filter| ==> '\0' !in filter[i]) ==>
      forall i :: 0 <= i < |Concretise(filter)| ==> '\0' !in Concretise(filter)[i]
  {
    if filter != [] && filter[0] != "#" {
      var rest := filter[1..];
      forall i | 0 <= i < |rest| ensures LevelWellFormed(rest[i], i == |rest| - 1) {
        assert rest[i] == filter[i + 1];
      }
      ConcretiseLevels(rest);
      assert LevelWellFormed(filter[0], 0 == |filter| - 1);
    }
  }

  /** A filter without wildcards matches one topic: itself. */
  lemma {:induction false} LiteralMatchesItself(filter: seq<string>, topic: seq<string>)
    requires "+" !in filter && "#" !in filter
    ensures MatchLevels(filter, topic) <==> filter == topic
  {
    if filter != [] && topic != [] {
      LiteralMatchesItself(filter[1..], topic[1..]);
      assert filter == [filter[0]] + filter[1..] && topic == [topic[0]] + topic[1..];
    }
  }

  /** What matches under a literal first level starts with that level. */
  lemma FirstLevel(filter: string, topic: string, head: string)
    requires Matches(filter, topic)
    requires Levels(filter)[0] == head && head != "+" && head != "#"
    ensures Levels(topic)[0] == head
  {
  }

  /** A name a topic filter could be matched against, a null aside. */
  predicate PlainTopic(topic: string) {
    topic != [] && '+' !in topic && '#' !in topic
  }

  lemma TopicFromLevels(levels: seq<string>)
    requires |levels| >= 1 && levels[0] != []
    requires forall i :: 0 <= i < |levels| ==> var l := levels[i]; '/' !in l && '+' !in l && '#' !in l
    ensures Levels(Join(levels, '/')) == levels && PlainTopic(Join(levels, '/'))
    ensures (forall i :: 0 <= i < |levels| ==> '\0' !in levels[i]) ==> ValidTopic(Join(levels, '/'))
    ensures Join(levels, '/')[..1] == levels[0][..1]
  {
    SplitJoin(levels, '/');
    var t := Join(levels, '/');
    SplitMembers(t, '/', '+');
    SplitMembers(t, '/', '#');
    SplitMembers(t, '/', '\0');
  }

  // --- The wildcard rule, read character by character -----------------------------------------------

  /** Section 4.7.1 on the text itself: each wildcard follows a separator, `+` is
      followed by one or nothing, `#` by nothing. prev is the character before s. */
  predicate WildcardsInPlace(s: string, prev: char) {
    s == [] ||
    (&& (s[0] == '+' ==> prev == '/' && (|s| == 1 || s[1] == '/'))
     && (s[0] == '#' ==> prev == '/' && |s| == 1)
     && WildcardsInPlace(s[1..], s[0]))
  }

  lemma WellFormedCons(level: string, rest: seq<string>)
    ensures LevelsWellFormed([level] + rest) <==> LevelWellFormed(level, rest == []) && LevelsWellFormed(rest)
  {
    var all := [level] + rest;
    if LevelsWellFormed(all) {
      assert LevelWellFormed(all[0], 0 == |all| - 1);
      forall i | 0 <= i < |rest| ensures LevelWellFormed(rest[i], i == |rest| - 1) {
        assert rest[i] == all[i + 1];
        assert LevelWellFormed(all[i + 1], i + 1 == |all| - 1);
      }
    }
  }

  /** The rule on levels is the rule on characters; and after a character that is
      no separator, the first level may have no wildcard at all. */
  lemma {:induction false} WildcardsByPosition(s: string, prev: char)
    ensures WildcardsInPlace(s, prev) <==>
      if prev == '/' then LevelsWellFormed(Levels(s))
      else '+' !in Levels(s)[0] && '#' !in Levels(s)[0] && LevelsWellFormed(Levels(s)[1..])
  {
    if s == [] {
      WellFormedCons([], []);
      assert Levels(s) == [[]] + [] && Levels(s)[1..] == [];
    } else {
      var rest := Levels(s[1..]);
      WildcardsByPosition(s[1..], s[0]);
      if s[0] == '/' {
        assert Levels(s) == [[]] + rest && Levels(s)[1..] == rest;
        WellFormedCons([], rest);
      } else {
        StartsLevel(s[1..]);
        var first := [s[0]] + rest[0];
        assert Levels(s) == [first] + rest[1..] && Levels(s)[1..] == rest[1..];
        assert '+' in first <==> s[0] == '+' || '+' in rest[0];
        assert '#' in first <==> s[0] == '#' || '#' in rest[0];
        assert first == "+" <==> s[0] == '+' && rest[0] == [];
        assert first == "#" <==> s[0] == '#' && rest[0] == [];
        WellFormedCons(first, rest[1..]);
      }
    }
  }

  lemma StartsLevel(s: string)
    ensures Levels(s)[0] == [] <==> s == [] || s[0] == '/'
    ensures s == [] <==> Levels(s) == [[]]
  {
  }

  // --- The standard's own examples -----------------------------------------------------------------------

  /** Of section 4.7.1.2 and 4.7.1.3, as levels. */
  lemma StandardExamples()
    ensures MatchLevels(["sport", "tennis", "player1", "#"], ["sport", "tennis", "player1"])
    ensures MatchLevels(["sport", "tennis", "player1", "#"], ["sport", "tennis", "player1", "ranking"])
    ensures MatchLevels(["sport", "tennis", "player1", "#"], ["sport", "tennis", "player1", "score", "wimbledon"])
    ensures MatchLevels(["#"], ["anything"])
    ensures MatchLevels(["sport", "tennis", "+"], ["sport", "tennis", "player1"])
    ensures !MatchLevels(["sport", "tennis", "+"], ["sport", "tennis", "player1", "ranking"])
    ensures !MatchLevels(["sport", "+"], ["sport"])
    ensures MatchLevels(["sport", "+"], ["sport", ""])
    ensures MatchLevels(["+", "+"], ["", "finance"]) && MatchLevels(["", "+"], ["", "finance"])
    ensures !MatchLevels(["+"], ["", "finance"])
  {
    var f, t := ["sport", "tennis", "player1", "#"], ["sport", "tennis", "player1"];
    assert f[1..] == ["tennis", "player1", "#"] && f[1..][1..] == ["player1", "#"] && f[1..][1..][1..] == ["#"];
    assert t[1..][1..][1..] == [];
    var g, u := ["sport", "tennis", "+"], ["sport", "tennis", "player1", "ranking"];
    assert g[1..] == ["tennis", "+"] && g[1..][1..] == ["+"] && g[1..][1..][1..] == [];
    assert u[1..][1..][1..] == ["ranking"];
    assert MatchLevels(g[1..][1..], t[1..][1..]) && MatchLevels(g[1..], t[1..]);
    assert !MatchLevels(g[1..][1..], u[1..][1..]) && !MatchLevels(g[1..], u[1..]);
  }

  /** Of section 4.7.2: a leading wildcard does not reach a `$` topic, a literal one does. */
  lemma DollarTopics(filter: string, topic: string)
    requires topic != [] && topic[0] == '$' && filter != []
    ensures filter[0] == '+' || filter[0] == '#' ==> !Matches(filter, topic)
    ensures filter[0] != '+' && filter[0] != '#' ==> (Matches(filter, topic) <==>
      MatchLevels(Levels(filter), Levels(topic)))
  {
  }
}
