/** MQTT topic filters: the two-cursor loop that matches a topic name against a filter, and the check
    that admits filters. Names and filters are compared level by level, levels being separated by '/'. */
module TopicMatcher {
  import opened Bytes

  const SLASH: byte := 47
  const PLUS: byte := 43
  const HASH: byte := 35

  predicate IsWild(c: byte) {
    c == PLUS || c == HASH
  }

  // ---------------------------------------------------------------- levels

  function Levels(s: seq<byte>): (levels: seq<seq<byte>>)
    ensures |levels| >= 1
  {
    if s == [] then [[]]
    else
      var rest := Levels(s[1..]);
      if s[0] == SLASH then [[]] + rest else [[s[0]] + rest[0]] + rest[1..]
  }

  predicate Literal(level: seq<byte>) {
    forall i :: 0 <= i < |level| ==> !IsWild(level[i])
  }

  /** Wildcards occupy whole levels. */
  predicate WholeLevels(levels: seq<seq<byte>>) {
    forall i :: 0 <= i < |levels| ==> Literal(levels[i]) || levels[i] == [PLUS] || levels[i] == [HASH]
  }

  /** What the loop accepts, level by level: '+' takes one non-empty level, and a final '#' takes
      whatever is left, if that does not start with an empty level. */
  predicate Matches(filter: seq<seq<byte>>, name: seq<seq<byte>>) {
    if filter == [] || name == [] then filter == name
    else if filter[0] == [HASH] then |filter| == 1 && name[0] != []
    else if filter[0] == [PLUS] then name[0] != [] && Matches(filter[1..], name[1..])
    else filter[0] == name[0] && Matches(filter[1..], name[1..])
  }

  /** Section 4.7.1 of MQTT 3.1.1: '+' takes exactly one level, and a final '#' takes any number of
      levels, the parent included. */
  predicate MqttMatches(filter: seq<seq<byte>>, name: seq<seq<byte>>) {
    if filter == [[HASH]] then true
    else if filter == [] || name == [] then filter == name
    else if filter[0] == [PLUS] then MqttMatches(filter[1..], name[1..])
    else filter[0] != [HASH] && filter[0] == name[0] && MqttMatches(filter[1..], name[1..])
  }

  /** A wildcard of the filter stands against an empty level, or a '#' against no level at all. */
  predicate WildAgainstNothing(filter: seq<seq<byte>>, name: seq<seq<byte>>) {
    exists i :: 0 <= i < |filter| && (
      || (filter[i] == [PLUS] && i < |name| && name[i] == [])
      || (filter[i] == [HASH] && (i >= |name| || name[i] == [])))
  }

  /** The loop's matches are exactly the standard's matches in which no wildcard stands against
      nothing; in particular every match it reports is one. */
  lemma {:induction false} MatchesIffMqtt(filter: seq<seq<byte>>, name: seq<seq<byte>>)
    ensures Matches(filter, name) <==> MqttMatches(filter, name) && !WildAgainstNothing(filter, name)
  {
    if filter != [] && name != [] && filter[0] != [HASH] {
      MatchesIffMqtt(filter[1..], name[1..]);
      if WildAgainstNothing(filter[1..], name[1..]) {
        var i :| 0 <= i < |filter[1..]| && (
          || (filter[1..][i] == [PLUS] && i < |name[1..]| && name[1..][i] == [])
          || (filter[1..][i] == [HASH] && (i >= |name[1..]| || name[1..][i] == [])));
        assert filter[i + 1] == filter[1..][i];
      }
      if WildAgainstNothing(filter, name) && !(filter[0] == [PLUS] && name[0] == []) {
        var i :| 0 <= i < |filter| && (
          || (filter[i] == [PLUS] && i < |name| && name[i] == [])
          || (filter[i] == [HASH] && (i >= |name| || name[i] == [])));
        assert filter[1..][i - 1] == filter[i];
      }
    }
  }

  /** "a/#" against "a": a match by the standard, which the loop misses. */
  lemma ParentIsMissed()
    ensures var filter: seq<seq<byte>> := [[97], [HASH]];
            Levels([97, SLASH, HASH]) == filter && Levels([97]) == [[97]] &&
            MqttMatches(filter, [[97]]) && !Matches(filter, [[97]])
  {
    var filter: seq<seq<byte>> := [[97], [HASH]];
    assert filter[1..] == [[HASH]] && [[97]][1..] == [];
    LevelsStep([97]);
    assert [97][1..] == [] && [97] + [] == [97];
    LevelsStep([HASH]);
    assert [HASH][1..] == [] && [HASH] + [] == [HASH];
    assert [SLASH, HASH][1..] == [HASH];
    LevelsStep([SLASH, HASH]);
    assert [97, SLASH, HASH][1..] == [SLASH, HASH];
    LevelsStep([97, SLASH, HASH]);
    assert Levels([97, SLASH, HASH]) == [[97] + []] + Levels([SLASH, HASH])[1..];
  }

  // ---------------------------------------------------------------- the loop, byte by byte

  ghost predicate Accepts(filter: seq<byte>, name: seq<byte>) {
    Matches(Levels(filter), Levels(name))
  }

  /** Removing a separator removes an empty level; removing another byte shortens the first level. */
  lemma LevelsStep(s: seq<byte>)
    requires s != []
    ensures s[0] == SLASH ==> Levels(s)[0] == [] && Levels(s)[1..] == Levels(s[1..])
    ensures s[0] != SLASH ==> Levels(s)[0] == [s[0]] + Levels(s[1..])[0] && Levels(s)[1..] == Levels(s[1..])[1..]
  {
  }

  lemma LiteralTail(c: byte, level: seq<byte>)
    requires Literal([c] + level)
    ensures !IsWild(c) && Literal(level)
  {
    assert ([c] + level)[0] == c;
    assert forall i :: 0 <= i < |level| ==> level[i] == ([c] + level)[i + 1];
  }

  predicate WholeLevel(level: seq<byte>) {
    Literal(level) || level == [PLUS] || level == [HASH]
  }

  lemma WholeFirst(c: byte, level: seq<byte>)
    requires WholeLevel([c] + level)
    ensures WholeLevel(level) && (IsWild(c) ==> level == []) && (!IsWild(c) ==> Literal([c] + level) && Literal(level))
  {
    if Literal([c] + level) {
      LiteralTail(c, level);
    } else {
      assert ([c] + level)[0] == c;
    }
  }

  lemma LevelsOfRest(s: seq<byte>)
    requires s != [] && WholeLevels(Levels(s))
    ensures WholeLevels(Levels(s[1..]))
    ensures IsWild(s[0]) ==> Levels(s[1..])[0] == []
    ensures !IsWild(s[0]) && s[0] != SLASH ==> Literal(Levels(s)[0])
  {
    hide Levels, Literal;
    var levels, rest := Levels(s), Levels(s[1..]);
    LevelsStep(s);
    assert WholeLevel(levels[0]);
    if s[0] == SLASH {
      assert forall i :: 0 <= i < |rest| ==> rest[i] == levels[1..][i] == levels[i + 1];
    } else {
      WholeFirst(s[0], rest[0]);
      assert forall i :: 1 <= i < |rest| ==> rest[i] == levels[1..][i - 1] == levels[i];
    }
  }

  /** Neither side left: accepted. One side left: not. */
  lemma AtEnd(filter: seq<byte>, name: seq<byte>)
    requires filter == [] || name == []
    ensures Accepts(filter, name) <==> filter == name
  {
    var f, n := Levels(filter), Levels(name);
    if filter != [] {
      LevelsStep(filter);
      assert n == [[]] && n[0] == [] && n[1..] == [];
      if filter[0] == SLASH {
        assert f[1..] != [] && !Matches(f[1..], n[1..]);
      } else {
        assert f[0] != n[0];
      }
    } else if name != [] {
      LevelsStep(name);
      assert f == [[]] && f[0] == [] && f[1..] == [];
      if name[0] == SLASH {
        assert n[1..] != [] && !Matches(f[1..], n[1..]);
      } else {
        assert n[0] != f[0];
      }
    }
  }

  /** A name at a separator where the filter is not, or two different bytes: no match. */
  lemma Mismatch(filter: seq<byte>, name: seq<byte>)
    requires filter != [] && name != [] && WholeLevels(Levels(filter))
    requires (name[0] == SLASH && filter[0] != SLASH) || (!IsWild(filter[0]) && filter[0] != name[0])
    ensures !Accepts(filter, name)
  {
    hide Levels;
    LevelsOfRest(filter);
    LevelsStep(filter);
    LevelsStep(name);
    var f, n := Levels(filter), Levels(name);
    if filter[0] != SLASH {
      assert f[0][0] == filter[0];
    }
    if name[0] != SLASH {
      assert n[0][0] == name[0];
    }
  }

  lemma SameByte(filter: seq<byte>, name: seq<byte>)
    requires filter != [] && name != [] && WholeLevels(Levels(filter)) && !IsWild(filter[0]) && filter[0] == name[0]
    ensures Accepts(filter, name) <==> Accepts(filter[1..], name[1..])
  {
    hide Levels;
    LevelsOfRest(filter);
    LevelsStep(filter);
    LevelsStep(name);
    var f, n := Levels(filter[1..]), Levels(name[1..]);
    if filter[0] != SLASH {
      assert Levels(filter)[0][1..] == f[0] && Levels(name)[0][1..] == n[0];
      assert Levels(filter)[0][0] == filter[0];
      LiteralTail(filter[0], f[0]);
      assert f[0] != [] ==> !IsWild(f[0][0]);
    }
  }

  /** The level a name starts with: its first `k` bytes. */
  lemma {:induction false} FirstLevel(name: seq<byte>, k: nat)
    requires k <= |name| && (forall i :: 0 <= i < k ==> name[i] != SLASH) && (k < |name| ==> name[k] == SLASH)
    ensures Levels(name)[0] == name[..k] && Levels(name)[1..] == Levels(name[k..])[1..] && Levels(name[k..])[0] == []
  {
    if k == 0 {
      assert name[0..] == name;
    } else {
      FirstLevel(name[1..], k - 1);
      assert name[1..][k - 1..] == name[k..];
      assert [name[0]] + name[1..][..k - 1] == name[..k];
    }
  }

  lemma AfterPlus(filter: seq<byte>, name: seq<byte>, k: nat)
    requires filter != [] && filter[0] == PLUS && WholeLevels(Levels(filter))
    requires 0 < k <= |name| && (forall i :: 0 <= i < k ==> name[i] != SLASH) && (k < |name| ==> name[k] == SLASH)
    ensures Accepts(filter, name) <==> Accepts(filter[1..], name[k..])
  {
    LevelsOfRest(filter);
    FirstLevel(name, k);
    var f := Levels(filter[1..]);
    assert Levels(filter)[1..] == f[1..];
    assert Levels(filter)[0] == [PLUS] by { assert [PLUS] + [] == [PLUS]; }
  }

  lemma AfterHash(filter: seq<byte>, name: seq<byte>)
    requires filter != [] && filter[0] == HASH && WholeLevels(Levels(filter)) && name != [] && name[0] != SLASH
    ensures Accepts(filter, name) <==> |filter| == 1
  {
    LevelsOfRest(filter);
    assert Levels(filter)[0] == [HASH] by { assert [HASH] + [] == [HASH]; }
    if |filter| > 1 {
      assert filter[1] == SLASH;
    }
  }

  /** How far a '+' at the start of `name` reaches: over its first byte and to the next separator. */
  function Reach(name: seq<byte>): (k: nat)
    requires name != []
    ensures 0 < k <= |name|
    ensures forall i :: 1 <= i < k ==> name[i] != SLASH
    ensures k < |name| ==> name[k] == SLASH
  {
    if |name| > 1 && name[1] != SLASH then 1 + Reach(name[1..]) else 1
  }

  /** Two bytes at which the loop gives up. */
  predicate Clash(c: byte, d: byte) {
    (d == SLASH && c != SLASH) || (!IsWild(c) && c != d)
  }

  /** The loop on any filter, byte by byte: '+' takes the rest of a level, '#' the rest of the name. */
  predicate Scans(filter: seq<byte>, name: seq<byte>) {
    if filter == [] || name == [] then filter == name
    else if Clash(filter[0], name[0]) then false
    else if filter[0] == PLUS then Scans(filter[1..], name[Reach(name)..])
    else if filter[0] == HASH then filter[1..] == []
    else Scans(filter[1..], name[1..])
  }

  /** On filters whose wildcards occupy whole levels, that is matching level by level. */
  lemma {:induction false} ScansIsMatches(filter: seq<byte>, name: seq<byte>)
    requires WholeLevels(Levels(filter))
    ensures Scans(filter, name) <==> Matches(Levels(filter), Levels(name))
    decreases |filter|
  {
    hide Levels, Matches, WholeLevels;
    if filter == [] || name == [] {
      AtEnd(filter, name);
    } else {
      LevelsOfRest(filter);
      if Clash(filter[0], name[0]) {
        Mismatch(filter, name);
      } else if filter[0] == PLUS {
        AfterPlus(filter, name, Reach(name));
        ScansIsMatches(filter[1..], name[Reach(name)..]);
      } else if filter[0] == HASH {
        AfterHash(filter, name);
      } else {
        SameByte(filter, name);
        ScansIsMatches(filter[1..], name[1..]);
      }
    }
  }

  /** iot_mc_is_topic_matched: two cursors, the filter ending at its terminating NUL. */
  method IsTopicMatched(filter: seq<byte>, name: seq<byte>) returns (matched: bool)
    ensures matched <==> Scans(filter, name)
    ensures WholeLevels(Levels(filter)) ==> (matched <==> Matches(Levels(filter), Levels(name)))
  {
    hide Matches, WholeLevels, Levels;
    var f, n := 0, 0;
    assert filter[0..] == filter && name[0..] == name;
    while f < |filter| && n < |name|
      invariant 0 <= f <= |filter| && 0 <= n <= |name|
      invariant Scans(filter, name) <==> Scans(filter[f..], name[n..])
      decreases |filter| - f
    {
      ghost var left := name[n..];
      assert filter[f..][1..] == filter[f + 1..] && left[1..] == name[n + 1..];
      if (name[n] == SLASH && filter[f] != SLASH) || (!IsWild(filter[f]) && filter[f] != name[n]) {
        break;
      }
      if filter[f] == PLUS {
        ghost var start := n;
        while n + 1 < |name| && name[n + 1] != SLASH
          invariant start <= n < |name| && start + Reach(left) == n + Reach(name[n..])
        {
          assert name[n..][1..] == name[n + 1..];
          n := n + 1;
        }
        assert left[n + 1 - start..] == name[n + 1..];
      } else if filter[f] == HASH {
        n := |name| - 1;
        assert name[n + 1..] == [];
      }
      f, n := f + 1, n + 1;
    }
    matched := n == |name| && f == |filter|;
    if WholeLevels(Levels(filter)) {
      ScansIsMatches(filter, name);
    }
  }

  // ---------------------------------------------------------------- the filter check

  const MAX_TOPIC: nat := 128

  predicate IsText(c: byte) {
    32 <= c < 127
  }

  predicate GoodToken(token: seq<byte>, isFilter: bool) {
    forall i :: 0 <= i < |token| ==> IsText(token[i]) && (IsWild(token[i]) ==> isFilter && |token| == 1)
  }

  /** iot_mc_check_rule. */
  method CheckRule(token: seq<byte>, isFilter: bool) returns (ok: bool)
    ensures ok <==> GoodToken(token, isFilter)
  {
    var i := 0;
    while i < |token|
      invariant i <= |token|
      invariant forall j :: 0 <= j < i ==> IsText(token[j]) && (IsWild(token[j]) ==> isFilter && |token| == 1)
    {
      if isFilter {
        if IsWild(token[i]) {
          if |token| != 1 {
            return false;
          }
        }
      } else {
        if IsWild(token[i]) {
          return false;
        }
      }
      if token[i] < 32 || token[i] >= 127 {
        return false;
      }
      i := i + 1;
    }
    return true;
  }

  /** The tokens strtok finds: the levels that are not empty. */
  function Tokens(levels: seq<seq<byte>>): (tokens: seq<seq<byte>>)
    ensures forall i :: 0 <= i < |tokens| ==> tokens[i] in levels && tokens[i] != []
  {
    if levels == [] then [] else (if levels[0] == [] then [] else [levels[0]]) + Tokens(levels[1..])
  }

  /** The part of a topic that is copied out and checked. */
  function Checked(topic: seq<byte>): seq<byte> {
    if |topic| < MAX_TOPIC then topic else topic[..MAX_TOPIC - 1]
  }

  /** A topic passes: it is short enough, has a token, every token is good, and no '#' token but the
      very first is followed by another token. */
  predicate Passes(topic: seq<byte>, isFilter: bool) {
    var tokens := Tokens(Levels(Checked(topic)));
    && |topic| <= MAX_TOPIC && tokens != []
    && (forall i :: 0 <= i < |tokens| ==> GoodToken(tokens[i], isFilter))
    && (forall i :: 1 <= i < |tokens| - 1 ==> tokens[i][0] != HASH)
  }

  /** iot_mc_check_topic: the first token is checked before the loop, which alone notes a '#'. */
  method CheckTopic(topic: seq<byte>, isFilter: bool) returns (ok: bool)
    ensures ok <==> Passes(topic, isFilter)
  {
    if |topic| > MAX_TOPIC {
      return false;
    }
    var tokens := Tokens(Levels(Checked(topic)));
    if tokens == [] {
      return false;
    }
    ok := CheckRule(tokens[0], isFilter);
    if !ok {
      return;
    }
    var mask, k := false, 1;
    while k < |tokens|
      invariant 1 <= k <= |tokens|
      invariant forall i :: 0 <= i < k ==> GoodToken(tokens[i], isFilter)
      invariant forall i :: 1 <= i < k - 1 ==> tokens[i][0] != HASH
      invariant mask <==> k > 1 && tokens[k - 1][0] == HASH
    {
      if mask {
        return false;
      }
      ok := CheckRule(tokens[k], isFilter);
      if !ok {
        return;
      }
      mask := tokens[k][0] == HASH;
      k := k + 1;
    }
    return true;
  }

  lemma {:induction false} LevelIsToken(levels: seq<seq<byte>>, i: nat)
    requires i < |levels| && levels[i] != []
    ensures levels[i] in Tokens(levels)
  {
    if i > 0 {
      LevelIsToken(levels[1..], i - 1);
    }
  }

  /** The part that is checked has its wildcards on whole levels. */
  lemma CheckedIsWhole(filter: seq<byte>)
    requires Passes(filter, true)
    ensures WholeLevels(Levels(Checked(filter)))
  {
    var levels := Levels(Checked(filter));
    forall i | 0 <= i < |levels| ensures WholeLevel(levels[i]) {
      if levels[i] != [] {
        LevelIsToken(levels, i);
        assert GoodToken(levels[i], true);
      }
    }
  }

  /** Levels with one byte more, at the end or at the start: it opens a level or lengthens one. */
  function MoreAfter(levels: seq<seq<byte>>, c: byte): seq<seq<byte>>
    requires |levels| >= 1
  {
    var n := |levels| - 1;
    if c == SLASH then levels + [[]] else levels[..n] + [levels[n] + [c]]
  }

  function MoreBefore(b: byte, levels: seq<seq<byte>>): seq<seq<byte>>
    requires |levels| >= 1
  {
    if b == SLASH then [[]] + levels else [[b] + levels[0]] + levels[1..]
  }

  lemma MoreBothWays(b: byte, levels: seq<seq<byte>>, c: byte)
    requires |levels| >= 1
    ensures MoreAfter(MoreBefore(b, levels), c) == MoreBefore(b, MoreAfter(levels, c))
  {
    if b != SLASH && c != SLASH && |levels| == 1 {
      assert [b] + (levels[0] + [c]) == ([b] + levels[0]) + [c];
    }
  }

  lemma {:induction false} LevelsMore(s: seq<byte>, c: byte)
    ensures Levels(s + [c]) == MoreAfter(Levels(s), c)
  {
    if s == [] {
      assert s + [c] == [c] && [c][1..] == [];
      assert [c] + [] == [c];
    } else {
      assert (s + [c])[1..] == s[1..] + [c];
      LevelsMore(s[1..], c);
      MoreBothWays(s[0], Levels(s[1..]), c);
    }
  }

  predicate EndsIn(level: seq<byte>, c: byte) {
    if c == SLASH then level == [] else level != [] && level[|level| - 1] == c
  }

  /** The last level of a name ends with its last byte, and is empty after a separator. */
  lemma LastLevel(s: seq<byte>)
    requires s != []
    ensures EndsIn(Levels(s)[|Levels(s)| - 1], s[|s| - 1])
  {
    var front, c := s[..|s| - 1], s[|s| - 1];
    assert front + [c] == s;
    LevelsMore(front, c);
  }

  /** A byte may follow another in a filter: a wildcard only a separator, an ordinary byte no wildcard. */
  predicate Follows(c: byte, before: byte) {
    c == SLASH || (if IsWild(c) then before == SLASH else !IsWild(before))
  }

  lemma WholeMore(s: seq<byte>, c: byte)
    requires s != [] && WholeLevels(Levels(s))
    ensures WholeLevels(Levels(s + [c])) <==> Follows(c, s[|s| - 1])
  {
    hide Levels, WholeLevels, MoreAfter, Follows, EndsIn;
    LevelsMore(s, c);
    LastLevel(s);
    WholeMoreLevels(Levels(s), c, s[|s| - 1]);
  }

  lemma WholeMoreLevels(levels: seq<seq<byte>>, c: byte, before: byte)
    requires |levels| >= 1 && WholeLevels(levels)
    requires EndsIn(levels[|levels| - 1], before)
    ensures WholeLevels(MoreAfter(levels, c)) <==> Follows(c, before)
  {
    hide WholeLevels, WholeLevel;
    var n := |levels| - 1;
    assert levels == levels[..n] + [levels[n]];
    WholeSplit(levels[..n], levels[n]);
    WholeSplit(levels, []);
    WholeSplit(levels[..n], levels[n] + [c]);
    EmptyIsWhole();
    if c != SLASH {
      WholeLevelMore(levels[n], c);
    }
  }

  lemma WholeSplit(levels: seq<seq<byte>>, last: seq<byte>)
    ensures WholeLevels(levels + [last]) <==> WholeLevels(levels) && WholeLevel(last)
  {
    var all := levels + [last];
    assert all[|levels|] == last && forall i :: 0 <= i < |levels| ==> all[i] == levels[i];
  }

  lemma EmptyIsWhole()
    ensures WholeLevel([])
  {
  }

  lemma WholeLevelMore(level: seq<byte>, c: byte)
    requires WholeLevel(level) && c != SLASH
    ensures WholeLevel(level + [c]) <==>
            if IsWild(c) then level == [] else level == [] || !IsWild(level[|level| - 1])
  {
    var more, n := level + [c], |level|;
    assert more[n] == c && forall i :: 0 <= i < n ==> more[i] == level[i];
    if n > 0 {
      assert more[0] == level[0] && |more| > 1;
    }
  }

  /** What passes the check has its wildcards on whole levels, as level matching needs, exactly when it
      is shorter than 128 bytes or its last byte, which the check does not see, may follow the one before. */
  lemma PassingIsWholeIff(filter: seq<byte>)
    requires Passes(filter, true)
    ensures WholeLevels(Levels(filter)) <==>
            |filter| < MAX_TOPIC || Follows(filter[MAX_TOPIC - 1], filter[MAX_TOPIC - 2])
  {
    hide Passes, Levels;
    CheckedIsWhole(filter);
    PassingLength(filter);
    if |filter| == MAX_TOPIC {
      var s := filter[..MAX_TOPIC - 1];
      assert s + [filter[MAX_TOPIC - 1]] == filter;
      WholeMore(s, filter[MAX_TOPIC - 1]);
    }
  }

  lemma PassingLength(filter: seq<byte>)
    requires Passes(filter, true)
    ensures |filter| <= MAX_TOPIC
  {
  }

  /** 127 letters and a '+': it passes, and its wildcard is not a level. */
  lemma LongFilterPasses()
    ensures var filter: seq<byte> := seq(127, _ => 97) + [PLUS];
            Passes(filter, true) && !WholeLevels(Levels(filter))
  {
    var s: seq<byte> := seq(127, _ => 97);
    var filter := s + [PLUS];
    OneLevel(s);
    assert Checked(filter) == s;
    assert Tokens([s]) == [s] by {
      assert [s][1..] == [];
    }
    assert GoodToken(s, true);
    assert Passes(filter, true);
    PassingIsWholeIff(filter);
  }

  lemma {:induction false} OneLevel(s: seq<byte>)
    requires SLASH !in s
    ensures Levels(s) == [s]
  {
    if s != [] {
      OneLevel(s[1..]);
      assert [s[0]] + s[1..] == s;
    }
  }

  /** '#' only as the last level. */
  predicate HashLast(levels: seq<seq<byte>>) {
    forall i :: 0 <= i < |levels| - 1 ==> levels[i] != [HASH]
  }

  /** The check does not guarantee that, so here is exactly when it holds: no '#' before the last byte. */
  lemma {:induction false} HashLastIff(filter: seq<byte>)
    requires WholeLevels(Levels(filter))
    ensures HashLast(Levels(filter)) <==> forall i :: 0 <= i < |filter| - 1 ==> filter[i] != HASH
  {
    hide Levels;
    if filter == [] {
      assert |Levels(filter)| == 1 by { NoLevels(); }
    } else {
      var levels, rest := Levels(filter), Levels(filter[1..]);
      LevelsStep(filter);
      LevelsOfRest(filter);
      HashLastIff(filter[1..]);
      assert forall i :: 1 <= i < |filter| ==> filter[i] == filter[1..][i - 1];
      if filter[0] == SLASH {
        assert forall i :: 0 <= i < |rest| ==> levels[i + 1] == levels[1..][i] == rest[i];
      } else {
        assert forall i :: 1 <= i < |levels| ==> levels[i] == levels[1..][i - 1] == rest[1..][i - 1] == rest[i];
        if filter[0] == HASH {
          assert levels[0] == [HASH];
          if |filter| == 1 {
            NoLevels();
          } else {
            LevelsStep(filter[1..]);
          }
        } else {
          assert levels[0][0] == filter[0];
          if filter[0] != PLUS {
            LiteralTail(filter[0], rest[0]);
            assert rest[0] != [] ==> !IsWild(rest[0][0]);
          }
          assert levels[0] != [HASH] && rest[0] != [HASH];
          assert HashLast(levels) <==> HashLast(rest);
        }
      }
    }
  }

  lemma NoLevels()
    ensures Levels([]) == [[]]
  {
  }

  /** The check lets "#/a" through, although its '#' is not last; the matcher never matches it. */
  lemma HashFirstPasses()
    ensures Passes([HASH, SLASH, 97], true) && !HashLast(Levels([HASH, SLASH, 97]))
    ensures forall name: seq<seq<byte>> :: name != [] ==> !Matches(Levels([HASH, SLASH, 97]), name)
  {
    var s: seq<byte> := [HASH, SLASH, 97];
    LevelsStep(s);
    assert s[1..] == [SLASH, 97];
    LevelsStep([SLASH, 97]);
    assert [SLASH, 97][1..] == [97];
    LevelsStep([97]);
    assert [97][1..] == [] && [97] + [] == [97] && [HASH] + [] == [HASH];
    assert Levels([97]) == [[97]];
    assert Levels([SLASH, 97]) == [[]] + [[97]];
    var levels: seq<seq<byte>> := [[HASH], [97]];
    assert Levels(s) == levels;
    assert levels[1..] == [[97]] && [[97]][1..] == [];
    assert Tokens(levels) == levels;
  }
}
