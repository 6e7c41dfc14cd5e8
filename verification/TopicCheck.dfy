/** What the topic check admits, byte by byte: the check walks over tokens, and this says what that means
    for the topic itself. */
module TopicCheck {
  import opened Bytes
  import opened TopicMatcher

  function TokensOf(s: seq<byte>): seq<seq<byte>> {
    Tokens(Levels(s))
  }

  /** One byte more in front: a separator changes no token, another byte starts a token or extends the first. */
  lemma TokensStep(s: seq<byte>)
    requires s != []
    ensures var c, rest := s[0], s[1..];
            if c == SLASH then TokensOf(s) == TokensOf(rest)
            else if rest == [] || rest[0] == SLASH then TokensOf(s) == [[c]] + TokensOf(rest)
            else
              && TokensOf(rest) != [] && TokensOf(rest)[0] != [] && TokensOf(rest)[0][0] == rest[0]
              && TokensOf(s) == [[c] + TokensOf(rest)[0]] + TokensOf(rest)[1..]
  {
    var c, rest := s[0], s[1..];
    var all, levels := Levels(s), Levels(rest);
    LevelsStep(s);
    FirstLevel(rest);
    hide Levels, Tokens;
    TokensUnfold(all);
    TokensUnfold(levels);
    if c == SLASH {
      assert all[1..] == levels;
    } else if levels[0] == [] {
      assert [c] + [] == [c];
    } else {
      assert Tokens(levels)[1..] == Tokens(levels[1..]);
    }
  }

  lemma TokensUnfold(levels: seq<seq<byte>>)
    requires levels != []
    ensures Tokens(levels) == if levels[0] == [] then Tokens(levels[1..]) else [levels[0]] + Tokens(levels[1..])
  {
    assert [] + Tokens(levels[1..]) == Tokens(levels[1..]);
  }

  lemma FirstLevel(s: seq<byte>)
    ensures Levels(s)[0] == [] <==> s == [] || s[0] == SLASH
    ensures Levels(s)[0] != [] ==> Levels(s)[0][0] == s[0]
  {
    if s != [] {
      LevelsStep(s);
    }
  }

  predicate AllSlash(s: seq<byte>) {
    forall i :: 0 <= i < |s| ==> s[i] == SLASH
  }

  lemma {:induction false} NoTokens(s: seq<byte>)
    ensures TokensOf(s) == [] <==> AllSlash(s)
  {
    hide TokensOf;
    if s == [] {
      NoBytes();
    } else {
      TokensStep(s);
      NoTokens(s[1..]);
      assert s == [s[0]] + s[1..];
    }
  }

  lemma NoBytes()
    ensures TokensOf([]) == []
  {
    var levels: seq<seq<byte>> := [[]];
    assert Levels([]) == levels && levels[1..] == [];
  }

  predicate Every(token: seq<byte>, ok: byte -> bool) {
    forall i :: 0 <= i < |token| ==> ok(token[i])
  }

  predicate EachEvery(tokens: seq<seq<byte>>, ok: byte -> bool) {
    forall i :: 0 <= i < |tokens| ==> Every(tokens[i], ok)
  }

  /** The bytes of the tokens are the bytes that are no separators. */
  lemma {:induction false} EveryByte(s: seq<byte>, ok: byte -> bool)
    ensures EachEvery(TokensOf(s), ok) <==> forall i :: 0 <= i < |s| && s[i] != SLASH ==> ok(s[i])
  {
    hide TokensOf;
    if s == [] {
      NoBytes();
    } else {
      var c, rest := s[0], s[1..];
      var tokens := TokensOf(rest);
      TokensStep(s);
      EveryByte(rest, ok);
      assert s == [c] + rest;
      if c != SLASH {
        if rest == [] || rest[0] == SLASH {
          EachFirst([c], tokens, ok);
          EveryMore(c, [], ok);
          assert [c] + [] == [c];
        } else {
          EachFirst([c] + tokens[0], tokens[1..], ok);
          EveryMore(c, tokens[0], ok);
          EachFirst(tokens[0], tokens[1..], ok);
          assert tokens == [tokens[0]] + tokens[1..];
        }
      }
    }
  }

  lemma EachFirst(first: seq<byte>, tokens: seq<seq<byte>>, ok: byte -> bool)
    ensures EachEvery([first] + tokens, ok) <==> Every(first, ok) && EachEvery(tokens, ok)
  {
    hide Every;
    var all := [first] + tokens;
    assert all[0] == first && forall i :: 0 <= i < |tokens| ==> all[i + 1] == tokens[i];
  }

  lemma EveryMore(c: byte, token: seq<byte>, ok: byte -> bool)
    ensures Every([c] + token, ok) <==> ok(c) && Every(token, ok)
  {
    var all := [c] + token;
    assert all[0] == c && forall i :: 0 <= i < |token| ==> all[i + 1] == token[i];
  }

  // ---------------------------------------------------------------- where a '#' may stand

  predicate Whole(tokens: seq<seq<byte>>) {
    forall i :: 0 <= i < |tokens| ==> WholeLevel(tokens[i])
  }

  /** No '#' token before the last one. */
  predicate NoHashBefore(tokens: seq<seq<byte>>)
    requires forall i :: 0 <= i < |tokens| ==> tokens[i] != []
  {
    forall i :: 0 <= i < |tokens| - 1 ==> tokens[i][0] != HASH
  }

  /** After a '#' only separators. */
  predicate HashEnds(s: seq<byte>) {
    forall i, j :: 0 <= i < j < |s| && s[i] == HASH ==> s[j] == SLASH
  }

  /** The same, but for a '#' before which there are only separators. */
  predicate HashRule(s: seq<byte>) {
    forall i, j :: 0 <= i < j < |s| && s[i] == HASH && s[j] != SLASH ==> AllSlash(s[..i])
  }

  lemma {:induction false} HashEndsIff(s: seq<byte>)
    requires Whole(TokensOf(s))
    ensures NoHashBefore(TokensOf(s)) <==> HashEnds(s)
  {
    if s == [] {
      NoBytes();
    } else {
      var c, rest := s[0], s[1..];
      var tokens := TokensOf(rest);
      TokensStep(s);
      NoTokens(rest);
      BytesFirst(s);
      hide TokensOf;
      if c == SLASH {
        HashEndsIff(rest);
      } else if rest == [] || rest[0] == SLASH {
        WholeRest([c], tokens);
        HashEndsIff(rest);
        HashFirst([c], tokens);
      } else {
        WholeRest([c] + tokens[0], tokens[1..]);
        Joined(c, tokens);
        HashEndsIff(rest);
        HashFirst([c] + tokens[0], tokens[1..]);
        HashFirst(tokens[0], tokens[1..]);
        assert tokens == [tokens[0]] + tokens[1..];
      }
    }
  }

  lemma BytesFirst(s: seq<byte>)
    requires s != []
    ensures HashEnds(s) <==> (s[0] == HASH ==> AllSlash(s[1..])) && HashEnds(s[1..])
  {
    var rest := s[1..];
    assert forall i :: 0 <= i < |rest| ==> rest[i] == s[i + 1];
    if HashEnds(s) {
      forall i, j | 0 <= i < j < |rest| && rest[i] == HASH ensures rest[j] == SLASH {
        assert s[i + 1] == HASH && s[j + 1] == rest[j];
      }
    }
    if (s[0] == HASH ==> AllSlash(rest)) && HashEnds(rest) {
      forall i, j | 0 <= i < j < |s| && s[i] == HASH ensures s[j] == SLASH {
        assert s[j] == rest[j - 1] && (i > 0 ==> s[i] == rest[i - 1]);
      }
    }
  }

  lemma WholeRest(first: seq<byte>, tokens: seq<seq<byte>>)
    requires Whole([first] + tokens)
    ensures WholeLevel(first) && Whole(tokens)
  {
    hide WholeLevel;
    var all := [first] + tokens;
    assert all[0] == first && forall i :: 0 <= i < |tokens| ==> all[i + 1] == tokens[i];
  }

  lemma HashFirst(first: seq<byte>, tokens: seq<seq<byte>>)
    requires first != [] && forall i :: 0 <= i < |tokens| ==> tokens[i] != []
    ensures NoHashBefore([first] + tokens) <==> (tokens == [] || first[0] != HASH) && NoHashBefore(tokens)
  {
    var all := [first] + tokens;
    assert all[0] == first && forall i :: 0 <= i < |tokens| ==> all[i + 1] == tokens[i];
    if NoHashBefore(all) {
      forall i | 0 <= i < |tokens| - 1 ensures tokens[i][0] != HASH {
        assert all[i + 1][0] != HASH;
      }
    }
  }

  /** A whole token of two bytes or more has no wildcard. */
  lemma Joined(c: byte, tokens: seq<seq<byte>>)
    requires tokens != [] && tokens[0] != [] && WholeLevel([c] + tokens[0]) && Whole(tokens[1..])
    ensures c != HASH && tokens[0][0] != HASH && Whole(tokens)
  {
    WholeFirst(c, tokens[0]);
    assert tokens == [tokens[0]] + tokens[1..];
    assert forall i :: 1 <= i < |tokens| ==> tokens[i] == tokens[1..][i - 1];
  }

  predicate LateHash(tokens: seq<seq<byte>>)
    requires forall i :: 0 <= i < |tokens| ==> tokens[i] != []
  {
    forall i :: 1 <= i < |tokens| - 1 ==> tokens[i][0] != HASH
  }

  lemma LateFirst(first: seq<byte>, tokens: seq<seq<byte>>)
    requires first != [] && forall i :: 0 <= i < |tokens| ==> tokens[i] != []
    ensures LateHash([first] + tokens) <==> NoHashBefore(tokens)
  {
    var all := [first] + tokens;
    assert forall i :: 0 <= i < |tokens| ==> all[i + 1] == tokens[i];
    if LateHash(all) {
      forall i | 0 <= i < |tokens| - 1 ensures tokens[i][0] != HASH {
        assert all[i + 1][0] != HASH;
      }
    }
  }

  lemma {:induction false} HashRuleIff(s: seq<byte>)
    requires Whole(TokensOf(s))
    ensures LateHash(TokensOf(s)) <==> HashRule(s)
  {
    if s == [] {
      NoBytes();
    } else {
      var c, rest := s[0], s[1..];
      var tokens := TokensOf(rest);
      TokensStep(s);
      RuleFirst(s);
      hide TokensOf;
      if c == SLASH {
        HashRuleIff(rest);
      } else if rest == [] || rest[0] == SLASH {
        WholeRest([c], tokens);
        HashEndsIff(rest);
        LateFirst([c], tokens);
      } else {
        WholeRest([c] + tokens[0], tokens[1..]);
        Joined(c, tokens);
        HashEndsIff(rest);
        LateFirst([c] + tokens[0], tokens[1..]);
        HashFirst(tokens[0], tokens[1..]);
        assert tokens == [tokens[0]] + tokens[1..];
      }
    }
  }

  lemma RuleFirst(s: seq<byte>)
    requires s != []
    ensures HashRule(s) <==> if s[0] == SLASH then HashRule(s[1..]) else HashEnds(s[1..])
  {
    var rest := s[1..];
    assert forall i :: 0 <= i < |rest| ==> rest[i] == s[i + 1];
    if s[0] == SLASH {
      forall i | 0 <= i < |rest| ensures AllSlash(s[..i + 1]) <==> AllSlash(rest[..i]) {
        assert s[..i + 1] == [SLASH] + rest[..i];
      }
      if HashRule(rest) {
        forall i, j | 0 <= i < j < |s| && s[i] == HASH && s[j] != SLASH ensures AllSlash(s[..i]) {
          assert rest[i - 1] == HASH && rest[j - 1] != SLASH && AllSlash(rest[..i - 1]);
        }
      }
      if HashRule(s) {
        forall i, j | 0 <= i < j < |rest| && rest[i] == HASH && rest[j] != SLASH ensures AllSlash(rest[..i]) {
          assert s[i + 1] == HASH && s[j + 1] != SLASH && AllSlash(s[..i + 1]);
        }
      }
    } else {
      forall i | 0 < i <= |s| ensures !AllSlash(s[..i]) {
        assert s[..i][0] == s[0];
      }
      if HashEnds(rest) {
        forall i, j | 0 <= i < j < |s| && s[i] == HASH && s[j] != SLASH ensures AllSlash(s[..i]) {
          if i > 0 {
            assert false;
          }
        }
      }
      if HashRule(s) {
        forall i, j | 0 <= i < j < |rest| && rest[i] == HASH ensures rest[j] == SLASH {
          assert s[i + 1] == HASH && s[j + 1] == rest[j];
        }
      }
    }
  }

  // ---------------------------------------------------------------- the check

  /** What the check looks for, in the bytes of a topic: something but separators, printable characters
      only, wildcards on levels of their own in a filter and nowhere in a name, and a '#' followed by
      nothing but separators unless it stands at the very front. */
  predicate Sound(s: seq<byte>, isFilter: bool) {
    && !AllSlash(s) && (forall i :: 0 <= i < |s| ==> 32 <= s[i] <= 126)
    && (if isFilter then WholeLevels(Levels(s)) else forall i :: 0 <= i < |s| ==> s[i] != 43 && s[i] != 35)
    && HashRule(s)
  }

  /** A topic passes the check exactly when it has at most 128 bytes and the first 127 are sound. */
  lemma PassesIff(topic: seq<byte>, isFilter: bool)
    ensures Passes(topic, isFilter) <==>
            |topic| <= 128 && Sound(topic[..if |topic| < 127 then |topic| else 127], isFilter)
  {
    var s := Checked(topic);
    assert topic[..|topic|] == topic;
    assert s == topic[..if |topic| < 127 then |topic| else 127];
    SoundIff(s, isFilter);
    hide Tokens, Levels, Sound, GoodToken;
  }

  lemma SoundIff(s: seq<byte>, isFilter: bool)
    ensures Sound(s, isFilter) <==>
            && TokensOf(s) != []
            && (forall i :: 0 <= i < |TokensOf(s)| ==> GoodToken(TokensOf(s)[i], isFilter))
            && LateHash(TokensOf(s))
  {
    NoTokens(s);
    GoodIff(TokensOf(s), isFilter);
    EveryByte(s, IsText);
    EveryByte(s, Plain);
    WholeIff(Levels(s));
    if Whole(TokensOf(s)) {
      HashRuleIff(s);
    }
    if forall i :: 0 <= i < |s| && s[i] != SLASH ==> Plain(s[i]) {
      PlainIsWhole(TokensOf(s));
    }
    hide Tokens, Levels, GoodToken, Whole, EachEvery, WholeLevels, HashRule, AllSlash;
  }

  predicate Plain(c: byte) {
    !IsWild(c)
  }

  lemma GoodIff(tokens: seq<seq<byte>>, isFilter: bool)
    ensures (forall i :: 0 <= i < |tokens| ==> GoodToken(tokens[i], isFilter)) <==>
            EachEvery(tokens, IsText) && if isFilter then Whole(tokens) else EachEvery(tokens, Plain)
  {
    forall i | 0 <= i < |tokens|
      ensures GoodToken(tokens[i], isFilter) <==>
              Every(tokens[i], IsText) && if isFilter then WholeLevel(tokens[i]) else Every(tokens[i], Plain)
    {
      GoodOne(tokens[i], isFilter);
    }
    hide GoodToken, Every, WholeLevel;
  }

  lemma GoodOne(token: seq<byte>, isFilter: bool)
    ensures GoodToken(token, isFilter) <==>
            Every(token, IsText) && if isFilter then WholeLevel(token) else Every(token, Plain)
  {
    if |token| == 1 {
      assert token == [token[0]];
    }
  }

  lemma PlainIsWhole(tokens: seq<seq<byte>>)
    requires EachEvery(tokens, Plain)
    ensures Whole(tokens)
  {
  }

  lemma {:induction false} WholeIff(levels: seq<seq<byte>>)
    ensures Whole(Tokens(levels)) <==> WholeLevels(levels)
  {
    if levels != [] {
      var tokens := Tokens(levels[1..]);
      WholeIff(levels[1..]);
      assert levels == [levels[0]] + levels[1..];
      WholeLevelsFirst(levels);
      if levels[0] == [] {
        assert Tokens(levels) == [] + tokens == tokens;
      } else {
        WholeTokensFirst(levels[0], tokens);
      }
      hide Tokens, Whole, WholeLevels;
    }
  }

  lemma WholeLevelsFirst(levels: seq<seq<byte>>)
    requires levels != []
    ensures WholeLevels(levels) <==> WholeLevel(levels[0]) && WholeLevels(levels[1..])
    ensures levels[0] == [] ==> WholeLevel(levels[0])
  {
    var rest := levels[1..];
    assert forall i :: 0 <= i < |rest| ==> rest[i] == levels[i + 1];
    if WholeLevel(levels[0]) && WholeLevels(rest) {
      forall i | 0 <= i < |levels| ensures WholeLevel(levels[i]) {
        if i > 0 {
          assert levels[i] == rest[i - 1];
        }
      }
    }
    if WholeLevels(levels) {
      forall i | 0 <= i < |rest| ensures WholeLevel(rest[i]) {
        assert rest[i] == levels[i + 1];
      }
    }
  }

  lemma WholeTokensFirst(first: seq<byte>, tokens: seq<seq<byte>>)
    ensures Whole([first] + tokens) <==> WholeLevel(first) && Whole(tokens)
  {
    hide WholeLevel;
    var all := [first] + tokens;
    assert all[0] == first && forall i :: 0 <= i < |tokens| ==> all[i + 1] == tokens[i];
  }
}
