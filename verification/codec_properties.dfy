/**
 * What the codec promises: the wire form decodes back to the message for
 * every kind except ERROR (its text never reaches the wire) and PRIVATE (its
 * tokens can contain another kind's pattern), and a corrected, anchored
 * decoder that recovers PRIVATE as well.
 */
module CodecProperties {
  import opened Wrappers
  import opened Text
  import opened Patterns
  import opened Codec

  /** The messages whose wire form `Parse` gives back intact. */
  predicate Decodable(m: Message) {
    match m.kind
    case OK | BYE => m.token1 == "" && m.token2 == ""
    case JOINED | LEFT => IsToken(m.token1) && m.token2 == ""
    case NEW_NICKNAME => IsToken(m.token1) && IsToken(m.token2)
    case MESSAGE => IsToken(m.token1) && IsText(m.token2)
    case ERROR | PRIVATE => false
  }

  /** A pattern cannot match once every space of `s` lies before its keyword's own space. */
  lemma NoMatchPastSpaces(p: Pattern, s: string, q: nat)
    requires |p.keyword| > 0 && p.keyword[|p.keyword| - 1] == ' '
    requires q < |p.keyword| - 1
    requires forall k :: q < k < |s| ==> s[k] != ' '
    ensures Find(p, s).None?
  {
    forall k | 0 <= k <= |s| ensures MatchAt(p, s, k).None? {
      if MatchAt(p, s, k).Some? {
        MatchSpaces(p, s, k);
      }
    }
  }

  /**
   * Decoding a wire line (its '\n' removed) recovers the type and both
   * tokens of OK, BYE, JOINED, LEFT, NEWNICK and MESSAGE, given nicknames in
   * `[^ .]+` and message text free of line terminators.
   */
  lemma WireRoundTrip(m: Message)
    requires Decodable(m)
    ensures Parse(Render(m, false)[..|Render(m, false)| - 1]) == m
  {
    assert Render(m, false)[..|Render(m, false)| - 1] == Wire(m);
    match m.kind
    case OK =>
    case BYE =>
    case MESSAGE => MessageRoundTrip(m.token1, m.token2);
    case NEW_NICKNAME => NewNickRoundTrip(m.token1, m.token2);
    case JOINED => JoinedRoundTrip(m.token1);
    case LEFT => LeftRoundTrip(m.token1);
  }

  /** Hence two decodable messages with the same wire form are the same message. */
  lemma WireInjective(a: Message, b: Message)
    requires Decodable(a) && Decodable(b) && Wire(a) == Wire(b)
    ensures a == b
  {
    WireRoundTrip(a);
    WireRoundTrip(b);
  }

  lemma MessageRoundTrip(from: string, text: string)
    requires IsToken(from) && IsText(text)
    ensures Parse(Wire(Message(MESSAGE, from, text))) == Message(MESSAGE, from, text)
  {
    var s := Wire(Message(MESSAGE, from, text));
    var b := 8 + |from|;
    assert s[..8] == "MESSAGE " && s[8..b] == from && s[b] == ' ' && s[b + 1..] == text;
    FindLeftmost(MessagePattern, s, 0, Match(0, from, text, |s|));
  }

  lemma NewNickRoundTrip(was: string, now: string)
    requires IsToken(was) && IsToken(now)
    ensures Parse(Wire(Message(NEW_NICKNAME, was, now))) == Message(NEW_NICKNAME, was, now)
  {
    var s := Wire(Message(NEW_NICKNAME, was, now));
    NewNickLineShape(was, now);
    NoMessageInNewNick(was, now);
    FindLeftmost(NewNickPattern, s, 0, Match(0, was, now, |s|));
  }

  lemma NewNickLineShape(was: string, now: string)
    requires IsToken(was) && IsToken(now)
    ensures var s := Wire(Message(NEW_NICKNAME, was, now));
      var b := 8 + |was|;
      && b < |s| && s[..8] == "NEWNICK " && s[8..b] == was && s[b] == ' ' && s[b + 1..] == now
      && s[0] == 'N' && forall k :: 7 < k < |s| && k != b ==> s[k] != ' '
  {
    var s := Wire(Message(NEW_NICKNAME, was, now));
    var b := 8 + |was|;
    assert s[..8] == "NEWNICK " && s[8..b] == was && s[b] == ' ' && s[b + 1..] == now;
    assert forall k :: 7 < k < b ==> s[k] == was[k - 8];
    assert forall k :: b < k < |s| ==> s[k] == now[k - b - 1];
  }

  /** MESSAGE needs "MESSAGE " somewhere, and a NEWNICK line has its two spaces in the wrong places. */
  lemma NoMessageInNewNick(was: string, now: string)
    requires IsToken(was) && IsToken(now)
    ensures Find(MessagePattern, Wire(Message(NEW_NICKNAME, was, now))).None?
  {
    var s := Wire(Message(NEW_NICKNAME, was, now));
    NewNickLineShape(was, now);
    forall k | 0 <= k <= |s| ensures MatchAt(MessagePattern, s, k).None? {
      if MatchAt(MessagePattern, s, k).Some? {
        MatchSpaces(MessagePattern, s, k);
      }
    }
  }

  lemma JoinedRoundTrip(who: string)
    requires IsToken(who)
    ensures Parse(Wire(Message(JOINED, who, ""))) == Message(JOINED, who, "")
  {
    var s := Wire(Message(JOINED, who, ""));
    assert s[..7] == "JOINED " && s[7..] == who;
    NoMatchPastSpaces(MessagePattern, s, 6);
    NoMatchPastSpaces(NewNickPattern, s, 6);
    FindLeftmost(JoinedPattern, s, 0, Match(0, who, "", |s|));
  }

  lemma LeftRoundTrip(who: string)
    requires IsToken(who)
    ensures Parse(Wire(Message(LEFT, who, ""))) == Message(LEFT, who, "")
  {
    var s := Wire(Message(LEFT, who, ""));
    assert s[..5] == "LEFT " && s[5..] == who;
    NoMatchPastSpaces(MessagePattern, s, 4);
    NoMatchPastSpaces(NewNickPattern, s, 4);
    NoMatchPastSpaces(JoinedPattern, s, 4);
    FindLeftmost(LeftPattern, s, 0, Match(0, who, "", |s|));
  }

  /**
   * ERROR is the one kind whose text is lost: its wire line is "ERROR\n"
   * whatever the tokens hold, it decodes to an ERROR with no text, and only
   * the display sentence shows the text.
   */
  lemma ErrorLosesItsText(text: string, extra: string)
    ensures Render(Message(ERROR, text, extra), false) == "ERROR\n"
    ensures Parse(Wire(Message(ERROR, text, extra))) == Bare(ERROR)
    ensures Render(Message(ERROR, text, extra), true) == "Error. " + text + "\n"
  {
  }

  /**
   * As written, a private message from a user nicknamed JOINED is decoded
   * as a JOINED notice for the first word of its text: the JOINED pattern is
   * tried before PRIVATE and is found in the middle of the line.
   */
  lemma PrivateFromJoinedMisread(text: string)
    requires IsToken(text)
    ensures Parse(Wire(Message(PRIVATE, "JOINED", text))) == Message(JOINED, text, "")
  {
    var s := Wire(Message(PRIVATE, "JOINED", text));
    MisreadLineShape(text);
    MisreadNoTwoFieldMatch(MessagePattern, text);
    MisreadNoTwoFieldMatch(NewNickPattern, text);
    MisreadNoEarlierJoined(text);
    FindLeftmost(JoinedPattern, s, 8, Match(8, text, "", |s|));
  }

  /**
   * The misread is not limited to one nickname: private text holding a
   * keyword of an earlier-tried kind is decoded as that kind, here a LEFT
   * notice for the word after "LEFT ".
   */
  lemma PrivateTextWithLeftMisread(s: string)
    requires s == Wire(Message(PRIVATE, "bob", "I LEFT early"))
    ensures Parse(s) == Message(LEFT, "early", "")
  {
    LeftMisreadLineShape(s);
    NoMatchBeforeFirstLetter(MessagePattern, s, |s|);
    NoMatchBeforeFirstLetter(NewNickPattern, s, |s|);
    NoMatchBeforeFirstLetter(JoinedPattern, s, |s|);
    NoMatchBeforeFirstLetter(LeftPattern, s, 14);
    var m := Match(14, "early", "", |s|);
    assert MatchesAt(LeftPattern, s, 14, m);
    FindLeftmost(LeftPattern, s, 14, m);
  }

  lemma LeftMisreadLineShape(s: string)
    requires s == Wire(Message(PRIVATE, "bob", "I LEFT early"))
    ensures && |s| == 24 && s != "OK" && s != "ERROR"
      && 'M' !in s && 'N' !in s && 'J' !in s && 'L' !in s[..14]
      && s[14..19] == "LEFT " && s[19..] == "early"
  {
    var head, tail := "PRIVATE bob I ", "LEFT early";
    LeftLineParts(s);
    LeftLinePartLetters();
    Halves(s, head, tail);
  }

  lemma LeftLineParts(s: string)
    requires s == Wire(Message(PRIVATE, "bob", "I LEFT early"))
    ensures s == "PRIVATE bob I " + "LEFT early"
  {
  }

  lemma LeftLinePartLetters()
    ensures var head, tail := "PRIVATE bob I ", "LEFT early";
      && |head| == 14 && |tail| == 10 && tail[..5] == "LEFT " && tail[5..] == "early"
      && 'M' !in head && 'N' !in head && 'J' !in head && 'L' !in head
      && 'M' !in tail && 'N' !in tail && 'J' !in tail
  {
  }

  lemma Halves(s: string, head: string, tail: string)
    requires s == head + tail
    ensures s[..|head|] == head && s[|head|..] == tail
    ensures forall c :: c in s <==> c in head || c in tail
  {
  }

  /** A pattern cannot match before the first occurrence of its keyword's first letter. */
  lemma NoMatchBeforeFirstLetter(p: Pattern, s: string, bound: nat)
    requires |p.keyword| > 0 && p.keyword[|p.keyword| - 1] == ' '
    requires bound <= |s| && p.keyword[0] !in s[..bound]
    ensures forall k :: 0 <= k < bound ==> MatchAt(p, s, k).None?
    ensures bound == |s| ==> Find(p, s).None?
  {
    forall k | 0 <= k <= |s| && (k < bound || bound == |s|) ensures MatchAt(p, s, k).None? {
      if MatchAt(p, s, k).Some? {
        if k < bound {
          assert s[..bound][k] == s[k];
          MatchSpaces(p, s, k);
        } else {
          MatchSpaces(p, s, k);
        }
      }
    }
  }

  /** JOINED cannot match in "PRIVATE " itself: its space would have to fall at position 7. */
  lemma MisreadNoEarlierJoined(text: string)
    requires IsToken(text)
    ensures forall k :: 0 <= k < 8 ==> MatchAt(JoinedPattern, Wire(Message(PRIVATE, "JOINED", text)), k).None?
  {
    var s := Wire(Message(PRIVATE, "JOINED", text));
    MisreadLineShape(text);
    forall k | 0 <= k < 8 ensures MatchAt(JoinedPattern, s, k).None? {
      if MatchAt(JoinedPattern, s, k).Some? {
        MatchSpaces(JoinedPattern, s, k);
      }
    }
  }

  lemma MisreadLineShape(text: string)
    requires IsToken(text)
    ensures var s := Wire(Message(PRIVATE, "JOINED", text));
      && s == "PRIVATE JOINED " + text
      && s[0] == 'P' && s[1] == 'R' && s[7] == ' ' && s[8..15] == "JOINED " && s[15..] == text
      && forall k :: 0 <= k < |s| && k != 7 && k != 14 ==> s[k] != ' '
  {
    var s := Wire(Message(PRIVATE, "JOINED", text));
    assert s == "PRIVATE JOINED " + text;
    assert forall k :: 15 <= k < |s| ==> s[k] == text[k - 15];
  }

  /** Neither MESSAGE nor NEWNICK occurs in that line: each needs two spaces, the first after its keyword. */
  lemma MisreadNoTwoFieldMatch(p: Pattern, text: string)
    requires p == MessagePattern || p == NewNickPattern
    requires IsToken(text)
    ensures Find(p, Wire(Message(PRIVATE, "JOINED", text))).None?
  {
    var s := Wire(Message(PRIVATE, "JOINED", text));
    MisreadLineShape(text);
    forall k | 0 <= k <= |s| ensures MatchAt(p, s, k).None? {
      if MatchAt(p, s, k).Some? {
        MatchSpaces(p, s, k);
      }
    }
  }

  // ------------------------------------------------- the anchored decoder

  /**
   * parse_string with every pattern matched against the whole line, as OK,
   * ERROR and BYE already are: a keyword can then only be recognised at the
   * start of the line.
   */
  function ParseAnchored(text: string): (m: Message)
    ensures m.kind == OK <==> text == "OK"
    ensures m.kind in {OK, ERROR, BYE} ==> m.token1 == "" && m.token2 == ""
    ensures m.kind in {MESSAGE, NEW_NICKNAME, JOINED, LEFT, PRIVATE} ==> IsToken(m.token1)
    ensures m.kind in {JOINED, LEFT} ==> m.token2 == ""
    ensures m.kind == NEW_NICKNAME ==> IsToken(m.token2)
    ensures m.kind in {MESSAGE, PRIVATE} ==> IsText(m.token2)
  {
    if text == "OK" then Bare(OK)
    else if text == "ERROR" then Bare(ERROR)
    else if MatchWhole(MessagePattern, text).Some? then Found(MESSAGE, MatchWhole(MessagePattern, text))
    else if MatchWhole(NewNickPattern, text).Some? then Found(NEW_NICKNAME, MatchWhole(NewNickPattern, text))
    else if MatchWhole(JoinedPattern, text).Some? then Found(JOINED, MatchWhole(JoinedPattern, text))
    else if MatchWhole(LeftPattern, text).Some? then Found(LEFT, MatchWhole(LeftPattern, text))
    else if text == "BYE" then Bare(BYE)
    else if MatchWhole(PrivatePattern, text).Some? then Found(PRIVATE, MatchWhole(PrivatePattern, text))
    else Bare(ERROR)
  }

  /** The messages whose wire form the anchored decoder gives back intact: PRIVATE included. */
  predicate AnchoredDecodable(m: Message) {
    Decodable(m) || (m.kind == PRIVATE && IsToken(m.token1) && IsText(m.token2))
  }

  /** A whole-line match can only start with the pattern's own keyword. */
  lemma WholeMatchStartsWithKeyword(p: Pattern, s: string)
    requires |p.keyword| > 0 && MatchWhole(p, s).Some?
    ensures |s| > 0 && s[0] == p.keyword[0]
  {
    assert s[0] == s[..|p.keyword|][0];
  }

  /** With anchoring, decoding every wire line, PRIVATE included, recovers the message. */
  lemma AnchoredRoundTrip(m: Message)
    requires AnchoredDecodable(m)
    ensures ParseAnchored(Render(m, false)[..|Render(m, false)| - 1]) == m
  {
    assert Render(m, false)[..|Render(m, false)| - 1] == Wire(m);
    if m.kind !in {OK, BYE} {
      AnchoredTokensRoundTrip(m);
    }
  }

  /** The pattern whose keyword opens a wire line of that kind. */
  function PatternOf(kind: MessageType): Pattern
    requires kind !in {OK, ERROR, BYE}
  {
    match kind
    case MESSAGE => MessagePattern
    case NEW_NICKNAME => NewNickPattern
    case JOINED => JoinedPattern
    case LEFT => LeftPattern
    case PRIVATE => PrivatePattern
  }

  /** A wire line is matched as a whole by its own kind's pattern, with the tokens as groups. */
  lemma OwnPatternMatchesWhole(m: Message)
    requires AnchoredDecodable(m) && m.kind !in {OK, ERROR, BYE}
    ensures MatchWhole(PatternOf(m.kind), Wire(m)) == Some(Match(0, m.token1, m.token2, |Wire(m)|))
  {
    var p := PatternOf(m.kind);
    assert p.keyword == Keyword(m.kind) + " ";
    if p.shape == OneToken {
      assert Wire(m) == p.keyword + m.token1;
      OneTokenAtStart(p, m.token1);
    } else {
      assert Wire(m) == p.keyword + m.token1 + " " + m.token2;
      TwoGroupsAtStart(p, m.token1, m.token2);
    }
  }

  lemma AnchoredTokensRoundTrip(m: Message)
    requires AnchoredDecodable(m) && m.kind !in {OK, BYE}
    ensures ParseAnchored(Wire(m)) == m
  {
    var s := Wire(m);
    assert |s| > 0 && s[0] == Keyword(m.kind)[0];
    assert s != "OK" && s != "ERROR" && s != "BYE";
    OwnPatternMatchesWhole(m);
    WholeMatchFirstLetters(s);
  }

  /** Each anchored pattern pins the first letter of the line. */
  lemma WholeMatchFirstLetters(s: string)
    ensures MatchWhole(MessagePattern, s).Some? ==> |s| > 0 && s[0] == 'M'
    ensures MatchWhole(NewNickPattern, s).Some? ==> |s| > 0 && s[0] == 'N'
    ensures MatchWhole(JoinedPattern, s).Some? ==> |s| > 0 && s[0] == 'J'
    ensures MatchWhole(LeftPattern, s).Some? ==> |s| > 0 && s[0] == 'L'
  {
    if MatchWhole(MessagePattern, s).Some? { WholeMatchStartsWithKeyword(MessagePattern, s); }
    if MatchWhole(NewNickPattern, s).Some? { WholeMatchStartsWithKeyword(NewNickPattern, s); }
    if MatchWhole(JoinedPattern, s).Some? { WholeMatchStartsWithKeyword(JoinedPattern, s); }
    if MatchWhole(LeftPattern, s).Some? { WholeMatchStartsWithKeyword(LeftPattern, s); }
  }
}
