/** What the classifier makes of the lines a client is expected to send, and of a few it is not. */
module CommandProperties {
  import opened Wrappers
  import opened Text
  import opened Patterns
  import opened Commands

  /** `w` occurs somewhere in `s`. */
  predicate Occurs(w: string, s: string) {
    exists k :: 0 <= k <= |s| && StartsAt(s, k, w)
  }

  /** A pattern whose keyword does not occur in a string is not found in it. */
  lemma AbsentKeywordNoMatch(p: Pattern, s: string)
    requires !Occurs(p.keyword, s)
    ensures Find(p, s).None?
  {
    assert forall k :: 0 <= k <= |s| ==> !StartsAt(s, k, p.keyword);
    forall k | 0 <= k <= |s| ensures MatchAt(p, s, k).None? {
    }
  }

  /** The body of `"/" + cmd` is `cmd` when `cmd` is already trimmed. */
  lemma BodyOfSlashed(cmd: string)
    requires IsTrimmed(cmd)
    ensures Body("/" + cmd) == cmd
  {
    assert ("/" + cmd)[1..] == cmd;
    TrimOfTrimmed(cmd);
  }

  /** "/nick n" is a nick command for n. */
  lemma NickRoundTrip(n: string)
    requires IsToken(n) && IsTrimmed(n)
    ensures Classify("/nick " + n) == Some(Nick(n))
  {
    var cmd := "nick " + n;
    assert "/nick " + n == "/" + cmd;
    BodyOfSlashed(cmd);
    OneTokenAtStart(NickPattern, n);
    FindLeftmost(NickPattern, cmd, 0, Match(0, n, "", |cmd|));
  }

  /** "/join r" is a join command for r: "nick " cannot occur where the only space is the keyword's. */
  lemma JoinRoundTrip(r: string)
    requires IsToken(r) && IsTrimmed(r)
    ensures Classify("/join " + r) == Some(Join(r))
  {
    var cmd := "join " + r;
    assert "/join " + r == "/" + cmd;
    BodyOfSlashed(cmd);
    NoNickAfterJoin(r);
    OneTokenAtStart(JoinPattern, r);
    FindLeftmost(JoinPattern, cmd, 0, Match(0, r, "", |cmd|));
  }

  lemma NoNickAfterJoin(r: string)
    requires IsToken(r)
    ensures Find(NickPattern, "join " + r).None?
  {
    var cmd := "join " + r;
    assert forall i :: 5 <= i < |cmd| ==> cmd[i] == r[i - 5];
    forall k | 0 <= k <= |cmd| ensures MatchAt(NickPattern, cmd, k).None? {
      if MatchAt(NickPattern, cmd, k).Some? {
        MatchSpaces(NickPattern, cmd, k);
      }
    }
  }

  /**
   * "/priv t x" is a private message to t with text x, provided neither a
   * nick nor a join command can be found in it first.
   */
  lemma PrivRoundTrip(t: string, x: string)
    requires IsToken(t) && IsText(x) && |x| > 0 && IsTrimmed(x)
    requires !Occurs("nick ", "priv " + t + " " + x) && !Occurs("join ", "priv " + t + " " + x)
    ensures Classify("/priv " + t + " " + x) == Some(Priv(t, x))
  {
    var cmd := "priv " + t + " " + x;
    PrivLineShape(t, x);
    BodyOfSlashed(cmd);
    AbsentKeywordNoMatch(NickPattern, cmd);
    AbsentKeywordNoMatch(JoinPattern, cmd);
    FindLeftmost(PrivPattern, cmd, 0, Match(0, t, x, |cmd|));
  }

  lemma PrivLineShape(t: string, x: string)
    requires IsToken(t) && |x| > 0 && IsTrimmed(x)
    ensures var cmd := "priv " + t + " " + x;
      && "/priv " + t + " " + x == "/" + cmd
      && IsTrimmed(cmd) && cmd != "leave" && cmd != "bye"
      && cmd[..5] == "priv " && cmd[5..5 + |t|] == t && cmd[5 + |t|] == ' ' && cmd[5 + |t| + 1..|cmd|] == x
  {
    var cmd := "priv " + t + " " + x;
    assert "/priv " + t + " " + x == "/" + cmd;
    assert cmd[..5] == "priv ";
    assert cmd[5..5 + |t|] == t;
    assert cmd[5 + |t| + 1..|cmd|] == x;
    assert cmd[|cmd| - 1] == x[|x| - 1];
    assert cmd != "leave" && cmd != "bye" by { assert cmd[4] == ' '; }
  }

  /** A trimmed line that does not start with '/' is public text, unchanged. */
  lemma PublicRoundTrip(x: string)
    requires |x| > 0 && x[0] != '/' && IsTrimmed(x)
    ensures Classify(x) == Some(Public(x))
  {
    TrimOfTrimmed(x);
  }

  /**
   * The patterns are found anywhere in the body, not only at its start:
   * "//nick n" still renames, where "//" would otherwise mark public text.
   */
  lemma DoubleSlashNick(n: string)
    requires IsToken(n) && IsTrimmed(n)
    ensures Classify("//nick " + n) == Some(Nick(n))
  {
    var cmd := "/nick " + n;
    assert "//nick " + n == "/" + cmd;
    BodyOfSlashed(cmd);
    SlashedNickFound(n);
  }

  /** In "/nick n" the nick pattern is found one position in, with `n` as its group. */
  lemma SlashedNickFound(n: string)
    requires IsToken(n)
    ensures Find(NickPattern, "/nick " + n) == Some(Match(1, n, "", |n| + 6))
  {
    var cmd := "/nick " + n;
    assert MatchAt(NickPattern, cmd, 0).None? by { assert cmd[0] == '/'; }
    assert cmd[1..6] == "nick " && cmd[6..|cmd|] == n;
    FindLeftmost(NickPattern, cmd, 1, Match(1, n, "", |cmd|));
  }

  /**
   * Likewise a private message whose text holds a join command is taken as
   * that join command, because join is tried before priv.
   */
  lemma PrivHijackedByJoin()
    ensures Classify("/priv bob join lobby") == Some(Join("lobby"))
  {
    HijackBody();
    HijackHasNoNick();
    HijackFindsJoin();
  }

  lemma HijackBody()
    ensures Body("/priv bob join lobby") == "priv bob join lobby"
  {
    BodyOfSlashed("priv bob join lobby");
  }

  lemma HijackHasNoNick()
    ensures Find(NickPattern, "priv bob join lobby").None?
  {
    var cmd := "priv bob join lobby";
    forall k | 0 <= k < 10 ensures MatchAt(NickPattern, cmd, k).None? {
      if MatchAt(NickPattern, cmd, k).Some? {
        MatchSpaces(NickPattern, cmd, k);
      }
    }
    forall k | 10 <= k <= |cmd| ensures MatchAt(NickPattern, cmd, k).None? {
      if MatchAt(NickPattern, cmd, k).Some? {
        MatchSpaces(NickPattern, cmd, k);
      }
    }
  }

  lemma HijackFindsJoin()
    ensures Find(JoinPattern, "priv bob join lobby") == Some(Match(9, "lobby", "", 19))
  {
    var cmd := "priv bob join lobby";
    forall k | 0 <= k < 9 ensures MatchAt(JoinPattern, cmd, k).None? {
      if MatchAt(JoinPattern, cmd, k).Some? {
        MatchSpaces(JoinPattern, cmd, k);
      }
    }
    assert cmd[9..14] == "join " && cmd[14..] == "lobby";
    FindLeftmost(JoinPattern, cmd, 9, Match(9, "lobby", "", |cmd|));
  }
}
