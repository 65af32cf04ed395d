/**
 * The regular expressions of the chat protocol, written out by hand.
 *
 * Every pattern the program compiles is a literal keyword ending in a space
 * followed by one of three shapes: `([^ .]+)`, `([^ .]+) ([^ .]+)` or
 * `([^ .]+) (.*)`. Java's matcher is greedy and backtracks, but for these
 * shapes backtracking never finds anything: a shorter token run is followed
 * by another token character, never by the space the shape needs next. So a
 * match at a position is unique and its first group is the maximal run.
 */
module Patterns {
  import opened Wrappers
  import opened Text

  /** What follows the keyword. */
  datatype Shape = OneToken | TwoTokens | TokenAndText

  datatype Pattern = Pattern(keyword: string, shape: Shape)

  /** A successful match: where it starts and ends, and its two groups ("" when absent). */
  datatype Match = Match(start: nat, first: string, second: string, end: nat)

  predicate StartsAt(s: string, i: nat, w: string) {
    i + |w| <= |s| && s[i..i + |w|] == w
  }

  /**
   * Reference definition: `p` matches `s` at `i` with the groups of `m`.
   * Each group is a run of its class; the last one is the longest run the
   * class allows, and the first is followed by the space the shape needs.
   */
  ghost predicate MatchesAt(p: Pattern, s: string, i: nat, m: Match) {
    var a := i + |p.keyword|;
    var b := a + |m.first|;
    && m.start == i
    && StartsAt(s, i, p.keyword)
    && IsToken(m.first) && b <= |s| && s[a..b] == m.first
    && match p.shape
       case OneToken =>
         && m.second == "" && m.end == b
         && (b == |s| || !IsTokenChar(s[b]))
       case TwoTokens =>
         && b < |s| && s[b] == ' '
         && m.end == b + 1 + |m.second| && m.end <= |s| && s[b + 1..m.end] == m.second
         && IsToken(m.second) && (m.end == |s| || !IsTokenChar(s[m.end]))
       case TokenAndText =>
         && b < |s| && s[b] == ' '
         && m.end == b + 1 + |m.second| && m.end <= |s| && s[b + 1..m.end] == m.second
         && IsText(m.second) && (m.end == |s| || IsLineTerminator(s[m.end]))
  }

  lemma RunEndIs(cls: Class, s: string, i: nat, j: nat)
    requires i <= j <= |s|
    requires forall k :: i <= k < j ==> InClass(cls, s[k])
    requires j == |s| || !InClass(cls, s[j])
    ensures RunEnd(cls, s, i) == j
  {
  }

  /** Tries `p` at position `i` only, the way `find()` does at each position. */
  function MatchAt(p: Pattern, s: string, i: nat): (r: Option<Match>)
    requires i <= |s|
    ensures r.Some? ==> r.value.start == i && MatchesAt(p, s, i, r.value)
  {
    if !StartsAt(s, i, p.keyword) then None
    else
      var a := i + |p.keyword|;
      var b := RunEnd(TokenClass, s, a);
      if b == a then None
      else match p.shape
        case OneToken => MatchOne(p, s, i, a, b)
        case TwoTokens => MatchTwo(p, s, i, a, b)
        case TokenAndText => MatchText(p, s, i, a, b)
  }

  /** MatchAt for `([^ .]+)`, once the keyword is known to start at `i` and the run after it to end at `b`. */
  function MatchOne(p: Pattern, s: string, i: nat, a: nat, b: nat): (r: Option<Match>)
    requires p.shape == OneToken && StartsAt(s, i, p.keyword) && a == i + |p.keyword|
    requires a < b == RunEnd(TokenClass, s, a)
    ensures r.Some? && MatchesAt(p, s, i, r.value)
  {
    RunIsClass(TokenClass, s, a, b);
    Some(Match(i, s[a..b], "", b))
  }

  /** MatchAt for `([^ .]+) ([^ .]+)`. */
  function MatchTwo(p: Pattern, s: string, i: nat, a: nat, b: nat): (r: Option<Match>)
    requires p.shape == TwoTokens && StartsAt(s, i, p.keyword) && a == i + |p.keyword|
    requires a < b == RunEnd(TokenClass, s, a)
    ensures r.Some? ==> MatchesAt(p, s, i, r.value)
    ensures r.Some? <==> b < |s| && s[b] == ' ' && b + 1 < |s| && IsTokenChar(s[b + 1])
  {
    if b < |s| && s[b] == ' ' && b + 1 < |s| && IsTokenChar(s[b + 1]) then
      var c := RunEnd(TokenClass, s, b + 1);
      RunIsClass(TokenClass, s, a, b);
      RunIsClass(TokenClass, s, b + 1, c);
      Some(Match(i, s[a..b], s[b + 1..c], c))
    else None
  }

  /** MatchAt for `([^ .]+) (.*)`. */
  function MatchText(p: Pattern, s: string, i: nat, a: nat, b: nat): (r: Option<Match>)
    requires p.shape == TokenAndText && StartsAt(s, i, p.keyword) && a == i + |p.keyword|
    requires a < b == RunEnd(TokenClass, s, a)
    ensures r.Some? ==> MatchesAt(p, s, i, r.value)
    ensures r.Some? <==> b < |s| && s[b] == ' '
  {
    if b < |s| && s[b] == ' ' then
      var c := RunEnd(TextClass, s, b + 1);
      RunIsClass(TokenClass, s, a, b);
      RunIsClass(TextClass, s, b + 1, c);
      Some(Match(i, s[a..b], s[b + 1..c], c))
    else None
  }

  /** The slice a greedy run covers is a token, or text, according to its class. */
  lemma RunIsClass(cls: Class, s: string, i: nat, j: nat)
    requires i <= |s| && j == RunEnd(cls, s, i)
    ensures cls == TokenClass && i < j ==> IsToken(s[i..j])
    ensures cls == TextClass ==> IsText(s[i..j])
  {
    assert forall k :: 0 <= k < j - i ==> s[i..j][k] == s[i + k];
  }

  /** Conversely, whatever the reference definition accepts at `i` is what MatchAt returns. */
  lemma MatchAtComplete(p: Pattern, s: string, i: nat, m: Match)
    requires i <= |s| && MatchesAt(p, s, i, m)
    ensures MatchAt(p, s, i) == Some(m)
  {
    match p.shape
    case OneToken => CompleteOne(p, s, i, m);
    case TwoTokens => CompleteTwo(p, s, i, m);
    case TokenAndText => CompleteText(p, s, i, m);
  }

  lemma CompleteOne(p: Pattern, s: string, i: nat, m: Match)
    requires i <= |s| && p.shape == OneToken && MatchesAt(p, s, i, m)
    ensures MatchAt(p, s, i) == Some(m)
  {
    var a := i + |p.keyword|;
    RunOf(TokenClass, s, a, m.first);
    assert MatchOne(p, s, i, a, a + |m.first|) == Some(m);
    assert MatchAt(p, s, i) == MatchOne(p, s, i, a, a + |m.first|);
  }

  lemma CompleteTwo(p: Pattern, s: string, i: nat, m: Match)
    requires i <= |s| && p.shape == TwoTokens && MatchesAt(p, s, i, m)
    ensures MatchAt(p, s, i) == Some(m)
  {
    var a := i + |p.keyword|;
    RunOf(TokenClass, s, a, m.first);
    SecondGroupIs(TokenClass, p, s, i, m);
    assert MatchTwo(p, s, i, a, a + |m.first|) == Some(m);
    assert MatchAt(p, s, i) == MatchTwo(p, s, i, a, a + |m.first|);
  }

  lemma CompleteText(p: Pattern, s: string, i: nat, m: Match)
    requires i <= |s| && p.shape == TokenAndText && MatchesAt(p, s, i, m)
    ensures MatchAt(p, s, i) == Some(m)
  {
    var a := i + |p.keyword|;
    RunOf(TokenClass, s, a, m.first);
    SecondGroupIs(TextClass, p, s, i, m);
    assert MatchText(p, s, i, a, a + |m.first|) == Some(m);
    assert MatchAt(p, s, i) == MatchText(p, s, i, a, a + |m.first|);
  }

  /** A run of class characters that occurs at `a` and is not followed by one is where the greedy run stops. */
  lemma RunOf(cls: Class, s: string, a: nat, w: string)
    requires a + |w| <= |s| && s[a..a + |w|] == w
    requires forall k :: 0 <= k < |w| ==> InClass(cls, w[k])
    requires a + |w| == |s| || !InClass(cls, s[a + |w|])
    ensures RunEnd(cls, s, a) == a + |w|
  {
    SliceInClass(cls, s, a, a + |w|, w);
    RunEndIs(cls, s, a, a + |w|);
  }

  /** The second group of a two-group shape is the longest run of its class after the space. */
  lemma SecondGroupIs(cls: Class, p: Pattern, s: string, i: nat, m: Match)
    requires i <= |s| && MatchesAt(p, s, i, m)
    requires (cls == TokenClass && p.shape == TwoTokens) || (cls == TextClass && p.shape == TokenAndText)
    ensures var b := i + |p.keyword| + |m.first|;
      && b < |s| && s[b] == ' ' && RunEnd(cls, s, b + 1) == m.end
      && s[b + 1..m.end] == m.second
      && (cls == TokenClass ==> b + 1 < |s| && IsTokenChar(s[b + 1]))
  {
    var b := i + |p.keyword| + |m.first|;
    RunOf(cls, s, b + 1, m.second);
  }

  /** A slice equal to a string of class characters consists of class characters. */
  lemma SliceInClass(cls: Class, s: string, lo: nat, hi: nat, w: string)
    requires lo <= hi <= |s| && s[lo..hi] == w
    requires forall k :: 0 <= k < |w| ==> InClass(cls, w[k])
    ensures forall k :: lo <= k < hi ==> InClass(cls, s[k])
  {
    assert forall k :: lo <= k < hi ==> s[k] == w[k - lo];
  }

  /** A one-token pattern matches `keyword + name` at 0 with `name` as its group. */
  lemma OneTokenAtStart(p: Pattern, name: string)
    requires p.shape == OneToken && IsToken(name)
    ensures MatchesAt(p, p.keyword + name, 0, Match(0, name, "", |p.keyword + name|))
  {
    var s := p.keyword + name;
    assert s[..|p.keyword|] == p.keyword;
    assert s[|p.keyword|..|s|] == name;
  }

  /** A two-group pattern matches `keyword + first + " " + second` at 0 with the two as its groups. */
  lemma TwoGroupsAtStart(p: Pattern, first: string, second: string)
    requires p.shape != OneToken && IsToken(first)
    requires p.shape == TwoTokens ==> IsToken(second)
    requires p.shape == TokenAndText ==> IsText(second)
    ensures var s := p.keyword + first + " " + second;
      MatchesAt(p, s, 0, Match(0, first, second, |s|))
  {
    var s := p.keyword + first + " " + second;
    var b := |p.keyword| + |first|;
    assert s[..|p.keyword|] == p.keyword;
    assert s[|p.keyword|..b] == first;
    assert s[b] == ' ' && s[b + 1..|s|] == second;
  }

  /** `find()` from position `from` on: the leftmost position where `p` matches. */
  function FindFrom(p: Pattern, s: string, from: nat): (r: Option<Match>)
    requires from <= |s|
    ensures r.Some? ==> from <= r.value.start <= |s| && MatchAt(p, s, r.value.start) == r
    ensures r.Some? ==> forall k :: from <= k < r.value.start ==> MatchAt(p, s, k).None?
    ensures r.None? ==> forall k :: from <= k <= |s| ==> MatchAt(p, s, k).None?
    decreases |s| - from
  {
    var here := MatchAt(p, s, from);
    if here.Some? then here
    else if from == |s| then None
    else
      var r := FindFrom(p, s, from + 1);
      NoMatchBefore(p, s, from, if r.Some? then r.value.start else |s| + 1);
      r
  }

  /** No match at `from` and none from `from + 1` to `end`: none from `from` on. */
  lemma NoMatchBefore(p: Pattern, s: string, from: nat, end: nat)
    requires from < |s| && MatchAt(p, s, from).None?
    requires forall k :: from + 1 <= k < end && k <= |s| ==> MatchAt(p, s, k).None?
    ensures forall k :: from <= k < end && k <= |s| ==> MatchAt(p, s, k).None?
  {
  }

  /** `Pattern.compile(p).matcher(s).find()` with the groups it captures. */
  function Find(p: Pattern, s: string): Option<Match> {
    FindFrom(p, s, 0)
  }

  /** `Pattern.matches(p, s)`: a match at position 0 that consumes the whole string. */
  function MatchWhole(p: Pattern, s: string): (r: Option<Match>)
    ensures r.Some? ==> MatchesAt(p, s, 0, r.value) && r.value.end == |s|
    ensures forall m :: MatchesAt(p, s, 0, m) && m.end == |s| ==> r == Some(m)
  {
    assert forall m :: MatchesAt(p, s, 0, m) ==> MatchAt(p, s, 0) == Some(m) by {
      forall m | MatchesAt(p, s, 0, m) ensures MatchAt(p, s, 0) == Some(m) {
        MatchAtComplete(p, s, 0, m);
      }
    }
    match MatchAt(p, s, 0)
    case Some(m) => if m.end == |s| then Some(m) else None
    case None => None
  }

  /** A match that starts after nothing else matched is what `find()` returns. */
  lemma FindLeftmost(p: Pattern, s: string, i: nat, m: Match)
    requires i <= |s| && MatchesAt(p, s, i, m)
    requires forall k :: 0 <= k < i ==> MatchAt(p, s, k).None?
    ensures Find(p, s) == Some(m)
  {
    MatchAtComplete(p, s, i, m);
    var r := FindFrom(p, s, 0);
    assert r.Some? && r.value.start <= i;
    assert r.value.start == i;
  }

  /**
   * The spaces a match needs: the keyword's last character, and for the
   * two-group shapes the space after the first group.
   */
  lemma MatchSpaces(p: Pattern, s: string, i: nat)
    requires i <= |s| && MatchAt(p, s, i).Some?
    requires |p.keyword| > 0 && p.keyword[|p.keyword| - 1] == ' '
    ensures i + |p.keyword| <= |s| && s[i..i + |p.keyword|] == p.keyword
    ensures s[i] == p.keyword[0] && s[i + |p.keyword| - 1] == ' '
    ensures p.shape != OneToken ==>
      var b := i + |p.keyword| + |MatchAt(p, s, i).value.first|;
      b < |s| && s[b] == ' ' && b > i + |p.keyword|
  {
    assert s[i + |p.keyword| - 1] == s[i..i + |p.keyword|][|p.keyword| - 1];
    assert s[i] == s[i..i + |p.keyword|][0];
  }

  /** A pattern whose keyword ends in a space never matches a string without one. */
  lemma NoSpaceNoMatch(p: Pattern, s: string)
    requires |p.keyword| > 0 && p.keyword[|p.keyword| - 1] == ' '
    requires ' ' !in s
    ensures Find(p, s).None?
  {
    forall k | 0 <= k <= |s| ensures MatchAt(p, s, k).None? {
      if MatchAt(p, s, k).Some? {
        MatchSpaces(p, s, k);
      }
    }
  }
}
