/** The optional value used for lookups and pattern matches. */
module Wrappers {

  datatype Option<+T> = None | Some(value: T)
}

/**
 * The few java.lang.String operations the chat server depends on, stated
 * over `string` (a sequence of chars): trim, compareTo, split on '\n', and
 * the character classes its regular expressions are built from.
 *
 * Java compares and stores UTF-16 code units; a Dafny `char` is a Unicode
 * scalar value. The two agree on every character below U+10000.
 */
module Text {

  /** A member of the class `[^ .]`, used for nicknames and room names. */
  predicate IsTokenChar(c: char) {
    c != ' ' && c != '.'
  }

  /** A character that Java's `.` refuses to match: a line terminator. */
  predicate IsLineTerminator(c: char) {
    c == '\n' || c == '\r' || c == '\U{0085}' || c == '\U{2028}' || c == '\U{2029}'
  }

  /** The two character classes a capture group runs over. */
  datatype Class = TokenClass | TextClass

  predicate InClass(cls: Class, c: char) {
    match cls
    case TokenClass => IsTokenChar(c)
    case TextClass => !IsLineTerminator(c)
  }

  /** A string matched entirely by `[^ .]+`: a well-formed nickname or room name. */
  predicate IsToken(s: string) {
    |s| > 0 && forall i :: 0 <= i < |s| ==> IsTokenChar(s[i])
  }

  /** A string matched entirely by `.*`. */
  predicate IsText(s: string) {
    forall i :: 0 <= i < |s| ==> !IsLineTerminator(s[i])
  }

  /** End of the longest run of `cls` characters starting at `i`: where a greedy `cls*` stops. */
  function RunEnd(cls: Class, s: string, i: nat): (j: nat)
    requires i <= |s|
    ensures i <= j <= |s|
    ensures forall k :: i <= k < j ==> InClass(cls, s[k])
    ensures j == |s| || !InClass(cls, s[j])
    decreases |s| - i
  {
    if i == |s| || !InClass(cls, s[i]) then i else RunEnd(cls, s, i + 1)
  }

  // ---------------------------------------------------------------- trim

  /** The characters String.trim() strips: every code point up to U+0020. */
  predicate IsBlank(c: char) {
    c <= ' '
  }

  predicate IsTrimmed(s: string) {
    |s| == 0 || (!IsBlank(s[0]) && !IsBlank(s[|s| - 1]))
  }

  function LeadingBlanks(s: string): (n: nat)
    ensures n <= |s|
    ensures forall k :: 0 <= k < n ==> IsBlank(s[k])
    ensures n == |s| || !IsBlank(s[n])
  {
    if |s| == 0 || !IsBlank(s[0]) then 0 else 1 + LeadingBlanks(s[1..])
  }

  function TrailingBlanks(s: string): (n: nat)
    ensures n <= |s|
    ensures forall k :: |s| - n <= k < |s| ==> IsBlank(s[k])
    ensures n == |s| || !IsBlank(s[|s| - n - 1])
  {
    if |s| == 0 || !IsBlank(s[|s| - 1]) then 0 else 1 + TrailingBlanks(s[..|s| - 1])
  }

  /**
   * String.trim(): the longest infix of `s` that neither starts nor ends
   * with a blank, obtained by dropping only blanks from both ends.
   */
  function Trim(s: string): (r: string)
    ensures IsTrimmed(r)
    ensures LeadingBlanks(s) + |r| <= |s|
    ensures r == s[LeadingBlanks(s)..LeadingBlanks(s) + |r|]
    ensures forall k :: LeadingBlanks(s) + |r| <= k < |s| ==> IsBlank(s[k])
  {
    var a := LeadingBlanks(s);
    if a == |s| then ""
    else
      var b := |s| - TrailingBlanks(s);
      assert a < b;
      s[a..b]
  }

  /** Trimming a string that has no blank at either end leaves it alone. */
  lemma TrimOfTrimmed(s: string)
    requires IsTrimmed(s)
    ensures Trim(s) == s
  {
    assert LeadingBlanks(s) == 0;
    if |s| > 0 {
      assert TrailingBlanks(s) == 0;
    }
  }

  // ----------------------------------------------------------- compareTo

  /**
   * String.compareTo: the difference of the first pair of differing chars,
   * or else the difference of the lengths.
   */
  function CompareTo(a: string, b: string): (r: int)
    ensures r == 0 <==> a == b
  {
    if |a| == 0 || |b| == 0 then |a| - |b|
    else if a[0] != b[0] then a[0] as int - b[0] as int
    else
      assert a == [a[0]] + a[1..] && b == [b[0]] + b[1..];
      CompareTo(a[1..], b[1..])
  }

  lemma {:induction false} CompareToAntisymmetric(a: string, b: string)
    ensures CompareTo(b, a) == -CompareTo(a, b)
  {
    if |a| > 0 && |b| > 0 && a[0] == b[0] {
      CompareToAntisymmetric(a[1..], b[1..]);
    }
  }

  lemma {:induction false} CompareToTransitive(a: string, b: string, c: string)
    requires CompareTo(a, b) < 0 && CompareTo(b, c) < 0
    ensures CompareTo(a, c) < 0
  {
    if |a| > 0 && |b| > 0 && |c| > 0 && a[0] == b[0] && b[0] == c[0] {
      CompareToTransitive(a[1..], b[1..], c[1..]);
    }
  }

  // --------------------------------------------------------------- split

  /** The pieces joined back with '\n' between them. */
  function JoinLines(pieces: seq<string>): string
    requires |pieces| >= 1
  {
    if |pieces| == 1 then pieces[0] else pieces[0] + "\n" + JoinLines(pieces[1..])
  }

  /** Every piece followed by '\n': the text a run of complete lines occupies. */
  function Terminated(pieces: seq<string>): string {
    if |pieces| == 0 then "" else pieces[0] + "\n" + Terminated(pieces[1..])
  }

  /** All pieces between '\n' separators, empty ones included. */
  function SplitAll(s: string): (r: seq<string>)
    ensures |r| >= 1
    ensures forall i :: 0 <= i < |r| ==> '\n' !in r[i]
    ensures JoinLines(r) == s
  {
    if |s| == 0 then [""]
    else
      var rest := SplitAll(s[1..]);
      if s[0] == '\n' then
        assert s == "\n" + s[1..];
        [""] + rest
      else
        var r := [[s[0]] + rest[0]] + rest[1..];
        assert r[1..] == rest[1..];
        assert s == [s[0]] + s[1..];
        r
  }

  /** Removes the empty pieces at the end of a split. */
  function DropTrailingEmpty(pieces: seq<string>): (r: seq<string>)
    ensures r <= pieces
    ensures |r| == 0 || r[|r| - 1] != ""
    ensures forall i :: |r| <= i < |pieces| ==> pieces[i] == ""
  {
    if |pieces| == 0 || pieces[|pieces| - 1] != "" then pieces
    else DropTrailingEmpty(pieces[..|pieces| - 1])
  }

  /**
   * String.split("\n"): the pieces between newlines with the trailing empty
   * pieces removed, or the whole string when it holds no newline at all.
   */
  function SplitNewline(s: string): (r: seq<string>)
    ensures forall i :: 0 <= i < |r| ==> '\n' !in r[i]
  {
    if '\n' !in s then [s] else DropTrailingEmpty(SplitAll(s))
  }

  lemma {:induction false} JoinLinesEndsWithLast(pieces: seq<string>)
    requires |pieces| >= 1
    ensures |pieces[|pieces| - 1]| <= |JoinLines(pieces)|
    ensures JoinLines(pieces)[|JoinLines(pieces)| - |pieces[|pieces| - 1]|..] == pieces[|pieces| - 1]
  {
    if |pieces| > 1 {
      JoinLinesEndsWithLast(pieces[1..]);
      var j := JoinLines(pieces[1..]);
      assert JoinLines(pieces) == pieces[0] + "\n" + j;
      assert JoinLines(pieces)[|JoinLines(pieces)| - |j|..] == j;
    }
  }

  lemma {:induction false} JoinLinesAppend(p: seq<string>, q: seq<string>)
    requires |p| >= 1 && |q| >= 1
    ensures JoinLines(p + q) == JoinLines(p) + "\n" + JoinLines(q)
  {
    if |p| > 1 {
      assert (p + q)[1..] == p[1..] + q;
      JoinLinesAppend(p[1..], q);
    } else {
      assert (p + q)[1..] == q;
    }
  }

  lemma {:induction false} TerminatedIsJoinPlusNewline(p: seq<string>)
    requires |p| >= 1
    ensures Terminated(p) == JoinLines(p) + "\n"
  {
    if |p| > 1 {
      TerminatedIsJoinPlusNewline(p[1..]);
    }
  }

  lemma {:induction false} JoinOfEmptiesIsNewlines(q: seq<string>)
    requires |q| >= 1
    requires forall i :: 0 <= i < |q| ==> q[i] == ""
    ensures |JoinLines(q)| == |q| - 1
    ensures forall k :: 0 <= k < |JoinLines(q)| ==> JoinLines(q)[k] == '\n'
  {
    if |q| > 1 {
      JoinOfEmptiesIsNewlines(q[1..]);
    }
  }

  /** A newline-free line followed by its '\n' splits off as one piece. */
  lemma {:induction false} SplitAllLine(line: string, rest: string)
    requires '\n' !in line
    ensures SplitAll(line + "\n" + rest) == [line] + SplitAll(rest)
  {
    var s := line + "\n" + rest;
    if |line| == 0 {
      assert s == "\n" + rest;
      assert s[1..] == rest;
    } else {
      assert s[0] == line[0];
      assert s[1..] == line[1..] + "\n" + rest;
      SplitAllLine(line[1..], rest);
      assert [line[0]] + line[1..] == line;
    }
  }

  /**
   * For a string that ends with '\n', the pieces String.split("\n") returns,
   * each followed by its '\n', spell a prefix of the string, and what is left
   * after them is nothing but newlines (the dropped trailing empty pieces).
   */
  lemma SplitNewlineCovers(s: string)
    requires |s| > 0 && s[|s| - 1] == '\n'
    ensures Terminated(SplitNewline(s)) <= s
    ensures forall k :: |Terminated(SplitNewline(s))| <= k < |s| ==> s[k] == '\n'
  {
    assert '\n' in s;
    var all := SplitAll(s);
    var kept := SplitNewline(s);
    assert kept == DropTrailingEmpty(all);
    JoinLinesEndsWithLast(all);
    assert all[|all| - 1] == "";
    var dropped := all[|kept|..];
    assert all == kept + dropped;
    assert |dropped| >= 1;
    JoinOfEmptiesIsNewlines(dropped);
    if |kept| == 0 {
      assert all == dropped;
    } else {
      JoinLinesAppend(kept, dropped);
      TerminatedIsJoinPlusNewline(kept);
      assert s == Terminated(kept) + JoinLines(dropped);
    }
  }
}
