/**
 * processInput: input accumulates in the session's buffer, and only when
 * the whole buffer ends with a newline is it split into lines, each line
 * classified and handled in turn.
 */
module Input {
  import opened Wrappers
  import opened Text
  import opened Patterns
  import opened Session
  import opened ChatServer
  import opened Commands

  /**
   * `t` has the sessions of `s`, less possibly `u`, each with the buffer it
   * had: handlers never touch a buffer.
   */
  ghost predicate KeepsSessions(s: Server, t: Server, u: UserId) {
    && (forall id :: id in t.users ==> id in s.users && t.users[id].buffer == s.users[id].buffer)
    && (u in t.users ==> t.users.Keys == s.users.Keys)
  }

  lemma NickKeepsSessions(s: Server, u: UserId, nick: string)
    requires u in s.users
    ensures u in NickCommand(s, u, nick).next.users && KeepsSessions(s, NickCommand(s, u, nick).next, u)
  {
  }

  lemma JoinKeepsSessions(s: Server, u: UserId, room: string)
    requires u in s.users
    ensures u in JoinCommand(s, u, room).next.users && KeepsSessions(s, JoinCommand(s, u, room).next, u)
  {
    var me := s.users[u];
    var t := JoinCommand(s, u, room).next;
    if me.state != INIT {
      UpdateKeepsSessions(s, t, u, me.(state := INSIDE, room := Some(room)));
    }
  }

  /** Replacing the sender's session by one with the same buffer keeps the sessions. */
  lemma UpdateKeepsSessions(s: Server, t: Server, u: UserId, v: User)
    requires u in s.users && v.buffer == s.users[u].buffer && t.users == s.users[u := v]
    ensures u in t.users && KeepsSessions(s, t, u)
  {
  }

  lemma LeaveKeepsSessions(s: Server, u: UserId)
    requires u in s.users
    ensures u in LeaveCommand(s, u).next.users && KeepsSessions(s, LeaveCommand(s, u).next, u)
  {
  }

  lemma ByeKeepsSessions(s: Server, u: UserId)
    requires u in s.users
    ensures u !in ByeCommand(s, u).next.users && KeepsSessions(s, ByeCommand(s, u).next, u)
  {
  }

  /** The handler a command is routed to. Only bye removes the sender. */
  function Dispatch(s: Server, u: UserId, c: Command): (r: Step)
    requires u in s.users
    ensures u in r.next.users <==> c != Bye
    ensures KeepsSessions(s, r.next, u)
  {
    match c
    case Nick(nick) => NickKeepsSessions(s, u, nick); NickCommand(s, u, nick)
    case Join(room) => JoinKeepsSessions(s, u, room); JoinCommand(s, u, room)
    case Leave => LeaveKeepsSessions(s, u); LeaveCommand(s, u)
    case Bye => ByeKeepsSessions(s, u); ByeCommand(s, u)
    case Priv(target, text) => PrivateCommand(s, u, target, text)
    case Public(text) => PublicMessage(s, u, text)
    case Unknown => Step(s, [Error(u, UnknownCommand)])
  }

  /** One line: classified, then handled; an empty line does nothing. */
  function HandleLine(s: Server, u: UserId, line: string): (r: Step)
    requires u in s.users
    ensures line == "" ==> r == Step(s, [])
    ensures u in r.next.users <==> Classify(line) != Some(Bye)
    ensures KeepsSessions(s, r.next, u)
  {
    match Classify(line)
    case None => Step(s, [])
    case Some(c) => Dispatch(s, u, c)
  }

  /**
   * A slash line that no command pattern finds, that is neither leave nor
   * bye and whose body does not start with another '/' gets the reply
   * "Unknown command." and changes nothing.
   */
  lemma UnknownLineErrors(s: Server, u: UserId, line: string)
    requires u in s.users && IsSlashed(line)
    requires Find(NickPattern, Body(line)).None? && Find(JoinPattern, Body(line)).None?
    requires Body(line) != "leave" && Body(line) != "bye" && Find(PrivPattern, Body(line)).None?
    requires Body(line) == "" || Body(line)[0] != '/'
    ensures HandleLine(s, u, line) == Step(s, [Error(u, UnknownCommand)])
  {
    assert Classify(line) == Some(Unknown);
  }

  lemma PrefixRest(a: string, b: string, buf: string)
    requires a + b <= buf
    ensures |a| <= |buf| && b <= buf[|a|..]
  {
    assert (a + b)[..|a|] == a;
    assert forall k :: 0 <= k < |b| ==> b[k] == (a + b)[|a| + k];
  }

  /**
   * The loop over the split lines: each line is handled and then dropped
   * from the front of the buffer together with its newline. Once a bye has
   * closed the connection the remaining lines are not handled.
   */
  function RunLines(s: Server, u: UserId, lines: seq<string>): (r: Step)
    requires u in s.users && Terminated(lines) <= s.users[u].buffer
    ensures u in r.next.users ==> r.next.users[u].buffer == s.users[u].buffer[|Terminated(lines)|..]
    ensures forall id :: id in r.next.users && id != u ==> id in s.users && r.next.users[id].buffer == s.users[id].buffer
    // The first line is handled first, and a bye on it ends the batch.
    ensures |lines| > 0 ==> HandleLine(s, u, lines[0]).out <= r.out
    ensures |lines| > 0 && u !in HandleLine(s, u, lines[0]).next.users ==> r == HandleLine(s, u, lines[0])
    decreases |lines|
  {
    if |lines| == 0 then Step(s, [])
    else
      var h := HandleLine(s, u, lines[0]);
      if u !in h.next.users then h
      else
        var me := h.next.users[u];
        AdvancePastLine(me, lines);
        var s1 := h.next.(users := h.next.users[u := AdvanceBuffer(me, |lines[0]| + 1)]);
        var rest := RunLines(s1, u, lines[1..]);
        Step(rest.next, h.out + rest.out)
  }

  /** Dropping the first line and its newline leaves the other lines at the front, and the same tail after them. */
  lemma AdvancePastLine(me: User, lines: seq<string>)
    requires |lines| > 0 && Terminated(lines) <= me.buffer
    ensures |lines[0]| + 1 <= |me.buffer|
    ensures var v := AdvanceBuffer(me, |lines[0]| + 1);
      && Terminated(lines[1..]) <= v.buffer
      && v.buffer[|Terminated(lines[1..])|..] == me.buffer[|Terminated(lines)|..]
  {
    PrefixRest(lines[0] + "\n", Terminated(lines[1..]), me.buffer);
    assert |Terminated(lines)| == |lines[0]| + 1 + |Terminated(lines[1..])|;
  }

  /**
   * One read on a connection. An empty read closes it. Otherwise the data
   * is appended to the buffer; nothing is handled unless the buffer now ends
   * with a newline, and then every line of it is, after which only the
   * newlines that split dropped at the end remain buffered.
   */
  function Receive(s: Server, u: UserId, data: string): (r: Step)
    requires u in s.users
    ensures data == "" ==> r == CloseClient(s, u)
    ensures data != "" && data[|data| - 1] != '\n' ==>
      && r.out == [] && r.next.nicks == s.nicks && r.next.rooms == s.rooms
      && r.next.users.Keys == s.users.Keys
      && (forall id :: id in s.users && id != u ==> r.next.users[id] == s.users[id])
      && r.next.users[u].buffer == s.users[u].buffer + data
      && r.next.users[u].nickname == s.users[u].nickname
      && r.next.users[u].state == s.users[u].state
      && r.next.users[u].room == s.users[u].room
    ensures data != "" && data[|data| - 1] == '\n' && u in r.next.users ==>
      forall k :: 0 <= k < |r.next.users[u].buffer| ==> r.next.users[u].buffer[k] == '\n'
  {
    if data == "" then CloseClient(s, u)
    else
      var me := AddToBuffer(s.users[u], data);
      var s1 := s.(users := s.users[u := me]);
      var buf := me.buffer;
      assert buf[|buf| - 1] == data[|data| - 1];
      if buf[|buf| - 1] != '\n' then Step(s1, [])
      else
        SplitNewlineCovers(buf);
        RunLines(s1, u, SplitNewline(buf))
  }

  /** A new connection: a fresh session under an unused id. */
  function Connect(s: Server, id: UserId): (r: Server)
    requires id !in s.users
    ensures r.users.Keys == s.users.Keys + {id}
    ensures r.users[id] == NewUser(id)
    ensures forall x :: x in s.users ==> r.users[x] == s.users[x]
    ensures r.nicks == s.nicks && r.rooms == s.rooms
  {
    s.(users := s.users[id := NewUser(id)])
  }

  /**
   * Because of the gating, how the input is cut into reads does not
   * matter: a read that does not end a line, followed by another read, has
   * the effect of the two read at once.
   */
  lemma ChunkingIrrelevant(s: Server, u: UserId, a: string, b: string)
    requires u in s.users && a != "" && a[|a| - 1] != '\n' && b != ""
    ensures Receive(Receive(s, u, a).next, u, b) == Receive(s, u, a + b)
  {
    var s1 := Receive(s, u, a).next;
    assert (a + b)[|a + b| - 1] == b[|b| - 1];
    assert s1.users[u] == s.users[u].(buffer := s.users[u].buffer + a);
    assert s1.users[u].buffer + b == s.users[u].buffer + (a + b);
    assert AddToBuffer(s1.users[u], b) == AddToBuffer(s.users[u], a + b);
    assert s1.(users := s1.users[u := AddToBuffer(s1.users[u], b)]) == s.(users := s.users[u := AddToBuffer(s.users[u], a + b)]);
  }

  /** u's session in `s` with its buffer replaced by `buffer`. */
  function WithBuffer(s: Server, u: UserId, buffer: string): (r: Server)
    requires u in s.users
    ensures u in r.users && r.users[u].buffer == buffer
  {
    s.(users := s.users[u := s.users[u].(buffer := buffer)])
  }

  /**
   * A complete line arriving on an idle connection is handled, and only
   * that: the writes are the handler's, and afterwards the buffer is empty
   * (unless the line was a bye, which removed the session).
   */
  lemma ReceiveOneLine(s: Server, u: UserId, line: string)
    requires u in s.users && s.users[u].buffer == "" && line != "" && '\n' !in line
    ensures var h := HandleLine(WithBuffer(s, u, line + "\n"), u, line);
      var r := Receive(s, u, line + "\n");
      && r.out == h.out
      && (u !in h.next.users ==> r.next == h.next)
      && (u in h.next.users ==> r.next == WithBuffer(h.next, u, ""))
  {
    SplitOneLine(line);
    ReceiveRunsLines(s, u, line + "\n");
    RunOneLine(WithBuffer(s, u, line + "\n"), u, line);
  }

  /** On an idle connection a read ending in '\n' runs exactly the lines it splits into. */
  lemma ReceiveRunsLines(s: Server, u: UserId, data: string)
    requires u in s.users && s.users[u].buffer == "" && data != "" && data[|data| - 1] == '\n'
    ensures Terminated(SplitNewline(data)) <= data
    ensures Receive(s, u, data) == RunLines(WithBuffer(s, u, data), u, SplitNewline(data))
  {
    SplitNewlineCovers(data);
    var me := AddToBuffer(s.users[u], data);
    assert me.buffer == data;
    assert me == s.users[u].(buffer := data);
    assert WithBuffer(s, u, data) == s.(users := s.users[u := me]);
  }

  /** The loop over a single buffered line: that line's handler, then an empty buffer. */
  lemma RunOneLine(s: Server, u: UserId, line: string)
    requires u in s.users && s.users[u].buffer == line + "\n"
    ensures Terminated([line]) <= s.users[u].buffer
    ensures var h := HandleLine(s, u, line);
      var r := RunLines(s, u, [line]);
      && r.out == h.out
      && (u !in h.next.users ==> r.next == h.next)
      && (u in h.next.users ==> r.next == WithBuffer(h.next, u, ""))
  {
    assert Terminated([line]) == line + "\n" + Terminated([]);
    var h := HandleLine(s, u, line);
    if u in h.next.users {
      var me := h.next.users[u];
      assert me.buffer == line + "\n";
      assert AdvanceBuffer(me, |line| + 1) == me.(buffer := "");
      assert [line][1..] == [];
    }
  }

  lemma SplitOneLine(line: string)
    requires line != "" && '\n' !in line
    ensures SplitNewline(line + "\n") == [line]
  {
    SplitAllLine(line, "");
    assert line + "\n" == line + "\n" + "";
    assert (line + "\n")[|line|] == '\n';
    assert [line] + [""] == [line, ""];
  }

  /**
   * Two complete lines in one read are handled in order: the writes for
   * the first come before those for the second, and the second is handled
   * in the state the first left, with only its own line still buffered.
   */
  lemma ReceiveTwoLines(s: Server, u: UserId, a: string, b: string)
    requires u in s.users && s.users[u].buffer == "" && '\n' !in a && b != "" && '\n' !in b
    requires Classify(a) != Some(Bye)
    ensures var h1 := HandleLine(WithBuffer(s, u, a + "\n" + b + "\n"), u, a);
      var h2 := HandleLine(WithBuffer(h1.next, u, b + "\n"), u, b);
      Receive(s, u, a + "\n" + b + "\n").out == h1.out + h2.out
  {
    var data := a + "\n" + b + "\n";
    SplitTwoLines(a, b);
    ReceiveRunsLines(s, u, data);
    var s1 := WithBuffer(s, u, data);
    var h1 := HandleLine(s1, u, a);
    RunFirstOfTwo(s1, u, a, b);
    RunOneLine(WithBuffer(h1.next, u, b + "\n"), u, b);
  }

  /** The loop over two buffered lines, the first not a bye: its handler, then the loop over the second. */
  lemma RunFirstOfTwo(s: Server, u: UserId, a: string, b: string)
    requires u in s.users && s.users[u].buffer == a + "\n" + b + "\n" && Classify(a) != Some(Bye)
    ensures Terminated([a, b]) <= s.users[u].buffer
    ensures var h1 := HandleLine(s, u, a);
      && u in h1.next.users
      && RunLines(s, u, [a, b]).out == h1.out + RunLines(WithBuffer(h1.next, u, b + "\n"), u, [b]).out
  {
    var data := a + "\n" + b + "\n";
    assert [a, b][1..] == [b] && [b][1..] == [];
    assert Terminated([b]) == b + "\n";
    assert Terminated([a, b]) == a + "\n" + (b + "\n");
    var h1 := HandleLine(s, u, a);
    var me := h1.next.users[u];
    assert me.buffer == data;
    assert data[|a| + 1..] == b + "\n";
    assert AdvanceBuffer(me, |a| + 1) == me.(buffer := b + "\n");
  }

  lemma SplitTwoLines(a: string, b: string)
    requires '\n' !in a && b != "" && '\n' !in b
    ensures SplitNewline(a + "\n" + b + "\n") == [a, b]
  {
    var s := a + "\n" + b + "\n";
    assert s == a + "\n" + (b + "\n");
    SplitAllLine(a, b + "\n");
    assert b + "\n" == b + "\n" + "";
    SplitAllLine(b, "");
    assert s[|a|] == '\n';
    assert SplitAll(s) == [a, b, ""];
  }
}
