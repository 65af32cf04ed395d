/**
 * The invariant of the registries, and its preservation by every handler
 * and by the input loop.
 */
module Invariant {
  import opened Wrappers
  import opened Text
  import opened Session
  import opened ChatServer
  import opened Commands
  import opened Input

  /** Each session is stored under its own connection. */
  ghost predicate SessionsKeyed(s: Server) {
    forall id :: id in s.users ==> s.users[id].socket == id
  }

  /** Each registered nickname is a token and maps to a live session that has that nickname. */
  ghost predicate NicksSound(s: Server) {
    forall n :: n in s.nicks ==> IsToken(n) && s.nicks[n] in s.users && s.users[s.nicks[n]].nickname == n
  }

  /** An INIT session has no nickname; any other is registered under its nickname. */
  ghost predicate NicksComplete(s: Server) {
    forall id :: id in s.users ==>
      if s.users[id].state == INIT then s.users[id].nickname == ""
      else s.users[id].nickname in s.nicks && s.nicks[s.users[id].nickname] == id
  }

  /** Each registered room is stored under its own name and has a member. */
  ghost predicate RoomsSound(s: Server) {
    forall r :: r in s.rooms ==> s.rooms[r].name == r && s.rooms[r].members != {}
  }

  /** Every member of a room is a live session, INSIDE, whose room is that room. */
  ghost predicate MembersInside(s: Server) {
    forall r, id :: r in s.rooms && id in s.rooms[r].members ==>
      id in s.users && s.users[id].state == INSIDE && s.users[id].room == Some(r)
  }

  /** Every INSIDE session is a member of the registered room it names. */
  ghost predicate InsideMember(s: Server) {
    forall id :: id in s.users && s.users[id].state == INSIDE ==>
      s.users[id].room.Some? && id in Members(s.rooms, s.users[id].room.value)
  }

  ghost predicate Inv(s: Server) {
    && SessionsKeyed(s) && NicksSound(s) && NicksComplete(s)
    && RoomsSound(s) && MembersInside(s) && InsideMember(s)
  }

  /** The server starts with no sessions, no nicknames and no rooms. */
  lemma InitialInv()
    ensures Inv(Server(map[], map[], map[]))
  {
  }

  lemma ConnectPreservesInv(s: Server, id: UserId)
    requires Inv(s) && id !in s.users
    ensures Inv(Connect(s, id))
  {
  }

  /**
   * Under the invariant the nickname rule reads: the nickname is free, or
   * it is already registered to the sender.
   */
  lemma NickAcceptedMeans(s: Server, u: UserId, nick: string)
    requires Inv(s) && u in s.users
    ensures NickAccepted(s, u, nick) <==> nick !in s.nicks || s.nicks[nick] == u
  {
    if nick in s.nicks && s.nicks[nick] == u {
      assert s.users[u].nickname == nick;
      assert s.users[u].state != INIT;
    }
  }

  lemma NickPreservesInv(s: Server, u: UserId, nick: string)
    requires Inv(s) && u in s.users && IsToken(nick)
    ensures Inv(NickCommand(s, u, nick).next)
  {
    var t := NickCommand(s, u, nick).next;
    if NickAccepted(s, u, nick) {
      assert Renamed(s, u, nick, t);
      RenamedNicksSound(s, u, nick, t);
      RenamedNicksComplete(s, u, nick, t);
      RenamedRoomsStand(s, u, nick, t);
    }
  }

  /** The state after an accepted rename of `u` to `nick`, as send_nickname_command leaves it. */
  ghost predicate Renamed(s: Server, u: UserId, nick: string, t: Server)
    requires u in s.users
  {
    var me := s.users[u];
    && t.rooms == s.rooms
    && t.users == s.users[u := me.(nickname := nick, state := if me.state == INIT then OUTSIDE else me.state)]
    && (forall n :: n in t.nicks <==> n == nick || (n in s.nicks && n != me.nickname))
    && t.nicks[nick] == u
    && (forall n :: n in t.nicks && n != nick ==> t.nicks[n] == s.nicks[n])
  }

  lemma RenamedNicksSound(s: Server, u: UserId, nick: string, t: Server)
    requires Inv(s) && u in s.users && IsToken(nick) && NickAccepted(s, u, nick)
    requires Renamed(s, u, nick, t)
    ensures NicksSound(t)
  {
    var me := s.users[u];
    forall n | n in t.nicks
      ensures IsToken(n) && t.nicks[n] in t.users && t.users[t.nicks[n]].nickname == n
    {
      if n != nick {
        assert n in s.nicks && n != me.nickname;
        assert s.nicks[n] != u;
      }
    }
  }

  lemma RenamedNicksComplete(s: Server, u: UserId, nick: string, t: Server)
    requires Inv(s) && u in s.users && NickAccepted(s, u, nick)
    requires Renamed(s, u, nick, t)
    ensures NicksComplete(t)
  {
    var me := s.users[u];
    forall id | id in t.users
      ensures if t.users[id].state == INIT then t.users[id].nickname == ""
        else t.users[id].nickname in t.nicks && t.nicks[t.users[id].nickname] == id
    {
      if id != u && s.users[id].state != INIT {
        var m := s.users[id].nickname;
        assert m in s.nicks && s.nicks[m] == id;
        assert m != me.nickname by {
          if me.state != INIT {
            assert s.nicks[me.nickname] == u;
          }
        }
        assert m != nick by {
          if nick in s.nicks {
            assert me.state != INIT && me.nickname == nick;
          }
        }
      }
    }
  }

  lemma RenamedRoomsStand(s: Server, u: UserId, nick: string, t: Server)
    requires Inv(s) && u in s.users
    requires Renamed(s, u, nick, t)
    ensures SessionsKeyed(t) && RoomsSound(t) && MembersInside(t) && InsideMember(t)
  {
  }

  /**
   * The state a departure of INSIDE session `u` leaves: its room lost it as
   * AfterDeparture says, it is no longer INSIDE, and nothing else changed.
   */
  ghost predicate Departed(s: Server, u: UserId, t: Server)
    requires u in s.users
  {
    && t.nicks == s.nicks && AfterDeparture(s.rooms, t.rooms, s.users[u].room, u)
    && t.users.Keys == s.users.Keys
    && (forall id :: id in s.users && id != u ==> t.users[id] == s.users[id])
    && t.users[u].state != INSIDE && t.users[u].nickname == s.users[u].nickname
    && (t.users[u].state == INIT) == (s.users[u].state == INIT)
    && t.users[u].socket == u
  }

  /** What is left of a departure under the invariant: no room holds `u`, and the rest stands. */
  lemma DepartPreservesRooms(s: Server, u: UserId, t: Server)
    requires Inv(s) && u in s.users && s.users[u].state == INSIDE && Departed(s, u, t)
    ensures Inv(t)
  {
    DepartRoomsSound(s, u, t);
    DepartMembersInside(s, u, t);
    DepartInsideMember(s, u, t);
  }

  lemma DepartRoomsSound(s: Server, u: UserId, t: Server)
    requires RoomsSound(s) && u in s.users && s.users[u].state == INSIDE && Departed(s, u, t)
    ensures RoomsSound(t)
  {
    forall r | r in t.rooms ensures t.rooms[r].name == r && t.rooms[r].members != {} {
      assert r in s.rooms;
      if Some(r) != s.users[u].room {
        assert Members(t.rooms, r) == Members(s.rooms, r);
      }
    }
  }

  lemma DepartMembersInside(s: Server, u: UserId, t: Server)
    requires MembersInside(s) && u in s.users && s.users[u].state == INSIDE && Departed(s, u, t)
    ensures MembersInside(t)
  {
    forall r, id | r in t.rooms && id in t.rooms[r].members
      ensures id in t.users && t.users[id].state == INSIDE && t.users[id].room == Some(r)
    {
      assert r in s.rooms;
      if Some(r) == s.users[u].room {
        assert Members(t.rooms, r) == Members(s.rooms, r) - {u};
      } else {
        assert Members(t.rooms, r) == Members(s.rooms, r);
      }
      assert id in s.rooms[r].members;
    }
  }

  lemma DepartInsideMember(s: Server, u: UserId, t: Server)
    requires InsideMember(s) && u in s.users && s.users[u].state == INSIDE && Departed(s, u, t)
    ensures InsideMember(t)
  {
    forall id | id in t.users && t.users[id].state == INSIDE
      ensures t.users[id].room.Some? && id in Members(t.rooms, t.users[id].room.value)
    {
      assert id != u;
      var r := s.users[id].room.value;
      assert id in Members(s.rooms, r);
      if Some(r) == s.users[u].room {
        assert Members(t.rooms, r) == Members(s.rooms, r) - {u};
      } else {
        assert Members(t.rooms, r) == Members(s.rooms, r);
      }
    }
  }

  lemma LeavePreservesInv(s: Server, u: UserId)
    requires Inv(s) && u in s.users
    ensures Inv(LeaveCommand(s, u).next)
  {
    if s.users[u].state == INSIDE {
      assert Departed(s, u, LeaveCommand(s, u).next);
      DepartPreservesRooms(s, u, LeaveCommand(s, u).next);
    }
  }

  lemma CloseClientPreservesInv(s: Server, u: UserId)
    requires Inv(s) && u in s.users
    ensures Inv(CloseClient(s, u).next)
  {
    var me := s.users[u];
    var t := CloseClient(s, u).next;
    if me.state == INSIDE {
      var mid := LeaveCommand(s, u).next;
      LeavePreservesInv(s, u);
      TeardownIsLeaveWithoutOk(s, u);
      RemoveAfterUpdate(s.users, u, me.(state := OUTSIDE));
      RemoveOutsidePreservesInv(mid, u);
      assert t == mid.(users := mid.users - {u}, nicks := mid.nicks - {me.nickname});
    } else {
      RemoveOutsidePreservesInv(s, u);
      assert t == s.(users := s.users - {u}, nicks := s.nicks - {me.nickname});
    }
  }

  lemma RemoveAfterUpdate<K, V>(mp: map<K, V>, k: K, v: V)
    ensures mp[k := v] - {k} == mp - {k}
  {
  }

  /** A session in no room can be dropped together with its registration. */
  lemma RemoveOutsidePreservesInv(s: Server, u: UserId)
    requires Inv(s) && u in s.users && s.users[u].state != INSIDE
    ensures Inv(s.(users := s.users - {u}, nicks := s.nicks - {s.users[u].nickname}))
  {
    var me := s.users[u];
    var t := s.(users := s.users - {u}, nicks := s.nicks - {me.nickname});
    forall n | n in t.nicks ensures IsToken(n) && t.nicks[n] in t.users && t.users[t.nicks[n]].nickname == n {
      assert s.nicks[n] != u;
    }
    assert NicksSound(t);
    forall id | id in t.users && t.users[id].state != INIT
      ensures t.users[id].nickname in t.nicks && t.nicks[t.users[id].nickname] == id
    {
      assert s.users[id].nickname != me.nickname by {
        if me.state != INIT {
          assert s.nicks[me.nickname] == u;
        }
      }
    }
    assert NicksComplete(t);
    forall r, id | r in t.rooms && id in t.rooms[r].members ensures id in t.users {
      assert s.users[id].state == INSIDE;
    }
    assert MembersInside(t);
  }

  lemma JoinPreservesInv(s: Server, u: UserId, name: string)
    requires Inv(s) && u in s.users
    ensures Inv(JoinCommand(s, u, name).next)
  {
    var me := s.users[u];
    var t := JoinCommand(s, u, name).next;
    var entered := me.(state := INSIDE, room := Some(name));
    if me.state == OUTSIDE {
      assert t == Arrived(s, u, name);
      ArrivePreservesInv(s, u, name);
    } else if me.state == INSIDE {
      var m := LeaveCommand(s, u).next;
      LeavePreservesInv(s, u);
      assert m.users == s.users[u := me.(state := OUTSIDE)];
      UpdateTwice(s.users, u, me.(state := OUTSIDE), entered);
      assert t == Arrived(m, u, name);
      ArrivePreservesInv(m, u, name);
    }
  }

  lemma UpdateTwice<K, V>(mp: map<K, V>, k: K, a: V, b: V)
    ensures mp[k := a][k := b] == mp[k := b]
  {
  }

  /** The state after OUTSIDE session `u` enters room `name`, created when absent. */
  function Arrived(m: Server, u: UserId, name: string): Server
    requires u in m.users
  {
    Server(m.users[u := m.users[u].(state := INSIDE, room := Some(name))], m.nicks, Occupy(m.rooms, name, u))
  }

  /** An OUTSIDE session entering room `name` (created when absent) keeps the invariant. */
  lemma ArrivePreservesInv(m: Server, u: UserId, name: string)
    requires Inv(m) && u in m.users && m.users[u].state == OUTSIDE
    ensures Inv(Arrived(m, u, name))
  {
    ArriveRoomsSound(m, u, name);
    ArriveMembersInside(m, u, name);
    ArriveInsideMember(m, u, name);
  }

  lemma ArriveRoomsSound(m: Server, u: UserId, name: string)
    requires RoomsSound(m) && u in m.users && m.users[u].state == OUTSIDE
    ensures RoomsSound(Arrived(m, u, name))
  {
    var t := Arrived(m, u, name);
    forall r | r in t.rooms ensures t.rooms[r].name == r && t.rooms[r].members != {} {
      if r == name {
        assert u in Members(t.rooms, name);
      }
    }
  }

  lemma ArriveMembersInside(m: Server, u: UserId, name: string)
    requires MembersInside(m) && u in m.users && m.users[u].state == OUTSIDE
    ensures MembersInside(Arrived(m, u, name))
  {
    var t := Arrived(m, u, name);
    forall r, id | r in t.rooms && id in t.rooms[r].members
      ensures id in t.users && t.users[id].state == INSIDE && t.users[id].room == Some(r)
    {
      if id != u && r == name {
        assert id in Members(t.rooms, name);
      }
    }
  }

  lemma ArriveInsideMember(m: Server, u: UserId, name: string)
    requires InsideMember(m) && u in m.users && m.users[u].state == OUTSIDE
    ensures InsideMember(Arrived(m, u, name))
  {
    var t := Arrived(m, u, name);
    forall id | id in t.users && t.users[id].state == INSIDE
      ensures t.users[id].room.Some? && id in Members(t.rooms, t.users[id].room.value)
    {
      if id != u {
        var r := m.users[id].room.value;
        assert id in Members(m.rooms, r);
      }
    }
  }

  lemma DispatchPreservesInv(s: Server, u: UserId, c: Command)
    requires Inv(s) && u in s.users
    requires c.Nick? ==> IsToken(c.nick)
    ensures Inv(Dispatch(s, u, c).next)
  {
    match c
    case Nick(nick) => NickPreservesInv(s, u, nick);
    case Join(room) => JoinPreservesInv(s, u, room);
    case Leave => LeavePreservesInv(s, u);
    case Bye => CloseClientPreservesInv(s, u);
    case Priv(_, _) =>
    case Public(_) =>
    case Unknown =>
  }

  lemma HandleLinePreservesInv(s: Server, u: UserId, line: string)
    requires Inv(s) && u in s.users
    ensures Inv(HandleLine(s, u, line).next)
  {
    if Classify(line).Some? {
      DispatchPreservesInv(s, u, Classify(line).value);
    }
  }

  /** The invariant does not look at buffers. */
  lemma BufferPreservesInv(s: Server, u: UserId, v: User)
    requires Inv(s) && u in s.users
    requires v == s.users[u].(buffer := v.buffer)
    ensures Inv(s.(users := s.users[u := v]))
  {
    var t := s.(users := s.users[u := v]);
    assert forall id :: id in t.users ==> t.users[id] == s.users[id].(buffer := t.users[id].buffer);
  }

  lemma {:induction false} RunLinesPreservesInv(s: Server, u: UserId, lines: seq<string>)
    requires Inv(s) && u in s.users && Terminated(lines) <= s.users[u].buffer
    ensures Inv(RunLines(s, u, lines).next)
    decreases |lines|
  {
    if |lines| > 0 {
      var h := HandleLine(s, u, lines[0]);
      HandleLinePreservesInv(s, u, lines[0]);
      if u in h.next.users {
        var me := h.next.users[u];
        AdvancePastLine(me, lines);
        var s1 := h.next.(users := h.next.users[u := AdvanceBuffer(me, |lines[0]| + 1)]);
        BufferPreservesInv(h.next, u, AdvanceBuffer(me, |lines[0]| + 1));
        RunLinesPreservesInv(s1, u, lines[1..]);
      }
    }
  }

  lemma ReceivePreservesInv(s: Server, u: UserId, data: string)
    requires Inv(s) && u in s.users
    ensures Inv(Receive(s, u, data).next)
  {
    if data == "" {
      CloseClientPreservesInv(s, u);
    } else {
      var me := AddToBuffer(s.users[u], data);
      var s1 := s.(users := s.users[u := me]);
      BufferPreservesInv(s, u, me);
      if me.buffer[|me.buffer| - 1] == '\n' {
        SplitNewlineCovers(me.buffer);
        RunLinesPreservesInv(s1, u, SplitNewline(me.buffer));
      }
    }
  }
}
