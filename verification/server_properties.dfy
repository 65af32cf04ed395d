/** Consequences of the handlers and the invariant: who hears what. */
module ServerProperties {
  import opened Wrappers
  import opened Text
  import opened Codec
  import opened Session
  import opened Rooms
  import opened ChatServer
  import opened Invariant

  /** No two members of a room share a nickname. */
  lemma MembersHaveDistinctNicknames(s: Server, r: string, a: UserId, b: UserId)
    requires Inv(s) && a in Members(s.rooms, r) && b in Members(s.rooms, r)
    requires s.users[a].nickname == s.users[b].nickname
    ensures a == b
  {
    assert s.users[a].state == INSIDE && s.users[b].state == INSIDE;
  }

  /**
   * So members are listed by nickname alone: the connection-id tie-break
   * of the model never decides anything.
   */
  lemma MemberOrderIsNicknameOrder(s: Server, r: string, a: UserId, b: UserId)
    requires Inv(s) && a in Members(s.rooms, r) && b in Members(s.rooms, r) && a != b
    ensures Precedes(s.users, a, b) <==> CompareTo(s.users[a].nickname, s.users[b].nickname) < 0
  {
    if s.users[a].nickname == s.users[b].nickname {
      MembersHaveDistinctNicknames(s, r, a, b);
    }
  }

  /** Public text reaches its own sender too. */
  lemma SenderHearsOwnMessage(s: Server, u: UserId, text: string)
    requires Inv(s) && u in s.users && s.users[u].state == INSIDE
    ensures Delivery(u, Message(MESSAGE, s.users[u].nickname, text)) in PublicMessage(s, u, text).out
  {
    assert u in RoomOf(s, u);
  }

  lemma InSlice(out: seq<Delivery>, lo: int, hi: int, d: Delivery)
    requires 0 <= lo <= hi <= |out| && d in out[lo..hi]
    ensures d in out
  {
    var i :| 0 <= i < hi - lo && out[lo..hi][i] == d;
    assert out[lo + i] == d;
  }

  /** A fan-out inside a longer output reaches each of its set there. */
  lemma FanOutWithin(out: seq<Delivery>, lo: int, hi: int, users: map<UserId, User>, ids: set<UserId>, m: Message, id: UserId)
    requires 0 <= lo <= hi <= |out| && FanOut(out[lo..hi], users, ids, m) && id in ids
    ensures Delivery(id, m) in out
  {
    InSlice(out, lo, hi, Delivery(id, m));
  }

  /** The joiner is told of its own arrival, after it has been added to the room. */
  lemma JoinerHearsOwnJoined(s: Server, u: UserId, name: string)
    requires u in s.users && s.users[u].state != INIT
    ensures Delivery(u, WithToken(JOINED, s.users[u].nickname)) in JoinCommand(s, u, name).out
  {
    var me := s.users[u];
    var out := JoinCommand(s, u, name).out;
    var k := |(if me.state == INSIDE then LeaveCommand(s, u) else Step(s, [])).out|;
    FanOutWithin(out, k, |out| - 1, s.users, Members(s.rooms, name) + {u}, WithToken(JOINED, me.nickname), u);
  }

  /**
   * A rename to the nickname the session already has while INSIDE changes
   * nothing, yet every other member is still told NEWNICK n n.
   */
  lemma SameNickRename(s: Server, u: UserId, v: UserId)
    requires Inv(s) && u in s.users && s.users[u].state == INSIDE
    requires v != u && v in RoomOf(s, u)
    ensures var n := s.users[u].nickname;
      && NickCommand(s, u, n).next == s
      && Delivery(v, Message(NEW_NICKNAME, n, n)) in NickCommand(s, u, n).out
  {
    var n := s.users[u].nickname;
    SameNickChangesNothing(s, u);
    var out := NickCommand(s, u, n).out;
    assert Delivery(v, Message(NEW_NICKNAME, n, n)) in out[..|out| - 1];
    InSlice(out, 0, |out| - 1, Delivery(v, Message(NEW_NICKNAME, n, n)));
  }

  lemma SameNickChangesNothing(s: Server, u: UserId)
    requires Inv(s) && u in s.users && s.users[u].state != INIT
    ensures NickCommand(s, u, s.users[u].nickname).next == s
  {
    var n := s.users[u].nickname;
    var t := NickCommand(s, u, n).next;
    assert Renamed(s, u, n, t);
    RenamedToSameIsIdentity(s, u, t);
  }

  /** Renaming a registered session to its own nickname leaves every registry as it was. */
  lemma RenamedToSameIsIdentity(s: Server, u: UserId, t: Server)
    requires Inv(s) && u in s.users && s.users[u].state != INIT
    requires Renamed(s, u, s.users[u].nickname, t)
    ensures t == s
  {
    var n := s.users[u].nickname;
    assert s.nicks[n] == u;
    assert t.users[u] == s.users[u];
    assert t.users == s.users;
    assert t.nicks == s.nicks;
  }

  /** A rename notifies the other members only: the sender's one message is its OK. */
  lemma RenameSpeaksToSenderOnce(s: Server, u: UserId, nick: string)
    requires u in s.users
    ensures var out := NickCommand(s, u, nick).out;
      forall i :: 0 <= i < |out| - 1 ==> out[i].to != u
  {
    var out := NickCommand(s, u, nick).out;
    if NickAccepted(s, u, nick) && s.users[u].state == INSIDE {
      var notices := out[..|out| - 1];
      FanOutSkips(notices, s.users, RoomOf(s, u) - {u}, Message(NEW_NICKNAME, s.users[u].nickname, nick), u);
    }
  }

  /** A fan-out writes to nobody outside the set it was given. */
  lemma FanOutSkips(out: seq<Delivery>, users: map<UserId, User>, ids: set<UserId>, m: Message, u: UserId)
    requires FanOut(out, users, ids, m) && u !in ids
    ensures forall i :: 0 <= i < |out| ==> out[i].to != u
  {
  }

  /** LEFT goes to the remaining members, never to the one leaving. */
  lemma LeaverNotToldLeft(s: Server, u: UserId)
    requires u in s.users
    ensures var out := LeaveCommand(s, u).out;
      forall i :: 0 <= i < |out| ==> out[i].msg.kind == LEFT ==> out[i].to != u
  {
    var me := s.users[u];
    var out := LeaveCommand(s, u).out;
    if me.state == INSIDE && me.room.Some? {
      FanOutThenOk(out, s.users, Members(s.rooms, me.room.value) - {u}, WithToken(LEFT, me.nickname), u);
    }
  }

  /** A fan-out that skips `u`, followed by an OK to `u`: the OK is all that `u` receives. */
  lemma FanOutThenOk(out: seq<Delivery>, users: map<UserId, User>, ids: set<UserId>, m: Message, u: UserId)
    requires |out| > 0 && out[|out| - 1] == Ok(u)
    requires FanOut(out[..|out| - 1], users, ids, m) && u !in ids
    ensures forall i :: 0 <= i < |out| && out[i].to == u ==> out[i] == Ok(u)
  {
    forall i | 0 <= i < |out| - 1 ensures out[i].to != u {
      assert out[i] == out[..|out| - 1][i];
    }
  }

  /** The last member to leave takes the room out of the registry. */
  lemma LastLeaverDropsRoom(s: Server, u: UserId)
    requires Inv(s) && u in s.users && s.users[u].state == INSIDE
    requires RoomOf(s, u) == {u}
    ensures s.users[u].room.value !in LeaveCommand(s, u).next.rooms
  {
    var name := s.users[u].room.value;
    assert Members(s.rooms, name) - {u} == {};
  }

  /** Joining the room one is in leaves and re-enters it: the members are the same afterwards. */
  lemma RejoinKeepsMembers(s: Server, u: UserId)
    requires Inv(s) && u in s.users && s.users[u].state == INSIDE
    ensures var name := s.users[u].room.value;
      Members(JoinCommand(s, u, name).next.rooms, name) == Members(s.rooms, name)
  {
    var name := s.users[u].room.value;
    assert u in Members(s.rooms, name);
  }

  /** A private message reaches the live session that holds the target nickname. */
  lemma PrivateReachesHolder(s: Server, u: UserId, target: string, text: string)
    requires Inv(s) && u in s.users && s.users[u].state != INIT && target in s.nicks
    ensures var out := PrivateCommand(s, u, target, text).out;
      && |out| == 2 && out[0] == Ok(u)
      && out[1].to in s.users && s.users[out[1].to].nickname == target
      && out[1].msg == Message(PRIVATE, s.users[u].nickname, text)
  {
  }

  /**
   * close_client does not check that the session is still registered. A
   * second teardown from the same session record, after the first removed
   * it from a room that others still hold, changes nothing but writes LEFT
   * to every remaining member once more.
   */
  lemma SecondTeardownResendsLeft(s: Server, u: UserId, name: string)
    requires u in s.users && s.users[u].state == INSIDE && s.users[u].room == Some(name)
    requires Members(s.rooms, name) - {u} != {}
    ensures var me := s.users[u];
      var c := CloseClient(s, u);
      var again := Teardown(c.next, u, me);
      && again.next == c.next
      && |again.out| == |c.out| > 0
      && FanOut(again.out, c.next.users, Members(s.rooms, name) - {u}, WithToken(LEFT, me.nickname))
  {
    var me := s.users[u];
    var c := CloseClient(s, u);
    assert Members(c.next.rooms, name) == Members(s.rooms, name) - {u};
    assert u !in c.next.users && me.nickname !in c.next.nicks;
    TeardownOfGone(c.next, u, me, name);
    assert Members(c.next.rooms, name) - {u} == Members(s.rooms, name) - {u};
  }

  /** The teardown of a session that is already gone leaves the state as it was. */
  lemma TeardownOfGone(t: Server, u: UserId, me: User, name: string)
    requires me.state == INSIDE && me.room == Some(name)
    requires u !in t.users && me.nickname !in t.nicks
    requires u !in Members(t.rooms, name) && Members(t.rooms, name) != {}
    ensures Teardown(t, u, me).next == t
  {
    GoneDepartsQuietly(t, u, me, name);
    RemoveAbsent(t.users, u);
    RemoveAbsent(t.nicks, me.nickname);
  }

  lemma GoneDepartsQuietly(t: Server, u: UserId, me: User, name: string)
    requires me.room == Some(name)
    requires u !in Members(t.rooms, name) && Members(t.rooms, name) != {}
    ensures Depart(t, u, me).next == t
  {
    VacateStranger(t.rooms, name, u);
  }

  lemma RemoveAbsent<K, V>(m: map<K, V>, k: K)
    requires k !in m
    ensures m - {k} == m
  {
  }

  /** Vacating a room that still has members, for a session it does not hold, leaves the registry as it was. */
  lemma VacateStranger(rooms: map<string, Room>, name: string, u: UserId)
    requires u !in Members(rooms, name) && Members(rooms, name) != {}
    ensures Vacate(rooms, name, u) == rooms
  {
    assert name in rooms;
    assert LeftUser(rooms[name], u) == rooms[name];
    assert rooms[name := rooms[name]] == rooms;
  }
}
