/**
 * The server's state and its command handlers.
 *
 * The state is the two registries of the source (nickname to session, room
 * name to room) plus the sessions themselves, keyed by connection. Every
 * handler is a pure function returning the next state and the messages it
 * writes, in the order it writes them; a write is a Delivery to a connection.
 */
module ChatServer {
  import opened Wrappers
  import opened Codec
  import opened Session
  import opened Rooms

  datatype Server = Server(users: map<UserId, User>, nicks: map<string, UserId>, rooms: map<string, Room>)

  /** One message written to one connection. */
  datatype Delivery = Delivery(to: UserId, msg: Message)

  /** What a handler leaves behind: the next state and what it wrote. */
  datatype Step = Step(next: Server, out: seq<Delivery>)

  const NotInRoom := "You are not in a room."
  const NoNickname := "You don't have a nickname."
  const UnknownCommand := "Unknown command."

  function Ok(u: UserId): Delivery {
    Delivery(u, Bare(OK))
  }

  function Error(u: UserId, text: string): Delivery {
    Delivery(u, WithToken(ERROR, text))
  }

  /**
   * The members of the room registered under `name`; none when there is no
   * such room. The source holds a session's room by reference; the model
   * looks it up by name, and the invariant keeps the two in agreement.
   */
  function Members(rooms: map<string, Room>, name: string): set<UserId> {
    if name in rooms then rooms[name].members else {}
  }

  /** The members of the room the session last joined. */
  function RoomOf(s: Server, u: UserId): set<UserId>
    requires u in s.users
  {
    match s.users[u].room
    case None => {}
    case Some(name) => Members(s.rooms, name)
  }

  /** `out` writes `m` once to each of `ids`, in the nickname order of `users`, and nothing else. */
  predicate FanOut(out: seq<Delivery>, users: map<UserId, User>, ids: set<UserId>, m: Message) {
    && |out| == |ids|
    && (forall i :: 0 <= i < |out| ==> out[i].to in ids && out[i].msg == m)
    && (forall id :: id in ids ==> Delivery(id, m) in out)
    && (forall i, j :: 0 <= i < j < |out| ==> Precedes(users, out[i].to, out[j].to))
  }

  /** The loop over a room's member set that writes `m` to each member. */
  function Broadcast(users: map<UserId, User>, ids: set<UserId>, m: Message): (out: seq<Delivery>)
    ensures FanOut(out, users, ids, m)
  {
    var order := InNicknameOrder(ids, users);
    var out := seq(|order|, i requires 0 <= i < |order| => Delivery(order[i], m));
    assert forall id :: id in ids ==> Delivery(id, m) in out by {
      forall id | id in ids ensures Delivery(id, m) in out {
        var i :| 0 <= i < |order| && order[i] == id;
        assert out[i] == Delivery(id, m);
      }
    }
    out
  }

  /**
   * How the room registry looks after session `u`, whose room field is
   * `room`, is removed from that room: the room loses `u` and is dropped
   * once empty; every other room is as it was.
   */
  ghost predicate AfterDeparture(before: map<string, Room>, after: map<string, Room>, room: Option<string>, u: UserId) {
    && (forall n :: n in after ==> n in before && after[n].name == before[n].name)
    && (forall n :: Some(n) != room ==> (n in after <==> n in before))
    && (forall n :: Some(n) != room ==> Members(after, n) == Members(before, n))
    && (forall n :: Some(n) == room ==> (n in after <==> Members(before, n) - {u} != {}))
    && (forall n :: Some(n) == room ==> Members(after, n) == Members(before, n) - {u})
  }

  lemma Segments(a: seq<Delivery>, b: seq<Delivery>, last: Delivery)
    ensures (a + b + [last])[..|a|] == a
    ensures (a + b + [last])[|a|..|a| + |b|] == b
  {
  }

  // ------------------------------------------------------------ handlers

  /**
   * send_public_message: from a session inside a room, MESSAGE to every
   * member of that room, the sender included; from any other, an error.
   * Nothing changes.
   */
  function PublicMessage(s: Server, u: UserId, text: string): (r: Step)
    requires u in s.users
    ensures r.next == s
    ensures s.users[u].state == INSIDE ==>
      FanOut(r.out, s.users, RoomOf(s, u), Message(MESSAGE, s.users[u].nickname, text))
    ensures s.users[u].state != INSIDE ==> r.out == [Error(u, NotInRoom)]
  {
    var me := s.users[u];
    if me.state == INSIDE then Step(s, Broadcast(s.users, RoomOf(s, u), Message(MESSAGE, me.nickname, text)))
    else Step(s, [Error(u, NotInRoom)])
  }

  /**
   * The test send_nickname_command applies: a session that already has a
   * nickname may take it again; otherwise the nickname must be free.
   */
  predicate NickAccepted(s: Server, u: UserId, nick: string)
    requires u in s.users
  {
    (s.users[u].state != INIT && s.users[u].nickname == nick) || nick !in s.nicks
  }

  /**
   * send_nickname_command. On success an INIT session becomes OUTSIDE, the
   * old nickname's registration is replaced by `nick`, the other members of
   * the sender's room (when INSIDE) are told NEWNICK old new, in the order
   * of the old nicknames, and the sender gets OK. On failure only an error
   * is written.
   */
  function NickCommand(s: Server, u: UserId, nick: string): (r: Step)
    requires u in s.users
    ensures |r.out| > 0 && r.out[|r.out| - 1].to == u
    ensures r.out[|r.out| - 1].msg.kind == OK <==> NickAccepted(s, u, nick)
    ensures !NickAccepted(s, u, nick) ==>
      r.next == s && r.out == [Error(u, "There already is a user with nick " + nick)]
    ensures NickAccepted(s, u, nick) ==>
      var me := s.users[u];
      && r.out[|r.out| - 1] == Ok(u)
      && r.next.rooms == s.rooms
      && r.next.users == s.users[u := me.(nickname := nick, state := if me.state == INIT then OUTSIDE else me.state)]
      && (forall n :: n in r.next.nicks <==> n == nick || (n in s.nicks && n != me.nickname))
      && r.next.nicks[nick] == u
      && (forall n :: n in r.next.nicks && n != nick ==> r.next.nicks[n] == s.nicks[n])
      && (me.state == INSIDE ==>
            FanOut(r.out[..|r.out| - 1], s.users, RoomOf(s, u) - {u}, Message(NEW_NICKNAME, me.nickname, nick)))
      && (me.state != INSIDE ==> |r.out| == 1)
  {
    var me := s.users[u];
    if NickAccepted(s, u, nick) then
      var state := if me.state == INIT then OUTSIDE else me.state;
      var notices :=
        if state == INSIDE then Broadcast(s.users, RoomOf(s, u) - {u}, Message(NEW_NICKNAME, me.nickname, nick))
        else [];
      var nicks := Reregister(s.nicks, me.nickname, nick, u);
      var users := s.users[u := SetNickname(SetState(me, state), nick)];
      var out := notices + [Ok(u)];
      assert out[..|out| - 1] == notices;
      Step(s.(users := users, nicks := nicks), out)
    else
      Step(s, [Error(u, "There already is a user with nick " + nick)])
  }

  /** The nickname registry once `u` gives up `was` and takes `now`. */
  function Reregister(nicks: map<string, UserId>, was: string, now: string, u: UserId): (r: map<string, UserId>)
    ensures forall n :: n in r <==> n == now || (n in nicks && n != was)
    ensures r[now] == u
    ensures forall n :: n in r && n != now ==> r[n] == nicks[n]
  {
    (nicks - {was})[now := u]
  }

  /**
   * The departure shared by send_leave_command and close_client, for the
   * session record `me` of connection `u`: the session is removed from its
   * room, the remaining members are told LEFT, and an emptied room is
   * dropped from the registry. The sessions are not touched.
   */
  function Depart(s: Server, u: UserId, me: User): (r: Step)
    ensures r.next.users == s.users && r.next.nicks == s.nicks
    ensures AfterDeparture(s.rooms, r.next.rooms, me.room, u)
    ensures me.room.None? ==> r.out == []
    ensures me.room.Some? ==>
      FanOut(r.out, s.users, Members(s.rooms, me.room.value) - {u}, WithToken(LEFT, me.nickname))
  {
    match me.room
    case None => Step(s, [])
    case Some(name) =>
      Step(s.(rooms := Vacate(s.rooms, name, u)),
           Broadcast(s.users, Members(s.rooms, name) - {u}, WithToken(LEFT, me.nickname)))
  }

  /** The registry after left_user on room `name`, dropping the room once it is empty. */
  function Vacate(rooms: map<string, Room>, name: string, u: UserId): (after: map<string, Room>)
    ensures AfterDeparture(rooms, after, Some(name), u)
  {
    var room := LeftUser(if name in rooms then rooms[name] else NewRoom(name), u);
    assert room.members == Members(rooms, name) - {u};
    var after := if room.members == {} then rooms - {name} else rooms[name := room];
    assert forall n :: n != name ==> Members(after, n) == Members(rooms, n);
    assert Members(after, name) == Members(rooms, name) - {u};
    after
  }

  /**
   * send_leave_command: outside a room, an error and no change. Inside,
   * the departure (LEFT to the remaining members), then OK to the sender,
   * who becomes OUTSIDE; its room field keeps the old name.
   */
  function LeaveCommand(s: Server, u: UserId): (r: Step)
    requires u in s.users
    ensures s.users[u].state != INSIDE ==> r.next == s && r.out == [Error(u, NotInRoom)]
    ensures s.users[u].state == INSIDE ==>
      var me := s.users[u];
      && |r.out| > 0 && r.out[|r.out| - 1] == Ok(u)
      && (me.room.Some? ==>
            FanOut(r.out[..|r.out| - 1], s.users, Members(s.rooms, me.room.value) - {u}, WithToken(LEFT, me.nickname)))
      && AfterDeparture(s.rooms, r.next.rooms, me.room, u)
      && r.next.nicks == s.nicks
      && r.next.users == s.users[u := me.(state := OUTSIDE)]
  {
    var me := s.users[u];
    if me.state != INSIDE then Step(s, [Error(u, NotInRoom)])
    else
      var d := Depart(s, u, me);
      var out := d.out + [Ok(u)];
      assert out[..|out| - 1] == d.out;
      Step(d.next.(users := d.next.users[u := SetState(me, OUTSIDE)]), out)
  }

  /** The registry after join_user on room `name`, creating the room when it is absent. */
  function Occupy(rooms: map<string, Room>, name: string, u: UserId): (after: map<string, Room>)
    ensures name in after && after[name].name == (if name in rooms then rooms[name].name else name)
    ensures Members(after, name) == Members(rooms, name) + {u}
    ensures forall n :: n != name ==> (n in after <==> n in rooms)
    ensures forall n :: n != name && n in rooms ==> after[n] == rooms[n]
  {
    rooms[name := JoinUser(if name in rooms then rooms[name] else NewRoom(name), u)]
  }

  /** Leaving a room and joining it again gives back the room with the session in it. */
  lemma DepartThenReturn(before: map<string, Room>, after: map<string, Room>, room: Option<string>, u: UserId, name: string)
    requires AfterDeparture(before, after, room, u) || (after == before && room.None?)
    ensures Members(after, name) + {u} == Members(before, name) + {u}
  {
  }

  /**
   * send_join_command: an INIT session gets an error. Otherwise an INSIDE
   * session first leaves its room (all of send_leave_command, OK included),
   * the room is created when absent, the sender is added, and then JOINED
   * goes to every member, the sender included because it was added before
   * the loop; then OK, and the sender is INSIDE that room.
   */
  function JoinCommand(s: Server, u: UserId, name: string): (r: Step)
    requires u in s.users
    ensures s.users[u].state == INIT ==> r.next == s && r.out == [Error(u, NoNickname)]
    ensures s.users[u].state != INIT ==>
      var me := s.users[u];
      var leave := if me.state == INSIDE then LeaveCommand(s, u) else Step(s, []);
      && |leave.out| < |r.out| && r.out[..|leave.out|] == leave.out
      && FanOut(r.out[|leave.out|..|r.out| - 1], s.users, Members(s.rooms, name) + {u}, WithToken(JOINED, me.nickname))
      && r.out[|r.out| - 1] == Ok(u)
      && r.next.nicks == s.nicks
      && r.next.users == s.users[u := me.(state := INSIDE, room := Some(name))]
      && r.next.rooms == Occupy(leave.next.rooms, name, u)
      && Members(r.next.rooms, name) == Members(s.rooms, name) + {u}
  {
    var me := s.users[u];
    if me.state == INIT then Step(s, [Error(u, NoNickname)])
    else
      var leave := if me.state == INSIDE then LeaveCommand(s, u) else Step(s, []);
      var rooms := Occupy(leave.next.rooms, name, u);
      DepartThenReturn(s.rooms, leave.next.rooms, if me.state == INSIDE then me.room else None, u, name);
      // The implicit leave changes no nickname, so the order is the one of `s`.
      var joined := Broadcast(s.users, Members(rooms, name), WithToken(JOINED, me.nickname));
      var out := leave.out + joined + [Ok(u)];
      Segments(leave.out, joined, Ok(u));
      var users := s.users[u := SetState(SetRoom(me, name), INSIDE)];
      Step(Server(users, s.nicks, rooms), out)
  }

  /**
   * send_private_command: an INIT sender gets an error, and so does a
   * message to a nickname nobody holds; otherwise OK to the sender and
   * PRIVATE to the holder of the nickname, to no one else. Nothing changes.
   */
  function PrivateCommand(s: Server, u: UserId, target: string, text: string): (r: Step)
    requires u in s.users
    ensures r.next == s
    ensures s.users[u].state == INIT ==> r.out == [Error(u, NoNickname)]
    ensures s.users[u].state != INIT && target !in s.nicks ==>
      r.out == [Error(u, target + ": No such nickname online.")]
    ensures s.users[u].state != INIT && target in s.nicks ==>
      r.out == [Ok(u), Delivery(s.nicks[target], Message(PRIVATE, s.users[u].nickname, text))]
  {
    var me := s.users[u];
    if me.state == INIT then Step(s, [Error(u, NoNickname)])
    else if target !in s.nicks then Step(s, [Error(u, target + ": No such nickname online.")])
    else Step(s, [Ok(u), Delivery(s.nicks[target], Message(PRIVATE, me.nickname, text))])
  }

  /**
   * close_client, for connection `u` carrying the session record `me`: an
   * INSIDE session departs from its room (LEFT to the remaining members),
   * the registration of its nickname is removed and the session is gone.
   * Like the source, it does not ask whether the session is still
   * registered: it works from the record alone.
   */
  function Teardown(s: Server, u: UserId, me: User): (r: Step)
    ensures r.next.users.Keys == s.users.Keys - {u}
    ensures forall id :: id in r.next.users ==> r.next.users[id] == s.users[id]
    ensures forall n :: n in r.next.nicks <==> n in s.nicks && n != me.nickname
    ensures forall n :: n in r.next.nicks ==> r.next.nicks[n] == s.nicks[n]
    ensures me.state == INSIDE ==> AfterDeparture(s.rooms, r.next.rooms, me.room, u)
    ensures me.state == INSIDE && me.room.Some? ==>
      FanOut(r.out, s.users, Members(s.rooms, me.room.value) - {u}, WithToken(LEFT, me.nickname))
    ensures me.state != INSIDE ==> r.next.rooms == s.rooms && r.out == []
  {
    var d := if me.state == INSIDE then Depart(s, u, me) else Step(s, []);
    Step(d.next.(users := d.next.users - {u}, nicks := d.next.nicks - {me.nickname}), d.out)
  }

  /** close_client on a live connection: the teardown of the session it holds. */
  function CloseClient(s: Server, u: UserId): (r: Step)
    requires u in s.users
    ensures var me := s.users[u];
      && r.next.users.Keys == s.users.Keys - {u}
      && (forall id :: id in r.next.users ==> r.next.users[id] == s.users[id])
      && (forall n :: n in r.next.nicks <==> n in s.nicks && n != me.nickname)
      && (forall n :: n in r.next.nicks ==> r.next.nicks[n] == s.nicks[n])
      && (me.state == INSIDE ==> AfterDeparture(s.rooms, r.next.rooms, me.room, u))
      && (me.state == INSIDE && me.room.Some? ==>
            FanOut(r.out, s.users, Members(s.rooms, me.room.value) - {u}, WithToken(LEFT, me.nickname)))
      && (me.state != INSIDE ==> r.next.rooms == s.rooms && r.out == [])
  {
    Teardown(s, u, s.users[u])
  }

  /**
   * For an INSIDE session the teardown does to the rooms exactly what leave
   * does, and writes what leave writes except the final OK.
   */
  lemma TeardownIsLeaveWithoutOk(s: Server, u: UserId)
    requires u in s.users && s.users[u].state == INSIDE
    ensures CloseClient(s, u).next.rooms == LeaveCommand(s, u).next.rooms
    ensures CloseClient(s, u).out + [Ok(u)] == LeaveCommand(s, u).out
  {
  }

  /** send_bye_command: BYE to the sender, then the teardown of its connection. */
  function ByeCommand(s: Server, u: UserId): (r: Step)
    requires u in s.users
    ensures |r.out| > 0 && r.out[0] == Delivery(u, Bare(BYE))
    ensures r.next == CloseClient(s, u).next && r.out[1..] == CloseClient(s, u).out
    ensures u !in r.next.users
  {
    var c := CloseClient(s, u);
    var out := [Delivery(u, Bare(BYE))] + c.out;
    assert out[1..] == c.out;
    Step(c.next, out)
  }
}
