/**
 * The per-connection session: nickname, lifecycle state, current room and
 * the accumulator of input not yet handled.
 */
module Session {
  import opened Wrappers
  import opened Text

  /** A connection. The socket a session is bound to; it doubles as the session's identity. */
  type UserId = nat

  /** INIT: no nickname yet; OUTSIDE: named, in no room; INSIDE: named and in a room. */
  datatype State = INIT | OUTSIDE | INSIDE

  /**
   * The session. `room` names the room the session last joined: like the
   * Room reference it models, it is set on join and never cleared, and it is
   * only consulted while the state is INSIDE.
   */
  datatype User = User(socket: UserId, nickname: string, state: State, room: Option<string>, buffer: string)

  /** A fresh session on `socket`: INIT, no nickname, no room, nothing buffered. */
  function NewUser(socket: UserId): (u: User)
    ensures u.socket == socket && u.state == INIT
    ensures u.nickname == "" && u.buffer == "" && u.room.None?
  {
    User(socket, "", INIT, None, "")
  }

  /**
   * compareTo: the nicknames compared as strings. Two sessions with the
   * same nickname compare equal, whatever else differs, and swapping the
   * arguments negates the result.
   */
  function Compare(a: User, b: User): (r: int)
    ensures r == 0 <==> a.nickname == b.nickname
    ensures r == -CompareTo(b.nickname, a.nickname)
  {
    CompareToAntisymmetric(a.nickname, b.nickname);
    CompareTo(a.nickname, b.nickname)
  }

  // Each setter replaces one field; the socket has no setter.

  function SetNickname(u: User, nickname: string): (r: User)
    ensures r.nickname == nickname
    ensures r.socket == u.socket && r.state == u.state && r.room == u.room && r.buffer == u.buffer
  {
    u.(nickname := nickname)
  }

  function SetState(u: User, state: State): (r: User)
    ensures r.state == state
    ensures r.socket == u.socket && r.nickname == u.nickname && r.room == u.room && r.buffer == u.buffer
  {
    u.(state := state)
  }

  function SetRoom(u: User, room: string): (r: User)
    ensures r.room == Some(room)
    ensures r.socket == u.socket && r.nickname == u.nickname && r.state == u.state && r.buffer == u.buffer
  {
    u.(room := Some(room))
  }

  /** add_to_buffer: the new input goes after what is already buffered. */
  function AddToBuffer(u: User, data: string): (r: User)
    ensures |r.buffer| == |u.buffer| + |data|
    ensures r.buffer[..|u.buffer|] == u.buffer && r.buffer[|u.buffer|..] == data
    ensures r.socket == u.socket && r.nickname == u.nickname && r.state == u.state && r.room == u.room
  {
    u.(buffer := u.buffer + data)
  }

  /** advance_buffer: drops the first `idx` characters, which must exist. */
  function AdvanceBuffer(u: User, idx: nat): (r: User)
    requires idx <= |u.buffer|
    ensures |r.buffer| == |u.buffer| - idx
    ensures u.buffer == u.buffer[..idx] + r.buffer
    ensures r.socket == u.socket && r.nickname == u.nickname && r.state == u.state && r.room == u.room
  {
    u.(buffer := u.buffer[idx..])
  }

  /** Appending and then dropping exactly what was there before leaves the new input. */
  lemma AddThenAdvance(u: User, data: string)
    ensures AdvanceBuffer(AddToBuffer(u, data), |u.buffer|).buffer == data
  {
  }
}
