/**
 * A chat room: a fixed name and a set of members.
 *
 * The source keeps members in a TreeSet ordered by User.compareTo, that is
 * by nickname, and iterates it to broadcast. Here membership is a set of
 * connection ids, and the nickname order is derived from the current
 * nicknames each time the members are listed (InNicknameOrder).
 *
 * Divergence: a TreeSet does not re-sort an element whose key changes, and
 * a member who renames while inside a room changes its key in place. The
 * source then iterates that room in the order the old nicknames gave, and
 * its tree lookups (remove on leave) may miss the renamed member. The model
 * lists members in the order of their current nicknames and always finds
 * them.
 */
module Rooms {
  import opened Text
  import opened Session

  datatype Room = Room(name: string, members: set<UserId>)

  /** A new room has the given name and no members. */
  function NewRoom(name: string): (r: Room)
    ensures r.name == name && |r.members| == 0
  {
    Room(name, {})
  }

  /** join_user: the user becomes a member; nothing else changes, and re-adding a member is a no-op. */
  function JoinUser(room: Room, u: UserId): (r: Room)
    ensures r.name == room.name
    ensures forall x :: x in r.members <==> x in room.members || x == u
    ensures u in room.members ==> r == room
  {
    Room(room.name, room.members + {u})
  }

  /** left_user: the user stops being a member; nothing else changes, and removing a non-member is a no-op. */
  function LeftUser(room: Room, u: UserId): (r: Room)
    ensures r.name == room.name
    ensures forall x :: x in r.members <==> x in room.members && x != u
    ensures u !in room.members ==> r == room
  {
    Room(room.name, room.members - {u})
  }

  // ------------------------------------------------------ nickname order

  /** The nickname a connection has in `users`; "" for an unknown one. */
  function NickOf(users: map<UserId, User>, id: UserId): string {
    if id in users then users[id].nickname else ""
  }

  /**
   * The order members are listed in: by nickname as compareTo orders them,
   * and by connection id between equal nicknames (which the registry never
   * lets two members share).
   */
  predicate Precedes(users: map<UserId, User>, a: UserId, b: UserId) {
    var c := CompareTo(NickOf(users, a), NickOf(users, b));
    c < 0 || (c == 0 && a < b)
  }

  lemma PrecedesTotal(users: map<UserId, User>, a: UserId, b: UserId)
    requires a != b
    ensures Precedes(users, a, b) != Precedes(users, b, a)
  {
    CompareToAntisymmetric(NickOf(users, a), NickOf(users, b));
  }

  lemma PrecedesTransitive(users: map<UserId, User>, a: UserId, b: UserId, c: UserId)
    requires Precedes(users, a, b) && Precedes(users, b, c)
    ensures Precedes(users, a, c)
  {
    var na, nb, nc := NickOf(users, a), NickOf(users, b), NickOf(users, c);
    if CompareTo(na, nb) < 0 && CompareTo(nb, nc) < 0 {
      CompareToTransitive(na, nb, nc);
    }
  }

  /** `m` comes before every other member. */
  predicate IsFirst(users: map<UserId, User>, members: set<UserId>, m: UserId) {
    m in members && forall o :: o in members && o != m ==> Precedes(users, m, o)
  }

  lemma {:induction false} FirstExists(users: map<UserId, User>, members: set<UserId>)
    requires members != {}
    ensures exists m :: IsFirst(users, members, m)
    decreases members
  {
    var x :| x in members;
    var rest := members - {x};
    if rest == {} {
      assert members == {x};
      assert IsFirst(users, members, x);
    } else {
      FirstExists(users, rest);
      var y :| IsFirst(users, rest, y);
      if Precedes(users, x, y) {
        forall o | o in members && o != x ensures Precedes(users, x, o) {
          if o != y {
            PrecedesTransitive(users, x, y, o);
          }
        }
        assert IsFirst(users, members, x);
      } else {
        PrecedesTotal(users, x, y);
        assert IsFirst(users, members, y);
      }
    }
  }

  lemma FirstUnique(users: map<UserId, User>, members: set<UserId>)
    ensures forall a, b :: IsFirst(users, members, a) && IsFirst(users, members, b) ==> a == b
  {
    forall a, b | IsFirst(users, members, a) && IsFirst(users, members, b) ensures a == b {
      if a != b {
        PrecedesTotal(users, a, b);
      }
    }
  }

  /**
   * Iteration over a member set: every member exactly once, in ascending
   * nickname order.
   */
  function InNicknameOrder(members: set<UserId>, users: map<UserId, User>): (r: seq<UserId>)
    ensures |r| == |members|
    ensures forall i :: 0 <= i < |r| ==> r[i] in members
    ensures forall x :: x in members ==> x in r
    ensures forall i, j :: 0 <= i < j < |r| ==> Precedes(users, r[i], r[j])
    decreases members
  {
    if members == {} then []
    else
      FirstExists(users, members);
      FirstUnique(users, members);
      var m :| IsFirst(users, members, m);
      var rest := InNicknameOrder(members - {m}, users);
      FirstThenRest(users, members, m, rest);
      [m] + rest
  }

  /** The first member followed by the others in order lists all the members in order. */
  lemma FirstThenRest(users: map<UserId, User>, members: set<UserId>, m: UserId, rest: seq<UserId>)
    requires IsFirst(users, members, m)
    requires |rest| == |members - {m}|
    requires forall i :: 0 <= i < |rest| ==> rest[i] in members - {m}
    requires forall x :: x in members - {m} ==> x in rest
    requires forall i, j :: 0 <= i < j < |rest| ==> Precedes(users, rest[i], rest[j])
    ensures var r := [m] + rest;
      && |r| == |members|
      && (forall i :: 0 <= i < |r| ==> r[i] in members)
      && (forall x :: x in members ==> x in r)
      && (forall i, j :: 0 <= i < j < |r| ==> Precedes(users, r[i], r[j]))
  {
    var r := [m] + rest;
    assert |members - {m}| == |members| - 1;
    assert forall j :: 0 < j < |r| ==> r[j] == rest[j - 1];
    forall i, j | 0 <= i < j < |r| ensures Precedes(users, r[i], r[j]) {
      if i == 0 {
        assert r[j] in members - {m};
      }
    }
  }
}
