/** The per-connection state of the coordinator: what a handler keeps in
    `socket.data` (server.js:49, 79-80, 120, 148) together with the rooms
    socket.io has put the socket in (`socket.join` / `socket.leave`). */
module Sessions {
  import opened Wrappers
  import opened Strings
  import opened Channels
  import opened Events

  /** `socket.data.username`, `.room`, `.pmRoom`, `.pmWith`, and the rooms
      joined. The room socket.io names after the socket's own id is not in
      `joined`: sending to it is modelled as addressing the id directly. */
  datatype Session = Session(
    username: string,
    room: Option<string>,
    pmRoom: Option<string>,
    pmWith: Option<string>,
    joined: set<string>)

  /** A session just admitted by the handshake. */
  function NewSession(username: string): (s: Session)
    ensures s.username == username && s.room.None? && s.pmRoom.None? && s.joined == {}
    ensures username != [] && Trimmed(username) ==> SessionOk(s)
  {
    Session(username, None, None, None, {})
  }

  /** A private room exactly when there is a peer, and then the one named
      after the two of them. */
  predicate PmOk(s: Session) {
    && s.pmRoom.Some? == s.pmWith.Some?
    && (s.pmWith.Some? ==>
          s.pmWith.value != [] && Trimmed(s.pmWith.value)
          && s.pmRoom.value == PmRoomName(s.username, s.pmWith.value))
  }

  /** What every session satisfies: a non-empty trimmed name, a group room
      from the catalog, a consistent private room, and membership of exactly
      those rooms. */
  predicate SessionOk(s: Session) {
    && s.username != [] && Trimmed(s.username)
    && (s.room.Some? ==> s.room.value in ROOMS)
    && PmOk(s)
    && s.joined == OptSet(s.room) + OptSet(s.pmRoom)
  }

  /** A session's private room is never one of the group rooms. */
  lemma PrivateRoomIsNotGroupRoom(s: Session)
    requires SessionOk(s) && s.pmRoom.Some?
    ensures s.pmRoom.value !in ROOMS
  {
    PmRoomNotGroupRoom(s.username, s.pmWith.value);
  }

  /** `room:join` on a valid room (server.js:114-120): leave the current
      group room, if any, and join `r`. */
  function EnterRoom(s: Session, r: string): (t: Session)
    ensures t.username == s.username && t.pmRoom == s.pmRoom && t.pmWith == s.pmWith
    ensures t.room == Some(r) && r in t.joined
  {
    s.(room := Some(r), joined := s.joined - OptSet(s.room) + {r})
  }

  /** Joining a group room keeps the private room and replaces the group
      room. */
  lemma EnterRoomKeepsOk(s: Session, r: string)
    requires SessionOk(s) && r in ROOMS
    ensures SessionOk(EnterRoom(s, r))
    ensures EnterRoom(s, r).joined == {r} + OptSet(s.pmRoom)
  {
    if s.pmRoom.Some? {
      PrivateRoomIsNotGroupRoom(s);
      assert s.room.Some? ==> s.room.value != s.pmRoom.value;
    }
    OptSetMinus(s.room, s.pmRoom);
    assert PmOk(EnterRoom(s, r));
  }

  /** `room:leave` in a group room (server.js:146-148). */
  function ExitRoom(s: Session): (t: Session)
    requires s.room.Some?
    ensures t.username == s.username && t.pmRoom == s.pmRoom && t.pmWith == s.pmWith
    ensures t.room.None? && s.room.value !in t.joined
  {
    s.(room := None, joined := s.joined - {s.room.value})
  }

  /** Leaving the group room keeps the private room. */
  lemma ExitRoomKeepsOk(s: Session)
    requires SessionOk(s) && s.room.Some?
    ensures SessionOk(ExitRoom(s))
    ensures ExitRoom(s).joined == OptSet(s.pmRoom)
  {
    if s.pmRoom.Some? {
      PrivateRoomIsNotGroupRoom(s);
      assert s.room.value != s.pmRoom.value;
    }
    OptSetMinus(s.room, s.pmRoom);
    assert PmOk(ExitRoom(s));
  }

  /** `pm:open` with a non-empty peer (server.js:75-80): leave the current
      private room, if any, and join the one shared with `other`. */
  function OpenPm(s: Session, other: string): (t: Session)
    ensures var room := PmRoomName(s.username, other);
      && t.username == s.username && t.room == s.room
      && t.pmRoom == Some(room) && t.pmWith == Some(other) && room in t.joined
    ensures s.pmRoom.Some? && s.pmRoom.value != PmRoomName(s.username, other) ==> s.pmRoom.value !in t.joined
  {
    var room := PmRoomName(s.username, other);
    s.(pmRoom := Some(room), pmWith := Some(other), joined := s.joined - OptSet(s.pmRoom) + {room})
  }

  /** Opening a conversation with a non-empty trimmed peer keeps the group
      room and replaces the private room. */
  lemma OpenPmKeepsOk(s: Session, other: string)
    requires SessionOk(s) && other != [] && Trimmed(other)
    ensures SessionOk(OpenPm(s, other))
    ensures OpenPm(s, other).joined == OptSet(s.room) + {PmRoomName(s.username, other)}
  {
    PmRoomNotGroupRoom(s.username, other);
    if s.pmRoom.Some? {
      PrivateRoomIsNotGroupRoom(s);
      assert s.room.Some? ==> s.room.value != s.pmRoom.value;
    }
    OptSetMinus(s.room, s.pmRoom);
    assert PmOk(OpenPm(s, other));
  }

  /** The sockets in `room`: who `io.to(room)` reaches. */
  function Members(sessions: map<SocketId, Session>, room: string): (r: set<SocketId>)
    ensures forall sid :: sid in r <==> sid in sessions && room in sessions[sid].joined
  {
    set sid | sid in sessions && room in sessions[sid].joined
  }

  /** The sockets in `room` other than `sid`: who `socket.to(room)`
      reaches when `socket` has id `sid`. */
  function Others(sessions: map<SocketId, Session>, room: string, sid: SocketId): (r: set<SocketId>)
    ensures sid !in r
    ensures forall x :: x in r <==> x != sid && x in sessions && room in sessions[x].joined
  {
    Members(sessions, room) - {sid}
  }

  /** After `room:join` (server.js:114-120) the socket is in the new room and
      out of the old one, and every other socket is where it was. */
  lemma EnterRoomMembership(sessions: map<SocketId, Session>, sid: SocketId, r: string)
    requires sid in sessions && SessionOk(sessions[sid]) && r in ROOMS
    ensures var s, after := sessions[sid], sessions[sid := EnterRoom(sessions[sid], r)];
      && sid in Members(after, r)
      && (s.room.Some? && s.room.value != r ==> sid !in Members(after, s.room.value))
      && (forall room :: Others(after, room, sid) == Others(sessions, room, sid))
  {
    var after := sessions[sid := EnterRoom(sessions[sid], r)];
    EnterRoomKeepsOk(sessions[sid], r);
    forall room ensures Others(after, room, sid) == Others(sessions, room, sid) {
      forall x | x != sid ensures x in Others(after, room, sid) <==> x in Others(sessions, room, sid) {
        assert x in after <==> x in sessions;
        if x in after {
          assert after[x] == sessions[x];
        }
      }
    }
  }

  /** After `room:leave` (server.js:146-148) the socket is out of its group
      room, still in its private room, and every other socket is where it
      was. */
  lemma ExitRoomMembership(sessions: map<SocketId, Session>, sid: SocketId)
    requires sid in sessions && SessionOk(sessions[sid]) && sessions[sid].room.Some?
    ensures var s, after := sessions[sid], sessions[sid := ExitRoom(sessions[sid])];
      && sid !in Members(after, s.room.value)
      && (s.pmRoom.Some? ==> sid in Members(after, s.pmRoom.value))
      && (forall room :: Others(after, room, sid) == Others(sessions, room, sid))
  {
    var after := sessions[sid := ExitRoom(sessions[sid])];
    ExitRoomKeepsOk(sessions[sid]);
    forall room ensures Others(after, room, sid) == Others(sessions, room, sid) {
      forall x | x != sid ensures x in Others(after, room, sid) <==> x in Others(sessions, room, sid) {
        assert x in after <==> x in sessions;
        if x in after {
          assert after[x] == sessions[x];
        }
      }
    }
  }

  /** After `pm:open` (server.js:75-79) the socket is in the room shared with
      `other` and out of its previous private room, its group room is kept,
      and every other socket is where it was. */
  lemma OpenPmMembership(sessions: map<SocketId, Session>, sid: SocketId, other: string)
    requires sid in sessions && SessionOk(sessions[sid]) && other != [] && Trimmed(other)
    ensures var s, after := sessions[sid], sessions[sid := OpenPm(sessions[sid], other)];
      var room := PmRoomName(s.username, other);
      && sid in Members(after, room)
      && (s.pmRoom.Some? && s.pmRoom.value != room ==> sid !in Members(after, s.pmRoom.value))
      && (s.room.Some? ==> sid in Members(after, s.room.value))
      && (forall r :: Others(after, r, sid) == Others(sessions, r, sid))
  {
    var after := sessions[sid := OpenPm(sessions[sid], other)];
    OpenPmKeepsOk(sessions[sid], other);
    forall r ensures Others(after, r, sid) == Others(sessions, r, sid) {
      forall x | x != sid ensures x in Others(after, r, sid) <==> x in Others(sessions, r, sid) {
        assert x in after <==> x in sessions;
        if x in after {
          assert after[x] == sessions[x];
        }
      }
    }
  }
}
