/** The socket.io connection handler of server.js (lines 43-230): the
    `userSockets` registry, the handshake, and one method per event a client
    can send. Every emit is appended to `outbox`; the two message stores
    stand for the `GroupMessage` and `PrivateMessage` collections. */
module Realtime {
  import opened Wrappers
  import opened Strings
  import opened Ordering
  import opened Channels
  import opened History
  import opened Presence
  import opened Events
  import opened Sessions

  /** `String(x || "").trim()` on a value that is absent or a string: an
      absent value becomes the empty string. */
  function Field(x: Option<string>): (r: string)
    ensures Trimmed(r)
    ensures x.None? ==> r == []
    ensures x.Some? ==> r == Trim(x.value)
  {
    if x.Some? then Trim(x.value) else ""
  }

  /** The handshake middleware (server.js:46-51): the trimmed `username`
      query parameter, refused with "username required" when nothing but
      white space is left. */
  function Handshake(query: Option<string>): (r: Result<string, string>)
    ensures r.Failure? <==> query.None? || AllSpace(query.value)
    ensures r.Failure? ==> r.error == "username required"
    ensures r.Success? ==> r.value == Field(query) && r.value != [] && Trimmed(r.value)
  {
    if query.Some? then TrimEmptyIff(query.value); HandshakeOf(Field(query))
    else HandshakeOf(Field(query))
  }

  function HandshakeOf(username: string): Result<string, string> {
    if username == [] then Failure("username required") else Success(username)
  }

  /** Every registered name points at a live socket of that user, and the
      key order is a duplicate-free list of exactly the registered names. */
  predicate PresenceOk(order: seq<string>, userSockets: map<string, SocketId>, sessions: map<SocketId, Session>) {
    && Distinct(order)
    && (forall u :: u in order ==> u in userSockets)
    && (forall u :: u in userSockets ==> u in order)
    && (forall u :: u in userSockets ==> userSockets[u] in sessions && sessions[userSockets[u]].username == u)
  }

  predicate SessionsOk(sessions: map<SocketId, Session>, nextSid: SocketId) {
    forall sid :: sid in sessions ==> sid < nextSid && SessionOk(sessions[sid])
  }

  /** Replacing one session by a valid one. */
  lemma UpdateKeepsSessionsOk(sessions: map<SocketId, Session>, nextSid: SocketId, sid: SocketId, t: Session)
    requires SessionsOk(sessions, nextSid) && sid in sessions && SessionOk(t)
    ensures SessionsOk(sessions[sid := t], nextSid)
  {
    var updated := sessions[sid := t];
    forall x | x in updated ensures x < nextSid && SessionOk(updated[x]) {
      if x != sid {
        assert updated[x] == sessions[x];
      }
    }
  }

  /** Adding a valid session under the next id. */
  lemma AddKeepsSessionsOk(sessions: map<SocketId, Session>, nextSid: SocketId, t: Session)
    requires SessionsOk(sessions, nextSid) && SessionOk(t)
    ensures nextSid !in sessions
    ensures SessionsOk(sessions[nextSid := t], nextSid + 1)
  {
    var added := sessions[nextSid := t];
    forall x | x in added ensures x < nextSid + 1 && SessionOk(added[x]) {
      if x != nextSid {
        assert added[x] == sessions[x];
      }
    }
  }

  /** Removing a session. */
  lemma RemoveKeepsSessionsOk(sessions: map<SocketId, Session>, nextSid: SocketId, sid: SocketId)
    requires SessionsOk(sessions, nextSid)
    ensures SessionsOk(sessions - {sid}, nextSid)
  {
    var removed := sessions - {sid};
    forall x | x in removed ensures x < nextSid && SessionOk(removed[x]) {
      assert removed[x] == sessions[x];
    }
  }

  /** A stored record as the handlers create it: trimmed, non-empty fields,
      a catalog room for group records, a date before `clock`. */
  predicate RecordOk(m: Message, clock: nat) {
    && m.dateSent < clock
    && m.fromUser != [] && Trimmed(m.fromUser)
    && m.message != [] && Trimmed(m.message)
    && (m.Group? ==> m.room in ROOMS)
    && (m.Private? ==> m.toUser != [] && Trimmed(m.toUser))
  }

  predicate StoreOk(store: seq<Message>, group: bool, clock: nat) {
    && Ascending(store)
    && (forall i :: 0 <= i < |store| ==> store[i].Group? == group && RecordOk(store[i], clock))
  }

  /** Appending a record dated `clock` to a valid store and advancing the
      clock keeps the store valid. */
  lemma AppendKeepsStoreOk(store: seq<Message>, group: bool, clock: nat, m: Message)
    requires StoreOk(store, group, clock)
    requires m.Group? == group && m.dateSent == clock && RecordOk(m, clock + 1)
    ensures StoreOk(store + [m], group, clock + 1)
  {
  }

  /** Registering `u` for the new socket `sid`: last write wins. */
  lemma RegisterKeepsPresenceOk(order: seq<string>, userSockets: map<string, SocketId>,
                                sessions: map<SocketId, Session>, sid: SocketId, s: Session)
    requires PresenceOk(order, userSockets, sessions) && sid !in sessions
    ensures PresenceOk(SetKey(order, s.username), userSockets[s.username := sid], sessions[sid := s])
  {
  }

  /** Dropping the socket `sid` and deleting its user's entry, whichever
      socket the entry pointed at. */
  lemma UnregisterKeepsPresenceOk(order: seq<string>, userSockets: map<string, SocketId>,
                                  sessions: map<SocketId, Session>, sid: SocketId)
    requires PresenceOk(order, userSockets, sessions) && sid in sessions
    ensures var u := sessions[sid].username;
      PresenceOk(DeleteKey(order, u), userSockets - {u}, sessions - {sid})
  {
  }

  /** Replacing a session by one with the same name. */
  lemma UpdateKeepsPresenceOk(order: seq<string>, userSockets: map<string, SocketId>,
                              sessions: map<SocketId, Session>, sid: SocketId, s: Session)
    requires PresenceOk(order, userSockets, sessions) && sid in sessions
    requires s.username == sessions[sid].username
    ensures PresenceOk(order, userSockets, sessions[sid := s])
  {
  }

  const JoinRoomFirst: string := "Join a room first"
  const InvalidRoom: string := "Invalid room"
  const PmHistoryFailed: string := "Failed to load PM history"
  const PmSendFailed: string := "Failed to send private message"

  /** What `pm:open` sends back to the socket `sid` once it is in the room:
      the newest fifty records of the conversation, oldest first, or an
      error when the query fails. */
  function PmOpenReply(sid: SocketId, store: seq<Message>, username: string, other: string, loaded: bool): (e: Emit)
    requires Ascending(store)
    ensures e.to == {sid}
    ensures loaded ==> e.event == PmHistory && e.payload.Log?
    ensures loaded ==>
      var all, h := Between(store, username, other), e.payload.messages;
      && |h| == Min(HistoryLimit, |all|)
      && h == all[|all| - |h|..]
      && Ascending(h)
      && (forall m :: m in h ==> IsBetween(m, username, other) && m in store)
    ensures !loaded ==> e.event == ErrorMsg && e.payload == Text(PmHistoryFailed)
  {
    if loaded then
      PrivateHistoryIsNewest(store, username, other);
      Emit({sid}, PmHistory, Log(PrivateHistory(store, username, other)))
    else Emit({sid}, ErrorMsg, Text(PmHistoryFailed))
  }

  function LeftNotice(username: string): string { username + " left the room" }
  function JoinedNotice(username: string): string { username + " joined the room" }

  class Coordinator {
    /** The keys of `userSockets` in insertion order. */
    var order: seq<string>
    /** `userSockets`: username to the id of the socket registered last. */
    var userSockets: map<string, SocketId>
    /** The connected sockets. */
    var sessions: map<SocketId, Session>
    /** The id the next connection gets. */
    var nextSid: SocketId
    /** The `GroupMessage` and `PrivateMessage` collections, in creation
        order. */
    var groupStore: seq<Message>
    var privateStore: seq<Message>
    /** The `date_sent` the next saved record gets. */
    var clock: nat
    /** Everything emitted so far. */
    var outbox: seq<Emit>

    predicate Valid()
      reads this
    {
      && PresenceOk(order, userSockets, sessions)
      && SessionsOk(sessions, nextSid)
      && StoreOk(groupStore, true, clock)
      && StoreOk(privateStore, false, clock)
    }

    constructor ()
      ensures Valid()
      ensures order == [] && userSockets == map[] && sessions == map[]
      ensures groupStore == [] && privateStore == [] && outbox == []
    {
      order, userSockets, sessions := [], map[], map[];
      nextSid, clock := 1, 0;
      groupStore, privateStore, outbox := [], [], [];
    }

    /** The `users:online` payload is every registered name once, in
        ascending order. */
    lemma OnlineListIsRegistry()
      requires Valid()
      ensures StrictlySorted(OnlineList(order))
      ensures forall u :: u in OnlineList(order) <==> u in userSockets
    {
      OnlineListIsSortedKeys(order);
    }

    /** Both halves of admitting `u` on the new socket `sid`. */
    twostate predicate Admitted(u: string, sid: SocketId)
      reads this
    {
      && sid == old(nextSid) && sid !in old(sessions)
      && sessions == old(sessions)[sid := NewSession(u)]
      && userSockets == old(userSockets)[u := sid]
      && order == SetKey(old(order), u)
      && nextSid == sid + 1
      && outbox == old(outbox) + [Emit({sid}, RoomsList, Names(ROOMS)),
                                  Emit(sessions.Keys, UsersOnline, Names(OnlineList(order)))]
      && groupStore == old(groupStore) && privateStore == old(privateStore) && clock == old(clock)
    }

    /** A connection attempt (server.js:46-51): refused with "username
        required" when the handshake finds no name, and admitted otherwise. */
    method Connect(query: Option<string>) returns (r: Result<SocketId, string>)
      requires Valid()
      modifies this
      ensures Valid()
      ensures Handshake(query).Failure? ==>
        && r == Failure("username required")
        && order == old(order) && userSockets == old(userSockets) && sessions == old(sessions)
        && nextSid == old(nextSid) && outbox == old(outbox)
        && groupStore == old(groupStore) && privateStore == old(privateStore) && clock == old(clock)
      ensures Handshake(query).Success? ==> r.Success? && Admitted(Handshake(query).value, r.value)
    {
      var h := Handshake(query);
      if h.Failure? {
        return Failure(h.error);
      }
      var sid := OnConnection(h.value);
      r := Success(sid);
    }

    /** The connection handler (server.js:53-61): `userSockets.set`, then
        `rooms:list` to the new socket and `users:online` to every socket. */
    method OnConnection(username: string) returns (sid: SocketId)
      requires Valid() && username != [] && Trimmed(username)
      modifies this
      ensures Valid()
      ensures Admitted(username, sid)
      ensures StrictlySorted(OnlineList(order)) && (forall u :: u in OnlineList(order) <==> u in userSockets)
    {
      sid := Register(username);
      Send([Emit({sid}, RoomsList, Names(ROOMS)),
            Emit(sessions.Keys, UsersOnline, Names(OnlineList(order)))]);
      OnlineListIsRegistry();
    }

    /** A new socket for `username`, and `userSockets.set(username, id)`. */
    method Register(username: string) returns (sid: SocketId)
      requires Valid() && username != [] && Trimmed(username)
      modifies this
      ensures Valid()
      ensures sid == old(nextSid) && sid !in old(sessions)
      ensures sessions == old(sessions)[sid := NewSession(username)]
      ensures userSockets == old(userSockets)[username := sid]
      ensures order == SetKey(old(order), username)
      ensures nextSid == sid + 1 && outbox == old(outbox)
      ensures groupStore == old(groupStore) && privateStore == old(privateStore) && clock == old(clock)
    {
      sid := nextSid;
      RegisterKeepsPresenceOk(order, userSockets, sessions, sid, NewSession(username));
      AddKeepsSessionsOk(sessions, nextSid, NewSession(username));
      sessions := sessions[sid := NewSession(username)];
      userSockets := userSockets[username := sid];
      order := SetKey(order, username);
      nextSid := sid + 1;
    }

    /** The `disconnect` handler (server.js:63-66): the socket is gone, its
        user's entry is deleted even when it belongs to a newer socket, and
        `users:online` goes to every remaining socket. */
    method Disconnect(sid: SocketId)
      requires Valid() && sid in sessions
      modifies this
      ensures Valid()
      ensures var u := old(sessions[sid].username);
        && sessions == old(sessions) - {sid}
        && userSockets == old(userSockets) - {u}
        && order == DeleteKey(old(order), u)
        && outbox == old(outbox) + [Emit(sessions.Keys, UsersOnline, Names(OnlineList(order)))]
      ensures nextSid == old(nextSid)
      ensures groupStore == old(groupStore) && privateStore == old(privateStore) && clock == old(clock)
      ensures StrictlySorted(OnlineList(order)) && (forall u :: u in OnlineList(order) <==> u in userSockets)
    {
      Unregister(sid);
      Send([Emit(sessions.Keys, UsersOnline, Names(OnlineList(order)))]);
      OnlineListIsRegistry();
    }

    /** The socket is gone and `userSockets.delete(username)`, whichever
        socket the entry names. */
    method Unregister(sid: SocketId)
      requires Valid() && sid in sessions
      modifies this
      ensures Valid()
      ensures var u := old(sessions[sid].username);
        && sessions == old(sessions) - {sid}
        && userSockets == old(userSockets) - {u}
        && order == DeleteKey(old(order), u)
      ensures nextSid == old(nextSid) && outbox == old(outbox)
      ensures groupStore == old(groupStore) && privateStore == old(privateStore) && clock == old(clock)
    {
      var u := sessions[sid].username;
      UnregisterKeepsPresenceOk(order, userSockets, sessions, sid);
      RemoveKeepsSessionsOk(sessions, nextSid, sid);
      sessions := sessions - {sid};
      userSockets := userSockets - {u};
      order := DeleteKey(order, u);
    }

    /** `emit` calls: the emits are appended and nothing else changes. */
    method Send(es: seq<Emit>)
      requires Valid()
      modifies this
      ensures Valid()
      ensures outbox == old(outbox) + es
      ensures order == old(order) && userSockets == old(userSockets) && sessions == old(sessions) && nextSid == old(nextSid)
      ensures groupStore == old(groupStore) && privateStore == old(privateStore) && clock == old(clock)
    {
      outbox := outbox + es;
    }

    /** A handler changing `socket.data` and the rooms of socket `sid`. */
    method Update(sid: SocketId, t: Session)
      requires Valid() && sid in sessions && SessionOk(t) && t.username == sessions[sid].username
      modifies this
      ensures Valid()
      ensures sessions == old(sessions)[sid := t]
      ensures order == old(order) && userSockets == old(userSockets) && nextSid == old(nextSid) && outbox == old(outbox)
      ensures groupStore == old(groupStore) && privateStore == old(privateStore) && clock == old(clock)
    {
      UpdateKeepsSessionsOk(sessions, nextSid, sid, t);
      UpdateKeepsPresenceOk(order, userSockets, sessions, sid, t);
      sessions := sessions[sid := t];
    }

    /** `GroupMessage.create` / `PrivateMessage.create`: the record is
        stored under the next date. */
    method Save(m: Message) returns (saved: Message)
      requires Valid() && RecordOk(m.(dateSent := clock), clock + 1)
      modifies this
      ensures Valid()
      ensures saved == m.(dateSent := old(clock)) && clock == old(clock) + 1
      ensures m.Group? ==> groupStore == old(groupStore) + [saved] && privateStore == old(privateStore)
      ensures m.Private? ==> privateStore == old(privateStore) + [saved] && groupStore == old(groupStore)
      ensures order == old(order) && userSockets == old(userSockets) && sessions == old(sessions)
      ensures nextSid == old(nextSid) && outbox == old(outbox)
    {
      saved := m.(dateSent := clock);
      if m.Group? {
        AppendKeepsStoreOk(groupStore, true, clock, saved);
        groupStore := groupStore + [saved];
      } else {
        AppendKeepsStoreOk(privateStore, false, clock, saved);
        privateStore := privateStore + [saved];
      }
      clock := clock + 1;
    }

    /** `pm:open` (server.js:68-99). `loaded` says whether the history query
        succeeds; when it fails the socket stays in the new room and gets
        an error. */
    method OnPmOpen(sid: SocketId, withUser: Option<string>, loaded: bool)
      requires Valid() && sid in sessions
      modifies this
      ensures Valid()
      ensures order == old(order) && userSockets == old(userSockets) && nextSid == old(nextSid)
      ensures groupStore == old(groupStore) && privateStore == old(privateStore) && clock == old(clock)
      ensures Field(withUser) == [] ==> sessions == old(sessions) && outbox == old(outbox)
      ensures Field(withUser) != [] ==>
        var s, other := old(sessions[sid]), Field(withUser);
        && sessions == old(sessions)[sid := OpenPm(s, other)]
        && outbox == old(outbox) + [PmOpenReply(sid, privateStore, s.username, other, loaded)]
    {
      var other := Field(withUser);
      if other == [] {
        return;
      }
      var s := sessions[sid];
      OpenPmKeepsOk(s, other);
      Update(sid, OpenPm(s, other));
      Send([PmOpenReply(sid, privateStore, s.username, other, loaded)]);
    }

    /** `room:join` (server.js:106-140). */
    method OnRoomJoin(sid: SocketId, room: Option<string>)
      requires Valid() && sid in sessions
      modifies this
      ensures Valid()
      ensures order == old(order) && userSockets == old(userSockets) && nextSid == old(nextSid)
      ensures groupStore == old(groupStore) && privateStore == old(privateStore) && clock == old(clock)
      ensures Field(room) !in ROOMS ==>
        sessions == old(sessions) && outbox == old(outbox) + [Emit({sid}, ErrorMsg, Text(InvalidRoom))]
      ensures Field(room) in ROOMS ==>
        var s, r := old(sessions[sid]), Field(room);
        && sessions == old(sessions)[sid := EnterRoom(s, r)]
        && outbox == old(outbox)
             + (if s.room.Some? then [Emit(Others(old(sessions), s.room.value, sid), RoomSystem, Text(LeftNotice(s.username)))] else [])
             + [Emit({sid}, RoomJoined, Text(r)),
                Emit(Others(sessions, r, sid), RoomSystem, Text(JoinedNotice(s.username))),
                Emit({sid}, RoomHistory, Log(GroupHistory(groupStore, r)))]
    {
      var r := Field(room);
      if r !in ROOMS {
        Send([Emit({sid}, ErrorMsg, Text(InvalidRoom))]);
        return;
      }
      var s := sessions[sid];
      var leaving: seq<Emit> := [];
      if s.room.Some? {
        leaving := [Emit(Others(sessions, s.room.value, sid), RoomSystem, Text(LeftNotice(s.username)))];
      }
      EnterRoomKeepsOk(s, r);
      Update(sid, EnterRoom(s, r));
      Send(leaving
        + [Emit({sid}, RoomJoined, Text(r)),
           Emit(Others(sessions, r, sid), RoomSystem, Text(JoinedNotice(s.username))),
           Emit({sid}, RoomHistory, Log(GroupHistory(groupStore, r)))]);
    }

    /** `room:leave` (server.js:143-150): nothing happens outside a group
        room, so a second leave is a no-op. */
    method OnRoomLeave(sid: SocketId)
      requires Valid() && sid in sessions
      modifies this
      ensures Valid()
      ensures order == old(order) && userSockets == old(userSockets) && nextSid == old(nextSid)
      ensures groupStore == old(groupStore) && privateStore == old(privateStore) && clock == old(clock)
      ensures old(sessions[sid].room).None? ==> sessions == old(sessions) && outbox == old(outbox)
      ensures old(sessions[sid].room).Some? ==>
        var s := old(sessions[sid]);
        && sessions == old(sessions)[sid := ExitRoom(s)]
        && outbox == old(outbox) + [Emit(Others(old(sessions), s.room.value, sid), RoomSystem, Text(LeftNotice(s.username))),
                                    Emit({sid}, RoomLeft, NoPayload)]
      ensures sessions[sid].room.None?
    {
      var s := sessions[sid];
      if s.room.None? {
        return;
      }
      ExitRoomKeepsOk(s);
      var notice := Emit(Others(sessions, s.room.value, sid), RoomSystem, Text(LeftNotice(s.username)));
      Update(sid, ExitRoom(s));
      Send([notice, Emit({sid}, RoomLeft, NoPayload)]);
    }

    /** `room:message` (server.js:153-175): refused outside a group room,
        ignored when blank, otherwise saved once and sent to the whole room,
        the sender included. */
    method OnRoomMessage(sid: SocketId, text: Option<string>)
      requires Valid() && sid in sessions
      modifies this
      ensures Valid()
      ensures order == old(order) && userSockets == old(userSockets) && sessions == old(sessions)
      ensures nextSid == old(nextSid) && privateStore == old(privateStore)
      ensures old(sessions[sid].room).None? ==>
        && groupStore == old(groupStore) && clock == old(clock)
        && outbox == old(outbox) + [Emit({sid}, ErrorMsg, Text(JoinRoomFirst))]
      ensures old(sessions[sid].room).Some? && Field(text) == [] ==>
        groupStore == old(groupStore) && clock == old(clock) && outbox == old(outbox)
      ensures old(sessions[sid].room).Some? && Field(text) != [] ==>
        var s := old(sessions[sid]);
        var m := Group(s.username, s.room.value, Field(text), old(clock));
        && groupStore == old(groupStore) + [m] && clock == old(clock) + 1
        && outbox == old(outbox) + [Emit(Members(sessions, s.room.value), RoomMessage, Post(m))]
        && sid in Members(sessions, s.room.value)
    {
      var s := sessions[sid];
      if s.room.None? {
        Send([Emit({sid}, ErrorMsg, Text(JoinRoomFirst))]);
        return;
      }
      var message := Field(text);
      if message == [] {
        return;
      }
      var m := Save(Group(s.username, s.room.value, message, clock));
      Send([Emit(Members(sessions, s.room.value), RoomMessage, Post(m))]);
    }

    /** `pm:message` (server.js:177-207): ignored when the recipient or the
        text is blank; otherwise saved once (`saved` says whether the store
        accepts it) and sent to the private room and, again, to the socket
        registered for the recipient. */
    method OnPmMessage(sid: SocketId, toUser: Option<string>, message: Option<string>, saved: bool)
      requires Valid() && sid in sessions
      modifies this
      ensures Valid()
      ensures order == old(order) && userSockets == old(userSockets) && sessions == old(sessions)
      ensures nextSid == old(nextSid) && groupStore == old(groupStore)
      ensures Field(toUser) == [] || Field(message) == [] ==>
        privateStore == old(privateStore) && clock == old(clock) && outbox == old(outbox)
      ensures Field(toUser) != [] && Field(message) != [] && !saved ==>
        && privateStore == old(privateStore) && clock == old(clock)
        && outbox == old(outbox) + [Emit({sid}, ErrorMsg, Text(PmSendFailed))]
      ensures Field(toUser) != [] && Field(message) != [] && saved ==>
        var u, to := old(sessions[sid].username), Field(toUser);
        var m := Private(u, to, Field(message), old(clock));
        && privateStore == old(privateStore) + [m] && clock == old(clock) + 1
        && outbox == old(outbox) + PrivateFanout(Members(sessions, PmRoomName(u, to)),
                                                 if to in userSockets then Some(userSockets[to]) else None, m)
    {
      var to, body := Field(toUser), Field(message);
      if to == [] || body == [] {
        return;
      }
      if !saved {
        Send([Emit({sid}, ErrorMsg, Text(PmSendFailed))]);
        return;
      }
      var u := sessions[sid].username;
      var m := Save(Private(u, to, body, clock));
      var peer := if to in userSockets then Some(userSockets[to]) else None;
      Send(PrivateFanout(Members(sessions, PmRoomName(u, to)), peer, m));
    }

    /** `pm:typing` (server.js:212-221): to the other sockets of the private
        room shared with a non-blank recipient. */
    method OnPmTyping(sid: SocketId, toUser: Option<string>, isTyping: bool)
      requires Valid() && sid in sessions
      modifies this
      ensures Valid()
      ensures order == old(order) && userSockets == old(userSockets) && sessions == old(sessions)
      ensures nextSid == old(nextSid) && groupStore == old(groupStore)
      ensures privateStore == old(privateStore) && clock == old(clock)
      ensures Field(toUser) == [] ==> outbox == old(outbox)
      ensures Field(toUser) != [] ==>
        var u := sessions[sid].username;
        outbox == old(outbox) + [Emit(Others(sessions, PmRoomName(u, Field(toUser)), sid), PmTyping, Typing(u, isTyping))]
    {
      var to := Field(toUser);
      if to == [] {
        return;
      }
      var u := sessions[sid].username;
      Send([Emit(Others(sessions, PmRoomName(u, to), sid), PmTyping, Typing(u, isTyping))]);
    }

    /** `room:typing` (server.js:225-229): to the other sockets of the
        current group room, if any. */
    method OnRoomTyping(sid: SocketId, isTyping: bool)
      requires Valid() && sid in sessions
      modifies this
      ensures Valid()
      ensures order == old(order) && userSockets == old(userSockets) && sessions == old(sessions)
      ensures nextSid == old(nextSid) && groupStore == old(groupStore)
      ensures privateStore == old(privateStore) && clock == old(clock)
      ensures sessions[sid].room.None? ==> outbox == old(outbox)
      ensures sessions[sid].room.Some? ==>
        var s := sessions[sid];
        outbox == old(outbox) + [Emit(Others(sessions, s.room.value, sid), RoomTyping, Typing(s.username, isTyping))]
    {
      var s := sessions[sid];
      if s.room.None? {
        return;
      }
      Send([Emit(Others(sessions, s.room.value, sid), RoomTyping, Typing(s.username, isTyping))]);
    }
  }
}
