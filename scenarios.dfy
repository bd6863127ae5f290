/** Short client sessions against the coordinator, showing what its
    contracts imply for the behaviours that matter. */
module Scenarios {
  import opened Wrappers
  import opened Strings
  import opened Channels
  import opened Events
  import opened Sessions
  import opened Realtime

  lemma AliceIsTrimmed()
    ensures Trimmed("alice") && Trim("alice") == "alice"
  {
    TrimOfTrimmed("alice");
  }

  lemma BobIsTrimmed()
    ensures Trimmed("bob") && Trim("bob") == "bob"
  {
    TrimOfTrimmed("bob");
  }

  /** The same user connects twice; when the older socket goes away, the
      user drops off the registry although the newer socket is still
      connected. */
  method StaleDisconnect() returns (c: Coordinator, older: SocketId, newer: SocketId)
    ensures c.Valid()
    ensures older !in c.sessions && newer in c.sessions
    ensures c.sessions[newer].username == "alice" && "alice" !in c.userSockets
  {
    AliceIsTrimmed();
    c := new Coordinator();
    var first := c.Connect(Some("alice"));
    older := first.value;
    var second := c.Connect(Some("alice"));
    newer := second.value;
    assert c.userSockets["alice"] == newer;
    c.Disconnect(older);
  }

  /** A blank name is refused and changes nothing. */
  method BlankNameRefused() returns (c: Coordinator, r: Result<SocketId, string>)
    ensures c.Valid() && c.sessions == map[] && c.outbox == []
    ensures r == Failure("username required")
  {
    c := new Coordinator();
    assert AllSpace(" ");
    r := c.Connect(Some(" "));
  }

  /** Leaving a room twice: the second leave sends nothing and changes
      nothing. */
  method LeaveTwice() returns (c: Coordinator, sid: SocketId, before: seq<Emit>)
    ensures c.Valid() && sid in c.sessions && c.sessions[sid].room.None?
    ensures c.outbox == before
  {
    AliceIsTrimmed();
    c := new Coordinator();
    var r := c.Connect(Some("alice"));
    sid := r.value;
    TrimOfTrimmed("sports");
    c.OnRoomJoin(sid, Some("sports"));
    c.OnRoomLeave(sid);
    before := c.outbox;
    c.OnRoomLeave(sid);
  }

  /** `bobSid` is the socket registered for its user. After it opens the
      conversation with the user of `aliceSid`, a private message from
      `aliceSid` reaches `bobSid` twice: once through the private room and
      once through the registry. */
  method PrivateMessageArrivesTwice(c: Coordinator, aliceSid: SocketId, bobSid: SocketId, text: string) returns (sent: seq<Emit>)
    requires c.Valid() && aliceSid in c.sessions && bobSid in c.sessions
    requires c.sessions[bobSid].username in c.userSockets && c.userSockets[c.sessions[bobSid].username] == bobSid
    requires Trim(text) != []
    modifies c
    ensures c.Valid()
    ensures |c.outbox| == |old(c.outbox)| + 1 + |sent| && sent == c.outbox[|old(c.outbox)| + 1..]
    ensures c.outbox[|old(c.outbox)|].event == PmHistory && c.outbox[|old(c.outbox)|].to == {bobSid}
    ensures Deliveries(sent, bobSid, PmMessage) == 2
    ensures Deliveries(c.outbox[|old(c.outbox)|..], bobSid, PmMessage) == 2
  {
    var alice, bob := c.sessions[aliceSid].username, c.sessions[bobSid].username;
    TrimOfTrimmed(alice);
    var start := c.outbox;
    c.OnPmOpen(bobSid, Some(alice), true);
    var room := PmRoomName(bob, alice);
    assert bobSid in Members(c.sessions, room);
    PmRoomNameCommutes(alice, bob);
    TrimOfTrimmed(bob);
    var before := c.outbox;
    c.OnPmMessage(aliceSid, Some(bob), Some(text), true);
    sent := c.outbox[|before|..];
    PrivateFanoutDeliveries(Members(c.sessions, room), Some(bobSid), c.privateStore[|c.privateStore| - 1], bobSid);
    OnlyMessagesCount(c.outbox, |start|, sent, bobSid);
  }

  /** An emit that is not a private message, followed by `sent`, delivers
      only the private messages of `sent`. */
  lemma OnlyMessagesCount(outbox: seq<Emit>, k: nat, sent: seq<Emit>, sid: SocketId)
    requires |outbox| == k + 1 + |sent| && sent == outbox[k + 1..]
    requires outbox[k].event != PmMessage
    ensures Deliveries(outbox[k..], sid, PmMessage) == Deliveries(sent, sid, PmMessage)
  {
    DeliveriesAppend([outbox[k]], sent, sid, PmMessage);
    assert outbox[k..] == [outbox[k]] + sent;
    assert [outbox[k]][1..] == [];
  }
}
