/** What the coordinator sends: one `Emit` per `emit` call, naming the set
    of sockets it reaches, the event and its payload. */
module Events {
  import opened Wrappers
  import opened History

  /** socket.io assigns every connection a distinct id. */
  type SocketId = nat

  datatype Event =
    | RoomsList | UsersOnline | ErrorMsg
    | RoomSystem | RoomJoined | RoomLeft | RoomHistory | RoomMessage | RoomTyping
    | PmHistory | PmMessage | PmTyping

  /** The event names on the wire. */
  function WireName(e: Event): string {
    match e
    case RoomsList => "rooms:list"
    case UsersOnline => "users:online"
    case ErrorMsg => "error:msg"
    case RoomSystem => "room:system"
    case RoomJoined => "room:joined"
    case RoomLeft => "room:left"
    case RoomHistory => "room:history"
    case RoomMessage => "room:message"
    case RoomTyping => "room:typing"
    case PmHistory => "pm:history"
    case PmMessage => "pm:message"
    case PmTyping => "pm:typing"
  }

  datatype Payload =
    | Names(names: seq<string>)
    | Text(text: string)
    | NoPayload
    | Log(messages: seq<Message>)
    | Post(saved: Message)
    | Typing(fromUser: string, isTyping: bool)

  datatype Emit = Emit(to: set<SocketId>, event: Event, payload: Payload)

  /** How many copies of event `e` socket `sid` receives from `es`. */
  function Deliveries(es: seq<Emit>, sid: SocketId, e: Event): nat {
    if es == [] then 0
    else (if sid in es[0].to && es[0].event == e then 1 else 0) + Deliveries(es[1..], sid, e)
  }

  lemma {:induction false} DeliveriesAppend(a: seq<Emit>, b: seq<Emit>, sid: SocketId, e: Event)
    ensures Deliveries(a + b, sid, e) == Deliveries(a, sid, e) + Deliveries(b, sid, e)
    decreases |a|
  {
    if a != [] {
      assert (a + b)[1..] == a[1..] + b;
      DeliveriesAppend(a[1..], b, sid, e);
    } else {
      assert a + b == b;
    }
  }

  /** The two emits of `pm:message`: to everyone in the private room, then
      to the socket registered for the recipient, if any. */
  function PrivateFanout(room: set<SocketId>, peer: Option<SocketId>, saved: Message): seq<Emit> {
    [Emit(room, PmMessage, Post(saved))] + if peer.Some? then [Emit({peer.value}, PmMessage, Post(saved))] else []
  }

  /** A socket gets one copy for being in the private room and one more for
      being the recipient's registered socket; nothing deduplicates them. */
  lemma PrivateFanoutDeliveries(room: set<SocketId>, peer: Option<SocketId>, saved: Message, sid: SocketId)
    ensures Deliveries(PrivateFanout(room, peer, saved), sid, PmMessage)
      == (if sid in room then 1 else 0) + (if peer == Some(sid) then 1 else 0)
  {
    var es := PrivateFanout(room, peer, saved);
    assert Deliveries(es[1..], sid, PmMessage) == (if peer == Some(sid) then 1 else 0) by {
      if peer.Some? {
        assert es[1..][1..] == [];
      } else {
        assert es[1..] == [];
      }
    }
  }
}
