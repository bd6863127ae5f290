# Real-time chat coordinator, modelled in Dafny

This project models the socket.io coordinator of a small chat server
(`server.js`). Clients connect under a user name. They see the fixed
catalog of group rooms and the list of users online. They join one group
room at a time, post to it and see who is typing. They can also hold one
private conversation at a time. The coordinator keeps:

- a registry from user name to the socket registered last for it
  (`userSockets`);
- per-socket state: the current group room, the current private room and
  peer, and the rooms the socket is in;
- two append-only message stores, one for group records and one for
  private records;
- everything it emits.

The model is organised as follows:

- `strings.dfy`: JavaScript's `String.prototype.trim`, with the ECMAScript
  WhiteSpace and LineTerminator code points.
- `ordering.dfy`: the default order of `Array.prototype.sort` on strings,
  proved to be the lexicographic order of UTF-16 code units. It also holds
  the insertion sort used for the online list. `pmRoomName` orders its two
  names with the same comparison, and `Channels.PmRoomNameSorts` proves
  that this is what the sort gives.
- `channels.dfy`: the room catalog `ROOMS` and `pmRoomName`.
- `presence.dfy`: the registry's key order, which follows the insertion
  order of a JavaScript `Map`, and the `users:online` payload.
- `history.dfy`: the stored records and the two history queries, "the
  newest fifty matching records, oldest first".
- `events.dfy`: the events and payloads. Each emit is one `Emit` value
  naming the set of sockets it reaches.
- `sessions.dfy`: the per-socket state and its invariant. It also
  defines the recipient sets: `Members` for `io.to(room)` (every connected
  socket in the room) and `Others` for `socket.to(room)` (the same, minus
  the sender).
- `coordinator.dfy`: the handshake. It also holds the `Coordinator` class,
  with one method per handler. Each method states the handler's whole new
  state and keeps the class invariant `Valid()`.
- `scenarios.dfy`: short client sessions that follow from the handlers'
  contracts:
  - an older socket's disconnect unregisters a newer one;
  - a blank name is refused;
  - a second `room:leave` does nothing;
  - a private message reaches the recipient twice.

The model follows the code in three places where a more designed reading
of the system would differ:

- **Unconditional delete.** `disconnect` deletes the user's registry entry
  even when the entry belongs to a newer socket of the same user
  (`Coordinator.Disconnect`, `Scenarios.StaleDisconnect`).
- **No leave notice on disconnect.** `disconnect` tells the group room
  nothing. It only sends `users:online`.
- **Double delivery.** `pm:message` emits once to the private room and
  once more to the recipient's registered socket. A recipient with that
  conversation open gets the message twice
  (`Events.PrivateFanoutDeliveries`,
  `Scenarios.PrivateMessageArrivesTwice`).

The private room name does not identify the pair of users, because a name
may contain `__`:

- `Channels.PmRoomNameCollides` shows one user sharing a room name with
  two different peers.
- `Channels.PmRoomNameCollidesAcross` shows two disjoint pairs sharing
  one.
- `Channels.PmRoomNameInjective` proves the name is injective once no name
  contains `_`.

## Model

| member | source | states |
|---|---|---|
| Strings.Trim | server.js:32 | the result has no leading or trailing JavaScript white space and is no longer than the input |
| Strings.TrimCharacterized | server.js:47 | trimming white space + a trimmed core + white space gives exactly the core |
| Strings.TrimStartDropsSpace | server.js:47 | everything removed at the front is white space |
| Strings.TrimEndDropsSpace | server.js:47 | everything removed at the back is white space |
| Strings.TrimIdempotent | server.js:32 | trimming twice is trimming once |
| Strings.TrimEmptyIff | server.js:47-48 | a value trims to the empty string exactly when it is all white space |
| Ordering.LessIsCodeUnitOrder | server.js:32 | the string order is the lexicographic order of the UTF-16 code units, surrogate pairs included |
| Ordering.LessIrreflexive | server.js:32 | no string sorts before itself |
| Ordering.LessTransitive | server.js:32 | the order is transitive |
| Ordering.LessTotal | server.js:32 | any two different strings are ordered one way or the other |
| Ordering.SortPermutes | server.js:61 | sorting keeps exactly the same elements, with multiplicity |
| Ordering.SortSorted | server.js:61 | sorting a duplicate-free list gives a strictly ascending list |
| Ordering.SortedUnique | server.js:61 | two strictly ascending lists with the same elements are equal |
| Ordering.SortPair | server.js:32 | sorting two names puts the smaller first |
| Channels.PmRoomNameSorts | server.js:31-34 | the name is `pm:` + the two sorted trimmed names joined by `__` |
| Channels.PmRoomNameOrdered | server.js:31-34 | the name holds the smaller trimmed name first, whichever argument it came from |
| Channels.PmRoomNameCommutes | server.js:31-34 | both parties compute the same room name |
| Channels.PmRoomNameIgnoresSpace | server.js:31-34 | surrounding white space on either argument does not change the name |
| Channels.PmRoomNameIsPm | server.js:33 | every private room name starts with `pm:` |
| Channels.GroupRoomsAreNotPm | server.js:29 | no catalog room starts with `pm:` |
| Channels.PmRoomNotGroupRoom | server.js:29-34 | a private room name is never a catalog room |
| Channels.PmRoomNameCollides | server.js:31-34 | one user gets the same private room with two different peers when names contain `_` |
| Channels.PmRoomNameCollidesAcross | server.js:31-34 | two pairs with no user in common can share a private room |
| Channels.PmRoomNameInjective | server.js:31-34 | when no trimmed name contains `_`, two pairs share a room name exactly when they are the same pair |
| Presence.SetKey | server.js:55 | `Map.set` keeps the key order duplicate-free, adds the key once, and leaves an existing key where it was |
| Presence.DeleteKey | server.js:64 | `Map.delete` removes exactly that key and keeps the rest duplicate-free |
| Presence.OnlineListIsSortedKeys | server.js:61 | the `users:online` payload is strictly ascending and holds exactly the registered names |
| Presence.OnlineListIgnoresOrder | server.js:61 | the payload depends only on which names are registered, not on when |
| History.Reverse | server.js:94 | `reverse()` puts element `i` at position `n - 1 - i` |
| History.InRoom | server.js:126 | the room query keeps exactly the group records of that room |
| History.Between | server.js:82-87 | the private query keeps exactly the private records from either user to the other |
| History.BetweenSymmetric | server.js:82-87 | the private query is the same whichever user asks |
| History.InRoomAscending | server.js:126-128 | the room's records of an ascending store are ascending |
| History.BetweenAscending | server.js:82-88 | the conversation's records of an ascending store are ascending |
| History.QueryIsNewestFirst | server.js:88-89 | the sorted, limited query returns the newest `min(50, n)` matches, newest first: its `i`-th record is the `i`-th from the end |
| History.LatestIsNewest | server.js:88-94 | newest first, limit 50, reversed: `min(50, n)` records, the last ones of the `n` matches, ascending, and every match left out is older |
| History.GroupHistoryIsNewest | server.js:126-139 | `room:history` is the newest `min(50, n)` records of the room, oldest first |
| History.PrivateHistoryIsNewest | server.js:82-94 | `pm:history` is the newest `min(50, n)` records of the conversation, oldest first |
| History.PrivateHistorySymmetric | server.js:82-94 | both users get the same `pm:history` |
| Events.DeliveriesAppend | server.js:199-202 | deliveries of successive emits add up |
| Events.PrivateFanoutDeliveries | server.js:199-202 | a socket gets one copy for being in the private room and one more for being the recipient's registered socket |
| Sessions.NewSession | server.js:49 | a new socket has its name and no room, and is valid when the name is non-empty and trimmed |
| Sessions.PrivateRoomIsNotGroupRoom | server.js:77-79 | a valid session's private room is not a catalog room |
| Sessions.EnterRoom | server.js:114-120 | `room:join` sets the room and joins it, keeping name and private focus |
| Sessions.EnterRoomKeepsOk | server.js:114-120 | the old group room is replaced by the new one, the private room stays, and the session stays valid |
| Sessions.ExitRoom | server.js:146-148 | `room:leave` clears the room and leaves it, keeping name and private focus |
| Sessions.ExitRoomKeepsOk | server.js:146-148 | only the private room is left joined, and the session stays valid |
| Sessions.OpenPm | server.js:75-80 | `pm:open` leaves the previous private room and joins and records the room shared with the peer |
| Sessions.OpenPmKeepsOk | server.js:75-80 | the group room stays, the private room is replaced, and the session stays valid |
| Sessions.EnterRoomMembership | server.js:114-120 | after `room:join` the socket is in the new room's audience and out of the old room's, and every other socket's audiences are unchanged |
| Sessions.ExitRoomMembership | server.js:146-148 | after `room:leave` the socket is out of the old room's audience, still in its private room's, and every other socket's audiences are unchanged |
| Sessions.OpenPmMembership | server.js:75-79 | after `pm:open` the socket is in the shared private room's audience, out of the previous private room's, still in its group room's, and every other socket's audiences are unchanged |
| Realtime.Field | server.js:107 | a payload field is trimmed, and an absent field is the empty string |
| Realtime.Handshake | server.js:46-51 | refused with "username required" exactly when the query name is absent or all white space; otherwise the trimmed, non-empty name |
| Realtime.RegisterKeepsPresenceOk | server.js:55 | registering a new socket keeps every registered name pointing at a live socket of that user |
| Realtime.UnregisterKeepsPresenceOk | server.js:64 | dropping a socket and its user's entry keeps the registry consistent |
| Realtime.AppendKeepsStoreOk | server.js:163-167 | appending a record dated by the next clock value keeps the store ascending |
| Realtime.PmOpenReply | server.js:82-97 | to the opener only: `pm:history` with the newest `min(50, n)` records between the two users, oldest first, or "Failed to load PM history" when the query fails |
| Realtime.Coordinator.constructor | server.js:43 | nothing is registered, connected, stored or sent |
| Realtime.Coordinator.OnlineListIsRegistry | server.js:61 | in a valid state the online list is strictly ascending and holds exactly the registered names |
| Realtime.Coordinator.Connect | server.js:46-51 | a refused handshake changes nothing and returns "username required"; an accepted one admits the trimmed name |
| Realtime.Coordinator.OnConnection | server.js:53-61 | a new session is registered (last write wins), then `rooms:list` goes to it and exactly one `users:online` with the sorted registry goes to every socket |
| Realtime.Coordinator.Register | server.js:54-55 | the new socket gets the next id and overwrites its user's registry entry |
| Realtime.Coordinator.Disconnect | server.js:63-66 | the socket is gone, its user's entry is deleted unconditionally, and exactly one `users:online` goes to the remaining sockets |
| Realtime.Coordinator.Unregister | server.js:64 | the socket and its user's entry are removed, nothing else changes |
| Realtime.Coordinator.Save | server.js:163-167 | one record, dated by the next clock value, is appended to the store of its kind |
| Realtime.Coordinator.OnPmOpen | server.js:68-99 | a blank peer changes nothing; otherwise the private room is replaced and the history or the error goes to the opener |
| Realtime.Coordinator.OnRoomJoin | server.js:106-140 | an invalid room sends "Invalid room" and changes no state; a valid one leaves the old room with a notice to the others there, joins the new one, then sends `room:joined`, a notice to the new room's others and the room's history |
| Realtime.Coordinator.OnRoomLeave | server.js:143-150 | without a room nothing happens; otherwise the room is left, its others are told, the room is cleared and `room:left` goes to the sender |
| Realtime.Coordinator.OnRoomMessage | server.js:153-175 | outside a room "Join a room first" and no record; blank text does nothing; otherwise one group record is stored and sent to every member of the room, the sender included |
| Realtime.Coordinator.OnPmMessage | server.js:177-207 | a blank recipient or text does nothing; a failed store sends "Failed to send private message"; otherwise one private record is stored and sent to the private room and again to the recipient's registered socket |
| Realtime.Coordinator.OnPmTyping | server.js:212-221 | a blank recipient does nothing; otherwise one `pm:typing` goes to the other sockets of the shared private room |
| Realtime.Coordinator.OnRoomTyping | server.js:225-229 | without a room nothing happens; otherwise one `room:typing` goes to the other sockets of the room |
| Scenarios.StaleDisconnect | server.js:55-64 | after two connections of one user, the older socket's disconnect leaves the newer socket connected but unregistered |
| Scenarios.BlankNameRefused | server.js:46-48 | a name of white space is refused and nothing is sent |
| Scenarios.LeaveTwice | server.js:143-150 | after a join and a leave, a second `room:leave` leaves the outbox as it was |
| Scenarios.PrivateMessageArrivesTwice | server.js:198-202 | a registered recipient that opens the conversation gets its `pm:history` addressed to it, and then the one `pm:message` sent after it reaches it twice, with no other private message in between |

## Left out

- Boot and transport: the Express app, CORS, static pages, the redirect,
  the HTTP server, `listen`, dotenv and the database connection
  (server.js:1-26, 37-40, 232-238). They hold no coordinator logic.
- Logging: the `console.log` and `console.error` calls have no effect on
  state or emits.
- socket.io itself. Socket ids are a counter, and a socket is addressed by
  its id rather than through its own-id room. A disconnected socket is out
  of every room before `users:online` is sent.
- Mongoose: a query is a filter over a sequence store. `date_sent` is a
  strictly increasing counter. With wall-clock dates two records can share
  a date, and the order of such ties in the history is not modelled.
- Store failures of `room:join` and `room:message`: their rejections are
  uncaught and left out. Those of `pm:open` and `pm:message` are a boolean
  parameter of the handler.
- Interleaving at `await`. Each handler is one atomic step. It does not
  model another event changing room membership while `room:message` or
  `pm:message` waits for the store.
- Realtime.Field: payload values that are neither absent nor strings (a
  number, an array, an object) are not modelled. The handshake and the
  handlers take `Option<string>`. `!!isTyping` is taken as a boolean.
- Payloads that cannot be destructured: `pm:open`, `pm:message` and
  `pm:typing` throw on a missing payload object. This is not modelled.
- Realtime.Coordinator.OnRoomJoin: the history records are the stored
  records themselves. The projection to four fields (server.js:133-138)
  is the identity on `History.Message`, so records carry no other fields.
- Realtime.PmOpenReply: `pm:history` sends the stored documents
  unprojected (server.js:90-94), with their `_id` and `__v`. The model sends
  the same four-field records as `room:history`, because records carry no
  other fields.
- Lone surrogates: JavaScript strings are sequences of UTF-16 code units
  and may hold an unpaired surrogate, for example from a JSON `"\ud800"`
  payload. A Dafny `string` cannot hold one. Names and texts with such
  units are outside the model, and `Ordering` states nothing about them.
- Realtime.Coordinator.constructor: both stores start empty. The
  collections outlive a server restart, so a first history replay can
  hold records this process never wrote. The model does not capture
  records from before the process started.
- Event names on the wire are `Events.WireName`. Nothing is stated about
  them beyond the mapping.
- routes/auth.routes.js, routes/user.routes.js and the models
  (User, GroupMessage, PrivateMessage) are not part of this model.
