/** The stored messages and the history queries the coordinator runs on
    them (server.js:82-90 and 126-138): all records matching a filter,
    newest first, at most fifty, then reversed to oldest first. */
module History {

  /** A saved `GroupMessage` or `PrivateMessage` record, with the fields the
      coordinator sends back. `dateSent` is the record's `date_sent`. */
  datatype Message =
    | Group(fromUser: string, room: string, message: string, dateSent: nat)
    | Private(fromUser: string, toUser: string, message: string, dateSent: nat)

  /** `.limit(50)` in both history queries. */
  const HistoryLimit: nat := 50

  function Min(a: nat, b: nat): nat {
    if a <= b then a else b
  }

  /** Records strictly ascending by `date_sent`: the order in which they
      were created. */
  predicate Ascending(s: seq<Message>) {
    forall i, j :: 0 <= i < j < |s| ==> s[i].dateSent < s[j].dateSent
  }

  /** Records strictly descending by `date_sent`: what `.sort({date_sent: -1})`
      must produce. */
  predicate Descending(s: seq<Message>) {
    forall i, j :: 0 <= i < j < |s| ==> s[i].dateSent > s[j].dateSent
  }

  function Reverse(s: seq<Message>): (r: seq<Message>)
    ensures |r| == |s|
    ensures forall i :: 0 <= i < |s| ==> r[i] == s[|s| - 1 - i]
  {
    if s == [] then [] else Reverse(s[1..]) + [s[0]]
  }

  /** `GroupMessage.find({ room })`: the group records of a room, in store
      order. */
  function InRoom(store: seq<Message>, room: string): (r: seq<Message>)
    ensures |r| <= |store|
    ensures forall m :: m in r <==> m in store && m.Group? && m.room == room
  {
    if store == [] then []
    else
      var rest := InRoom(store[1..], room);
      assert forall m :: m in store <==> m == store[0] || m in store[1..];
      if store[0].Group? && store[0].room == room then [store[0]] + rest else rest
  }

  /** The `$or` filter of `pm:open`: a private record from `u` to `v` or
      from `v` to `u`. */
  predicate IsBetween(m: Message, u: string, v: string) {
    m.Private? && ((m.fromUser == u && m.toUser == v) || (m.fromUser == v && m.toUser == u))
  }

  /** `PrivateMessage.find({ $or: [...] })`: the private records between two
      users, in store order. */
  function Between(store: seq<Message>, u: string, v: string): (r: seq<Message>)
    ensures |r| <= |store|
    ensures forall m :: m in r <==> m in store && IsBetween(m, u, v)
  {
    if store == [] then []
    else
      var rest := Between(store[1..], u, v);
      assert forall m :: m in store <==> m == store[0] || m in store[1..];
      if IsBetween(store[0], u, v) then [store[0]] + rest else rest
  }

  /** The conversation is the same whichever party asks for it. */
  lemma {:induction false} BetweenSymmetric(store: seq<Message>, u: string, v: string)
    ensures Between(store, u, v) == Between(store, v, u)
  {
    if store != [] {
      BetweenSymmetric(store[1..], u, v);
    }
  }

  /** Every subsequence a filter keeps of an ascending store is ascending. */
  lemma {:induction false} InRoomAscending(store: seq<Message>, room: string)
    requires Ascending(store)
    ensures Ascending(InRoom(store, room))
  {
    if store != [] {
      assert Ascending(store[1..]);
      InRoomAscending(store[1..], room);
      var rest := InRoom(store[1..], room);
      forall k | 0 <= k < |rest| ensures store[0].dateSent < rest[k].dateSent {
        assert rest[k] in store[1..];
        var i :| 0 <= i < |store[1..]| && store[1..][i] == rest[k];
        assert store[i + 1] == rest[k];
      }
    }
  }

  lemma {:induction false} BetweenAscending(store: seq<Message>, u: string, v: string)
    requires Ascending(store)
    ensures Ascending(Between(store, u, v))
  {
    if store != [] {
      assert Ascending(store[1..]);
      BetweenAscending(store[1..], u, v);
      var rest := Between(store[1..], u, v);
      forall k | 0 <= k < |rest| ensures store[0].dateSent < rest[k].dateSent {
        assert rest[k] in store[1..];
        var i :| 0 <= i < |store[1..]| && store[1..][i] == rest[k];
        assert store[i + 1] == rest[k];
      }
    }
  }

  /** Reversing an ascending list is what sorting it newest first gives. */
  lemma ReverseDescending(s: seq<Message>)
    requires Ascending(s)
    ensures Descending(Reverse(s))
  {
  }

  /** `.sort({date_sent: -1}).limit(50)` on a filtered list whose store
      order is creation order. */
  function Query(s: seq<Message>): seq<Message> {
    Reverse(s)[..Min(HistoryLimit, |s|)]
  }

  /** The query returns the newest `min(50, n)` records, newest first: its
      `i`-th record is the `i`-th from the end of the matches. */
  lemma QueryIsNewestFirst(s: seq<Message>)
    requires Ascending(s)
    ensures |Query(s)| == Min(HistoryLimit, |s|)
    ensures forall i :: 0 <= i < |Query(s)| ==> Query(s)[i] == s[|s| - 1 - i]
    ensures Descending(Query(s))
  {
    ReverseDescending(s);
    var r, n := Reverse(s), Min(HistoryLimit, |s|);
    forall i, j | 0 <= i < j < n ensures r[..n][i].dateSent > r[..n][j].dateSent {
      assert r[..n][i] == r[i] && r[..n][j] == r[j];
    }
  }

  /** The query's result followed by `.reverse()`. */
  function Latest(s: seq<Message>): seq<Message> {
    Reverse(Query(s))
  }

  /** The history is the newest `min(50, n)` records of the `n` that match,
      oldest first; every match left out is older than every one sent. */
  lemma LatestIsNewest(s: seq<Message>)
    requires Ascending(s)
    ensures var h := Latest(s);
      && |h| == Min(HistoryLimit, |s|)
      && h == s[|s| - |h|..]
      && Ascending(h)
      && (forall i, k :: 0 <= i < |s| - |h| && 0 <= k < |h| ==> s[i].dateSent < h[k].dateSent)
  {
    var n := Min(HistoryLimit, |s|);
    var h := Latest(s);
    forall k | 0 <= k < n ensures h[k] == s[|s| - n + k] {
      assert h[k] == Reverse(s)[n - 1 - k];
    }
    assert h == s[|s| - n..];
  }

  /** `room:history`: the newest fifty records of the room, oldest first. */
  function GroupHistory(store: seq<Message>, room: string): seq<Message> {
    Latest(InRoom(store, room))
  }

  /** `pm:history`: the newest fifty records between the two users, oldest
      first. */
  function PrivateHistory(store: seq<Message>, u: string, v: string): seq<Message> {
    Latest(Between(store, u, v))
  }

  lemma GroupHistoryIsNewest(store: seq<Message>, room: string)
    requires Ascending(store)
    ensures var all, h := InRoom(store, room), GroupHistory(store, room);
      && |h| == Min(HistoryLimit, |all|)
      && h == all[|all| - |h|..]
      && Ascending(h)
      && (forall m :: m in h ==> m.Group? && m.room == room && m in store)
  {
    InRoomAscending(store, room);
    LatestIsNewest(InRoom(store, room));
  }

  lemma PrivateHistoryIsNewest(store: seq<Message>, u: string, v: string)
    requires Ascending(store)
    ensures var all, h := Between(store, u, v), PrivateHistory(store, u, v);
      && |h| == Min(HistoryLimit, |all|)
      && h == all[|all| - |h|..]
      && Ascending(h)
      && (forall m :: m in h ==> IsBetween(m, u, v) && m in store)
  {
    BetweenAscending(store, u, v);
    LatestIsNewest(Between(store, u, v));
  }

  lemma PrivateHistorySymmetric(store: seq<Message>, u: string, v: string)
    ensures PrivateHistory(store, u, v) == PrivateHistory(store, v, u)
  {
    BetweenSymmetric(store, u, v);
  }
}
