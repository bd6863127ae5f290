/** The `userSockets` registry (server.js:43): a JavaScript `Map` from a
    username to the id of the socket that registered it last. A `Map`
    iterates its keys in insertion order, so besides the map itself the
    model keeps that order as a sequence of distinct keys. */
module Presence {
  import opened Ordering

  /** The key order after `map.set(key, v)`: a new key goes last, a key
      already present keeps its place. */
  function SetKey(order: seq<string>, key: string): (r: seq<string>)
    ensures forall k :: k in r <==> k in order || k == key
    ensures Distinct(order) ==> Distinct(r)
    ensures key in order ==> r == order
  {
    if key in order then order else order + [key]
  }

  /** The key order after `map.delete(key)`: the key is gone and the other
      keys stay. */
  function DeleteKey(order: seq<string>, key: string): (r: seq<string>)
    ensures forall k :: k in r <==> k in order && k != key
    ensures Distinct(order) ==> Distinct(r)
    ensures key !in order ==> r == order
  {
    if order == [] then []
    else if order[0] == key then DeleteKey(order[1..], key)
    else
      var rest := DeleteKey(order[1..], key);
      assert Distinct(order) ==> Distinct(order[1..]) && order[0] !in order[1..];
      [order[0]] + rest
  }

  /** `Array.from(userSockets.keys()).sort()`. */
  function OnlineList(order: seq<string>): seq<string> {
    Sort(order)
  }

  /** The list sent with `users:online` names every registered user exactly
      once, in ascending order. */
  lemma OnlineListIsSortedKeys(order: seq<string>)
    requires Distinct(order)
    ensures StrictlySorted(OnlineList(order))
    ensures forall k :: k in OnlineList(order) <==> k in order
    ensures |OnlineList(order)| == |order|
  {
    SortSorted(order);
    SortPermutes(order);
    forall k ensures k in OnlineList(order) <==> k in order {
      assert k in OnlineList(order) <==> k in multiset(OnlineList(order));
      assert k in order <==> k in multiset(order);
    }
  }

  /** The list depends on who is registered, not on the order in which they
      registered. */
  lemma OnlineListIgnoresOrder(order1: seq<string>, order2: seq<string>)
    requires Distinct(order1) && Distinct(order2)
    requires forall k :: k in order1 <==> k in order2
    ensures OnlineList(order1) == OnlineList(order2)
  {
    OnlineListIsSortedKeys(order1);
    OnlineListIsSortedKeys(order2);
    SortedUnique(OnlineList(order1), OnlineList(order2));
  }
}
