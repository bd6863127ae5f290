/** The addressing scheme of the coordinator: the fixed catalog of group
    rooms and the name of the private room of two users (server.js:29-34). */
module Channels {
  import opened Strings
  import opened Ordering

  /** The predefined group rooms, in the order `rooms:list` sends them. */
  const ROOMS: seq<string> := ["devops", "cloud computing", "covid19", "sports", "nodeJS", "computers", "gaming"]

  const PmPrefix: string := "pm:"
  const PmSeparator: string := "__"

  /** The room name both parties of a private conversation compute: the two
      trimmed names, sorted with JavaScript's default order, after `pm:` and
      joined by `__`. */
  function PmRoomName(userA: string, userB: string): string
  {
    JoinPair(Trim(userA), Trim(userB))
  }

  /** `` `pm:${[a, b].sort().join("__")}` `` for two already trimmed names,
      which `PmRoomNameSorts` relates to `Sort`. */
  function JoinPair(a: string, b: string): string
  {
    var lo, hi := if Less(b, a) then b else a, if Less(b, a) then a else b;
    PmPrefix + (lo + PmSeparator + hi)
  }

  /** The pair is ordered by the same sort that orders every other list. */
  lemma PmRoomNameSorts(userA: string, userB: string)
    ensures var pair := Sort([Trim(userA), Trim(userB)]);
      |pair| == 2 && PmRoomName(userA, userB) == PmPrefix + (pair[0] + PmSeparator + pair[1])
  {
    SortPair(Trim(userA), Trim(userB));
  }

  predicate IsPmRoom(r: string) {
    |r| >= |PmPrefix| && r[..|PmPrefix|] == PmPrefix
  }

  /** The name is `pm:` + the smaller trimmed name + `__` + the larger one,
      whichever argument holds which. */
  lemma PmRoomNameOrdered(userA: string, userB: string, lo: string, hi: string)
    requires (lo == Trim(userA) && hi == Trim(userB)) || (lo == Trim(userB) && hi == Trim(userA))
    requires LessEq(lo, hi)
    ensures PmRoomName(userA, userB) == PmPrefix + (lo + PmSeparator + hi)
  {
    var a, b := Trim(userA), Trim(userB);
    LessAsymmetric(a, b);
    LessIrreflexive(a);
  }

  /** Both parties arrive at the same room. */
  lemma PmRoomNameCommutes(userA: string, userB: string)
    ensures PmRoomName(userA, userB) == PmRoomName(userB, userA)
  {
    var a, b := Trim(userA), Trim(userB);
    LessTotal(a, b);
    if LessEq(a, b) {
      PmRoomNameOrdered(userA, userB, a, b);
      PmRoomNameOrdered(userB, userA, a, b);
    } else {
      PmRoomNameOrdered(userA, userB, b, a);
      PmRoomNameOrdered(userB, userA, b, a);
    }
  }

  /** Surrounding white space on either argument does not change the name. */
  lemma PmRoomNameIgnoresSpace(userA: string, userB: string)
    ensures PmRoomName(Trim(userA), userB) == PmRoomName(userA, userB)
    ensures PmRoomName(userA, Trim(userB)) == PmRoomName(userA, userB)
  {
    TrimIdempotent(userA);
    TrimIdempotent(userB);
  }

  /** Every private room name carries the `pm:` prefix. */
  lemma PmRoomNameIsPm(userA: string, userB: string)
    ensures IsPmRoom(PmRoomName(userA, userB))
  {
    var a, b := Trim(userA), Trim(userB);
    LessTotal(a, b);
    var lo, hi := if LessEq(a, b) then a else b, if LessEq(a, b) then b else a;
    PmRoomNameOrdered(userA, userB, lo, hi);
    assert (PmPrefix + (lo + PmSeparator + hi))[..|PmPrefix|] == PmPrefix;
  }

  /** No group room carries the `pm:` prefix, so a private room is never a
      group room. */
  lemma GroupRoomsAreNotPm()
    ensures forall r :: r in ROOMS ==> !IsPmRoom(r)
  {
    forall i | 0 <= i < |ROOMS| ensures !IsPmRoom(ROOMS[i]) {
      assert ROOMS[i][0] != 'p';
    }
  }

  lemma PmRoomNotGroupRoom(userA: string, userB: string)
    ensures PmRoomName(userA, userB) !in ROOMS
  {
    GroupRoomsAreNotPm();
    PmRoomNameIsPm(userA, userB);
  }

  /** Two trimmed names, the smaller one first. */
  lemma PmRoomNameOfTrimmed(lo: string, hi: string)
    requires Trimmed(lo) && Trimmed(hi) && Less(lo, hi)
    ensures PmRoomName(lo, hi) == PmPrefix + (lo + PmSeparator + hi)
  {
    TrimOfTrimmed(lo);
    TrimOfTrimmed(hi);
    LessAsymmetric(lo, hi);
  }

  /** Two trimmed names, the larger one first. */
  lemma PmRoomNameOfTrimmedSwapped(lo: string, hi: string)
    requires Trimmed(lo) && Trimmed(hi) && Less(lo, hi)
    ensures PmRoomName(hi, lo) == PmPrefix + (lo + PmSeparator + hi)
  {
    TrimOfTrimmed(lo);
    TrimOfTrimmed(hi);
    LessAsymmetric(lo, hi);
  }

  lemma CollisionNamesTrimmed(t: string)
    requires t != [] && Trimmed(t)
    ensures Trimmed("_" + t + "_") && Trimmed("_" + t) && Trimmed(t + "_")
  {
    var a, b, c := "_" + t + "_", "_" + t, t + "_";
    assert a[0] == '_' && a[|a| - 1] == '_';
    assert b[0] == '_' && b[|b| - 1] == t[|t| - 1];
    assert c[0] == t[0] && c[|c| - 1] == '_';
  }

  lemma CollisionNamesOrdered(t: string)
    requires t != [] && Utf16Key('_') < Utf16Key(t[0])
    ensures Less("_" + t, "_" + t + "_") && Less("_" + t + "_", t + "_") && !Less(t + "_", "_" + t + "_")
  {
    var a, b, c := "_" + t + "_", "_" + t, t + "_";
    LessProperPrefix(b, "_");
    assert a == b + "_";
    assert a[0] == '_' && c[0] == t[0];
    LessAsymmetric(a, c);
  }

  /** The name does not determine the pair: `__` may occur inside a name,
      so one user shares a private room with two different peers. With
      `t == "a"`: `"_a_"` has the room `pm:_a___a_` with both `"_a"` and
      `"a_"`. */
  lemma PmRoomNameCollides(t: string)
    requires t != [] && Trimmed(t) && Utf16Key('_') < Utf16Key(t[0])
    ensures "_" + t != t + "_"
    ensures PmRoomName("_" + t + "_", "_" + t) == PmRoomName("_" + t + "_", t + "_")
  {
    var a, b, c := "_" + t + "_", "_" + t, t + "_";
    assert b[0] != c[0];
    CollisionNamesTrimmed(t);
    CollisionNamesOrdered(t);
    PmRoomNameOfTrimmedSwapped(b, a);
    PmRoomNameOfTrimmed(a, c);
    assert PmPrefix + (b + PmSeparator + a) == PmPrefix + (a + PmSeparator + c);
  }

  lemma CrossNamesTrimmed(x: string, y: string, z: string)
    requires x != [] && y != [] && z != [] && Trimmed(x) && Trimmed(y) && Trimmed(z)
    ensures Trimmed(y + PmSeparator + z) && Trimmed(x + PmSeparator + y)
  {
    var yz, xy := y + PmSeparator + z, x + PmSeparator + y;
    assert yz[0] == y[0] && yz[|yz| - 1] == z[|z| - 1];
    assert xy[0] == x[0] && xy[|xy| - 1] == y[|y| - 1];
  }

  lemma CrossNamesShareRoom(x: string, y: string, z: string, xy: string, yz: string)
    requires x != [] && y != [] && z != [] && Trimmed(x) && Trimmed(y) && Trimmed(z)
    requires yz == y + PmSeparator + z && xy == x + PmSeparator + y
    requires Less(x, yz) && Less(xy, z)
    ensures PmRoomName(x, yz) == PmRoomName(xy, z)
  {
    CrossNamesTrimmed(x, y, z);
    PmRoomNameOfTrimmed(x, yz);
    PmRoomNameOfTrimmed(xy, z);
    assert PmPrefix + (x + PmSeparator + yz) == PmPrefix + (xy + PmSeparator + z);
  }

  /** Two pairs with no name in common can share a private room, too:
      `("a", "b__c")` and `("a__b", "c")` both have `pm:a__b__c`. */
  lemma PmRoomNameCollidesAcross(x: string, y: string, z: string)
    requires x != [] && y != [] && z != [] && Trimmed(x) && Trimmed(y) && Trimmed(z)
    requires Less(x, y + PmSeparator + z) && Less(x + PmSeparator + y, z)
    ensures PmRoomName(x, y + PmSeparator + z) == PmRoomName(x + PmSeparator + y, z)
  {
    CrossNamesShareRoom(x, y, z, x + PmSeparator + y, y + PmSeparator + z);
  }

  predicate NoUnderscore(s: string) {
    forall k :: 0 <= k < |s| ==> s[k] != '_'
  }

  /** The position of the first `_` in `s`, or `|s|` when there is none. */
  function FirstUnderscore(s: string): (i: nat)
    ensures i <= |s|
  {
    if s == [] || s[0] == '_' then 0 else 1 + FirstUnderscore(s[1..])
  }

  lemma {:induction false} FirstUnderscoreIsSeparator(x: string, y: string)
    requires NoUnderscore(x)
    ensures FirstUnderscore(x + PmSeparator + y) == |x|
    decreases |x|
  {
    if x != [] {
      assert (x + PmSeparator + y)[1..] == x[1..] + PmSeparator + y;
      FirstUnderscoreIsSeparator(x[1..], y);
    }
  }

  lemma SplitAtSeparator(x: string, y: string, u: string, v: string)
    requires NoUnderscore(x) && NoUnderscore(u)
    requires x + PmSeparator + y == u + PmSeparator + v
    ensures x == u && y == v
  {
    var l, r := x + PmSeparator + y, u + PmSeparator + v;
    FirstUnderscoreIsSeparator(x, y);
    FirstUnderscoreIsSeparator(u, v);
    assert x == l[..|x|] && u == r[..|u|];
    assert y == l[|x| + 2..] && v == r[|u| + 2..];
  }

  lemma PairMultiset(x: string, y: string, u: string, v: string)
    requires multiset{x, y} == multiset{u, v}
    ensures (x == u && y == v) || (x == v && y == u)
  {
    assert x in multiset{u, v};
    if x == u {
      assert multiset{x, y} - multiset{x} == multiset{y};
      assert multiset{u, v} - multiset{u} == multiset{v};
    } else {
      assert multiset{x, y} - multiset{x} == multiset{y};
      assert multiset{u, v} - multiset{v} == multiset{u};
    }
  }

  /** The ordered decomposition of a name: smaller trimmed name first. */
  lemma PmRoomNameSplit(a: string, b: string) returns (lo: string, hi: string)
    ensures multiset{lo, hi} == multiset{Trim(a), Trim(b)}
    ensures PmRoomName(a, b) == PmPrefix + (lo + PmSeparator + hi)
  {
    var ta, tb := Trim(a), Trim(b);
    LessTotal(ta, tb);
    if LessEq(ta, tb) {
      lo, hi := ta, tb;
    } else {
      lo, hi := tb, ta;
    }
    PmRoomNameOrdered(a, b, lo, hi);
  }

  lemma PmRoomNameInjectiveOnly(a: string, b: string, c: string, d: string)
    requires NoUnderscore(Trim(a)) && NoUnderscore(Trim(b))
    requires NoUnderscore(Trim(c)) && NoUnderscore(Trim(d))
    requires PmRoomName(a, b) == PmRoomName(c, d)
    ensures multiset{Trim(a), Trim(b)} == multiset{Trim(c), Trim(d)}
  {
    var lo1, hi1 := PmRoomNameSplit(a, b);
    var lo2, hi2 := PmRoomNameSplit(c, d);
    PairMultiset(lo1, hi1, Trim(a), Trim(b));
    PairMultiset(lo2, hi2, Trim(c), Trim(d));
    var x, y := lo1 + PmSeparator + hi1, lo2 + PmSeparator + hi2;
    assert x == (PmPrefix + x)[|PmPrefix|..] && y == (PmPrefix + y)[|PmPrefix|..];
    SplitAtSeparator(lo1, hi1, lo2, hi2);
  }

  /** When no name contains `_`, two pairs of users share a private room
      exactly when they are the same pair. */
  lemma PmRoomNameInjective(a: string, b: string, c: string, d: string)
    requires NoUnderscore(Trim(a)) && NoUnderscore(Trim(b))
    requires NoUnderscore(Trim(c)) && NoUnderscore(Trim(d))
    ensures PmRoomName(a, b) == PmRoomName(c, d) <==> multiset{Trim(a), Trim(b)} == multiset{Trim(c), Trim(d)}
  {
    if PmRoomName(a, b) == PmRoomName(c, d) {
      PmRoomNameInjectiveOnly(a, b, c, d);
    }
    if multiset{Trim(a), Trim(b)} == multiset{Trim(c), Trim(d)} {
      PairMultiset(Trim(a), Trim(b), Trim(c), Trim(d));
      PmRoomNameCommutes(c, d);
    }
  }
}
