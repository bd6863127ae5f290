/** JavaScript's default string comparison, which `Array.prototype.sort`
    uses when given no comparator: lexicographic order on UTF-16 code units.
    Both `pmRoomName` and the online-users list sort with it. */
module Ordering {

  /** A key on characters whose order is the order of their UTF-16
      encodings. Characters below U+D800 encode as themselves; characters
      beyond U+FFFF encode as a surrogate pair whose high half lies in
      U+D800..U+DBFF, so they sort after U+D7FF and before U+E000..U+FFFF. */
  function Utf16Key(c: char): int {
    var n := c as int;
    if n < 0xD800 then n
    else if n < 0x1_0000 then n + 0x10_0000
    else n - 0x1_0000 + 0xD800
  }

  lemma KeyInjective(x: char, y: char)
    ensures Utf16Key(x) == Utf16Key(y) ==> x == y
  {
  }

  /** `a < b` on JavaScript strings: `a` is a proper prefix of `b`, or at
      the first position where they differ `a` has the smaller code unit. */
  predicate Less(a: string, b: string)
    decreases |a|
  {
    |b| > 0 && (|a| == 0 || Utf16Key(a[0]) < Utf16Key(b[0]) || (a[0] == b[0] && Less(a[1..], b[1..])))
  }

  predicate LessEq(a: string, b: string) {
    a == b || Less(a, b)
  }

  lemma {:induction false} LessIrreflexive(a: string)
    ensures !Less(a, a)
    decreases |a|
  {
    if |a| > 0 { LessIrreflexive(a[1..]); }
  }

  lemma {:induction false} LessTransitive(a: string, b: string, c: string)
    requires Less(a, b) && Less(b, c)
    ensures Less(a, c)
    decreases |a|
  {
    if |a| > 0 && a[0] == b[0] && b[0] == c[0] {
      LessTransitive(a[1..], b[1..], c[1..]);
    }
  }

  /** Any two different strings are ordered one way or the other. */
  lemma {:induction false} LessTotal(a: string, b: string)
    ensures a == b || Less(a, b) || Less(b, a)
    decreases |a|
  {
    if |a| > 0 && |b| > 0 {
      KeyInjective(a[0], b[0]);
      if a[0] == b[0] {
        LessTotal(a[1..], b[1..]);
        if a[1..] == b[1..] {
          assert a == [a[0]] + a[1..] && b == [b[0]] + b[1..];
        }
      }
    }
  }

  /** A proper prefix comes first. */
  lemma {:induction false} LessProperPrefix(p: string, q: string)
    requires q != []
    ensures Less(p, p + q)
    decreases |p|
  {
    if p != [] {
      assert (p + q)[0] == p[0] && (p + q)[1..] == p[1..] + q;
      LessProperPrefix(p[1..], q);
    }
  }

  lemma LessAsymmetric(a: string, b: string)
    ensures Less(a, b) ==> !Less(b, a)
  {
    if Less(a, b) && Less(b, a) {
      LessTransitive(a, b, a);
      LessIrreflexive(a);
    }
  }

  // ---- The reference definition: the UTF-16 encoding, compared unit by unit.

  /** The UTF-16 code units of one character. */
  function Encode(c: char): (r: seq<int>)
    ensures 1 <= |r| <= 2
  {
    var n := c as int;
    if n < 0x1_0000 then [n]
    else [0xD800 + (n - 0x1_0000) / 0x400, 0xDC00 + (n - 0x1_0000) % 0x400]
  }

  /** The UTF-16 code units of a string, as JavaScript stores it. */
  function CodeUnits(s: string): seq<int>
  {
    if s == [] then [] else Encode(s[0]) + CodeUnits(s[1..])
  }

  /** Lexicographic order on code-unit sequences. */
  predicate UnitsLess(x: seq<int>, y: seq<int>)
    decreases |x|
  {
    |y| > 0 && (|x| == 0 || x[0] < y[0] || (x[0] == y[0] && UnitsLess(x[1..], y[1..])))
  }

  lemma {:induction false} UnitsLessCommonPrefix(e: seq<int>, x: seq<int>, y: seq<int>)
    ensures UnitsLess(e + x, e + y) == UnitsLess(x, y)
    decreases |e|
  {
    if e != [] {
      assert (e + x)[1..] == e[1..] + x;
      assert (e + y)[1..] == e[1..] + y;
      UnitsLessCommonPrefix(e[1..], x, y);
    } else {
      assert e + x == x && e + y == y;
    }
  }

  /** Two different characters compare by their encodings the way their
      keys compare, whatever follows them. */
  lemma EncodingOrder(c: char, d: char, x: seq<int>, y: seq<int>)
    requires c != d
    ensures UnitsLess(Encode(c) + x, Encode(d) + y) == (Utf16Key(c) < Utf16Key(d))
  {
    var ec, ed := Encode(c) + x, Encode(d) + y;
    var n, m := c as int, d as int;
    assert ec[0] == Encode(c)[0] && ed[0] == Encode(d)[0];
    if ec[0] == ed[0] {
      // Only two characters beyond U+FFFF with the same high surrogate.
      assert n >= 0x1_0000 && m >= 0x1_0000;
      assert ec[1] == Encode(c)[1] && ed[1] == Encode(d)[1];
      var hn, ln := (n - 0x1_0000) / 0x400, (n - 0x1_0000) % 0x400;
      var hm, lm := (m - 0x1_0000) / 0x400, (m - 0x1_0000) % 0x400;
      assert n == 0x1_0000 + 0x400 * hn + ln;
      assert m == 0x1_0000 + 0x400 * hm + lm;
      assert hn == hm;
      assert ln != lm;
      assert ec[1..][0] == ec[1] && ed[1..][0] == ed[1];
    } else if n >= 0x1_0000 && m >= 0x1_0000 {
      var hn, ln := (n - 0x1_0000) / 0x400, (n - 0x1_0000) % 0x400;
      var hm, lm := (m - 0x1_0000) / 0x400, (m - 0x1_0000) % 0x400;
      assert n == 0x1_0000 + 0x400 * hn + ln;
      assert m == 0x1_0000 + 0x400 * hm + lm;
    }
  }

  /** `Less` is exactly JavaScript's comparison of UTF-16 code units. */
  lemma {:induction false} LessIsCodeUnitOrder(a: string, b: string)
    ensures Less(a, b) == UnitsLess(CodeUnits(a), CodeUnits(b))
    decreases |a|
  {
    if a != [] && b != [] {
      assert CodeUnits(a) == Encode(a[0]) + CodeUnits(a[1..]);
      assert CodeUnits(b) == Encode(b[0]) + CodeUnits(b[1..]);
      if a[0] == b[0] {
        UnitsLessCommonPrefix(Encode(a[0]), CodeUnits(a[1..]), CodeUnits(b[1..]));
        LessIsCodeUnitOrder(a[1..], b[1..]);
      } else {
        EncodingOrder(a[0], b[0], CodeUnits(a[1..]), CodeUnits(b[1..]));
      }
    }
  }

  // ---- `Array.prototype.sort()` on strings.

  predicate Distinct(s: seq<string>) {
    forall i, j :: 0 <= i < j < |s| ==> s[i] != s[j]
  }

  predicate StrictlySorted(s: seq<string>) {
    forall i, j :: 0 <= i < j < |s| ==> Less(s[i], s[j])
  }

  /** Inserts `x` in front of the first element it does not follow. */
  function Insert(x: string, s: seq<string>): seq<string>
  {
    if s == [] then [x]
    else if Less(s[0], x) then [s[0]] + Insert(x, s[1..])
    else [x] + s
  }

  /** The strings of `s` in ascending order (an insertion sort; for strings
      that are all different every sorting algorithm gives this result, see
      `SortedUnique`). */
  function Sort(s: seq<string>): seq<string>
  {
    if s == [] then [] else Insert(s[0], Sort(s[1..]))
  }

  lemma {:induction false} InsertPermutes(x: string, s: seq<string>)
    ensures multiset(Insert(x, s)) == multiset(s) + multiset{x}
    decreases |s|
  {
    if s != [] && Less(s[0], x) {
      InsertPermutes(x, s[1..]);
      assert s == [s[0]] + s[1..];
    }
  }

  /** Sorting rearranges its input and adds or drops nothing. */
  lemma {:induction false} SortPermutes(s: seq<string>)
    ensures multiset(Sort(s)) == multiset(s)
    ensures |Sort(s)| == |s|
    decreases |s|
  {
    if s != [] {
      SortPermutes(s[1..]);
      InsertPermutes(s[0], Sort(s[1..]));
      assert s == [s[0]] + s[1..];
    }
    assert |multiset(Sort(s))| == |multiset(s)|;
  }

  lemma {:induction false} InsertSorted(x: string, s: seq<string>)
    requires StrictlySorted(s) && x !in s
    ensures StrictlySorted(Insert(x, s))
    decreases |s|
  {
    if s != [] {
      LessTotal(x, s[0]);
      if Less(s[0], x) {
        var t := Insert(x, s[1..]);
        InsertSorted(x, s[1..]);
        InsertPermutes(x, s[1..]);
        forall k | 0 <= k < |t| ensures Less(s[0], t[k]) {
          assert t[k] in multiset(t);
          if t[k] != x {
            assert t[k] in s[1..];
            var i :| 0 <= i < |s[1..]| && s[1..][i] == t[k];
            assert s[i + 1] == t[k];
          }
        }
      } else {
        forall i, j | 0 <= i < j < |[x] + s| ensures Less(([x] + s)[i], ([x] + s)[j]) {
          if i == 0 && j > 1 { LessTransitive(x, s[0], s[j - 1]); }
        }
      }
    }
  }

  /** Sorting strings that are all different gives them in strictly
      ascending order. */
  lemma {:induction false} SortSorted(s: seq<string>)
    requires Distinct(s)
    ensures StrictlySorted(Sort(s))
    decreases |s|
  {
    if s != [] {
      assert Distinct(s[1..]);
      SortSorted(s[1..]);
      SortPermutes(s[1..]);
      assert s[0] !in multiset(Sort(s[1..]));
      InsertSorted(s[0], Sort(s[1..]));
    }
  }

  /** There is only one strictly ascending arrangement of a collection of
      strings. */
  lemma {:induction false} SortedUnique(a: seq<string>, b: seq<string>)
    requires StrictlySorted(a) && StrictlySorted(b)
    requires forall x :: x in a <==> x in b
    ensures a == b
    decreases |a|
  {
    assert b != [] ==> b[0] in a;
    if a != [] {
      assert a[0] in b;
      assert b != [];
      assert b[0] in a;
      if a[0] != b[0] {
        var i :| 0 <= i < |a| && a[i] == b[0];
        var j :| 0 <= j < |b| && b[j] == a[0];
        assert i > 0 && j > 0;
        assert Less(a[0], b[0]) && Less(b[0], a[0]);
        LessAsymmetric(a[0], b[0]);
      }
      assert a == [a[0]] + a[1..] && b == [b[0]] + b[1..];
      forall x ensures x in a[1..] <==> x in b[1..] {
        if x in a[1..] {
          var i :| 0 <= i < |a[1..]| && a[1..][i] == x;
          assert Less(a[0], a[i + 1]);
          LessIrreflexive(x);
          assert x in b && x != b[0];
        }
        if x in b[1..] {
          var j :| 0 <= j < |b[1..]| && b[1..][j] == x;
          assert Less(b[0], b[j + 1]);
          LessIrreflexive(x);
          assert x in a && x != a[0];
        }
      }
      SortedUnique(a[1..], b[1..]);
      assert a == [a[0]] + a[1..] && b == [b[0]] + b[1..];
    }
  }

  /** `[x, y].sort()`: the smaller of the two first; when neither is
      smaller (they are equal) the input order is kept. */
  lemma SortPair(x: string, y: string)
    ensures Sort([x, y]) == if Less(y, x) then [y, x] else [x, y]
  {
    assert [x, y][1..] == [y];
    assert [y][1..] == [];
    assert Sort([y]) == Insert(y, []) == [y];
    assert Sort([x, y]) == Insert(x, [y]);
    assert Insert(x, []) == [x];
    assert Insert(x, [y]) == if Less(y, x) then [y] + Insert(x, []) else [x] + [y];
  }
}
