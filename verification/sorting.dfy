/** Ordering by a numeric column, descending: the `ORDER BY ... DESC` of the
    dashboard's top-products and platform tables and of the sales listing.
    SQL leaves the order of ties unspecified; this insertion sort keeps tied
    rows in their input order, which is one of the orders SQL may return. */
module Sorting {

  predicate SortedDesc<T>(xs: seq<T>, key: T -> int)
  {
    forall i, j :: 0 <= i < j < |xs| ==> key(xs[i]) >= key(xs[j])
  }

  /** Places `x` before the first element whose key is smaller than its own. */
  function Insert<T>(x: T, xs: seq<T>, key: T -> int): (r: seq<T>)
    requires SortedDesc(xs, key)
    ensures SortedDesc(r, key)
    ensures multiset(r) == multiset(xs) + multiset{x}
    ensures |r| == |xs| + 1
  {
    if |xs| == 0 then [x]
    else if key(x) >= key(xs[0]) then [x] + xs
    else
      var rest := Insert(x, xs[1..], key);
      InsertBehindHead(x, xs, rest, key);
      [xs[0]] + rest
  }

  /** When `x` ranks below the head, the head may lead the sorted rest. */
  lemma InsertBehindHead<T>(x: T, xs: seq<T>, rest: seq<T>, key: T -> int)
    requires |xs| > 0 && SortedDesc(xs, key) && key(x) < key(xs[0])
    requires SortedDesc(rest, key) && multiset(rest) == multiset(xs[1..]) + multiset{x}
    ensures SortedDesc([xs[0]] + rest, key)
    ensures multiset([xs[0]] + rest) == multiset(xs) + multiset{x}
  {
    assert xs == [xs[0]] + xs[1..];
    forall i | 0 <= i < |rest| ensures key(xs[0]) >= key(rest[i]) {
      assert rest[i] in multiset(rest);
      if rest[i] != x {
        assert rest[i] in multiset(xs[1..]);
        var j :| 0 <= j < |xs[1..]| && xs[1..][j] == rest[i];
        assert xs[j + 1] == rest[i];
      }
    }
    var r := [xs[0]] + rest;
    forall i, j | 0 <= i < j < |r| ensures key(r[i]) >= key(r[j]) {
      assert r[j] == rest[j - 1];
      if i > 0 {
        assert r[i] == rest[i - 1];
      }
    }
  }

  /** The rows reordered so that their keys never increase. */
  function SortDesc<T>(xs: seq<T>, key: T -> int): (r: seq<T>)
    ensures SortedDesc(r, key)
    ensures multiset(r) == multiset(xs)
    ensures |r| == |xs|
  {
    if |xs| == 0 then []
    else
      assert xs == [xs[0]] + xs[1..];
      Insert(xs[0], SortDesc(xs[1..], key), key)
  }

  /** The rows ranked first by a descending order: at most `n` of them, and
      no row left out ranks strictly above any row kept. */
  function TopN<T>(xs: seq<T>, key: T -> int, n: nat): (r: seq<T>)
    ensures |r| <= n && |r| <= |xs|
    ensures SortedDesc(r, key)
    ensures multiset(r) <= multiset(xs)
    ensures |r| == n || |r| == |xs|
    ensures forall x :: x in multiset(xs) - multiset(r) ==>
              forall i :: 0 <= i < |r| ==> key(x) <= key(r[i])
  {
    var s := SortDesc(xs, key);
    var m := if |s| <= n then |s| else n;
    PrefixRanksAbove(s, key, m);
    s[..m]
  }

  /** A prefix of a descending list is descending, and whatever the prefix
      leaves behind ranks no higher than anything it keeps. */
  lemma PrefixRanksAbove<T>(s: seq<T>, key: T -> int, m: nat)
    requires SortedDesc(s, key) && m <= |s|
    ensures SortedDesc(s[..m], key)
    ensures multiset(s[..m]) <= multiset(s)
    ensures forall x :: x in multiset(s) - multiset(s[..m]) ==>
              forall i :: 0 <= i < m ==> key(x) <= key(s[..m][i])
  {
    var r := s[..m];
    assert s == r + s[m..];
    assert multiset(s) == multiset(r) + multiset(s[m..]);
    forall x | x in multiset(s) - multiset(r)
      ensures forall i :: 0 <= i < m ==> key(x) <= key(r[i])
    {
      assert x in multiset(s[m..]);
      var j :| 0 <= j < |s[m..]| && s[m..][j] == x;
      assert s[m + j] == x;
    }
  }

  /** A slice of a descending list is descending. */
  lemma SortedSlice<T>(xs: seq<T>, key: T -> int, a: nat, b: nat)
    requires SortedDesc(xs, key) && a <= b <= |xs|
    ensures SortedDesc(xs[a..b], key)
  {
    assert forall i :: 0 <= i < b - a ==> xs[a..b][i] == xs[a + i];
  }

  /** In a descending list, an element left out of a prefix ranks no higher
      than anything in the prefix. */
  lemma PrefixRanksFirst<T>(xs: seq<T>, key: T -> int, n: nat, x: T)
    requires SortedDesc(xs, key) && n <= |xs| && x in xs && x !in xs[..n]
    ensures forall i :: 0 <= i < n ==> key(x) <= key(xs[i])
  {
    forall i | 0 <= i < n ensures xs[i] != x {
      assert xs[..n][i] == xs[i];
    }
    var j :| 0 <= j < |xs| && xs[j] == x;
  }
}
