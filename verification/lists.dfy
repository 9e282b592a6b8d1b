/** Order-preserving filtering and first-match search over record lists:
    what a SQL `WHERE` (without `ORDER BY`) and `.first()` do to a table
    held in memory. */
module Lists {
  import opened Wrappers

  /** The elements satisfying `p`, in their original order. */
  function Filter<T>(xs: seq<T>, p: T -> bool): (r: seq<T>)
    ensures |r| <= |xs|
    ensures forall i :: 0 <= i < |r| ==> p(r[i])
    ensures forall i :: 0 <= i < |xs| && p(xs[i]) ==> xs[i] in r
    ensures forall x :: x in r ==> x in xs
    ensures multiset(r) <= multiset(xs)
  {
    if |xs| == 0 then []
    else
      var rest := Filter(xs[..|xs| - 1], p);
      var last := xs[|xs| - 1];
      assert xs == xs[..|xs| - 1] + [last];
      assert forall i :: 0 <= i < |xs| - 1 ==> xs[i] == xs[..|xs| - 1][i];
      if p(last) then rest + [last] else rest
  }

  /** The position of the first element satisfying `p`. */
  function FirstIndex<T>(xs: seq<T>, p: T -> bool): (r: Option<nat>)
    ensures r.Some? ==> r.value < |xs| && p(xs[r.value]) && forall j :: 0 <= j < r.value ==> !p(xs[j])
    ensures r.None? <==> forall j :: 0 <= j < |xs| ==> !p(xs[j])
  {
    if |xs| == 0 then None
    else if p(xs[0]) then Some(0)
    else
      match FirstIndex(xs[1..], p)
      case None =>
        assert forall j :: 1 <= j < |xs| ==> xs[j] == xs[1..][j - 1];
        None
      case Some(k) =>
        assert forall j :: 1 <= j < k + 1 ==> xs[j] == xs[1..][j - 1];
        Some(k + 1)
  }

  /** The first element satisfying `p`, as `query.filter(p).first()` returns it. */
  function First<T(==)>(xs: seq<T>, p: T -> bool): (r: Option<T>)
    ensures r.Some? ==> p(r.value) && r.value in xs
    ensures r.None? <==> forall i :: 0 <= i < |xs| ==> !p(xs[i])
  {
    match FirstIndex(xs, p)
    case None => None
    case Some(i) => Some(xs[i])
  }

  /** How many elements satisfy `p`. */
  function Count<T>(xs: seq<T>, p: T -> bool): (n: nat)
    ensures n <= |xs|
    ensures n == |Filter(xs, p)|
  {
    if |xs| == 0 then 0
    else Count(xs[..|xs| - 1], p) + (if p(xs[|xs| - 1]) then 1 else 0)
  }

  /** SQL's `OFFSET skip LIMIT limit`. */
  function Page<T>(xs: seq<T>, skip: nat, limit: nat): (r: seq<T>)
    ensures |r| <= limit
    ensures skip <= |xs| ==> r == xs[skip..][..if limit < |xs| - skip then limit else |xs| - skip]
    ensures skip > |xs| ==> r == []
  {
    if skip >= |xs| then []
    else
      var rest := xs[skip..];
      if limit < |rest| then rest[..limit] else rest
  }

  /** Filtering depends only on what the predicate says about the list's own elements. */
  lemma {:induction false} FilterExt<T>(xs: seq<T>, p: T -> bool, q: T -> bool)
    requires forall i :: 0 <= i < |xs| ==> p(xs[i]) == q(xs[i])
    ensures Filter(xs, p) == Filter(xs, q)
  {
    if |xs| > 0 {
      var init := xs[..|xs| - 1];
      assert forall i :: 0 <= i < |init| ==> init[i] == xs[i];
      FilterExt(init, p, q);
    }
  }

  /** Filtering by a predicate every element meets keeps the whole list. */
  lemma {:induction false} FilterKeepsAll<T>(xs: seq<T>, p: T -> bool)
    requires forall i :: 0 <= i < |xs| ==> p(xs[i])
    ensures Filter(xs, p) == xs
  {
    if |xs| > 0 {
      var init := xs[..|xs| - 1];
      assert forall i :: 0 <= i < |init| ==> init[i] == xs[i];
      FilterKeepsAll(init, p);
      assert xs == init + [xs[|xs| - 1]];
    }
  }

  /** Filtering by `p` and then by `q` is filtering once by their conjunction. */
  lemma {:induction false} FilterFilter<T>(xs: seq<T>, p: T -> bool, q: T -> bool, pq: T -> bool)
    requires forall i :: 0 <= i < |xs| ==> pq(xs[i]) == (p(xs[i]) && q(xs[i]))
    ensures Filter(Filter(xs, p), q) == Filter(xs, pq)
  {
    if |xs| > 0 {
      var init, last := xs[..|xs| - 1], xs[|xs| - 1];
      assert forall i :: 0 <= i < |init| ==> init[i] == xs[i];
      FilterFilter(init, p, q, pq);
      if p(last) {
        var f := Filter(init, p);
        assert (f + [last])[..|f + [last]| - 1] == f;
      }
    }
  }

  /** A weaker predicate never counts fewer elements. */
  lemma {:induction false} CountMonotone<T>(xs: seq<T>, p: T -> bool, q: T -> bool)
    requires forall i :: 0 <= i < |xs| && p(xs[i]) ==> q(xs[i])
    ensures Count(xs, p) <= Count(xs, q)
  {
    if |xs| > 0 {
      var init := xs[..|xs| - 1];
      assert forall i :: 0 <= i < |init| ==> init[i] == xs[i];
      CountMonotone(init, p, q);
    }
  }

  /** Elements of a page come from the list. */
  lemma PageFrom<T>(xs: seq<T>, skip: nat, limit: nat)
    ensures forall x :: x in Page(xs, skip, limit) ==> x in xs
  {
    var r := Page(xs, skip, limit);
    forall x | x in r ensures x in xs {
      var i :| 0 <= i < |r| && r[i] == x;
      assert xs[skip + i] == x;
    }
  }

  /** Filtering a list that ends in `last`: the filtered front, then `last` if it passes. */
  lemma FilterSnoc<T>(xs: seq<T>, p: T -> bool)
    requires |xs| > 0
    ensures Filter(xs, p) == Filter(xs[..|xs| - 1], p) + if p(xs[|xs| - 1]) then [xs[|xs| - 1]] else []
  {
  }

  /** A position holding a match with no match before it is the first index. */
  lemma FirstIndexAt<T>(xs: seq<T>, p: T -> bool, i: nat)
    requires i < |xs| && p(xs[i])
    requires forall j :: 0 <= j < i ==> !p(xs[j])
    ensures FirstIndex(xs, p) == Some(i)
  {
    var r := FirstIndex(xs, p);
    assert r.Some?;
  }

  /** Past a first element that does not match, the first match is the
      tail's, one place further on. */
  lemma FirstIndexShift<T>(xs: seq<T>, p: T -> bool)
    requires |xs| > 0 && !p(xs[0])
    ensures FirstIndex(xs, p).None? <==> FirstIndex(xs[1..], p).None?
    ensures FirstIndex(xs[1..], p).Some? ==>
      && FirstIndex(xs, p) == Some(FirstIndex(xs[1..], p).value + 1)
      && xs[FirstIndex(xs, p).value] == xs[1..][FirstIndex(xs[1..], p).value]
  {
  }

  /** Overwriting the first match with another match leaves it the first match. */
  lemma FirstAfterUpdate<T>(xs: seq<T>, p: T -> bool, i: nat, v: T)
    requires FirstIndex(xs, p) == Some(i)
    requires p(v)
    ensures FirstIndex(xs[i := v], p) == Some(i)
    ensures First(xs[i := v], p) == Some(v)
  {
    var ys := xs[i := v];
    assert forall j :: 0 <= j < i ==> ys[j] == xs[j];
    FirstIndexAt(ys, p, i);
  }

  /** Changing only elements the predicate rejects, and keeping them rejected,
      does not move the first match. */
  lemma FirstFrame<T>(xs: seq<T>, ys: seq<T>, p: T -> bool)
    requires |xs| == |ys|
    requires forall j :: 0 <= j < |xs| ==> p(xs[j]) == p(ys[j])
    requires forall j :: 0 <= j < |xs| && p(xs[j]) ==> xs[j] == ys[j]
    ensures FirstIndex(xs, p) == FirstIndex(ys, p)
    ensures First(xs, p) == First(ys, p)
  {
    var r := FirstIndex(xs, p);
    if r.Some? {
      FirstIndexAt(ys, p, r.value);
    }
  }

  /** The first match depends only on what the predicate says about the list's own elements. */
  lemma FirstIndexExt<T>(xs: seq<T>, p: T -> bool, q: T -> bool)
    requires forall j :: 0 <= j < |xs| ==> p(xs[j]) == q(xs[j])
    ensures FirstIndex(xs, p) == FirstIndex(xs, q)
  {
    var r := FirstIndex(xs, p);
    if r.Some? {
      FirstIndexAt(xs, q, r.value);
    }
  }
}
