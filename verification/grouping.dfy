/** The group-by fold behind every per-key aggregate of the system: the
    per-day `sales_by_date` loop, pandas' `groupby("period").sum()`, and the
    SQL `GROUP BY` of the dashboard's platform and product tables.

    Each record contributes an `Entry`: a key and an amount (an order total,
    a quantity, a line revenue). Folding the entries left to right yields one
    `Group` per distinct key, in order of first appearance (the insertion
    order of a Python dict), carrying how many entries fell into it and the
    sum of their amounts. */
module Grouping {

  datatype Entry<K> = Entry(key: K, amount: int)

  datatype Group<K> = Group(key: K, count: nat, total: int)

  // ---------------------------------------------------------------------
  // The fold

  /** Adds one entry: bumps the group with its key, or appends a new group. */
  function Add<K(==)>(gs: seq<Group<K>>, e: Entry<K>): seq<Group<K>>
  {
    if |gs| == 0 then [Group(e.key, 1, e.amount)]
    else if gs[0].key == e.key then [Group(e.key, gs[0].count + 1, gs[0].total + e.amount)] + gs[1..]
    else [gs[0]] + Add(gs[1..], e)
  }

  function GroupBy<K(==)>(es: seq<Entry<K>>): seq<Group<K>>
  {
    if |es| == 0 then [] else Add(GroupBy(es[..|es| - 1]), es[|es| - 1])
  }

  // ---------------------------------------------------------------------
  // Reference definitions over the entries

  function CountOf<K(==)>(es: seq<Entry<K>>, k: K): nat
  {
    if |es| == 0 then 0
    else CountOf(es[..|es| - 1], k) + (if es[|es| - 1].key == k then 1 else 0)
  }

  function SumOf<K(==)>(es: seq<Entry<K>>, k: K): int
  {
    if |es| == 0 then 0
    else SumOf(es[..|es| - 1], k) + (if es[|es| - 1].key == k then es[|es| - 1].amount else 0)
  }

  function Total<K>(es: seq<Entry<K>>): int
  {
    if |es| == 0 then 0 else Total(es[..|es| - 1]) + es[|es| - 1].amount
  }

  function EntryKeys<K>(es: seq<Entry<K>>): set<K>
  {
    set i | 0 <= i < |es| :: es[i].key
  }

  // ---------------------------------------------------------------------
  // Reading the groups

  /** The group for `k`, or an empty group when there is none. */
  function Lookup<K(==)>(gs: seq<Group<K>>, k: K): Group<K>
  {
    if |gs| == 0 then Group(k, 0, 0)
    else if gs[0].key == k then gs[0]
    else Lookup(gs[1..], k)
  }

  function GroupKeys<K>(gs: seq<Group<K>>): set<K>
  {
    set i | 0 <= i < |gs| :: gs[i].key
  }

  predicate DistinctKeys<K(==)>(gs: seq<Group<K>>)
  {
    forall i, j :: 0 <= i < j < |gs| ==> gs[i].key != gs[j].key
  }

  predicate NonEmptyGroups<K>(gs: seq<Group<K>>)
  {
    forall i :: 0 <= i < |gs| ==> gs[i].count >= 1
  }

  function SumCounts<K>(gs: seq<Group<K>>): nat
  {
    if |gs| == 0 then 0 else gs[0].count + SumCounts(gs[1..])
  }

  function SumTotals<K>(gs: seq<Group<K>>): int
  {
    if |gs| == 0 then 0 else gs[0].total + SumTotals(gs[1..])
  }

  // ---------------------------------------------------------------------
  // One step of the fold

  lemma {:induction false} AddLookup<K>(gs: seq<Group<K>>, e: Entry<K>, k: K)
    ensures var old_ := Lookup(gs, k);
      Lookup(Add(gs, e), k)
        == if k == e.key then Group(k, old_.count + 1, old_.total + e.amount) else old_
  {
    if |gs| > 0 && gs[0].key != e.key {
      AddLookup(gs[1..], e, k);
      assert Add(gs, e)[1..] == Add(gs[1..], e);
    }
  }

  lemma {:induction false} AddKeys<K>(gs: seq<Group<K>>, e: Entry<K>)
    ensures GroupKeys(Add(gs, e)) == GroupKeys(gs) + {e.key}
  {
    var r := Add(gs, e);
    if |gs| == 0 {
      assert r[0].key == e.key;
    } else if gs[0].key == e.key {
      assert forall i :: 0 <= i < |gs| ==> r[i].key == gs[i].key;
      assert |r| == |gs|;
    } else {
      AddKeys(gs[1..], e);
      assert r == [gs[0]] + Add(gs[1..], e);
      assert r[0].key == gs[0].key;
      assert GroupKeys(r) == {gs[0].key} + GroupKeys(Add(gs[1..], e)) by {
        forall x | x in GroupKeys(r) ensures x in {gs[0].key} + GroupKeys(Add(gs[1..], e)) {
          var i :| 0 <= i < |r| && r[i].key == x;
          if i > 0 { assert Add(gs[1..], e)[i - 1].key == x; }
        }
        forall x | x in GroupKeys(Add(gs[1..], e)) ensures x in GroupKeys(r) {
          var i :| 0 <= i < |Add(gs[1..], e)| && Add(gs[1..], e)[i].key == x;
          assert r[i + 1].key == x;
        }
      }
      assert GroupKeys(gs) == {gs[0].key} + GroupKeys(gs[1..]) by {
        forall x | x in GroupKeys(gs) ensures x in {gs[0].key} + GroupKeys(gs[1..]) {
          var i :| 0 <= i < |gs| && gs[i].key == x;
          if i > 0 { assert gs[1..][i - 1].key == x; }
        }
        forall x | x in GroupKeys(gs[1..]) ensures x in GroupKeys(gs) {
          var i :| 0 <= i < |gs[1..]| && gs[1..][i].key == x;
          assert gs[i + 1].key == x;
        }
        assert gs[0].key in GroupKeys(gs);
      }
    }
  }

  lemma {:induction false} AddDistinct<K>(gs: seq<Group<K>>, e: Entry<K>)
    requires DistinctKeys(gs)
    ensures DistinctKeys(Add(gs, e))
  {
    if |gs| > 0 && gs[0].key != e.key {
      AddDistinct(gs[1..], e);
      AddKeys(gs[1..], e);
      var r := Add(gs, e);
      forall i, j | 0 <= i < j < |r| ensures r[i].key != r[j].key {
        if i == 0 {
          assert r[j].key in GroupKeys(Add(gs[1..], e));
          assert r[j].key in GroupKeys(gs[1..]) || r[j].key == e.key;
          if r[j].key in GroupKeys(gs[1..]) {
            var m :| 0 <= m < |gs[1..]| && gs[1..][m].key == r[j].key;
            assert gs[m + 1].key == r[j].key;
          }
        } else {
          assert r[i].key == Add(gs[1..], e)[i - 1].key;
          assert r[j].key == Add(gs[1..], e)[j - 1].key;
        }
      }
    }
  }

  lemma {:induction false} AddNonEmpty<K>(gs: seq<Group<K>>, e: Entry<K>)
    requires NonEmptyGroups(gs)
    ensures NonEmptyGroups(Add(gs, e))
  {
    if |gs| > 0 && gs[0].key != e.key {
      AddNonEmpty(gs[1..], e);
      var r := Add(gs, e);
      forall i | 0 <= i < |r| ensures r[i].count >= 1 {
        if i > 0 { assert r[i] == Add(gs[1..], e)[i - 1]; }
      }
    }
  }

  lemma {:induction false} AddSums<K>(gs: seq<Group<K>>, e: Entry<K>)
    ensures SumCounts(Add(gs, e)) == SumCounts(gs) + 1
    ensures SumTotals(Add(gs, e)) == SumTotals(gs) + e.amount
  {
    if |gs| > 0 {
      var r := Add(gs, e);
      if gs[0].key == e.key {
        assert r[1..] == gs[1..];
      } else {
        AddSums(gs[1..], e);
        assert r[1..] == Add(gs[1..], e);
      }
    }
  }

  // ---------------------------------------------------------------------
  // The whole fold

  /** Grouping keeps one group per distinct key, every group holds at least
      one entry, each group's count and total are exactly those of the
      entries with its key, and the groups together account for every
      entry and every amount exactly once. */
  lemma {:induction false} GroupByCorrect<K>(es: seq<Entry<K>>)
    ensures DistinctKeys(GroupBy(es))
    ensures NonEmptyGroups(GroupBy(es))
    ensures GroupKeys(GroupBy(es)) == EntryKeys(es)
    ensures forall k :: Lookup(GroupBy(es), k) == Group(k, CountOf(es, k), SumOf(es, k))
    ensures SumCounts(GroupBy(es)) == |es|
    ensures SumTotals(GroupBy(es)) == Total(es)
  {
    if |es| > 0 {
      var init, e := es[..|es| - 1], es[|es| - 1];
      GroupByCorrect(init);
      var gs := GroupBy(init);
      AddDistinct(gs, e);
      AddNonEmpty(gs, e);
      AddKeys(gs, e);
      AddSums(gs, e);
      forall k ensures Lookup(GroupBy(es), k) == Group(k, CountOf(es, k), SumOf(es, k)) {
        AddLookup(gs, e, k);
      }
      assert EntryKeys(es) == EntryKeys(init) + {e.key} by {
        forall x | x in EntryKeys(es) ensures x in EntryKeys(init) + {e.key} {
          var i :| 0 <= i < |es| && es[i].key == x;
          if i < |es| - 1 { assert init[i].key == x; }
        }
        forall x | x in EntryKeys(init) ensures x in EntryKeys(es) {
          var i :| 0 <= i < |init| && init[i].key == x;
          assert es[i].key == x;
        }
      }
    } else {
      forall k ensures Lookup(GroupBy(es), k) == Group(k, CountOf(es, k), SumOf(es, k)) {
      }
    }
  }

  /** With distinct keys, looking a group's own key up finds that group. */
  lemma {:induction false} LookupOwnKey<K>(gs: seq<Group<K>>, i: int)
    requires DistinctKeys(gs)
    requires 0 <= i < |gs|
    ensures Lookup(gs, gs[i].key) == gs[i]
  {
    if i > 0 {
      assert gs[0].key != gs[i].key;
      LookupOwnKey(gs[1..], i - 1);
    }
  }

  /** A key that no group carries looks up as the empty group. */
  lemma {:induction false} LookupMissing<K>(gs: seq<Group<K>>, k: K)
    requires k !in GroupKeys(gs)
    ensures Lookup(gs, k) == Group(k, 0, 0)
  {
    if |gs| > 0 {
      assert gs[0].key in GroupKeys(gs);
      assert GroupKeys(gs[1..]) <= GroupKeys(gs) by {
        forall x | x in GroupKeys(gs[1..]) ensures x in GroupKeys(gs) {
          var i :| 0 <= i < |gs[1..]| && gs[1..][i].key == x;
          assert gs[i + 1].key == x;
        }
      }
      LookupMissing(gs[1..], k);
    }
  }

  /** No entries, no groups. */
  lemma GroupByEmpty<K>(es: seq<Entry<K>>)
    ensures GroupBy(es) == [] <==> es == []
  {
    if es != [] {
      AddKeys(GroupBy(es[..|es| - 1]), es[|es| - 1]);
      assert es[|es| - 1].key in GroupKeys(GroupBy(es));
    }
  }

  /** Group sums split over a concatenation. */
  lemma {:induction false} SumsSplit<K>(a: seq<Group<K>>, b: seq<Group<K>>)
    ensures SumCounts(a + b) == SumCounts(a) + SumCounts(b)
    ensures SumTotals(a + b) == SumTotals(a) + SumTotals(b)
  {
    if |a| > 0 {
      assert (a + b)[0] == a[0];
      assert (a + b)[1..] == a[1..] + b;
      SumsSplit(a[1..], b);
    } else {
      assert a + b == b;
    }
  }

  /** Reordering the groups changes neither sum. */
  lemma {:induction false} SumsPermutation<K>(a: seq<Group<K>>, b: seq<Group<K>>)
    requires multiset(a) == multiset(b)
    ensures SumCounts(a) == SumCounts(b) && SumTotals(a) == SumTotals(b)
    decreases |a|
  {
    if |a| == 0 {
      assert |b| == |multiset(b)| == 0;
    } else {
      var j := MatchFirst(a, b);
      SumsPermutation(a[1..], b[..j] + b[j + 1..]);
      SumsRemoveAt(b, j);
    }
  }

  /** A place in `b` holding the first element of its permutation `a`; the
      rest of `a` is a permutation of `b` without that place. */
  lemma MatchFirst<T>(a: seq<T>, b: seq<T>) returns (j: nat)
    requires |a| > 0 && multiset(a) == multiset(b)
    ensures j < |b| && b[j] == a[0]
    ensures multiset(a[1..]) == multiset(b[..j] + b[j + 1..])
  {
    assert a[0] in multiset(b);
    j :| 0 <= j < |b| && b[j] == a[0];
    MultisetRemoveAt(b, j);
    assert a == [a[0]] + a[1..];
  }

  /** The sums of a list are one element's measures plus the sums of the
      list without it. */
  lemma SumsRemoveAt<K>(b: seq<Group<K>>, j: nat)
    requires j < |b|
    ensures SumCounts(b) == b[j].count + SumCounts(b[..j] + b[j + 1..])
    ensures SumTotals(b) == b[j].total + SumTotals(b[..j] + b[j + 1..])
  {
    var tail := [b[j]] + b[j + 1..];
    assert b == b[..j] + tail;
    assert tail[1..] == b[j + 1..];
    SumsSplit(b[..j], tail);
    SumsSplit(b[..j], b[j + 1..]);
  }

  /** Taking one element out of a list takes it out of its multiset. */
  lemma MultisetRemoveAt<T>(b: seq<T>, j: nat)
    requires j < |b|
    ensures b == b[..j] + ([b[j]] + b[j + 1..])
    ensures multiset(b[..j] + b[j + 1..]) == multiset(b) - multiset{b[j]}
  {
    assert b == b[..j] + ([b[j]] + b[j + 1..]);
    assert multiset(b) == multiset(b[..j]) + multiset{b[j]} + multiset(b[j + 1..]);
  }
}
