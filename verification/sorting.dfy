/**
 A reference descending sort over integers. The leaderboard sorts with the
 comparator `(a, b) => b - a`; any algorithm that yields a non-increasing
 permutation gives the same sequence (SortedPermutationUnique), so this
 insertion sort stands for the engine's sort.
 */
module Sorting {

  /** Non-increasing order: every earlier element is at least every later one. */
  predicate SortedDesc(s: seq<int>) {
    forall i, j :: 0 <= i < j < |s| ==> s[i] >= s[j]
  }

  /** Places `x` in front of the first element that does not exceed it. */
  function Insert(x: int, s: seq<int>): (r: seq<int>)
    requires SortedDesc(s)
    ensures SortedDesc(r)
    ensures |r| == |s| + 1
    ensures multiset(r) == multiset(s) + multiset{x}
    ensures r[0] == if |s| == 0 || x >= s[0] then x else s[0]
  {
    if |s| == 0 then [x]
    else if x >= s[0] then [x] + s
    else
      var t := Insert(x, s[1..]);
      assert s == [s[0]] + s[1..];
      [s[0]] + t
  }

  /** Sorts `s` into non-increasing order. */
  function SortDesc(s: seq<int>): (r: seq<int>)
    ensures SortedDesc(r)
    ensures |r| == |s|
    ensures multiset(r) == multiset(s)
  {
    if |s| == 0 then []
    else
      assert s == [s[0]] + s[1..];
      Insert(s[0], SortDesc(s[1..]))
  }

  /** The first element of a non-empty non-increasing sequence is its maximum. */
  lemma HeadIsMax(s: seq<int>, y: int)
    requires SortedDesc(s) && y in multiset(s)
    ensures |s| > 0 && y <= s[0]
  {
    assert y in s;
    var k :| 0 <= k < |s| && s[k] == y;
  }

  /** Two non-increasing sequences holding the same elements are equal. */
  lemma {:induction false} SortedPermutationUnique(a: seq<int>, b: seq<int>)
    requires SortedDesc(a) && SortedDesc(b)
    requires multiset(a) == multiset(b)
    ensures a == b
  {
    if |a| == 0 {
      assert |multiset(b)| == |multiset(a)| == 0;
    } else {
      assert a[0] in multiset(b) by { assert a[0] in a; }
      HeadIsMax(b, a[0]);
      assert b[0] in multiset(a) by { assert b[0] in b; }
      HeadIsMax(a, b[0]);
      var h := a[0];
      assert a == [h] + a[1..];
      assert b == [h] + b[1..];
      TailMultiset(a);
      TailMultiset(b);
      SortedTail(a);
      SortedTail(b);
      SortedPermutationUnique(a[1..], b[1..]);
    }
  }

  /** Dropping the head removes exactly one copy of it. */
  lemma TailMultiset(s: seq<int>)
    requires |s| > 0
    ensures multiset(s[1..]) == multiset(s) - multiset{s[0]}
  {
    assert s == [s[0]] + s[1..];
  }

  /** A suffix of an ordered sequence is ordered. */
  lemma SortedTail(s: seq<int>)
    requires |s| > 0 && SortedDesc(s)
    ensures SortedDesc(s[1..])
  {
  }

  /** Inserting never pushes any rank below its previous value. */
  lemma {:induction false} InsertRaisesRanks(x: int, s: seq<int>, i: int)
    requires SortedDesc(s) && 0 <= i < |s|
    ensures Insert(x, s)[i] >= s[i]
  {
    if x >= s[0] {
      if i > 0 {
        assert Insert(x, s)[i] == s[i - 1];
      }
    } else if i > 0 {
      InsertRaisesRanks(x, s[1..], i - 1);
    }
  }

  /** An element no larger than `s[k-1]` lands after the first `k` ranks. */
  lemma {:induction false} InsertKeepsPrefix(x: int, s: seq<int>, k: int)
    requires SortedDesc(s) && 0 < k <= |s| && x <= s[k - 1]
    ensures Insert(x, s)[..k] == s[..k]
  {
    var r := Insert(x, s);
    if x >= s[0] {
      assert s[0] >= s[k - 1];
      forall j | 0 <= j < k
        ensures r[j] == s[j]
      {
        assert s[0] >= s[j] >= s[k - 1];
        if j > 0 {
          assert s[j - 1] >= s[j];
        }
      }
    } else if k > 1 {
      InsertKeepsPrefix(x, s[1..], k - 1);
      var t := Insert(x, s[1..]);
      assert r == [s[0]] + t;
      forall j | 0 <= j < k
        ensures r[j] == s[j]
      {
        if j > 0 {
          assert r[j] == t[..k - 1][j - 1];
        }
      }
    }
  }

  /** An element larger than `s[k-1]` lands among the first `k` ranks. */
  lemma {:induction false} InsertEntersPrefix(x: int, s: seq<int>, k: int)
    requires SortedDesc(s) && 0 < k <= |s| && x > s[k - 1]
    ensures x in Insert(x, s)[..k]
  {
    if x >= s[0] {
      assert Insert(x, s)[0] == x;
    } else {
      InsertEntersPrefix(x, s[1..], k - 1);
      assert Insert(x, s)[..k] == [s[0]] + Insert(x, s[1..])[..k - 1];
    }
  }

  /** An element just below the head of a three-element list is inserted second. */
  lemma InsertSecond(x: int, s: seq<int>)
    requires SortedDesc(s) && |s| == 3 && s[1] <= x < s[0]
    ensures Insert(x, s) == [s[0], x, s[1], s[2]]
  {
    assert s[1..] == [s[1], s[2]];
    assert Insert(x, s[1..]) == [x] + s[1..];
  }
}
