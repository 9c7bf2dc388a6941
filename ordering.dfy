/**
 * Sorting by an integer key, standing in for Mongo's `.sort(...)` and
 * JavaScript's `Array.prototype.sort` with a numeric comparator. A descending
 * order is an ascending one on the negated key.
 */
module Ordering {

  ghost predicate SortedBy<T>(s: seq<T>, key: T -> int) {
    forall i, j :: 0 <= i < j < |s| ==> key(s[i]) <= key(s[j])
  }

  /** Insert `x` after every element whose key is at most its own, so that
      elements with equal keys keep their arrival order. */
  function InsertBy<T>(s: seq<T>, x: T, key: T -> int): (r: seq<T>)
    requires SortedBy(s, key)
    ensures SortedBy(r, key)
    ensures multiset(r) == multiset(s) + multiset{x}
    ensures |r| == |s| + 1
  {
    if s == [] then [x]
    else if key(x) < key(s[0]) then [x] + s
    else
      var t := InsertBy(s[1..], x, key);
      assert s == [s[0]] + s[1..];
      assert forall k :: 0 <= k < |t| ==> key(s[0]) <= key(t[k]) by {
        forall k | 0 <= k < |t| ensures key(s[0]) <= key(t[k]) {
          assert t[k] in multiset(t);
          assert t[k] in multiset(s[1..]) || t[k] == x;
        }
      }
      [s[0]] + t
  }

  /** Insertion sort: a sorted permutation of `s`. */
  function SortBy<T>(s: seq<T>, key: T -> int): (r: seq<T>)
    ensures SortedBy(r, key)
    ensures multiset(r) == multiset(s)
    ensures |r| == |s|
  {
    if s == [] then []
    else
      assert s == s[..|s| - 1] + [s[|s| - 1]];
      InsertBy(SortBy(s[..|s| - 1], key), s[|s| - 1], key)
  }

  lemma {:induction false} InsertLargest<T>(s: seq<T>, x: T, key: T -> int)
    requires SortedBy(s, key)
    requires forall k :: 0 <= k < |s| ==> key(s[k]) <= key(x)
    ensures InsertBy(s, x, key) == s + [x]
  {
    if s != [] {
      InsertLargest(s[1..], x, key);
      assert s == [s[0]] + s[1..];
    }
  }

  lemma SortedInit<T>(s: seq<T>, key: T -> int)
    requires SortedBy(s, key) && s != []
    ensures SortedBy(s[..|s| - 1], key)
    ensures forall k :: 0 <= k < |s| - 1 ==> key(s[k]) <= key(s[|s| - 1])
  {
    var init := s[..|s| - 1];
    forall i, j | 0 <= i < j < |init| ensures key(init[i]) <= key(init[j]) {
      assert init[i] == s[i] && init[j] == s[j];
    }
  }

  /** Inserting the last element of a sorted sequence into the rest of it
      puts it back at the end. */
  lemma SnocSorted<T>(s: seq<T>, key: T -> int)
    requires SortedBy(s, key) && s != []
    ensures SortedBy(s[..|s| - 1], key)
    ensures InsertBy(s[..|s| - 1], s[|s| - 1], key) == s
  {
    SortedInit(s, key);
    InsertLargest(s[..|s| - 1], s[|s| - 1], key);
    assert s == s[..|s| - 1] + [s[|s| - 1]];
  }

  /** Sorting input that is already in order returns it unchanged: equal keys
      keep their original order. */
  lemma {:induction false} SortKeepsSorted<T>(s: seq<T>, key: T -> int)
    requires SortedBy(s, key)
    ensures SortBy(s, key) == s
  {
    if s != [] {
      SnocSorted(s, key);
      SortKeepsSorted(s[..|s| - 1], key);
    }
  }

  /** A strictly increasing sequence holds each of its values exactly once. */
  lemma {:induction false} IncreasingCounts(ids: seq<int>)
    requires forall i, j :: 0 <= i < j < |ids| ==> ids[i] < ids[j]
    ensures forall k :: multiset(ids)[k] == if k in ids then 1 else 0
  {
    if ids != [] {
      var init, last := ids[..|ids| - 1], ids[|ids| - 1];
      IncreasingCounts(init);
      assert ids == init + [last];
      assert last !in init by {
        forall p | 0 <= p < |init| ensures init[p] != last {
          assert init[p] == ids[p];
        }
      }
      forall k ensures multiset(ids)[k] == if k in ids then 1 else 0 {
        assert multiset(ids)[k] == multiset(init)[k] + multiset([last])[k];
        assert k in ids <==> k in init || k == last;
      }
    }
  }
}
