/** Python's `list.sort(key=...)` on string keys: a stable sort, so that
    rows with equal keys keep their relative order. Modelled by insertion
    sort, with its three properties proved: the result is ordered by key,
    it is a permutation of the input, and for every key the rows with that
    key come out in input order. */
module Sorting {
  import opened Text

  /** Insert `x` after the last element whose key is not greater than its
      own: in a sorted sequence, after every element with an equal key. */
  function Insert<T>(key: T -> string, x: T, s: seq<T>): (r: seq<T>)
    ensures |r| == |s| + 1
  {
    if s == [] then [x]
    else if StrLessEq(key(s[|s| - 1]), key(x)) then s + [x]
    else Insert(key, x, s[..|s| - 1]) + [s[|s| - 1]]
  }

  function SortBy<T>(key: T -> string, s: seq<T>): (r: seq<T>)
    ensures |r| == |s|
  {
    if s == [] then [] else Insert(key, s[|s| - 1], SortBy(key, s[..|s| - 1]))
  }

  predicate Sorted<T>(key: T -> string, s: seq<T>) {
    forall i, j :: 0 <= i < j < |s| ==> StrLessEq(key(s[i]), key(s[j]))
  }

  /** The elements with key `k`, in order. */
  function WithKey<T>(key: T -> string, k: string, s: seq<T>): seq<T> {
    if s == [] then []
    else WithKey(key, k, s[..|s| - 1]) + (if key(s[|s| - 1]) == k then [s[|s| - 1]] else [])
  }

  lemma {:induction false} InsertMultiset<T>(key: T -> string, x: T, s: seq<T>)
    ensures multiset(Insert(key, x, s)) == multiset(s) + multiset{x}
  {
    if s != [] && !StrLessEq(key(s[|s| - 1]), key(x)) {
      var init := s[..|s| - 1];
      InsertMultiset(key, x, init);
      assert s == init + [s[|s| - 1]];
    }
  }

  /** Every key of the inserted sequence is bounded by a bound of the
      sequence's keys and of the new key. */
  lemma {:induction false} InsertBounded<T>(key: T -> string, x: T, s: seq<T>, b: string)
    requires forall i :: 0 <= i < |s| ==> StrLessEq(key(s[i]), b)
    requires StrLessEq(key(x), b)
    ensures forall i :: 0 <= i < |Insert(key, x, s)| ==> StrLessEq(key(Insert(key, x, s)[i]), b)
  {
    if s != [] && !StrLessEq(key(s[|s| - 1]), key(x)) {
      InsertBounded(key, x, s[..|s| - 1], b);
    }
  }

  lemma {:induction false} InsertSorted<T>(key: T -> string, x: T, s: seq<T>)
    requires Sorted(key, s)
    ensures Sorted(key, Insert(key, x, s))
  {
    if s == [] {
    } else if StrLessEq(key(s[|s| - 1]), key(x)) {
      forall i | 0 <= i < |s|
        ensures StrLessEq(key(s[i]), key(x))
      {
        if i < |s| - 1 {
          StrLessEqTransitive(key(s[i]), key(s[|s| - 1]), key(x));
        }
      }
    } else {
      var init := s[..|s| - 1];
      var last := s[|s| - 1];
      InsertSorted(key, x, init);
      StrLessEqTotal(key(last), key(x));
      InsertBounded(key, x, init, key(last));
    }
  }

  /** The result is ordered by key. */
  lemma {:induction false} SortSorted<T>(key: T -> string, s: seq<T>)
    ensures Sorted(key, SortBy(key, s))
  {
    if s != [] {
      SortSorted(key, s[..|s| - 1]);
      InsertSorted(key, s[|s| - 1], SortBy(key, s[..|s| - 1]));
    }
  }

  /** The result holds the same elements, as often. */
  lemma {:induction false} SortPermutes<T>(key: T -> string, s: seq<T>)
    ensures multiset(SortBy(key, s)) == multiset(s)
  {
    if s != [] {
      var init := s[..|s| - 1];
      SortPermutes(key, init);
      InsertMultiset(key, s[|s| - 1], SortBy(key, init));
      assert s == init + [s[|s| - 1]];
    }
  }

  lemma {:induction false} InsertStable<T>(key: T -> string, x: T, s: seq<T>, k: string)
    ensures WithKey(key, k, Insert(key, x, s)) == WithKey(key, k, s) + (if key(x) == k then [x] else [])
  {
    if s == [] {
      assert WithKey(key, k, [x]) == WithKey(key, k, [x][..0]) + (if key(x) == k then [x] else []);
    } else {
      var init := s[..|s| - 1];
      var last := s[|s| - 1];
      if StrLessEq(key(last), key(x)) {
        assert (s + [x])[..|s|] == s;
      } else {
        StrLessEqReflexive(key(x));
        InsertStable(key, x, init, k);
        var ins := Insert(key, x, init);
        assert (ins + [last])[..|ins|] == ins;
      }
    }
  }

  /** Stability: for every key, its elements come out in input order. */
  lemma {:induction false} SortStable<T>(key: T -> string, s: seq<T>, k: string)
    ensures WithKey(key, k, SortBy(key, s)) == WithKey(key, k, s)
  {
    if s != [] {
      SortStable(key, s[..|s| - 1], k);
      InsertStable(key, s[|s| - 1], SortBy(key, s[..|s| - 1]), k);
    }
  }
}
