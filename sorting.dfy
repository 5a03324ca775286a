/**
 * Stable sorting into non-increasing order of an integer key: what `Array.prototype.sort`
 * does with a comparator of the form `(a, b) => key(b) - key(a)` (the sort is stable since
 * ECMAScript 2019).  The runtime's algorithm is not visible; `SortDesc` defines the result by
 * insertion on sequences, and the lemmas below prove the three properties the language
 * standard promises of it: ordered, a permutation, stable.
 */
module Sorting {
  import opened Seqs

  ghost predicate SortedDesc<T>(s: seq<T>, key: T -> int)
  {
    forall i, j :: 0 <= i < j < |s| ==> key(s[i]) >= key(s[j])
  }

  /** The predicate "has key `k`", whose filter is the run of equal-key elements a stable sort must keep in order. */
  function HasKey<T>(key: T -> int, k: int): T -> bool
  {
    x => key(x) == k
  }

  /** Places `x` after every element of `s`, counted from the right, whose key is at least `key(x)`. */
  function Insert<T>(s: seq<T>, x: T, key: T -> int): (r: seq<T>)
    ensures |r| == |s| + 1
    decreases |s|
  {
    if s == [] || key(s[|s| - 1]) >= key(x) then s + [x]
    else Insert(s[..|s| - 1], x, key) + [s[|s| - 1]]
  }

  function SortDesc<T>(s: seq<T>, key: T -> int): (r: seq<T>)
    ensures |r| == |s|
    decreases |s|
  {
    if s == [] then [] else Insert(SortDesc(s[..|s| - 1], key), s[|s| - 1], key)
  }

  lemma {:induction false} InsertMultiset<T>(s: seq<T>, x: T, key: T -> int)
    ensures multiset(Insert(s, x, key)) == multiset(s) + multiset{x}
    decreases |s|
  {
    if !(s == [] || key(s[|s| - 1]) >= key(x)) {
      var s' := s[..|s| - 1];
      InsertMultiset(s', x, key);
      assert s == s' + [s[|s| - 1]];
    }
  }

  lemma {:induction false} InsertSorted<T>(s: seq<T>, x: T, key: T -> int)
    requires SortedDesc(s, key)
    ensures SortedDesc(Insert(s, x, key), key)
    decreases |s|
  {
    if !(s == [] || key(s[|s| - 1]) >= key(x)) {
      var s' := s[..|s| - 1];
      var last := s[|s| - 1];
      InsertSorted(s', x, key);
      var m := Insert(s', x, key);
      InsertMultiset(s', x, key);
      forall i | 0 <= i < |m| ensures key(m[i]) >= key(last) {
        assert m[i] in multiset(m);
        if m[i] != x {
          assert m[i] in multiset(s');
          var j :| 0 <= j < |s'| && s'[j] == m[i];
          assert s[j] == m[i];
        }
      }
    }
  }

  lemma {:induction false} InsertStable<T>(s: seq<T>, x: T, key: T -> int, k: int)
    ensures Filter(Insert(s, x, key), HasKey(key, k)) == Filter(s, HasKey(key, k)) + Filter([x], HasKey(key, k))
    decreases |s|
  {
    var p := HasKey(key, k);
    if s == [] || key(s[|s| - 1]) >= key(x) {
      FilterAppend(s, [x], p);
    } else {
      var s', last := s[..|s| - 1], s[|s| - 1];
      var fx, fl := Filter([x], p), Filter([last], p);
      assert fx + fl == fl + fx by {
        assert fx == (if p(x) then [x] else []);
        assert fl == (if p(last) then [last] else []);
      }
      calc {
        Filter(Insert(s, x, key), p);
        Filter(Insert(s', x, key) + [last], p);
        { FilterAppend(Insert(s', x, key), [last], p); }
        Filter(Insert(s', x, key), p) + fl;
        { InsertStable(s', x, key, k); }
        Filter(s', p) + fx + fl;
        Filter(s', p) + fl + fx;
        { FilterAppend(s', [last], p); LastSplit(s); }
        Filter(s, p) + fx;
      }
    }
  }

  /** The result is in non-increasing key order. */
  lemma {:induction false} SortDescSorted<T>(s: seq<T>, key: T -> int)
    ensures SortedDesc(SortDesc(s, key), key)
    decreases |s|
  {
    if s != [] {
      SortDescSorted(s[..|s| - 1], key);
      InsertSorted(SortDesc(s[..|s| - 1], key), s[|s| - 1], key);
    }
  }

  /** The result is a permutation of the input. */
  lemma {:induction false} SortDescPermutation<T>(s: seq<T>, key: T -> int)
    ensures multiset(SortDesc(s, key)) == multiset(s)
    decreases |s|
  {
    if s != [] {
      var s' := s[..|s| - 1];
      SortDescPermutation(s', key);
      InsertMultiset(SortDesc(s', key), s[|s| - 1], key);
      assert s == s' + [s[|s| - 1]];
    }
  }

  /** Stability: for every key value, the elements carrying it keep their input order. */
  lemma {:induction false} SortDescStable<T>(s: seq<T>, key: T -> int, k: int)
    ensures Filter(SortDesc(s, key), HasKey(key, k)) == Filter(s, HasKey(key, k))
    decreases |s|
  {
    if s != [] {
      var s', x, p := s[..|s| - 1], s[|s| - 1], HasKey(key, k);
      calc {
        Filter(SortDesc(s, key), p);
        Filter(Insert(SortDesc(s', key), x, key), p);
        { InsertStable(SortDesc(s', key), x, key, k); }
        Filter(SortDesc(s', key), p) + Filter([x], p);
        { SortDescStable(s', key, k); }
        Filter(s', p) + Filter([x], p);
        { FilterAppend(s', [x], p); }
        Filter(s' + [x], p);
        { assert s' + [x] == s; }
        Filter(s, p);
      }
    }
  }
}
