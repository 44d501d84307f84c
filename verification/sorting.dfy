/** The stable sort behind `[...xs].sort((a, b) => key(a) - key(b))`.
    `Array.prototype.sort` is stable, so elements with equal keys keep their
    input order; a descending sort is the ascending sort on the negated key. */
module Sorting {
  import opened Collections

  /** Keys never decrease from left to right. */
  ghost predicate SortedBy<T>(s: seq<T>, key: T -> int)
  {
    forall i, j :: 0 <= i < j < |s| ==> key(s[i]) <= key(s[j])
  }

  /** The elements whose key is `k`. */
  function KeyIs<T>(key: T -> int, k: int): T -> bool
  {
    (y: T) => key(y) == k
  }

  /** Puts `x` in front of the first element whose key is not smaller. */
  function Insert<T>(x: T, s: seq<T>, key: T -> int): (r: seq<T>)
    ensures multiset(r) == multiset(s) + multiset{x}
    decreases |s|
  {
    if |s| == 0 || key(x) <= key(s[0]) then [x] + s
    else
      assert s == [s[0]] + s[1..];
      [s[0]] + Insert(x, s[1..], key)
  }

  /** Inserting into a sorted sequence keeps it sorted. */
  lemma {:induction false} InsertSorted<T>(x: T, s: seq<T>, key: T -> int)
    requires SortedBy(s, key)
    ensures SortedBy(Insert(x, s, key), key)
    decreases |s|
  {
    if |s| > 0 && key(s[0]) < key(x) {
      var rest := Insert(x, s[1..], key);
      InsertSorted(x, s[1..], key);
      forall j | 0 <= j < |rest|
        ensures key(s[0]) <= key(rest[j])
      {
        assert rest[j] in multiset(rest);
        if rest[j] != x {
          assert rest[j] in multiset(s[1..]);
          var m :| 0 <= m < |s[1..]| && s[1..][m] == rest[j];
          assert s[m + 1] == rest[j];
        }
      }
      var r := [s[0]] + rest;
      forall i, j | 0 <= i < j < |r|
        ensures key(r[i]) <= key(r[j])
      {
        assert r[j] == rest[j - 1];
        if i > 0 {
          assert r[i] == rest[i - 1];
        }
      }
    }
  }

  /** Inserting `x` adds it in front of the elements that share its key and
      leaves every other key's elements as they were. */
  lemma {:induction false} InsertStable<T>(x: T, s: seq<T>, key: T -> int, k: int)
    ensures Filter(Insert(x, s, key), KeyIs(key, k))
         == (if key(x) == k then [x] else []) + Filter(s, KeyIs(key, k))
    decreases |s|
  {
    var keep := KeyIs(key, k);
    var head: seq<T> := if key(x) == k then [x] else [];
    if |s| == 0 || key(x) <= key(s[0]) {
      assert Insert(x, s, key) == [x] + s;
      FilterCons(x, s, keep);
    } else {
      var rest := Insert(x, s[1..], key);
      assert Insert(x, s, key) == [s[0]] + rest;
      assert s == [s[0]] + s[1..];
      var h0: seq<T> := if keep(s[0]) then [s[0]] else [];
      FilterCons(s[0], rest, keep);
      FilterCons(s[0], s[1..], keep);
      InsertStable(x, s[1..], key, k);
      assert Filter(Insert(x, s, key), keep) == h0 + (head + Filter(s[1..], keep));
      assert Filter(s, keep) == h0 + Filter(s[1..], keep);
      if key(x) == k {
        assert h0 == [];
      } else {
        assert head == [];
      }
    }
  }

  function SortBy<T>(s: seq<T>, key: T -> int): (r: seq<T>)
    ensures multiset(r) == multiset(s)
    ensures SortedBy(r, key)
    decreases |s|
  {
    if |s| == 0 then []
    else
      assert s == [s[0]] + s[1..];
      InsertSorted(s[0], SortBy(s[1..], key), key);
      Insert(s[0], SortBy(s[1..], key), key)
  }

  /** The sort is stable: for every key, the elements carrying it come out in
      the order they went in. */
  lemma {:induction false} SortByStable<T>(s: seq<T>, key: T -> int, k: int)
    ensures Filter(SortBy(s, key), KeyIs(key, k)) == Filter(s, KeyIs(key, k))
    decreases |s|
  {
    if |s| > 0 {
      SortByStable(s[1..], key, k);
      InsertKeepsFilter(s[0], SortBy(s[1..], key), s[1..], key, k);
      assert [s[0]] + s[1..] == s;
    }
  }

  /** Stability, for a selection given as the predicate "has key `k`". */
  lemma SortByStableFor<T>(s: seq<T>, key: T -> int, k: int, keep: T -> bool)
    requires keep == KeyIs(key, k)
    ensures Filter(SortBy(s, key), keep) == Filter(s, keep)
  {
    SortByStable(s, key, k);
  }

  /** One step of the stability proof: inserting `x` into a sequence that
      filters like `u` gives one that filters like `[x] + u`. */
  lemma InsertKeepsFilter<T>(x: T, t: seq<T>, u: seq<T>, key: T -> int, k: int)
    requires Filter(t, KeyIs(key, k)) == Filter(u, KeyIs(key, k))
    ensures Filter(Insert(x, t, key), KeyIs(key, k)) == Filter([x] + u, KeyIs(key, k))
  {
    InsertStable(x, t, key, k);
    FilterCons(x, u, KeyIs(key, k));
  }

  /** Dropping elements keeps a sorted sequence sorted. */
  lemma {:induction false} FilterSorted<T>(s: seq<T>, key: T -> int, keep: T -> bool)
    requires SortedBy(s, key)
    ensures SortedBy(Filter(s, keep), key)
    decreases |s|
  {
    if |s| > 0 {
      var tail := Filter(s[1..], keep);
      assert Filter(s, keep) == (if keep(s[0]) then [s[0]] else []) + tail;
      FilterSorted(s[1..], key, keep);
      if keep(s[0]) {
        FilterLowerBound(s[1..], key, keep, key(s[0]));
        SortedCons(s[0], tail, key);
      }
    }
  }

  /** A lower bound on every key survives a filter. */
  lemma FilterLowerBound<T>(s: seq<T>, key: T -> int, keep: T -> bool, b: int)
    requires forall i :: 0 <= i < |s| ==> b <= key(s[i])
    ensures forall j :: 0 <= j < |Filter(s, keep)| ==> b <= key(Filter(s, keep)[j])
  {
    var r := Filter(s, keep);
    forall j | 0 <= j < |r|
      ensures b <= key(r[j])
    {
      var m :| 0 <= m < |s| && s[m] == r[j];
    }
  }

  /** A sorted sequence stays sorted behind an element no larger than any
      of its keys. */
  lemma SortedCons<T>(x: T, t: seq<T>, key: T -> int)
    requires SortedBy(t, key)
    requires forall j :: 0 <= j < |t| ==> key(x) <= key(t[j])
    ensures SortedBy([x] + t, key)
  {
    var r := [x] + t;
    forall i, j | 0 <= i < j < |r|
      ensures key(r[i]) <= key(r[j])
    {
      assert r[j] == t[j - 1];
      if i > 0 {
        assert r[i] == t[i - 1];
      }
    }
  }
}
