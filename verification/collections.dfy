/** Sequence helpers shared by the draw engine, the round controller and the
    history view: the `Array.prototype.filter`, `find` and `slice` operations
    the program uses, each with the facts the rest of the model needs. */
module Collections {

  datatype Option<+T> = None | Some(value: T)

  /** `s.filter(keep)`: the kept elements, in their original order. */
  function Filter<T>(s: seq<T>, keep: T -> bool): (r: seq<T>)
    ensures |r| <= |s|
    ensures forall i :: 0 <= i < |r| ==> r[i] in s && keep(r[i])
    ensures forall i :: 0 <= i < |s| && keep(s[i]) ==> s[i] in r
    decreases |s|
  {
    if |s| == 0 then []
    else (if keep(s[0]) then [s[0]] else []) + Filter(s[1..], keep)
  }

  /** One step of the filter on a sequence written as head and tail. */
  lemma FilterCons<T>(x: T, s: seq<T>, keep: T -> bool)
    ensures Filter([x] + s, keep) == (if keep(x) then [x] else []) + Filter(s, keep)
  {
    assert ([x] + s)[1..] == s;
  }

  /** Filtering commutes with concatenation: the filter keeps order. */
  lemma {:induction false} FilterAppend<T>(a: seq<T>, b: seq<T>, keep: T -> bool)
    ensures Filter(a + b, keep) == Filter(a, keep) + Filter(b, keep)
    decreases |a|
  {
    if |a| == 0 {
      assert a + b == b;
    } else {
      assert (a + b)[1..] == a[1..] + b;
      FilterAppend(a[1..], b, keep);
    }
  }

  /** Filtering a sequence whose every element is kept gives it back whole. */
  lemma {:induction false} FilterAll<T>(s: seq<T>, keep: T -> bool)
    requires forall i :: 0 <= i < |s| ==> keep(s[i])
    ensures Filter(s, keep) == s
    decreases |s|
  {
    if |s| > 0 {
      FilterAll(s[1..], keep);
    }
  }

  /** Filtering a sequence none of whose elements is kept gives nothing. */
  lemma {:induction false} FilterNone<T>(s: seq<T>, keep: T -> bool)
    requires forall i :: 0 <= i < |s| ==> !keep(s[i])
    ensures Filter(s, keep) == []
    decreases |s|
  {
    if |s| > 0 {
      FilterNone(s[1..], keep);
    }
  }

  /** The filter keeps every copy of a kept value and no copy of a dropped one. */
  lemma {:induction false} FilterMultiset<T>(s: seq<T>, keep: T -> bool, x: T)
    ensures multiset(Filter(s, keep))[x] == if keep(x) then multiset(s)[x] else 0
    decreases |s|
  {
    if |s| > 0 {
      var head: seq<T> := if keep(s[0]) then [s[0]] else [];
      assert s == [s[0]] + s[1..];
      FilterCons(s[0], s[1..], keep);
      assert multiset(Filter(s, keep)) == multiset(head) + multiset(Filter(s[1..], keep));
      assert multiset(s) == multiset{s[0]} + multiset(s[1..]);
      FilterMultiset(s[1..], keep, x);
    }
  }

  /** Two permutations of each other filter to permutations of each other. */
  lemma FilterPermutation<T>(s: seq<T>, t: seq<T>, keep: T -> bool)
    requires multiset(s) == multiset(t)
    ensures multiset(Filter(s, keep)) == multiset(Filter(t, keep))
  {
    forall x
      ensures multiset(Filter(s, keep))[x] == multiset(Filter(t, keep))[x]
    {
      FilterMultiset(s, keep, x);
      FilterMultiset(t, keep, x);
    }
  }

  /** Two filters can be applied in either order. */
  lemma {:induction false} FilterCommute<T>(s: seq<T>, p: T -> bool, q: T -> bool)
    ensures Filter(Filter(s, p), q) == Filter(Filter(s, q), p)
    decreases |s|
  {
    if |s| > 0 {
      assert s == [s[0]] + s[1..];
      FilterCommute(s[1..], p, q);
      FilterCons(s[0], s[1..], p);
      FilterCons(s[0], s[1..], q);
      var hp: seq<T> := if p(s[0]) then [s[0]] else [];
      var hq: seq<T> := if q(s[0]) then [s[0]] else [];
      FilterAppend(hp, Filter(s[1..], p), q);
      FilterAppend(hq, Filter(s[1..], q), p);
      FilterCons(s[0], [], q);
      FilterCons(s[0], [], p);
      assert [s[0]] + [] == [s[0]];
      if !p(s[0]) {
        FilterNone(hq, p);
      }
      if !q(s[0]) {
        FilterNone(hp, q);
      }
    }
  }

  /** Mapping with `f`, filtering, and mapping back with a left inverse `g`
      of `f` is filtering with the predicate `f` carries over. */
  lemma {:induction false} FilterThroughMap<T, U>(s: seq<T>, f: T -> U, g: U -> T, keepU: U -> bool, keepT: T -> bool)
    requires forall x :: g(f(x)) == x && keepU(f(x)) == keepT(x)
    ensures Keys(Filter(Keys(s, f), keepU), g) == Filter(s, keepT)
    decreases |s|
  {
    if |s| > 0 {
      var rest := Keys(s[1..], f);
      var tail := Filter(rest, keepU);
      assert s == [s[0]] + s[1..];
      KeysCons(s[0], s[1..], f);
      FilterCons(f(s[0]), rest, keepU);
      FilterCons(s[0], s[1..], keepT);
      FilterThroughMap(s[1..], f, g, keepU, keepT);
      if keepT(s[0]) {
        KeysCons(f(s[0]), tail, g);
      }
    }
  }

  /** `s.flatMap(f)`: the sequences `f` gives for each element, joined in order. */
  function FlatMap<T, U>(s: seq<T>, f: T -> seq<U>): seq<U>
    decreases |s|
  {
    if |s| == 0 then [] else f(s[0]) + FlatMap(s[1..], f)
  }

  lemma FlatMapCons<T, U>(x: T, s: seq<T>, f: T -> seq<U>)
    ensures FlatMap([x] + s, f) == f(x) + FlatMap(s, f)
  {
    assert ([x] + s)[0] == x && ([x] + s)[1..] == s;
  }

  /** Flat-mapping distributes over concatenation. */
  lemma {:induction false} FlatMapAppend<T, U>(a: seq<T>, b: seq<T>, f: T -> seq<U>)
    ensures FlatMap(a + b, f) == FlatMap(a, f) + FlatMap(b, f)
    decreases |a|
  {
    if |a| == 0 {
      assert a + b == b;
    } else {
      FlatMapAppend(a[1..], b, f);
      assert a + b == [a[0]] + (a[1..] + b);
      FlatMapCons(a[0], a[1..] + b, f);
      assert f(a[0]) + (FlatMap(a[1..], f) + FlatMap(b, f)) == f(a[0]) + FlatMap(a[1..], f) + FlatMap(b, f);
    }
  }

  /** `s.find(pred)`: the first element satisfying `pred`, if any. */
  function FindFirst<T(==)>(s: seq<T>, pred: T -> bool): (r: Option<T>)
    ensures r.None? <==> forall i :: 0 <= i < |s| ==> !pred(s[i])
    ensures r.Some? ==> r.value in s && pred(r.value)
    ensures r.Some? ==> exists i :: 0 <= i < |s| && s[i] == r.value && forall j :: 0 <= j < i ==> !pred(s[j])
    decreases |s|
  {
    if |s| == 0 then None
    else if pred(s[0]) then Some(s[0])
    else
      var r := FindFirst(s[1..], pred);
      assert r.Some? ==> s[1..][0..] == s[1..];
      if r.Some? then
        var i :| 0 <= i < |s[1..]| && s[1..][i] == r.value && forall j :: 0 <= j < i ==> !pred(s[1..][j]);
        assert s[i + 1] == r.value && forall j :: 0 <= j < i + 1 ==> !pred(s[j]);
        r
      else r
  }

  /** All keys of `s` differ: an element is identified by its key. */
  ghost predicate DistinctKeys<T, K>(s: seq<T>, key: T -> K)
  {
    forall i, j :: 0 <= i < j < |s| ==> key(s[i]) != key(s[j])
  }

  /** A prefix of a sequence with distinct keys has distinct keys. */
  lemma PrefixDistinctKeys<T, K>(s: seq<T>, t: seq<T>, key: T -> K)
    requires DistinctKeys(s, key) && t <= s
    ensures DistinctKeys(t, key)
  {
    forall i, j | 0 <= i < j < |t|
      ensures key(t[i]) != key(t[j])
    {
      assert t[i] == s[i] && t[j] == s[j];
    }
  }

  /** `s.map(key)`: the keys of `s`, in order. */
  function Keys<T, K>(s: seq<T>, key: T -> K): (r: seq<K>)
    ensures |r| == |s|
    ensures forall i :: 0 <= i < |s| ==> r[i] == key(s[i])
  {
    seq(|s|, i requires 0 <= i < |s| => key(s[i]))
  }

  /** Mapping distributes over a leading element. */
  lemma KeysCons<T, K>(x: T, s: seq<T>, key: T -> K)
    ensures Keys([x] + s, key) == [key(x)] + Keys(s, key)
  {
  }

  /** Mapping distributes over concatenation. */
  lemma KeysAppend<T, K>(a: seq<T>, b: seq<T>, key: T -> K)
    ensures Keys(a + b, key) == Keys(a, key) + Keys(b, key)
  {
  }

  /** A key occurs among `Keys(s, key)` exactly when some element carries it. */
  lemma KeysMembership<T, K>(s: seq<T>, key: T -> K, k: K)
    ensures k in Keys(s, key) <==> exists i :: 0 <= i < |s| && key(s[i]) == k
  {
  }

  /** A filter of a sequence with distinct keys still has distinct keys. */
  lemma {:induction false} FilterDistinctKeys<T, K>(s: seq<T>, key: T -> K, keep: T -> bool)
    requires DistinctKeys(s, key)
    ensures DistinctKeys(Filter(s, keep), key)
    decreases |s|
  {
    if |s| > 0 {
      var tail := Filter(s[1..], keep);
      FilterDistinctKeys(s[1..], key, keep);
      if keep(s[0]) {
        forall k | 0 <= k < |tail|
          ensures key(tail[k]) != key(s[0])
        {
          var j :| 0 <= j < |s[1..]| && s[1..][j] == tail[k];
          assert s[j + 1] == tail[k];
        }
        var r := [s[0]] + tail;
        forall i, j | 0 <= i < j < |r|
          ensures key(r[i]) != key(r[j])
        {
          if i == 0 {
            assert r[j] == tail[j - 1];
          } else {
            assert r[i] == tail[i - 1] && r[j] == tail[j - 1];
          }
        }
      } else {
        assert Filter(s, keep) == tail;
      }
    }
  }

  /** Concatenating two sequences with distinct keys and no key in common
      gives a sequence with distinct keys. */
  lemma AppendDistinctKeys<T, K>(a: seq<T>, b: seq<T>, key: T -> K)
    requires DistinctKeys(a, key) && DistinctKeys(b, key)
    requires forall i, j :: 0 <= i < |a| && 0 <= j < |b| ==> key(a[i]) != key(b[j])
    ensures DistinctKeys(a + b, key)
  {
    var r := a + b;
    forall i, j | 0 <= i < j < |r|
      ensures key(r[i]) != key(r[j])
    {
      if j < |a| {
        assert r[i] == a[i] && r[j] == a[j];
      } else if i < |a| {
        assert r[i] == a[i] && r[j] == b[j - |a|];
      } else {
        assert r[i] == b[i - |a|] && r[j] == b[j - |a|];
      }
    }
  }

  function Min(a: int, b: int): int
  {
    if a <= b then a else b
  }

  function Max(a: int, b: int): int
  {
    if a >= b then a else b
  }

  /** `s.slice(0, n)` for `n >= 0`: the first `n` elements, or all of them
      when there are fewer. */
  function Take<T>(s: seq<T>, n: nat): (r: seq<T>)
    ensures |r| == Min(n, |s|)
    ensures r <= s
  {
    if n <= |s| then s[..n] else s
  }

  /** A prefix holds no element more often than the whole. */
  lemma TakeMultiset<T>(s: seq<T>, n: nat)
    ensures multiset(Take(s, n)) <= multiset(s)
  {
    var t := Take(s, n);
    assert s == t + s[|t|..];
  }

  /** Every element of a sub-multiset occurs in the larger sequence. */
  lemma SubMultisetElements<T>(a: seq<T>, b: seq<T>)
    requires multiset(a) <= multiset(b)
    ensures forall i :: 0 <= i < |a| ==> a[i] in b
  {
    forall i | 0 <= i < |a|
      ensures a[i] in b
    {
      assert a[i] in multiset(a);
    }
  }

  /** The two halves of a concatenation. */
  lemma AppendHalves<T>(a: seq<T>, b: seq<T>)
    ensures (a + b)[..|a|] == a && (a + b)[|a|..] == b
  {
  }

  /** `s.slice(0, end)` with JavaScript's reading of the end index: a negative
      `end` counts back from the end of the sequence. */
  function SliceTo<T>(s: seq<T>, end: int): (r: seq<T>)
    ensures r <= s
    ensures 0 <= end ==> |r| == Min(end, |s|)
    ensures end < 0 ==> |r| == Max(|s| + end, 0)
  {
    if end < 0 then s[..Max(|s| + end, 0)] else Take(s, end)
  }
}
