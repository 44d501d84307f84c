/** The random shuffle of the draw's pool, `[...pool].sort(() => 0.5 - Math.random())`.
    The random comparator is replaced by an oracle: a sequence of choices,
    one per position, each picking (modulo what is left) the next element to
    place, in the manner of a Fisher-Yates draw. Every choice sequence yields a
    permutation of the pool and every permutation is yielded by some choice
    sequence, so a property proved for all choice sequences holds for
    whatever order the random comparator produces. */
module Shuffling {
  import opened Collections

  function RemoveAt<T>(s: seq<T>, k: nat): (r: seq<T>)
    requires k < |s|
    ensures |r| == |s| - 1
    ensures multiset(r) + multiset{s[k]} == multiset(s)
    ensures forall i :: 0 <= i < k ==> r[i] == s[i]
    ensures forall i :: k <= i < |r| ==> r[i] == s[i + 1]
  {
    assert s == s[..k] + [s[k]] + s[k + 1..];
    s[..k] + s[k + 1..]
  }

  function Head(choices: seq<nat>): nat
  {
    if |choices| == 0 then 0 else choices[0]
  }

  function Tail(choices: seq<nat>): seq<nat>
  {
    if |choices| == 0 then [] else choices[1..]
  }

  /** The pool in the order the choices pick it. */
  function Shuffle<T>(pool: seq<T>, choices: seq<nat>): (r: seq<T>)
    ensures multiset(r) == multiset(pool)
    ensures |r| == |pool|
    decreases |pool|
  {
    if |pool| == 0 then []
    else
      var k := Head(choices) % |pool|;
      [pool[k]] + Shuffle(RemoveAt(pool, k), Tail(choices))
  }

  /** Every element of the shuffle comes from the pool. */
  lemma ShuffleElements<T>(pool: seq<T>, choices: seq<nat>)
    ensures forall i :: 0 <= i < |Shuffle(pool, choices)| ==> Shuffle(pool, choices)[i] in pool
  {
  }

  lemma SmallModulus(a: nat, n: nat)
    requires a < n
    ensures a % n == a
  {
  }

  /** Choosing `k` first places the pool's `k`-th element first. */
  lemma ShuffleStep<T>(pool: seq<T>, k: nat, c: seq<nat>)
    requires k < |pool|
    ensures Shuffle(pool, [k] + c) == [pool[k]] + Shuffle(RemoveAt(pool, k), c)
  {
    assert Head([k] + c) == k;
    SmallModulus(k, |pool|);
    assert Tail([k] + c) == c;
  }

  /** A non-empty permutation of the pool starts with some element of the
      pool, and what follows it is a permutation of the rest of the pool. */
  lemma PermutationHead<T>(pool: seq<T>, q: seq<T>) returns (k: nat)
    requires multiset(q) == multiset(pool)
    requires 0 < |pool|
    ensures 0 < |q| && k < |pool| && pool[k] == q[0]
    ensures multiset(q[1..]) == multiset(RemoveAt(pool, k))
  {
    assert |q| == |multiset(q)| == |pool|;
    assert q[0] in multiset(q);
    assert q[0] in pool;
    k :| 0 <= k < |pool| && pool[k] == q[0];
    assert q == [q[0]] + q[1..];
    assert multiset(q[1..]) + multiset{q[0]} == multiset(q);
    assert multiset(q[1..]) == multiset(q) - multiset{q[0]};
  }

  /** Every ordering of the pool is produced by some choice sequence, which
      the lemma returns: no arrangement, and so no prefix of one, is out of
      the draw's reach. */
  lemma {:induction false} EveryOrderReachable<T>(pool: seq<T>, q: seq<T>) returns (choices: seq<nat>)
    requires multiset(q) == multiset(pool)
    ensures Shuffle(pool, choices) == q
    decreases |pool|
  {
    if |pool| == 0 {
      assert |q| == |multiset(q)| == 0;
      choices := [];
    } else {
      var k := PermutationHead(pool, q);
      var c := EveryOrderReachable(RemoveAt(pool, k), q[1..]);
      choices := [k] + c;
      ShuffleStep(pool, k, c);
      assert q == [q[0]] + q[1..];
    }
  }

  /** Removing one element keeps the remaining keys distinct, and none of them
      is the removed element's key. */
  lemma RemoveAtDistinctKeys<T, K>(s: seq<T>, k: nat, key: T -> K)
    requires k < |s|
    requires DistinctKeys(s, key)
    ensures DistinctKeys(RemoveAt(s, k), key)
    ensures forall i :: 0 <= i < |RemoveAt(s, k)| ==> key(RemoveAt(s, k)[i]) != key(s[k])
  {
    var r := RemoveAt(s, k);
    forall i, j | 0 <= i < j < |r|
      ensures key(r[i]) != key(r[j])
    {
      var i' := if i < k then i else i + 1;
      var j' := if j < k then j else j + 1;
      assert r[i] == s[i'] && r[j] == s[j'];
    }
    forall i | 0 <= i < |r|
      ensures key(r[i]) != key(s[k])
    {
      var i' := if i < k then i else i + 1;
      assert r[i] == s[i'];
    }
  }

  /** A shuffle of a pool with distinct keys has distinct keys. */
  lemma {:induction false} ShuffleDistinctKeys<T, K>(pool: seq<T>, choices: seq<nat>, key: T -> K)
    requires DistinctKeys(pool, key)
    ensures DistinctKeys(Shuffle(pool, choices), key)
    decreases |pool|
  {
    if |pool| > 0 {
      var k := Head(choices) % |pool|;
      var rest := RemoveAt(pool, k);
      RemoveAtDistinctKeys(pool, k, key);
      ShuffleDistinctKeys(rest, Tail(choices), key);
      var tail := Shuffle(rest, Tail(choices));
      assert Shuffle(pool, choices) == [pool[k]] + tail;
      ShuffleElements(rest, Tail(choices));
      forall j | 0 <= j < |tail|
        ensures key(pool[k]) != key(tail[j])
      {
        var m :| 0 <= m < |rest| && rest[m] == tail[j];
      }
      AppendDistinctKeys([pool[k]], tail, key);
    }
  }

  /** The only arrangement of two copies of one element is itself. */
  lemma ShuffleTwins<T>(a: T, choices: seq<nat>)
    ensures Shuffle([a, a], choices) == [a, a]
  {
    var r := Shuffle([a, a], choices);
    assert multiset(r) == multiset{a, a};
    assert |r| == 2;
    assert r[0] in multiset(r) && r[1] in multiset(r);
    assert r == [r[0], r[1]];
  }
}
