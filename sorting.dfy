/**
 * Ordering by an integer key: a stable in-place insertion sort on arrays,
 * and a sorted copy of a sequence built with it.
 */
module Sorting {

  /** The elements are in ascending key order. */
  predicate SortedBy<T>(s: seq<T>, key: T -> int)
  {
    forall i, j :: 0 <= i < j < |s| ==> key(s[i]) <= key(s[j])
  }

  /** The elements of s whose key is k, in their order in s. */
  function WithKey<T>(s: seq<T>, key: T -> int, k: int): seq<T>
    decreases |s|
  {
    if s == [] then []
    else if key(s[0]) == k then [s[0]] + WithKey(s[1..], key, k)
    else WithKey(s[1..], key, k)
  }

  /** Selecting by key distributes over concatenation. */
  lemma {:induction false} WithKeyAppend<T>(x: seq<T>, y: seq<T>, key: T -> int, k: int)
    ensures WithKey(x + y, key, k) == WithKey(x, key, k) + WithKey(y, key, k)
    decreases |x|
  {
    if x == [] {
      assert x + y == y;
    } else {
      assert (x + y)[0] == x[0] && (x + y)[1..] == x[1..] + y;
      WithKeyAppend(x[1..], y, key, k);
    }
  }

  /** Elements with equal keys appear in the same relative order in s and t (stability). */
  ghost predicate SameKeyOrder<T>(s: seq<T>, t: seq<T>, key: T -> int)
  {
    forall k :: WithKey(s, key, k) == WithKey(t, key, k)
  }

  /** Only elements of s with key k are selected. */
  lemma {:induction false} WithKeyMembers<T>(s: seq<T>, key: T -> int, k: int)
    ensures forall x :: x in WithKey(s, key, k) ==> x in s && key(x) == k
    decreases |s|
  {
    if s != [] {
      WithKeyMembers(s[1..], key, k);
    }
  }

  /**
   * A stable sort has one possible result: two sequences sorted by key that
   * agree on the order within every key are equal.
   */
  lemma {:induction false} StableSortUnique<T>(s: seq<T>, t: seq<T>, key: T -> int)
    requires SortedBy(s, key) && SortedBy(t, key) && SameKeyOrder(s, t, key)
    ensures s == t
    decreases |s|
  {
    SameKeyOrderEmpty(s, t, key);
    if s != [] {
      var k0, k1 := key(s[0]), key(t[0]);
      assert s[0] in WithKey(s, key, k0) && WithKey(s, key, k0) == WithKey(t, key, k0);
      WithKeyMembers(t, key, k0);
      assert t[0] in WithKey(t, key, k1) && WithKey(t, key, k1) == WithKey(s, key, k1);
      WithKeyMembers(s, key, k1);
      assert k0 == k1;
      assert s[0] == WithKey(s, key, k0)[0] == WithKey(t, key, k0)[0] == t[0];
      SameKeyOrderTail(s, t, key);
      StableSortUnique(s[1..], t[1..], key);
      assert s == [s[0]] + s[1..] && t == [t[0]] + t[1..];
    }
  }

  /** Sequences with the same order within every key are empty together. */
  lemma SameKeyOrderEmpty<T>(s: seq<T>, t: seq<T>, key: T -> int)
    requires SameKeyOrder(s, t, key)
    ensures s == [] <==> t == []
  {
    if s != [] {
      assert WithKey(s, key, key(s[0])) != [];
      assert WithKey(t, key, key(s[0])) == WithKey(s, key, key(s[0]));
    }
    if t != [] {
      assert WithKey(t, key, key(t[0])) != [];
      assert WithKey(s, key, key(t[0])) == WithKey(t, key, key(t[0]));
    }
  }

  /** Dropping a common first element keeps the order within every key. */
  lemma SameKeyOrderTail<T>(s: seq<T>, t: seq<T>, key: T -> int)
    requires s != [] && t != [] && s[0] == t[0] && SameKeyOrder(s, t, key)
    ensures SameKeyOrder(s[1..], t[1..], key)
  {
    forall k ensures WithKey(s[1..], key, k) == WithKey(t[1..], key, k) {
      assert WithKey(s, key, k) == WithKey(t, key, k);
      if k == key(s[0]) {
        assert WithKey(s[1..], key, k) == WithKey(s, key, k)[1..];
        assert WithKey(t[1..], key, k) == WithKey(t, key, k)[1..];
      } else {
        assert WithKey(s, key, k) == WithKey(s[1..], key, k);
        assert WithKey(t, key, k) == WithKey(t[1..], key, k);
      }
    }
  }

  /** Swapping two neighbours with different keys keeps every key's elements in order. */
  lemma SwapKeepsKeyOrder<T>(s: seq<T>, j: nat, key: T -> int)
    requires 0 < j < |s| && key(s[j - 1]) != key(s[j])
    ensures SameKeyOrder(s[j - 1 := s[j]][j := s[j - 1]], s, key)
  {
    var t := s[j - 1 := s[j]][j := s[j - 1]];
    var front, back := s[..j - 1], s[j + 1..];
    assert s == front + [s[j - 1], s[j]] + back;
    assert t == front + [s[j], s[j - 1]] + back;
    forall k ensures WithKey(t, key, k) == WithKey(s, key, k) {
      WithKeyAppend(front + [s[j - 1], s[j]], back, key, k);
      WithKeyAppend(front, [s[j - 1], s[j]], key, k);
      WithKeyAppend(front + [s[j], s[j - 1]], back, key, k);
      WithKeyAppend(front, [s[j], s[j - 1]], key, k);
      assert [s[j - 1], s[j]][1..] == [s[j]] && [s[j], s[j - 1]][1..] == [s[j - 1]];
    }
  }

  /** Sorts the array in place by ascending key (insertion sort), keeping equal keys in order. */
  method SortByKey<T>(a: array<T>, key: T -> int)
    modifies a
    ensures SortedBy(a[..], key)
    ensures multiset(a[..]) == multiset(old(a[..]))
    ensures SameKeyOrder(a[..], old(a[..]), key)
  {
    var i := 0;
    while i < a.Length
      invariant 0 <= i <= a.Length
      invariant forall p, q :: 0 <= p < q < i ==> key(a[p]) <= key(a[q])
      invariant multiset(a[..]) == multiset(old(a[..]))
      invariant SameKeyOrder(a[..], old(a[..]), key)
    {
      SinkInto(a, i, key);
      i := i + 1;
    }
  }

  /** a[..n + 1] is in key order except possibly around position j, the element being sunk. */
  predicate SinkState<T>(s: seq<T>, n: nat, j: nat, key: T -> int)
  {
    j <= n < |s| &&
    (forall p, q :: 0 <= p < q <= n && q != j ==> key(s[p]) <= key(s[q])) &&
    (0 < j < n ==> key(s[j - 1]) <= key(s[j + 1]))
  }

  /** Swapping the sunk element with a larger left neighbour keeps the sink state, one step further left. */
  lemma SinkStep<T>(pre: seq<T>, post: seq<T>, n: nat, j: nat, key: T -> int)
    requires SinkState(pre, n, j, key) && 0 < j && key(pre[j - 1]) > key(pre[j])
    requires post == pre[j - 1 := pre[j]][j := pre[j - 1]]
    ensures SinkState(post, n, j - 1, key)
    ensures multiset(post) == multiset(pre)
    ensures SameKeyOrder(post, pre, key)
  {
    SwapKeepsKeyOrder(pre, j, key);
  }

  /** Moves a[i] down into the sorted prefix a[..i], so that a[..i + 1] is sorted. */
  method SinkInto<T>(a: array<T>, i: nat, key: T -> int)
    requires i < a.Length
    requires forall p, q :: 0 <= p < q < i ==> key(a[p]) <= key(a[q])
    modifies a
    ensures forall p, q :: 0 <= p < q <= i ==> key(a[p]) <= key(a[q])
    ensures multiset(a[..]) == multiset(old(a[..]))
    ensures SameKeyOrder(a[..], old(a[..]), key)
    ensures a[i + 1..] == old(a[i + 1..])
  {
    var j: nat := i;
    while j > 0 && key(a[j - 1]) > key(a[j])
      invariant SinkState(a[..], i, j, key)
      invariant multiset(a[..]) == multiset(old(a[..]))
      invariant SameKeyOrder(a[..], old(a[..]), key)
      invariant a[i + 1..] == old(a[i + 1..])
    {
      ghost var pre := a[..];
      a[j - 1], a[j] := a[j], a[j - 1];
      SinkStep(pre, a[..], i, j, key);
      j := j - 1;
    }
    assert SinkState(a[..], i, j, key);
  }

  /**
   * A copy of s in ascending key order, holding the same elements as often,
   * with elements of equal key in their order in s.
   */
  method SortSeq<T>(s: seq<T>, key: T -> int) returns (r: seq<T>)
    ensures SortedBy(r, key)
    ensures multiset(r) == multiset(s)
    ensures SameKeyOrder(r, s, key)
  {
    var a := new T[|s|](i requires 0 <= i < |s| => s[i]);
    assert a[..] == s;
    SortByKey(a, key);
    r := a[..];
  }
}
