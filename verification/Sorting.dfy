/**
  The order of Python's `sorted` on strings (code points) and byte strings, and what a stable sort
  by key does: it returns the one permutation that lists equal keys in their original order.
 */
module Sorting {

  /** Lexicographic order on sequences of code points or of bytes. */
  predicate Less(a: seq<int>, b: seq<int>) {
    b != [] && (a == [] || a[0] < b[0] || (a[0] == b[0] && Less(a[1..], b[1..])))
  }

  lemma {:induction false} LessAsymmetric(a: seq<int>, b: seq<int>)
    ensures !(Less(a, b) && Less(b, a))
  {
    if a != [] && b != [] { LessAsymmetric(a[1..], b[1..]); }
  }

  lemma {:induction false} LessTransitive(a: seq<int>, b: seq<int>, c: seq<int>)
    requires Less(a, b) && Less(b, c)
    ensures Less(a, c)
  {
    if a != [] && a[0] == b[0] && b[0] == c[0] { LessTransitive(a[1..], b[1..], c[1..]); }
  }

  lemma {:induction false} LessTotal(a: seq<int>, b: seq<int>)
    ensures Less(a, b) || Less(b, a) || a == b
  {
    if a != [] && b != [] && a[0] == b[0] {
      LessTotal(a[1..], b[1..]);
      assert a == [a[0]] + a[1..] && b == [b[0]] + b[1..];
    }
  }

  /** Sequences of equal length are ordered as before when each is followed by a number. */
  lemma {:induction false} LessWithTie(a: seq<int>, b: seq<int>, m: int, n: int)
    requires |a| == |b|
    ensures Less(a + [m], b + [n]) <==> Less(a, b) || (a == b && m < n)
  {
    if a == [] {
      assert (a + [m])[1..] == [] && (b + [n])[1..] == [];
    } else {
      assert (a + [m])[1..] == a[1..] + [m] && (b + [n])[1..] == b[1..] + [n];
      LessWithTie(a[1..], b[1..], m, n);
      assert a == [a[0]] + a[1..] && b == [b[0]] + b[1..];
    }
  }

  // ------------------------------------------------- ordered sequences are unique

  ghost predicate Asymmetric<T(!new)>(less: (T, T) -> bool) {
    forall x, y :: less(x, y) ==> !less(y, x)
  }

  ghost predicate Increasing<T>(less: (T, T) -> bool, s: seq<T>) {
    forall i, j :: 0 <= i < j < |s| ==> less(s[i], s[j])
  }

  /** Two strictly increasing sequences with the same members are the same sequence. */
  lemma {:induction false} IncreasingUnique<T(!new)>(less: (T, T) -> bool, a: seq<T>, b: seq<T>)
    requires Asymmetric(less) && Increasing(less, a) && Increasing(less, b)
    requires forall x :: x in a <==> x in b
    ensures a == b
  {
    if a == [] {
      assert forall k :: 0 <= k < |b| ==> b[k] in b;
    } else {
      SameHead(less, a, b);
      forall x
        ensures x in a[1..] <==> x in b[1..]
      {
        InTail(less, a, x);
        InTail(less, b, x);
      }
      IncreasingUnique(less, a[1..], b[1..]);
      assert a == [a[0]] + a[1..] && b == [b[0]] + b[1..];
    }
  }

  lemma SameHead<T(!new)>(less: (T, T) -> bool, a: seq<T>, b: seq<T>)
    requires Asymmetric(less) && Increasing(less, a) && Increasing(less, b)
    requires a != [] && forall x :: x in a <==> x in b
    ensures b != [] && a[0] == b[0]
  {
    assert a[0] in a;
    var k :| 0 <= k < |b| && b[k] == a[0];
    assert b[0] in b;
    var m :| 0 <= m < |a| && a[m] == b[0];
    assert m > 0 ==> less(a[0], b[0]);
    assert k > 0 ==> less(b[0], a[0]);
  }

  lemma InTail<T(!new)>(less: (T, T) -> bool, a: seq<T>, x: T)
    requires Asymmetric(less) && Increasing(less, a) && a != []
    ensures x in a[1..] <==> x in a && x != a[0]
  {
    if x in a[1..] {
      var i :| 0 <= i < |a[1..]| && a[1..][i] == x;
      assert less(a[0], a[i + 1]);
    }
  }

  // ----------------------------------------------------------- stable sort by key

  /** The order a stable sort gives two positions of a list with these keys. */
  predicate Precedes(keys: seq<seq<int>>, i: int, j: int) {
    0 <= i < |keys| && 0 <= j < |keys| && (Less(keys[i], keys[j]) || (keys[i] == keys[j] && i < j))
  }

  ghost predicate IsStableOrder(keys: seq<seq<int>>, p: seq<nat>) {
    && |p| == |keys|
    && (forall k :: 0 <= k < |p| ==> p[k] < |keys|)
    && (forall i :: 0 <= i < |keys| ==> i in p)
    && Increasing((i: nat, j: nat) => Precedes(keys, i, j), p)
  }

  lemma PrecedesAsymmetric(keys: seq<seq<int>>)
    ensures Asymmetric((i: nat, j: nat) => Precedes(keys, i, j))
  {
    forall i: nat, j: nat | Precedes(keys, i, j)
      ensures !Precedes(keys, j, i)
    {
      LessAsymmetric(keys[i], keys[j]);
    }
  }

  /** Whatever algorithm sorts stably, it produces this permutation. */
  lemma StableOrderUnique(keys: seq<seq<int>>, p: seq<nat>, q: seq<nat>)
    requires IsStableOrder(keys, p) && IsStableOrder(keys, q)
    ensures p == q
  {
    PrecedesAsymmetric(keys);
    forall x: nat
      ensures x in p <==> x in q
    {
      assert x in p ==> x < |keys|;
      assert x in q ==> x < |keys|;
    }
    IncreasingUnique((i: nat, j: nat) => Precedes(keys, i, j), p, q);
  }

  /** The positions of a list in the order a stable sort by these keys puts them. */
  function StableOrder(keys: seq<seq<int>>): (p: seq<nat>)
    ensures IsStableOrder(keys, p)
  {
    if keys == [] then []
    else
      var n := |keys| - 1;
      var q := StableOrder(keys[..n]);
      assert forall i, j :: 0 <= i < n && 0 <= j < n ==> (Precedes(keys[..n], i, j) <==> Precedes(keys, i, j));
      Insert(keys, q, n)
  }

  function Insert(keys: seq<seq<int>>, p: seq<nat>, i: nat): (q: seq<nat>)
    requires i < |keys| && forall k :: 0 <= k < |p| ==> p[k] < i
    requires Increasing((x: nat, y: nat) => Precedes(keys, x, y), p)
    ensures |q| == |p| + 1 && forall k :: 0 <= k < |q| ==> q[k] <= i
    ensures forall x :: x in q <==> x in p || x == i
    ensures Increasing((x: nat, y: nat) => Precedes(keys, x, y), q)
  {
    if p == [] then [i]
    else if Less(keys[i], keys[p[0]]) then
      InsertFirst(keys, p, i);
      [i] + p
    else
      InsertLater(keys, p, i);
      [p[0]] + Insert(keys, p[1..], i)
  }

  lemma InsertLater(keys: seq<seq<int>>, p: seq<nat>, i: nat)
    requires i < |keys| && p != [] && forall k :: 0 <= k < |p| ==> p[k] < i
    requires Increasing((x: nat, y: nat) => Precedes(keys, x, y), p)
    requires !Less(keys[i], keys[p[0]])
    ensures Precedes(keys, p[0], i)
    ensures forall x :: x in p[1..] ==> Precedes(keys, p[0], x)
  {
    LessTotal(keys[i], keys[p[0]]);
  }

  lemma InsertFirst(keys: seq<seq<int>>, p: seq<nat>, i: nat)
    requires i < |keys| && p != [] && forall k :: 0 <= k < |p| ==> p[k] < i
    requires Increasing((x: nat, y: nat) => Precedes(keys, x, y), p)
    requires Less(keys[i], keys[p[0]])
    ensures forall k :: 0 <= k < |p| ==> Precedes(keys, i, p[k])
  {
    forall k | 0 <= k < |p|
      ensures Precedes(keys, i, p[k])
    {
      if k > 0 {
        assert Precedes(keys, p[0], p[k]);
        if Less(keys[p[0]], keys[p[k]]) { LessTransitive(keys[i], keys[p[0]], keys[p[k]]); }
      }
    }
  }

  /** A list rearranged by a permutation of its positions. */
  function Permute<T>(xs: seq<T>, p: seq<nat>): (ys: seq<T>)
    requires forall k :: 0 <= k < |p| ==> p[k] < |xs|
    ensures |ys| == |p| && forall k :: 0 <= k < |p| ==> ys[k] == xs[p[k]]
  {
    seq(|p|, k requires 0 <= k < |p| => xs[p[k]])
  }

  lemma PermuteMembers<T(!new)>(xs: seq<T>, p: seq<nat>)
    requires forall k :: 0 <= k < |p| ==> p[k] < |xs|
    requires forall i :: 0 <= i < |xs| ==> i in p
    ensures forall x :: x in Permute(xs, p) <==> x in xs
  {
    forall i | 0 <= i < |xs|
      ensures xs[i] in Permute(xs, p)
    {
      assert i in p;
      var k :| 0 <= k < |p| && p[k] == i;
      assert Permute(xs, p)[k] == xs[i];
    }
  }

  function Keys<T>(xs: seq<T>, key: T -> seq<int>): (keys: seq<seq<int>>)
    ensures |keys| == |xs| && forall i :: 0 <= i < |xs| ==> keys[i] == key(xs[i])
  {
    seq(|xs|, i requires 0 <= i < |xs| => key(xs[i]))
  }

  /** `sorted(xs, key=key)`. */
  function SortBy<T(!new)>(xs: seq<T>, key: T -> seq<int>): (ys: seq<T>)
    ensures |ys| == |xs|
    ensures forall x :: x in ys <==> x in xs
  {
    var p := StableOrder(Keys(xs, key));
    PermuteMembers(xs, p);
    Permute(xs, p)
  }

  /** Distinct keys leave nothing to stability: any arrangement of the list sorts to the same list. */
  lemma SortByForgetsOrder<T(!new)>(xs: seq<T>, ys: seq<T>, key: T -> seq<int>)
    requires forall i, j :: 0 <= i < j < |xs| ==> key(xs[i]) != key(xs[j])
    requires forall i, j :: 0 <= i < j < |ys| ==> key(ys[i]) != key(ys[j])
    requires forall x :: x in xs <==> x in ys
    ensures SortBy(xs, key) == SortBy(ys, key)
  {
    var less := (x: T, y: T) => Less(key(x), key(y));
    forall x, y | less(x, y)
      ensures !less(y, x)
    {
      LessAsymmetric(key(x), key(y));
    }
    SortByIncreasing(xs, key);
    SortByIncreasing(ys, key);
    IncreasingUnique(less, SortBy(xs, key), SortBy(ys, key));
  }

  lemma SortByIncreasing<T(!new)>(xs: seq<T>, key: T -> seq<int>)
    requires forall i, j :: 0 <= i < j < |xs| ==> key(xs[i]) != key(xs[j])
    ensures Increasing((x: T, y: T) => Less(key(x), key(y)), SortBy(xs, key))
  {
    var keys := Keys(xs, key);
    var p := StableOrder(keys);
    forall i, j | 0 <= i < j < |xs|
      ensures Less(key(SortBy(xs, key)[i]), key(SortBy(xs, key)[j]))
    {
      assert Precedes(keys, p[i], p[j]);
      assert keys[p[i]] == key(xs[p[i]]) && keys[p[j]] == key(xs[p[j]]);
    }
  }
}
