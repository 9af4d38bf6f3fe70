/** `Array.prototype.sort` with the comparator `(a, b) => key(a) - key(b)`:
    a stable sort by an integer key. The host engine's algorithm is not
    visible; it is modelled as an insertion sort and characterised by what
    a stable sort promises: sorted by key, a permutation, and elements with
    equal keys kept in their original order. */
module Sorting {

  predicate SortedBy<T>(xs: seq<T>, key: T -> int)
  {
    forall i, j :: 0 <= i < j < |xs| ==> key(xs[i]) <= key(xs[j])
  }

  /** Inserts x in front of the first element whose key is not smaller. */
  function Insert<T>(x: T, ys: seq<T>, key: T -> int): (r: seq<T>)
    ensures |r| == |ys| + 1
    ensures r[0] == x || (|ys| > 0 && r[0] == ys[0])
    ensures SortedBy(ys, key) ==> SortedBy(r, key)
    decreases |ys|
  {
    if ys == [] || key(x) <= key(ys[0]) then
      ConsSorted(x, ys, key);
      [x] + ys
    else
      var rest := Insert(x, ys[1..], key);
      assert ys == [ys[0]] + ys[1..];
      assert SortedBy(ys, key) ==> SortedBy(ys[1..], key);
      assert SortedBy(ys, key) && |ys| > 1 ==> key(ys[0]) <= key(ys[1]);
      ConsSorted(ys[0], rest, key);
      [ys[0]] + rest
  }

  /** Putting an element no larger than the head in front keeps a list sorted. */
  lemma ConsSorted<T>(y: T, xs: seq<T>, key: T -> int)
    ensures SortedBy(xs, key) && (xs == [] || key(y) <= key(xs[0])) ==> SortedBy([y] + xs, key)
  {
    if SortedBy(xs, key) && (xs == [] || key(y) <= key(xs[0])) {
      var r := [y] + xs;
      forall i, j | 0 <= i < j < |r|
        ensures key(r[i]) <= key(r[j])
      {
        if i == 0 && j > 1 {
          assert r[j] == xs[j - 1];
        }
      }
    }
  }

  function SortBy<T>(xs: seq<T>, key: T -> int): (r: seq<T>)
    ensures |r| == |xs|
    ensures SortedBy(r, key)
    decreases |xs|
  {
    if xs == [] then []
    else
      assert xs == [xs[0]] + xs[1..];
      Insert(xs[0], SortBy(xs[1..], key), key)
  }

  /** Inserting adds exactly one occurrence of x. */
  lemma {:induction false} InsertPermutes<T>(x: T, ys: seq<T>, key: T -> int)
    ensures multiset(Insert(x, ys, key)) == multiset(ys) + multiset{x}
    decreases |ys|
  {
    if !(ys == [] || key(x) <= key(ys[0])) {
      InsertPermutes(x, ys[1..], key);
      assert ys == [ys[0]] + ys[1..];
    }
  }

  /** Sorting is a permutation. */
  lemma {:induction false} SortByPermutes<T>(xs: seq<T>, key: T -> int)
    ensures multiset(SortBy(xs, key)) == multiset(xs)
    decreases |xs|
  {
    if xs != [] {
      SortByPermutes(xs[1..], key);
      InsertPermutes(xs[0], SortBy(xs[1..], key), key);
      assert xs == [xs[0]] + xs[1..];
    }
  }

  /** The elements of xs whose key is k, in their order in xs. */
  function WithKey<T>(xs: seq<T>, key: T -> int, k: int): seq<T>
  {
    if xs == [] then []
    else (if key(xs[0]) == k then [xs[0]] else []) + WithKey(xs[1..], key, k)
  }

  /** Inserting into a sorted list puts x after every element with its key. */
  lemma {:induction false} InsertWithKey<T>(x: T, ys: seq<T>, key: T -> int, k: int)
    requires SortedBy(ys, key)
    ensures WithKey(Insert(x, ys, key), key, k)
         == (if key(x) == k then [x] else []) + WithKey(ys, key, k)
    decreases |ys|
  {
    if ys == [] || key(x) <= key(ys[0]) {
      assert ([x] + ys)[1..] == ys;
    } else {
      var y := ys[0];
      var rest := Insert(x, ys[1..], key);
      assert ([y] + rest)[0] == y && ([y] + rest)[1..] == rest;
      SortedTail(ys, key);
      InsertWithKey(x, ys[1..], key, k);
      var hd := if key(y) == k then [y] else [];
      var xk := if key(x) == k then [x] else [];
      var w := WithKey(ys[1..], key, k);
      assert WithKey(ys, key, k) == hd + w;
      assert WithKey([y] + rest, key, k) == hd + (xk + w);
      if hd == [] {
        assert hd + (xk + w) == xk + w && hd + w == w;
      } else {
        assert xk == [];
        assert xk + w == w && xk + (hd + w) == hd + w;
      }
    }
  }

  lemma SortedTail<T>(ys: seq<T>, key: T -> int)
    requires SortedBy(ys, key) && |ys| > 0
    ensures SortedBy(ys[1..], key)
  {
    forall i, j | 0 <= i < j < |ys| - 1
      ensures key(ys[1..][i]) <= key(ys[1..][j])
    {
      assert ys[1..][i] == ys[i + 1] && ys[1..][j] == ys[j + 1];
    }
  }

  /** Stability: sorting keeps the relative order of elements with equal keys. */
  lemma {:induction false} SortByStable<T>(xs: seq<T>, key: T -> int, k: int)
    ensures WithKey(SortBy(xs, key), key, k) == WithKey(xs, key, k)
    decreases |xs|
  {
    if xs != [] {
      SortByStable(xs[1..], key, k);
      InsertWithKey(xs[0], SortBy(xs[1..], key), key, k);
    }
  }

  /** Sorting a list that is already in key order changes nothing. */
  lemma {:induction false} SortBySorted<T>(xs: seq<T>, key: T -> int)
    requires SortedBy(xs, key)
    ensures SortBy(xs, key) == xs
    decreases |xs|
  {
    if xs != [] {
      assert SortedBy(xs[1..], key);
      SortBySorted(xs[1..], key);
      assert xs == [xs[0]] + xs[1..];
    }
  }
}
