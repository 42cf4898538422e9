/** Sums of multisets over sequences, independent of the order of the sequence. */
module Bags {
  import opened Prelude

  ghost function Total<K, T>(xs: seq<K>, f: K -> multiset<T>): multiset<T> {
    if xs == [] then multiset{} else Total(xs[..|xs| - 1], f) + f(xs[|xs| - 1])
  }

  lemma {:induction false} TotalAppend<K, T>(xs: seq<K>, ys: seq<K>, f: K -> multiset<T>)
    ensures Total(xs + ys, f) == Total(xs, f) + Total(ys, f)
  {
    if ys == [] {
      assert xs + ys == xs;
    } else {
      assert (xs + ys)[..|xs + ys| - 1] == xs + ys[..|ys| - 1];
      TotalAppend(xs, ys[..|ys| - 1], f);
    }
  }

  lemma {:induction false} TotalSnoc<K, T>(xs: seq<K>, x: K, f: K -> multiset<T>)
    ensures Total(xs + [x], f) == Total(xs, f) + f(x)
  {
    assert (xs + [x])[..|xs + [x]| - 1] == xs;
  }

  lemma {:induction false} TotalInsert<K, T>(a: seq<K>, x: K, b: seq<K>, f: K -> multiset<T>)
    ensures Total(a + [x] + b, f) == Total(a + b, f) + f(x)
  {
    TotalAppend(a + [x], b, f);
    TotalSnoc(a, x, f);
    TotalAppend(a, b, f);
  }

  lemma {:induction false} CancelOne<T>(a: multiset<T>, b: multiset<T>, x: T)
    requires a + multiset{x} == b + multiset{x}
    ensures a == b
  {
    assert a == (a + multiset{x}) - multiset{x};
    assert b == (b + multiset{x}) - multiset{x};
  }

  /** A sum does not depend on the order of its terms. */
  lemma {:induction false} TotalPermutation<K, T>(xs: seq<K>, ys: seq<K>, f: K -> multiset<T>)
    requires multiset(xs) == multiset(ys)
    ensures Total(xs, f) == Total(ys, f)
    decreases |xs|
  {
    hide Total;
    if xs == [] {
      assert |multiset(ys)| == 0;
      assert ys == xs;
    } else {
      var x, init := xs[|xs| - 1], xs[..|xs| - 1];
      assert xs == init + [x];
      assert x in multiset(ys);
      var k :| 0 <= k < |ys| && ys[k] == x;
      var a, b := ys[..k], ys[k + 1..];
      assert ys == a + [x] + b;
      assert multiset(a + [x] + b) == multiset(a + b) + multiset{x};
      CancelOne(multiset(init), multiset(a + b), x);
      TotalPermutation(init, a + b, f);
      TotalInsert(a, x, b, f);
      TotalSnoc(init, x, f);
    }
  }

  lemma {:induction false} TotalAligned<K, L, T>(xs: seq<K>, f: K -> multiset<T>, ys: seq<L>, g: L -> multiset<T>)
    requires |xs| == |ys| && forall i :: 0 <= i < |xs| ==> f(xs[i]) == g(ys[i])
    ensures Total(xs, f) == Total(ys, g)
  {
    if xs != [] {
      TotalAligned(xs[..|xs| - 1], f, ys[..|ys| - 1], g);
    }
  }

  ghost function OptionBag<T>(o: Option<T>): multiset<T> {
    if o.Some? then multiset{o.value} else multiset{}
  }

  function Range(n: nat): (r: seq<int>)
    ensures |r| == n && forall i :: 0 <= i < n ==> r[i] == i
  {
    seq(n, i => i)
  }

  /** A sum over positions is the sum over the items at them. */
  lemma {:induction false} RangeTotal<K, T>(items: seq<K>, h: K -> multiset<T>, g: int -> multiset<T>)
    requires forall p :: 0 <= p < |items| ==> g(p) == h(items[p])
    ensures Total(Range(|items|), g) == Total(items, h)
  {
    TotalAligned(Range(|items|), g, items, h);
  }

  lemma {:induction false} TotalEmpty<K, T>(xs: seq<K>, f: K -> multiset<T>)
    requires forall x :: x in xs ==> f(x) == multiset{}
    ensures Total(xs, f) == multiset{}
  {
    if xs != [] {
      TotalEmpty(xs[..|xs| - 1], f);
    }
  }

  lemma {:induction false} DistinctCount<T>(xs: seq<T>, x: T)
    requires forall i, j :: 0 <= i < j < |xs| ==> xs[i] != xs[j]
    ensures multiset(xs)[x] == if x in xs then 1 else 0
  {
    if xs != [] {
      var init := xs[..|xs| - 1];
      DistinctCount(init, x);
      assert xs == init + [xs[|xs| - 1]];
    }
  }

  lemma {:induction false} AllBelow(xs: seq<int>, n: nat, x: int)
    requires |xs| == n && forall i :: 0 <= i < n ==> 0 <= xs[i] < n
    requires forall i, j :: 0 <= i < j < |xs| ==> xs[i] != xs[j]
    ensures x in xs <==> x in Range(n)
  {
    var all, some := set y | y in Range(n), set y | y in xs;
    DistinctSize(Range(n));
    DistinctSize(xs);
    forall y | y in some
      ensures y in all
    {
      assert Range(n)[y] == y;
    }
    assert all == some + (all - some);
    assert |all - some| == 0;
    assert some == all;
    assert x in some <==> x in xs;
    assert x in all <==> x in Range(n);
  }

  /** Distinct numbers below `n`, as many as `n`, are a permutation of all of them. */
  lemma {:induction false} Pigeonhole(xs: seq<int>, n: nat)
    requires |xs| == n && forall i :: 0 <= i < n ==> 0 <= xs[i] < n
    requires forall i, j :: 0 <= i < j < |xs| ==> xs[i] != xs[j]
    ensures multiset(xs) == multiset(Range(n))
  {
    forall x
      ensures multiset(xs)[x] == multiset(Range(n))[x]
    {
      DistinctCount(xs, x);
      DistinctCount(Range(n), x);
      AllBelow(xs, n, x);
    }
  }

  lemma {:induction false} DistinctSize<T>(xs: seq<T>)
    requires forall i, j :: 0 <= i < j < |xs| ==> xs[i] != xs[j]
    ensures |set x | x in xs| == |xs|
  {
    if xs != [] {
      var init, last := xs[..|xs| - 1], xs[|xs| - 1];
      DistinctSize(init);
      assert (set x | x in xs) == (set x | x in init) + {last};
    }
  }
}
