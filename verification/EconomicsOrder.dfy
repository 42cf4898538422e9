/**
 chain/econ.py, the order of the token set: exactly when the net result depends on the order in which
 the set of token keys is visited.
 */
module EconomicsOrder {
  import opened Prelude
  import opened Bags
  import opened Economics

  // ---------------------------------------------------------------- the condition

  predicate IsKey(i: Inputs, k: string) {
    k in i.before || k in i.after
  }

  function Change(i: Inputs, k: string): int {
    At(i.after, k) - At(i.before, k)
  }

  /** The input is refused whatever the order: bad measurements, or a token with clashing decimals. */
  ghost predicate Refused(i: Inputs) {
    !Measurable(i) || exists k :: IsKey(i, k) && DecimalsClash(i, Lower(k))
  }

  /** The two changes add the same value: the asset has no price, or they are worth the same. */
  predicate SameWorth(i: Inputs, asset: string, m: int, n: int) {
    var p := PriceFor(i.prices, asset);
    p.None? || SignedUsd(m, p.value) == SignedUsd(n, p.value)
  }

  /** Keys that share a lower-case name carry changes of the same worth. */
  ghost predicate CollisionsHarmless(i: Inputs) {
    forall k, l :: IsKey(i, k) && IsKey(i, l) && Lower(k) == Lower(l) ==> SameWorth(i, Lower(k), Change(i, k), Change(i, l))
  }

  ghost predicate OrdersAgree(i: Inputs) {
    forall a, b :: IsOrder(i, a) && IsOrder(i, b) ==> BaseNet(i, a) == BaseNet(i, b)
  }

  // ---------------------------------------------------------------- sums of deltas in any order

  lemma {:induction false} AddTokenCommutes(i: Inputs, so: Result<Option<real>>, x: Delta, y: Delta)
    ensures AddToken(i, AddToken(i, so, x), y) == AddToken(i, AddToken(i, so, y), x)
  {
    hide SignedUsd, PriceFor, DecimalsClash;
  }

  lemma {:induction false} GrossSnoc(i: Inputs, start: Option<real>, ds: seq<Delta>, d: Delta)
    ensures Gross(i, start, ds + [d]) == AddToken(i, Gross(i, start, ds), d)
  {
    hide AddToken;
    assert (ds + [d])[..|ds|] == ds;
  }

  /** Any one delta may be added last. */
  lemma {:induction false} GrossMove(i: Inputs, start: Option<real>, a: seq<Delta>, x: Delta, b: seq<Delta>)
    ensures Gross(i, start, a + [x] + b) == AddToken(i, Gross(i, start, a + b), x)
  {
    hide AddToken, Gross;
    if b == [] {
      assert a + [x] + b == a + [x] && a + b == a;
      GrossSnoc(i, start, a, x);
    } else {
      var init, y := b[..|b| - 1], b[|b| - 1];
      assert a + [x] + b == (a + [x] + init) + [y];
      assert a + b == (a + init) + [y];
      GrossSnoc(i, start, a + [x] + init, y);
      GrossMove(i, start, a, x, init);
      GrossSnoc(i, start, a + init, y);
      AddTokenCommutes(i, Gross(i, start, a + init), x, y);
    }
  }

  lemma {:induction false} GrossIgnoresOrder(i: Inputs, start: Option<real>, xs: seq<Delta>, ys: seq<Delta>)
    requires multiset(xs) == multiset(ys)
    ensures Gross(i, start, xs) == Gross(i, start, ys)
    decreases |xs|
  {
    hide Gross, AddToken;
    if xs == [] {
      assert |multiset(ys)| == 0;
      assert ys == xs;
    } else {
      var x, init := xs[|xs| - 1], xs[..|xs| - 1];
      assert xs == init + [x];
      assert x in multiset(ys);
      var k :| 0 <= k < |ys| && ys[k] == x;
      var a, b := ys[..k], ys[k + 1..];
      assert ys == a + [x] + b;
      assert multiset(a + [x] + b) == multiset(a + b) + multiset{x};
      CancelOne(multiset(init), multiset(a + b), x);
      GrossIgnoresOrder(i, start, init, a + b);
      GrossMove(i, start, a, x, b);
      GrossSnoc(i, start, init, x);
    }
  }

  lemma {:induction false} GrossRefuses(i: Inputs, start: Option<real>, ds: seq<Delta>)
    ensures Gross(i, start, ds).Reject? <==> exists j :: 0 <= j < |ds| && DecimalsClash(i, ds[j].0)
  {
    hide DecimalsClash, SignedUsd, PriceFor;
    if ds != [] {
      GrossRefuses(i, start, ds[..|ds| - 1]);
    }
  }

  // ---------------------------------------------------------------- the dictionary of deltas

  ghost predicate DistinctNames(ds: seq<Delta>) {
    forall j, k :: 0 <= j < k < |ds| ==> ds[j].0 != ds[k].0
  }

  /** Assignment replaces the entry of its name in place, or adds one at the end. */
  lemma {:induction false} PutSplit(ds: seq<Delta>, key: string) returns (a: seq<Delta>, b: seq<Delta>)
    requires DistinctNames(ds)
    ensures forall v :: Put(ds, key, v) == a + [(key, v)] + b
    ensures forall d :: d in a + b <==> d in ds && d.0 != key
    ensures forall v :: DistinctNames(a + [(key, v)] + b)
  {
    if ds == [] {
      a, b := [], [];
    } else if ds[0].0 == key {
      a, b := [], ds[1..];
      forall d
        ensures d in a + b <==> d in ds && d.0 != key
      {
        assert ds == [ds[0]] + b;
      }
    } else {
      var c;
      c, b := PutSplit(ds[1..], key);
      a := [ds[0]] + c;
      SplitCons(ds, key, c, b);
    }
  }

  lemma {:induction false} SplitCons(ds: seq<Delta>, key: string, c: seq<Delta>, b: seq<Delta>)
    requires DistinctNames(ds) && ds != [] && ds[0].0 != key
    requires forall v :: Put(ds[1..], key, v) == c + [(key, v)] + b
    requires forall d :: d in c + b <==> d in ds[1..] && d.0 != key
    requires forall v :: DistinctNames(c + [(key, v)] + b)
    ensures forall v :: Put(ds, key, v) == [ds[0]] + c + [(key, v)] + b
    ensures forall d :: d in [ds[0]] + c + b <==> d in ds && d.0 != key
    ensures forall v :: DistinctNames([ds[0]] + c + [(key, v)] + b)
  {
    forall v
      ensures Put(ds, key, v) == [ds[0]] + c + [(key, v)] + b
    {
      assert [ds[0]] + c + [(key, v)] + b == [ds[0]] + (c + [(key, v)] + b);
    }
    assert ds == [ds[0]] + ds[1..];
    assert [ds[0]] + c + b == [ds[0]] + (c + b);
    forall v
      ensures DistinctNames([ds[0]] + c + [(key, v)] + b)
    {
      var rest := c + [(key, v)] + b;
      assert [ds[0]] + c + [(key, v)] + b == [ds[0]] + rest;
      forall j | 0 <= j < |rest|
        ensures rest[j].0 != ds[0].0
      {
        if rest[j] != (key, v) {
          assert rest[j] in c + b;
        }
      }
    }
  }

  /** The delta is the change of one of the keys. */
  ghost predicate OfKey(i: Inputs, order: seq<string>, d: Delta) {
    exists k :: k in order && d == (Lower(k), Change(i, k))
  }

  ghost predicate Named(ds: seq<Delta>, name: string) {
    exists d :: d in ds && d.0 == name
  }

  /** One entry per lower-case name, each with the change of one of the keys of that name. */
  ghost predicate Collects(i: Inputs, order: seq<string>, ds: seq<Delta>) {
    && DistinctNames(ds)
    && (forall d :: d in ds ==> OfKey(i, order, d))
    && (forall k :: k in order ==> Named(ds, Lower(k)))
  }

  lemma {:induction false} NothingCollected(i: Inputs)
    ensures Collects(i, [], [])
  {
  }

  lemma {:induction false} CollectsDistinct(i: Inputs, order: seq<string>, ds: seq<Delta>)
    requires Collects(i, order, ds)
    ensures DistinctNames(ds)
  {
  }

  lemma {:induction false} DeltasSnoc(i: Inputs, order: seq<string>, k: string)
    ensures Deltas(i, order + [k]) == Put(Deltas(i, order), Lower(k), Change(i, k))
  {
    hide Put, Lower;
    assert (order + [k])[..|order|] == order;
  }

  lemma {:induction false} DeltasCollect(i: Inputs, order: seq<string>)
    ensures Collects(i, order, Deltas(i, order))
  {
    hide Put, Lower, OfKey, Named, DistinctNames, Change;
    if order == [] {
      NothingCollected(i);
    } else {
      hide Collects;
      var init, last := order[..|order| - 1], order[|order| - 1];
      DeltasCollect(i, init);
      var ds := Deltas(i, init);
      CollectsDistinct(i, init, ds);
      var a, b := PutSplit(ds, Lower(last));
      DeltasSnoc(i, init, last);
      CollectsOneMore(i, init, last, ds, a, b);
      assert order == init + [last];
    }
  }

  lemma {:induction false} CollectsOneMore(
    i: Inputs, init: seq<string>, last: string, ds: seq<Delta>, a: seq<Delta>, b: seq<Delta>)
    requires Collects(i, init, ds)
    requires forall d :: d in a + b <==> d in ds && d.0 != Lower(last)
    requires DistinctNames(a + [(Lower(last), Change(i, last))] + b)
    ensures Collects(i, init + [last], a + [(Lower(last), Change(i, last))] + b)
  {
    hide Lower, DistinctNames;
    var order, put := init + [last], a + [(Lower(last), Change(i, last))] + b;
    assert (Lower(last), Change(i, last)) in put;
    forall d | d in put
      ensures OfKey(i, order, d)
    {
      if d == (Lower(last), Change(i, last)) {
        assert last in order;
      } else {
        assert d in a + b;
        assert OfKey(i, init, d);
        var k :| k in init && d == (Lower(k), Change(i, k));
        assert k in order;
      }
    }
    forall k | k in order
      ensures Named(put, Lower(k))
    {
      if Lower(k) == Lower(last) {
        assert (Lower(last), Change(i, last)) in put;
      } else {
        assert Named(ds, Lower(k));
        var d :| d in ds && d.0 == Lower(k);
        assert d in a + b;
        assert d in put;
      }
    }
  }

  // ---------------------------------------------------------------- refusal does not depend on the order

  lemma {:induction false} RefusedInEveryOrder(i: Inputs, order: seq<string>)
    requires IsOrder(i, order)
    ensures BaseNet(i, order).Reject? <==> Refused(i)
  {
    hide Gross, DecimalsClash, Deltas, Lower;
    var ds := Deltas(i, order);
    DeltasCollect(i, order);
    GrossRefuses(i, NativeUsd(i), ds);
    if exists j :: 0 <= j < |ds| && DecimalsClash(i, ds[j].0) {
      var j :| 0 <= j < |ds| && DecimalsClash(i, ds[j].0);
      assert ds[j] in ds;
      assert OfKey(i, order, ds[j]);
      var k :| k in order && ds[j] == (Lower(k), Change(i, k));
      assert IsKey(i, k);
    }
    if exists k :: IsKey(i, k) && DecimalsClash(i, Lower(k)) {
      var k :| IsKey(i, k) && DecimalsClash(i, Lower(k));
      assert k in order;
      assert Named(ds, Lower(k));
      var d :| d in ds && d.0 == Lower(k);
      var j :| 0 <= j < |ds| && ds[j] == d;
    }
  }

  // ---------------------------------------------------------------- harmless collisions: any order will do

  /** Some key of the lower-case name. */
  ghost function Chosen(i: Inputs, name: string): (k: string)
    ensures (exists l :: IsKey(i, l) && Lower(l) == name) ==> IsKey(i, k) && Lower(k) == name
  {
    if exists l :: IsKey(i, l) && Lower(l) == name then
      var k :| IsKey(i, k) && Lower(k) == name;
      k
    else name
  }

  /** The delta of the chosen key of the same name. */
  ghost function Settled(i: Inputs, d: Delta): Delta {
    (d.0, Change(i, Chosen(i, d.0)))
  }

  ghost function SettledAll(i: Inputs, ds: seq<Delta>): (r: seq<Delta>)
    ensures |r| == |ds| && forall j :: 0 <= j < |ds| ==> r[j] == Settled(i, ds[j])
  {
    seq(|ds|, j requires 0 <= j < |ds| => Settled(i, ds[j]))
  }

  lemma {:induction false} SameWorthAdds(i: Inputs, so: Result<Option<real>>, asset: string, m: int, n: int)
    requires SameWorth(i, asset, m, n)
    ensures AddToken(i, so, (asset, m)) == AddToken(i, so, (asset, n))
  {
    hide SignedUsd, PriceFor, DecimalsClash;
  }

  lemma {:induction false} GrossSettled(i: Inputs, start: Option<real>, ds: seq<Delta>)
    requires forall d :: d in ds ==> SameWorth(i, d.0, d.1, Settled(i, d).1)
    ensures Gross(i, start, ds) == Gross(i, start, SettledAll(i, ds))
  {
    hide AddToken, SameWorth, Settled;
    if ds != [] {
      var init, last := ds[..|ds| - 1], ds[|ds| - 1];
      GrossSettled(i, start, init);
      assert SettledAll(i, ds)[..|ds| - 1] == SettledAll(i, init);
      assert last in ds;
      SettledName(i, last);
      SameWorthAdds(i, Gross(i, start, init), last.0, last.1, Settled(i, last).1);
    }
  }

  lemma {:induction false} SettledName(i: Inputs, d: Delta)
    ensures Settled(i, d) == (d.0, Settled(i, d).1)
  {
  }

  lemma {:induction false} CollectedAreHarmless(i: Inputs, order: seq<string>)
    requires IsOrder(i, order) && CollisionsHarmless(i)
    ensures forall d :: d in Deltas(i, order) ==> SameWorth(i, d.0, d.1, Settled(i, d).1)
  {
    hide Deltas, SameWorth, Lower, Change, DistinctNames, Named, Chosen;
    DeltasCollect(i, order);
    forall d | d in Deltas(i, order)
      ensures SameWorth(i, d.0, d.1, Settled(i, d).1)
    {
      assert OfKey(i, order, d);
      var k :| k in order && d == (Lower(k), Change(i, k));
      assert IsKey(i, k) && Lower(k) == d.0;
      var c := Chosen(i, d.0);
      assert IsKey(i, c) && Lower(c) == Lower(k);
    }
  }

  /** Each settled delta occurs once if its name is the name of some key. */
  lemma {:induction false} SettledCount(i: Inputs, order: seq<string>, x: Delta)
    requires IsOrder(i, order)
    ensures multiset(SettledAll(i, Deltas(i, order)))[x] ==
            if (exists k :: IsKey(i, k) && Lower(k) == x.0) && x == Settled(i, x) then 1 else 0
  {
    hide Deltas, Lower, Settled, Change;
    var ds := Deltas(i, order);
    var xs := SettledAll(i, ds);
    DeltasCollect(i, order);
    forall j, k | 0 <= j < k < |xs|
      ensures xs[j] != xs[k]
    {
      SettledName(i, ds[j]);
      SettledName(i, ds[k]);
    }
    DistinctCount(xs, x);
    if x in xs {
      var j :| 0 <= j < |xs| && xs[j] == x;
      SettledName(i, ds[j]);
      SettledAgain(i, ds[j]);
      assert ds[j] in ds;
      assert OfKey(i, order, ds[j]);
      var k :| k in order && ds[j] == (Lower(k), Change(i, k));
      assert IsKey(i, k) && Lower(k) == x.0;
    }
    if (exists k :: IsKey(i, k) && Lower(k) == x.0) && x == Settled(i, x) {
      var k :| IsKey(i, k) && Lower(k) == x.0;
      assert k in order;
      assert Named(ds, Lower(k));
      var d :| d in ds && d.0 == Lower(k);
      var j :| 0 <= j < |ds| && ds[j] == d;
      SettledByName(i, d, x);
      assert xs[j] == x;
    }
  }

  lemma {:induction false} SettledByName(i: Inputs, d: Delta, e: Delta)
    requires d.0 == e.0
    ensures Settled(i, d) == Settled(i, e)
  {
  }

  lemma {:induction false} SettledAgain(i: Inputs, d: Delta)
    ensures Settled(i, Settled(i, d)) == Settled(i, d)
  {
  }

  lemma {:induction false} HarmlessOrdersAgree(i: Inputs, a: seq<string>, b: seq<string>)
    requires IsOrder(i, a) && IsOrder(i, b) && CollisionsHarmless(i)
    ensures BaseNet(i, a) == BaseNet(i, b)
  {
    hide Gross, Deltas, Net, IsOrder, CollisionsHarmless, SettledAll, SameWorth;
    var p, q := SettledAll(i, Deltas(i, a)), SettledAll(i, Deltas(i, b));
    forall x
      ensures multiset(p)[x] == multiset(q)[x]
    {
      SettledCount(i, a, x);
      SettledCount(i, b, x);
    }
    assert multiset(p) == multiset(q);
    CollectedAreHarmless(i, a);
    CollectedAreHarmless(i, b);
    GrossSettled(i, NativeUsd(i), Deltas(i, a));
    GrossSettled(i, NativeUsd(i), Deltas(i, b));
    GrossIgnoresOrder(i, NativeUsd(i), p, q);
  }

  // ---------------------------------------------------------------- colliding keys visited last

  lemma {:induction false} PutTwice(ds: seq<Delta>, key: string, m: int, n: int)
    ensures Put(Put(ds, key, m), key, n) == Put(ds, key, n)
  {
    if ds != [] && ds[0].0 != key {
      PutTwice(ds[1..], key, m, n);
      assert Put(ds, key, m)[1..] == Put(ds[1..], key, m);
    } else if ds != [] {
      assert Put(ds, key, m)[1..] == ds[1..];
    }
  }

  /** Of two keys with one lower-case name, the one visited last overwrites the other: the two orders
      agree exactly when the changes are of the same worth. */
  lemma {:induction false} LastOneCounts(i: Inputs, order: seq<string>, k: string, l: string)
    requires Lower(k) == Lower(l) && BaseNet(i, order + [k] + [l]).Ok?
    ensures BaseNet(i, order + [k] + [l]) == BaseNet(i, order + [l] + [k]) <==>
            SameWorth(i, Lower(k), Change(i, k), Change(i, l))
  {
    hide Gross, Deltas, Lower, Put, Change, AddToken, SameWorth;
    var ds, name, m, n := Deltas(i, order), Lower(k), Change(i, k), Change(i, l);
    DeltasSnoc(i, order, k);
    DeltasSnoc(i, order + [k], l);
    DeltasSnoc(i, order, l);
    DeltasSnoc(i, order + [l], k);
    PutTwice(ds, name, m, n);
    PutTwice(ds, name, n, m);
    DeltasCollect(i, order);
    var a, b := PutSplit(ds, name);
    GrossMove(i, NativeUsd(i), a, (name, n), b);
    GrossMove(i, NativeUsd(i), a, (name, m), b);
    WorthShows(i, Gross(i, NativeUsd(i), a + b), name, m, n);
  }

  lemma {:induction false} WorthShows(i: Inputs, so: Result<Option<real>>, asset: string, m: int, n: int)
    requires AddToken(i, so, (asset, n)).Ok?
    ensures AddToken(i, so, (asset, m)).Ok?
    ensures Net(i, AddToken(i, so, (asset, m)).value) == Net(i, AddToken(i, so, (asset, n)).value) <==>
            SameWorth(i, asset, m, n)
  {
    hide SignedUsd, PriceFor, DecimalsClash, GasUsd;
  }

  /** Every finite set of keys can be listed. */
  lemma {:induction false} Listing(keys: set<string>) returns (order: seq<string>)
    ensures forall k :: k in order <==> k in keys
    ensures forall j, k :: 0 <= j < k < |order| ==> order[j] != order[k]
    decreases keys
  {
    if keys == {} {
      order := [];
    } else {
      var k :| k in keys;
      var rest := Listing(keys - {k});
      order := rest + [k];
    }
  }

  lemma {:induction false} OrderEnding(i: Inputs, k: string, l: string) returns (order: seq<string>)
    requires IsKey(i, k) && IsKey(i, l) && k != l
    ensures IsOrder(i, order + [k] + [l]) && IsOrder(i, order + [l] + [k])
  {
    order := Listing(i.before.Keys + i.after.Keys - {k, l});
  }

  // ---------------------------------------------------------------- the theorem

  /** The net result is the same in every order of the token set exactly when the input is refused
      anyway, or keys that share a lower-case name carry changes of the same worth. */
  lemma {:induction false} OrdersAgreeExactly(i: Inputs)
    ensures OrdersAgree(i) <==> Refused(i) || CollisionsHarmless(i)
  {
    hide BaseNet, IsOrder, Refused, SameWorth, Change, Lower, IsKey;
    if Refused(i) || CollisionsHarmless(i) {
      forall a, b | IsOrder(i, a) && IsOrder(i, b)
        ensures BaseNet(i, a) == BaseNet(i, b)
      {
        RefusedInEveryOrder(i, a);
        RefusedInEveryOrder(i, b);
        if !Refused(i) {
          HarmlessOrdersAgree(i, a, b);
        }
      }
    } else if OrdersAgree(i) {
      forall k, l | IsKey(i, k) && IsKey(i, l) && Lower(k) == Lower(l)
        ensures SameWorth(i, Lower(k), Change(i, k), Change(i, l))
      {
        if k == l {
          WorthOfSame(i, Lower(k), Change(i, k));
        } else {
          var order := OrderEnding(i, k, l);
          RefusedInEveryOrder(i, order + [k] + [l]);
          LastOneCounts(i, order, k, l);
        }
      }
    }
  }

  lemma {:induction false} WorthOfSame(i: Inputs, asset: string, m: int)
    ensures SameWorth(i, asset, m, m)
  {
  }

  /** Without two keys of one lower-case name, in particular with lower-case keys, the order of the
      set is irrelevant. */
  lemma {:induction false} OrderIsIrrelevant(i: Inputs)
    requires forall k, l :: IsKey(i, k) && IsKey(i, l) && Lower(k) == Lower(l) ==> k == l
    ensures OrdersAgree(i)
  {
    hide OrdersAgree, Refused, SameWorth, Lower, IsKey;
    forall k, l | IsKey(i, k) && IsKey(i, l) && Lower(k) == Lower(l)
      ensures SameWorth(i, Lower(k), Change(i, k), Change(i, l))
    {
      WorthOfSame(i, Lower(k), Change(i, k));
    }
    OrdersAgreeExactly(i);
  }

  const COLLISION: Inputs :=
    Inputs(0, 0, map[], map["A" := 1, "a" := 2], map[], [("a", Price(1.0, 0, "feed"))], 0, 0, 0, None, None, None)

  /** Two keys that differ in case and carry changes of different worth: the order shows. */
  lemma {:induction false} CaseCollisionMatters()
    ensures !OrdersAgree(COLLISION)
  {
    hide OrdersAgree;
    assert Lower("A") == "a" && Lower("a") == "a";
    var i, p := COLLISION, Price(1.0, 0, "feed");
    assert IsKey(i, "A") && IsKey(i, "a");
    assert PriceFor(i.prices, "a") == Some(p);
    assert "A"[0] != "a"[0];
    assert Change(i, "A") == 1 && Change(i, "a") == 2;
    assert SignedUsd(1, p) != SignedUsd(2, p);
    assert !SameWorth(i, Lower("A"), Change(i, "A"), Change(i, "a"));
    OrdersAgreeExactly(i);
  }
}
