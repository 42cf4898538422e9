/**
 chain/econ.py and chain/prices.py, the measurement in full: which change counts for a token, which
 price values it, what the net result is worth, and what is flagged.
 */
module EconomicsExact {
  import opened Prelude
  import opened Economics
  import opened EconomicsOrder

  // ---------------------------------------------------------------- prices

  function TenTo(n: nat): (p: nat)
    ensures p > 0
  {
    if n == 0 then 1 else 10 * TenTo(n - 1)
  }

  lemma {:induction false} Pow10IsTenTo(n: nat)
    ensures Pow10(n) == TenTo(n) as real
  {
    if n > 0 {
      Pow10IsTenTo(n - 1);
    }
  }

  /** A change of either sign is worth its number of whole units times the unit price. */
  lemma {:induction false} WorthIsLinear(delta: int, p: Price)
    ensures SignedUsd(delta, p) == (delta as real / TenTo(p.decimals) as real) * p.usd
  {
    Pow10IsTenTo(p.decimals);
    var ten := TenTo(p.decimals) as real;
    if delta < 0 {
      Negated(delta as real, ten, p.usd);
    }
    hide TenTo, Pow10;
  }

  lemma {:induction false} Negated(x: real, ten: real, usd: real)
    requires ten > 0.0
    ensures -1.0 * ((-x / ten) * usd) == (x / ten) * usd
  {
    assert -x / ten == -(x / ten);
    var u := x / ten;
    assert (-u) * usd == -(u * usd);
  }

  /** The first price listed for an asset, by its lower-case name. */
  predicate FirstListed(prices: seq<(string, Price)>, asset: string, j: int) {
    && 0 <= j < |prices| && Lower(prices[j].0) == asset
    && forall k :: 0 <= k < j ==> Lower(prices[k].0) != asset
  }

  ghost predicate PricedAt(i: Inputs, asset: string, p: Price) {
    exists j :: FirstListed(i.prices, asset, j) && i.prices[j].1 == p
  }

  ghost predicate Priced(i: Inputs, asset: string) {
    exists p :: PricedAt(i, asset, p)
  }

  lemma {:induction false} FirstPriceCounts(prices: seq<(string, Price)>, asset: string)
    ensures PriceFor(prices, asset).Some? ==> exists j :: FirstListed(prices, asset, j) && prices[j].1 == PriceFor(prices, asset).value
    ensures PriceFor(prices, asset).None? ==> forall j :: !FirstListed(prices, asset, j)
    ensures forall j :: FirstListed(prices, asset, j) ==> PriceFor(prices, asset) == Some(prices[j].1)
  {
    hide Lower;
    if prices != [] && Lower(prices[0].0) == asset {
      assert FirstListed(prices, asset, 0);
    } else if prices != [] {
      FirstPriceCounts(prices[1..], asset);
      assert forall j :: FirstListed(prices[1..], asset, j) ==> FirstListed(prices, asset, j + 1);
      assert forall j :: FirstListed(prices, asset, j) ==> FirstListed(prices[1..], asset, j - 1);
    }
  }

  lemma {:induction false} PricedExactly(i: Inputs, asset: string)
    ensures Priced(i, asset) <==> PriceFor(i.prices, asset).Some?
    ensures forall p :: PricedAt(i, asset, p) <==> PriceFor(i.prices, asset) == Some(p)
  {
    hide FirstListed, PriceFor;
    FirstPriceCounts(i.prices, asset);
    if PriceFor(i.prices, asset).Some? {
      assert PricedAt(i, asset, PriceFor(i.prices, asset).value);
    }
  }

  // ---------------------------------------------------------------- changes

  /** The last key in the order with a lower-case name. */
  predicate LastNamed(order: seq<string>, name: string, j: int) {
    && 0 <= j < |order| && Lower(order[j]) == name
    && forall k :: j < k < |order| ==> Lower(order[k]) != name
  }

  /** The change of the last key with the name: what it holds afterwards, nothing if it is missing, less
      what it held before. */
  ghost predicate ChangeOf(i: Inputs, order: seq<string>, name: string, delta: int) {
    exists j :: LastNamed(order, name, j)
                && delta == (if order[j] in i.after then i.after[order[j]] else 0) - (if order[j] in i.before then i.before[order[j]] else 0)
  }

  lemma {:induction false} LastNamedStep(init: seq<string>, last: string, name: string, j: int)
    ensures LastNamed(init + [last], name, j) <==> if Lower(last) == name then j == |init| else LastNamed(init, name, j)
  {
    hide Lower;
    var order := init + [last];
    assert order[|init|] == last;
    assert forall k :: 0 <= k < |init| ==> order[k] == init[k];
  }

  lemma {:induction false} ChangeStep(i: Inputs, init: seq<string>, last: string, name: string, delta: int)
    ensures ChangeOf(i, init + [last], name, delta) <==>
            if Lower(last) == name then delta == Change(i, last) else ChangeOf(i, init, name, delta)
  {
    hide Lower, LastNamed;
    forall j
      ensures LastNamed(init + [last], name, j) <==> if Lower(last) == name then j == |init| else LastNamed(init, name, j)
      ensures LastNamed(init, name, j) ==> 0 <= j < |init|
    {
      LastNamedStep(init, last, name, j);
      LastNamedIn(init, name, j);
    }
    if Lower(last) == name {
      assert LastNamed(init + [last], name, |init|) && (init + [last])[|init|] == last;
    }
    assert forall j :: 0 <= j < |init| ==> (init + [last])[j] == init[j];
  }

  lemma {:induction false} LastNamedIn(order: seq<string>, name: string, j: int)
    ensures LastNamed(order, name, j) ==> 0 <= j < |order|
  {
  }

  /** The dictionary of changes has each name once, with the change of its last key, and no other entry. */
  lemma {:induction false} ChangesExactly(i: Inputs, order: seq<string>)
    ensures DistinctNames(Deltas(i, order))
    ensures forall d :: d in Deltas(i, order) <==> ChangeOf(i, order, d.0, d.1)
  {
    hide Put, Lower, DistinctNames;
    if order == [] {
      NothingCollected(i);
      CollectsDistinct(i, [], []);
    } else {
      hide ChangeOf, Change;
      var init, last := order[..|order| - 1], order[|order| - 1];
      ChangesExactly(i, init);
      var a, b := PutSplit(Deltas(i, init), Lower(last));
      DeltasSnoc(i, init, last);
      assert order == init + [last];
      var put := a + [(Lower(last), Change(i, last))] + b;
      assert Deltas(i, order) == put;
      forall d: Delta
        ensures d in put <==> ChangeOf(i, order, d.0, d.1)
      {
        ChangeStep(i, init, last, d.0, d.1);
        assert d in put <==> d == (Lower(last), Change(i, last)) || d in a + b;
      }
    }
  }

  // ---------------------------------------------------------------- the net result

  /** What the priced changes are worth together. */
  function Together(i: Inputs, ds: seq<Delta>): real {
    if ds == [] then 0.0
    else
      var d := ds[|ds| - 1];
      var p := PriceFor(i.prices, d.0);
      Together(i, ds[..|ds| - 1]) + if p.Some? then (d.1 as real / TenTo(p.value.decimals) as real) * p.value.usd else 0.0
  }

  ghost predicate AnyPriced(i: Inputs, ds: seq<Delta>) {
    exists j :: 0 <= j < |ds| && Priced(i, ds[j].0)
  }

  lemma {:induction false} GrossIsTogether(i: Inputs, start: Option<real>, ds: seq<Delta>)
    requires Gross(i, start, ds).Ok?
    ensures Gross(i, start, ds).value.Some? <==> start.Some? || AnyPriced(i, ds)
    ensures Gross(i, start, ds).value.Some? ==>
              Gross(i, start, ds).value.value == (if start.Some? then start.value else 0.0) + Together(i, ds)
    ensures !AnyPriced(i, ds) ==> Together(i, ds) == 0.0
  {
    hide SignedUsd, TenTo, PriceFor, DecimalsClash, Priced;
    if ds != [] {
      var init, d := ds[..|ds| - 1], ds[|ds| - 1];
      GrossIsTogether(i, start, init);
      PricedExactly(i, d.0);
      assert AnyPriced(i, ds) <==> AnyPriced(i, init) || Priced(i, d.0) by {
        assert forall j :: 0 <= j < |init| ==> init[j] == ds[j];
      }
      if PriceFor(i.prices, d.0).Some? {
        WorthIsLinear(d.1, PriceFor(i.prices, d.0).value);
      }
    }
  }

  /** The declared decimals of an asset differ from those of its price. */
  ghost predicate Clashes(i: Inputs, asset: string) {
    exists p :: PricedAt(i, asset, p) && asset in i.decimals && i.decimals[asset] != p.decimals
  }

  lemma {:induction false} ClashesExactly(i: Inputs, asset: string)
    ensures Clashes(i, asset) <==> DecimalsClash(i, asset)
  {
    hide PriceFor, PricedAt;
    PricedExactly(i, asset);
  }

  /** Whole units of the native asset at its price; nothing without a price. */
  function NativeWorth(i: Inputs, amount: int): real {
    if i.nativePrice.None? then 0.0
    else (amount as real / TenTo(i.nativePrice.value.decimals) as real) * i.nativePrice.value.usd
  }

  /** The measurement is refused exactly for a negative gas or capital figure or a changed token whose
      decimals clash. It has a result exactly when the native asset or a changed token is priced, and
      the result is the worth of the native change and of the priced changes less that of the gas. */
  lemma {:induction false} NetExactly(i: Inputs, order: seq<string>)
    ensures var ds, net := Deltas(i, order), BaseNet(i, order);
            && (net.Reject? <==> i.gasUsed < 0 || i.gasPrice < 0 || i.declaredCapital < 0 || exists d :: d in ds && Clashes(i, d.0))
            && (net.Ok? ==>
                  && (net.value.Some? <==> i.nativePrice.Some? || exists d :: d in ds && Priced(i, d.0))
                  && (net.value.Some? ==>
                        net.value.value == NativeWorth(i, i.nativeAfter - i.nativeBefore) + Together(i, ds)
                                           - NativeWorth(i, i.gasUsed * i.gasPrice)))
  {
    hide Gross, Deltas, Together, SignedUsd, TenTo, Clashes, DecimalsClash, Priced;
    var ds := Deltas(i, order);
    GrossRefuses(i, NativeUsd(i), ds);
    forall d | d in ds
      ensures Clashes(i, d.0) <==> DecimalsClash(i, d.0)
    {
      ClashesExactly(i, d.0);
    }
    if i.nativePrice.Some? {
      WorthIsLinear(i.nativeAfter - i.nativeBefore, i.nativePrice.value);
      WorthIsLinear(i.gasUsed * i.gasPrice, i.nativePrice.value);
    }
    if Gross(i, NativeUsd(i), ds).Ok? {
      GrossIsTogether(i, NativeUsd(i), ds);
    }
  }

  // ---------------------------------------------------------------- flags and sources

  lemma {:induction false} FlaggedTokens(i: Inputs, ds: seq<Delta>)
    ensures forall f :: f in TokenFlags(i, ds) <==>
              f.TokenUnpriced? && exists j :: 0 <= j < |ds| && ds[j].0 == f.asset && ds[j].1 != 0 && !Priced(i, f.asset)
  {
    hide PriceFor, Priced;
    if ds != [] {
      var init, d := ds[..|ds| - 1], ds[|ds| - 1];
      FlaggedTokens(i, init);
      PricedExactly(i, d.0);
      assert ds == init + [d];
    }
  }

  lemma {:induction false} SourcesOfTokens(i: Inputs, ds: seq<Delta>)
    ensures forall s :: s in Sources(i, ds) <==> exists j, p :: 0 <= j < |ds| && PricedAt(i, ds[j].0, p) && p.source == s
  {
    hide PriceFor, PricedAt;
    if ds != [] {
      var init, d := ds[..|ds| - 1], ds[|ds| - 1];
      SourcesOfTokens(i, init);
      PricedExactly(i, d.0);
      assert ds == init + [d];
      if PriceFor(i.prices, d.0).Some? {
        assert PricedAt(i, d.0, PriceFor(i.prices, d.0).value);
      }
    }
  }

  /** What a report flags and names: capital declared below what was observed, a native change without
      a price, every changed token without a price, and the source of every price that was used. */
  lemma {:induction false} ReportsExactly(i: Inputs, order: seq<string>, r: Report)
    requires Reports(i, order, r)
    ensures forall f :: f in r.flags <==>
              match f
              case CapitalUnderstated => i.observedCapital.Some? && i.observedCapital.value > i.declaredCapital
              case NativeUnpriced => i.nativePrice.None? && i.nativeAfter != i.nativeBefore
              case TokenUnpriced(asset) => !Priced(i, asset) && exists delta :: delta != 0 && ChangeOf(i, order, asset, delta)
    ensures forall s :: s in r.sources <==>
              || (i.nativePrice.Some? && i.nativePrice.value.source == s)
              || exists asset, delta, p :: ChangeOf(i, order, asset, delta) && PricedAt(i, asset, p) && p.source == s
    ensures forall d :: d in r.tokenDeltas <==> ChangeOf(i, order, d.0, d.1)
    ensures r.capital == if i.observedCapital.Some? then i.observedCapital.value else i.declaredCapital
  {
    hide TokenFlags, Sources, Deltas, ChangeOf, Priced, PricedAt, BaseNet, Gross, GasUsd, NativeUsd;
    var ds := Deltas(i, order);
    ChangesExactly(i, order);
    FlaggedTokens(i, ds);
    SourcesOfTokens(i, ds);
    forall f: Flag | f.TokenUnpriced?
      ensures f in TokenFlags(i, ds) <==> !Priced(i, f.asset) && exists delta :: delta != 0 && ChangeOf(i, order, f.asset, delta)
    {
      if delta :| delta != 0 && ChangeOf(i, order, f.asset, delta) {
        assert (f.asset, delta) in ds;
        var j :| 0 <= j < |ds| && ds[j] == (f.asset, delta);
      }
      if j :| 0 <= j < |ds| && ds[j].0 == f.asset && ds[j].1 != 0 {
        assert ds[j] in ds;
      }
    }
    forall s
      ensures s in Sources(i, ds) <==> exists asset, delta, p :: ChangeOf(i, order, asset, delta) && PricedAt(i, asset, p) && p.source == s
    {
      SourcesByName(i, order, s);
    }
  }

  lemma {:induction false} SourcesByName(i: Inputs, order: seq<string>, s: string)
    ensures s in Sources(i, Deltas(i, order)) <==>
            exists asset, delta, p :: ChangeOf(i, order, asset, delta) && PricedAt(i, asset, p) && p.source == s
  {
    hide Sources, Deltas, ChangeOf, PricedAt;
    var ds := Deltas(i, order);
    ChangesExactly(i, order);
    SourcesOfTokens(i, ds);
    if j, p :| 0 <= j < |ds| && PricedAt(i, ds[j].0, p) && p.source == s {
      assert ds[j] in ds;
      assert ChangeOf(i, order, ds[j].0, ds[j].1);
    }
    if asset, delta, p :| ChangeOf(i, order, asset, delta) && PricedAt(i, asset, p) && p.source == s {
      assert (asset, delta) in ds;
      var j :| 0 <= j < |ds| && ds[j] == (asset, delta);
    }
  }
}
