/**
 chain/econ.py and chain/prices.py in exact arithmetic: recomputing the economics from perturbed
 prices gives exactly the perturbed result.
 */
module Economics {
  import opened Prelude
  import opened StoreIds

  // ---------------------------------------------------------------- prices

  /** A validated price point. */
  datatype Price = Price(usd: real, decimals: nat, source: string)

  function Pow10(n: nat): (p: real)
    ensures p > 0.0
  {
    if n == 0 then 1.0 else 10.0 * Pow10(n - 1)
  }

  function UsdValue(amount: nat, p: Price): real {
    (amount as real / Pow10(p.decimals)) * p.usd
  }

  function SignedUsd(delta: int, p: Price): real {
    if delta < 0 then -1.0 * UsdValue(-delta, p) else 1.0 * UsdValue(delta, p)
  }

  function Scale(factor: real, x: real): real {
    factor * x
  }

  function ScaledPrice(p: Price, factor: real): (r: Price)
    ensures r.decimals == p.decimals && r.source == p.source
  {
    p.(usd := p.usd * factor)
  }

  lemma {:induction false} SignedUsdScales(delta: int, p: Price, factor: real)
    ensures SignedUsd(delta, ScaledPrice(p, factor)) == Scale(factor, SignedUsd(delta, p))
  {
    hide Pow10;
    var units := (if delta < 0 then -delta else delta) as real / Pow10(p.decimals);
    Regroup(units, p.usd, factor);
  }

  lemma {:induction false} Regroup(a: real, b: real, c: real)
    ensures a * (b * c) == c * (a * b)
    ensures -1.0 * (a * (b * c)) == c * (-1.0 * (a * b))
  {
  }

  // ---------------------------------------------------------------- inputs

  /** Prices are kept in the order of the mapping, since the first one that fits an asset is used. */
  datatype Inputs = Inputs(
    nativeBefore: int, nativeAfter: int, before: map<string, int>, after: map<string, int>, decimals: map<string, int>,
    prices: seq<(string, Price)>, gasUsed: int, gasPrice: int, declaredCapital: int, observedCapital: Option<int>,
    nativePrice: Option<Price>, protocolDelta: Option<int>)

  function ScaledPrices(prices: seq<(string, Price)>, factor: real): (r: seq<(string, Price)>)
    ensures |r| == |prices|
  {
    if prices == [] then [] else [(prices[0].0, ScaledPrice(prices[0].1, factor))] + ScaledPrices(prices[1..], factor)
  }

  function Scaled(i: Inputs, factor: real): Inputs {
    i.(nativePrice := if i.nativePrice.Some? then Some(ScaledPrice(i.nativePrice.value, factor)) else None,
       prices := ScaledPrices(i.prices, factor))
  }

  /** An iteration order of the set of token keys. */
  ghost predicate IsOrder(i: Inputs, order: seq<string>) {
    && (forall k :: k in order <==> k in i.before || k in i.after)
    && (forall j, k :: 0 <= j < k < |order| ==> order[j] != order[k])
  }

  function At(m: map<string, int>, k: string): int {
    if k in m then m[k] else 0
  }

  // ---------------------------------------------------------------- deltas

  type Delta = (string, int)

  /** Assignment to a dictionary entry: a known key keeps its place. */
  function Put(ds: seq<Delta>, key: string, value: int): seq<Delta> {
    if ds == [] then [(key, value)]
    else if ds[0].0 == key then [(key, value)] + ds[1..]
    else [ds[0]] + Put(ds[1..], key, value)
  }

  /** The change of each token, under its lower-case name. */
  function Deltas(i: Inputs, order: seq<string>): seq<Delta> {
    if order == [] then []
    else
      var k := order[|order| - 1];
      Put(Deltas(i, order[..|order| - 1]), Lower(k), At(i.after, k) - At(i.before, k))
  }

  // ---------------------------------------------------------------- valuation

  function PriceFor(prices: seq<(string, Price)>, asset: string): Option<Price> {
    if prices == [] then None
    else if Lower(prices[0].0) == asset then Some(prices[0].1)
    else PriceFor(prices[1..], asset)
  }

  predicate DecimalsClash(i: Inputs, asset: string) {
    var p := PriceFor(i.prices, asset);
    p.Some? && asset in i.decimals && p.value.decimals != i.decimals[asset]
  }

  /** What one token adds to the value so far; a token whose decimals clash is an error. */
  function AddToken(i: Inputs, so: Result<Option<real>>, d: Delta): Result<Option<real>> {
    var p := PriceFor(i.prices, d.0);
    if so.Reject? || DecimalsClash(i, d.0) then Reject
    else if p.None? then so
    else Ok(Some((if so.value.Some? then so.value.value else 0.0) + SignedUsd(d.1, p.value)))
  }

  function Gross(i: Inputs, start: Option<real>, ds: seq<Delta>): Result<Option<real>> {
    if ds == [] then Ok(start) else AddToken(i, Gross(i, start, ds[..|ds| - 1]), ds[|ds| - 1])
  }

  datatype Flag = CapitalUnderstated | NativeUnpriced | TokenUnpriced(asset: string)

  function TokenFlags(i: Inputs, ds: seq<Delta>): seq<Flag> {
    if ds == [] then []
    else
      var d := ds[|ds| - 1];
      TokenFlags(i, ds[..|ds| - 1])
      + if PriceFor(i.prices, d.0).None? && d.1 != 0 then [TokenUnpriced(d.0)] else []
  }

  function Sources(i: Inputs, ds: seq<Delta>): set<string> {
    if ds == [] then {}
    else
      var p := PriceFor(i.prices, ds[|ds| - 1].0);
      Sources(i, ds[..|ds| - 1]) + if p.Some? then {p.value.source} else {}
  }

  /** One recomputation from perturbed prices, with the prices it used. */
  datatype Scenario = Scenario(
    bps: int, multiplier: real, net: real, nativePrice: Option<real>, tokenPrices: map<string, real>)

  datatype Report = Report(
    nativeDelta: int, tokenDeltas: seq<Delta>, gross: Option<real>, gasWei: int, gasUsd: Option<real>, net: Option<real>,
    capital: int, protocolDelta: Option<int>, flags: seq<Flag>, sources: set<string>,
    sensitivity: map<string, real>, scenarios: map<string, Scenario>)

  predicate Measurable(i: Inputs) {
    i.gasUsed >= 0 && i.gasPrice >= 0 && i.declaredCapital >= 0
  }

  function NativeUsd(i: Inputs): Option<real> {
    if i.nativePrice.Some? then Some(SignedUsd(i.nativeAfter - i.nativeBefore, i.nativePrice.value)) else None
  }

  function GasUsd(i: Inputs): Option<real> {
    if i.nativePrice.Some? then Some(SignedUsd(i.gasUsed * i.gasPrice, i.nativePrice.value)) else None
  }

  function Net(i: Inputs, gross: Option<real>): Option<real> {
    if gross.None? then None else Some(gross.value - if GasUsd(i).Some? then GasUsd(i).value else 0.0)
  }

  /** The net result in dollars: not measurable or clashing decimals, nothing priced, or a value. */
  function BaseNet(i: Inputs, order: seq<string>): Result<Option<real>> {
    if !Measurable(i) then Reject
    else
      var gross := Gross(i, NativeUsd(i), Deltas(i, order));
      if gross.Reject? then Reject else Ok(Net(i, gross.value))
  }

  // ---------------------------------------------------------------- scaling

  function Times(x: Option<real>, factor: real): Option<real> {
    if x.Some? then Some(Scale(factor, x.value)) else None
  }

  function TimesResult(x: Result<Option<real>>, factor: real): Result<Option<real>> {
    if x.Ok? then Ok(Times(x.value, factor)) else Reject
  }

  lemma {:induction false} PriceForScales(prices: seq<(string, Price)>, asset: string, factor: real)
    ensures PriceFor(ScaledPrices(prices, factor), asset) ==
            if PriceFor(prices, asset).Some? then Some(ScaledPrice(PriceFor(prices, asset).value, factor)) else None
  {
    hide Lower;
    if prices != [] {
      assert ScaledPrices(prices, factor)[1..] == ScaledPrices(prices[1..], factor);
      PriceForScales(prices[1..], asset, factor);
    }
  }

  lemma {:induction false} Distribute(f: real, a: real, b: real)
    ensures Scale(f, a + b) == Scale(f, a) + Scale(f, b)
    ensures Scale(f, a - b) == Scale(f, a) - Scale(f, b)
  {
  }

  lemma {:induction false} AddTokenScales(i: Inputs, so: Result<Option<real>>, d: Delta, factor: real)
    ensures AddToken(Scaled(i, factor), TimesResult(so, factor), d) == TimesResult(AddToken(i, so, d), factor)
  {
    hide SignedUsd, PriceFor, ScaledPrices, ScaledPrice, Lower, Scale;
    PriceForScales(i.prices, d.0, factor);
    var p := PriceFor(i.prices, d.0);
    if p.Some? && so.Ok? {
      SignedUsdScales(d.1, p.value, factor);
      if so.value.Some? {
        Distribute(factor, so.value.value, SignedUsd(d.1, p.value));
      }
    }
  }

  lemma {:induction false} GrossScales(i: Inputs, start: Option<real>, ds: seq<Delta>, factor: real)
    ensures Gross(Scaled(i, factor), Times(start, factor), ds) == TimesResult(Gross(i, start, ds), factor)
  {
    hide AddToken, Scaled, Times, Scale;
    if ds != [] {
      GrossScales(i, start, ds[..|ds| - 1], factor);
      AddTokenScales(i, Gross(i, start, ds[..|ds| - 1]), ds[|ds| - 1], factor);
    }
  }

  lemma {:induction false} DeltasIgnorePrices(i: Inputs, order: seq<string>, factor: real)
    ensures Deltas(Scaled(i, factor), order) == Deltas(i, order)
  {
    hide Put, Lower, ScaledPrices;
    if order != [] {
      DeltasIgnorePrices(i, order[..|order| - 1], factor);
    }
  }

  lemma {:induction false} NativeScales(i: Inputs, factor: real)
    ensures NativeUsd(Scaled(i, factor)) == Times(NativeUsd(i), factor)
    ensures GasUsd(Scaled(i, factor)) == Times(GasUsd(i), factor)
  {
    hide SignedUsd, ScaledPrices, ScaledPrice, Scale;
    if i.nativePrice.Some? {
      SignedUsdScales(i.nativeAfter - i.nativeBefore, i.nativePrice.value, factor);
      SignedUsdScales(i.gasUsed * i.gasPrice, i.nativePrice.value, factor);
    }
  }

  lemma {:induction false} NetOfScaled(i: Inputs, gross: Option<real>, factor: real)
    ensures Net(Scaled(i, factor), Times(gross, factor)) == Times(Net(i, gross), factor)
  {
    hide GasUsd, Scaled, Scale;
    NativeScales(i, factor);
    if gross.Some? && GasUsd(i).Some? {
      Distribute(factor, gross.value, GasUsd(i).value);
    }
  }

  /** Recomputed from scaled prices, the net result is the scaled net result: it exists exactly when
      the unscaled one does, and an input rejected once is rejected always. */
  lemma {:induction false} NetScales(i: Inputs, order: seq<string>, factor: real)
    ensures BaseNet(Scaled(i, factor), order) == TimesResult(BaseNet(i, order), factor)
  {
    hide NativeUsd, Gross, Deltas, ScaledPrices, ScaledPrice, Net, Times;
    DeltasIgnorePrices(i, order, factor);
    NativeScales(i, factor);
    GrossScales(i, NativeUsd(i), Deltas(i, order), factor);
    var gross := Gross(i, NativeUsd(i), Deltas(i, order));
    if gross.Ok? {
      NetOfScaled(i, gross.value, factor);
    }
  }

  // ---------------------------------------------------------------- the measurement

  function BaseFlags(i: Inputs): seq<Flag> {
    (if i.observedCapital.Some? && i.observedCapital.value > i.declaredCapital then [CapitalUnderstated] else [])
    + if i.nativePrice.None? && i.nativeAfter != i.nativeBefore then [NativeUnpriced] else []
  }

  /** The dictionary of changes, filled in the order of the keys. */
  method CollectDeltas(i: Inputs, order: seq<string>) returns (deltas: seq<Delta>)
    ensures deltas == Deltas(i, order)
  {
    hide Put, Lower;
    deltas := [];
    for k := 0 to |order|
      invariant deltas == Deltas(i, order[..k])
    {
      assert order[..k + 1][..k] == order[..k];
      deltas := Put(deltas, Lower(order[k]), At(i.after, order[k]) - At(i.before, order[k]));
    }
    assert order[..|order|] == order;
  }

  /** The loop over the changes: value, flags and sources grow token by token. */
  method ValueTokens(i: Inputs, start: Option<real>, deltas: seq<Delta>)
    returns (gross: Result<Option<real>>, flags: seq<Flag>, sources: set<string>)
    ensures gross == Gross(i, start, deltas)
    ensures gross.Ok? ==> flags == TokenFlags(i, deltas) && sources == Sources(i, deltas)
  {
    hide SignedUsd, PriceFor;
    var value := start;
    flags, sources := [], {};
    for k := 0 to |deltas|
      invariant Gross(i, start, deltas[..k]) == Ok(value)
      invariant flags == TokenFlags(i, deltas[..k])
      invariant sources == Sources(i, deltas[..k])
    {
      assert deltas[..k + 1][..k] == deltas[..k];
      var (asset, delta) := deltas[k];
      var price := PriceFor(i.prices, asset);
      if price.Some? && asset in i.decimals && price.value.decimals != i.decimals[asset] {
        ClashRejects(i, start, deltas, k);
        gross := Reject;
        return;
      }
      if price.None? {
        if delta != 0 {
          flags := flags + [TokenUnpriced(asset)];
        }
      } else {
        value := Some((if value.Some? then value.value else 0.0) + SignedUsd(delta, price.value));
        sources := sources + {price.value.source};
      }
    }
    assert deltas[..|deltas|] == deltas;
    gross := Ok(value);
  }

  /** The observed capital where there is one, and the declared capital otherwise. */
  function Capital(i: Inputs): int {
    if i.observedCapital.Some? then i.observedCapital.value else i.declaredCapital
  }

  /** Every part of a report that does not come from a scenario. */
  predicate Reports(i: Inputs, order: seq<string>, r: Report) {
    && Ok(r.net) == BaseNet(i, order)
    && r.nativeDelta == i.nativeAfter - i.nativeBefore
    && r.tokenDeltas == Deltas(i, order)
    && Ok(r.gross) == Gross(i, NativeUsd(i), Deltas(i, order))
    && r.gasWei == i.gasUsed * i.gasPrice && r.gasUsd == GasUsd(i)
    && r.capital == Capital(i) && r.protocolDelta == i.protocolDelta
    && r.flags == BaseFlags(i) + TokenFlags(i, Deltas(i, order))
    && r.sources == Sources(i, Deltas(i, order)) + (if i.nativePrice.Some? then {i.nativePrice.value.source} else {})
  }

  /** `_measure_base`: the token keys are visited in whatever order the set yields. */
  method MeasureBase(i: Inputs, order: seq<string>) returns (r: Result<Report>)
    ensures r.Ok? <==> BaseNet(i, order).Ok?
    ensures r.Ok? ==> Reports(i, order, r.value) && r.value.sensitivity == map[] && r.value.scenarios == map[]
  {
    hide SignedUsd, Put, PriceFor, Lower, Gross, Deltas, Sources, TokenFlags;
    if !Measurable(i) {
      return Reject;
    }
    var deltas := CollectDeltas(i, order);
    var capital := if i.observedCapital.Some? then i.observedCapital.value else i.declaredCapital;
    var flags := if capital > i.declaredCapital then [CapitalUnderstated] else [];
    var gasWei := i.gasUsed * i.gasPrice;
    var gasUsd := if i.nativePrice.Some? then Some(SignedUsd(gasWei, i.nativePrice.value)) else None;
    var start: Option<real> := None;
    if i.nativePrice.Some? {
      start := Some(SignedUsd(i.nativeAfter - i.nativeBefore, i.nativePrice.value));
    } else if i.nativeAfter - i.nativeBefore != 0 {
      flags := flags + [NativeUnpriced];
    }
    var gross, tokenFlags, sources := ValueTokens(i, start, deltas);
    if gross.Reject? {
      return Reject;
    }
    if i.nativePrice.Some? {
      sources := sources + {i.nativePrice.value.source};
    }
    var net := if gross.value.None? then None else Some(gross.value.value - if gasUsd.Some? then gasUsd.value else 0.0);
    return Ok(Report(i.nativeAfter - i.nativeBefore, deltas, gross.value, gasWei, gasUsd, net, capital, i.protocolDelta,
                     flags + tokenFlags, sources, map[], map[]));
  }

  lemma {:induction false} ClashRejects(i: Inputs, start: Option<real>, ds: seq<Delta>, k: nat)
    requires k < |ds| && DecimalsClash(i, ds[k].0)
    ensures Gross(i, start, ds).Reject?
  {
    hide SignedUsd, DecimalsClash, PriceFor;
    if k < |ds| - 1 {
      ClashRejects(i, start, ds[..|ds| - 1], k);
    }
  }

  // ---------------------------------------------------------------- sensitivity

  function Factor(bps: int): real {
    1.0 + bps as real / 10000.0
  }

  /** The labels `sensitivity_values` writes. */
  function Label(bps: int): string {
    if bps == 0 then "base"
    else if bps < 0 then "minus_" + Digits(-bps) + "bps"
    else "plus_" + Digits(bps) + "bps"
  }

  function Values(base: real, bps: seq<int>): map<string, real> {
    if bps == [] then map[]
    else Values(base, bps[..|bps| - 1])[Label(bps[|bps| - 1]) := Scale(Factor(bps[|bps| - 1]), base)]
  }

  /** `sensitivity_values`: a finished net result, scaled. */
  method SensitivityValues(base: real, bps: seq<int>) returns (result: map<string, real>)
    ensures result == Values(base, bps)
  {
    hide Label, Factor, Scale;
    result := map[];
    for k := 0 to |bps|
      invariant result == Values(base, bps[..k])
    {
      assert bps[..k + 1][..k] == bps[..k];
      result := result[Label(bps[k]) := Scale(Factor(bps[k]), base)];
    }
    assert bps[..|bps|] == bps;
  }

  predicate StandardScenarios(bps: seq<int>) {
    AsSet(bps) == {-500, 0, 500}
  }

  function AsSet(bps: seq<int>): set<int> {
    set b | b in bps
  }

  lemma {:induction false} StandardMembers(bps: seq<int>)
    requires StandardScenarios(bps)
    ensures forall b :: b in bps <==> b in {-500, 0, 500}
    ensures forall j :: 0 <= j < |bps| ==> bps[j] in {-500, 0, 500}
  {
    forall j | 0 <= j < |bps|
      ensures bps[j] in {-500, 0, 500}
    {
      assert bps[j] in AsSet(bps);
    }
    forall b
      ensures b in bps <==> b in {-500, 0, 500}
    {
      assert b in AsSet(bps) <==> b in bps;
    }
  }

  /** The labels `measure` looks up. */
  function ScenarioLabel(bps: int): string
    requires bps in {-500, 0, 500}
  {
    if bps == -500 then "minus_500bps" else if bps == 0 then "base" else "plus_500bps"
  }

  lemma {:induction false} LabelsAgree(bps: int)
    requires bps in {-500, 0, 500}
    ensures ScenarioLabel(bps) == Label(bps)
  {
    assert Digits(5) == "5" && Digits(50) == "50" && Digits(500) == "500";
  }

  /** `{key.lower(): price}` over the price mapping. */
  function TokenPrices(prices: seq<(string, Price)>): map<string, real> {
    if prices == [] then map[]
    else TokenPrices(prices[..|prices| - 1])[Lower(prices[|prices| - 1].0) := prices[|prices| - 1].1.usd]
  }

  /** The scenario of a scaled input whose net result is known. */
  function ScenarioOf(i: Inputs, bps: int, net: real): Scenario {
    var scaled := Scaled(i, Factor(bps));
    Scenario(bps, Factor(bps), net, if scaled.nativePrice.Some? then Some(scaled.nativePrice.value.usd) else None,
             TokenPrices(scaled.prices))
  }

  function Scenarios(i: Inputs, base: real, bps: seq<int>): map<string, Scenario> {
    if bps == [] then map[]
    else
      var b := bps[|bps| - 1];
      Scenarios(i, base, bps[..|bps| - 1])[Label(b) := ScenarioOf(i, b, Scale(Factor(b), base))]
  }

  /** `measure`: every scenario is recomputed from the raw observations and scaled prices, and yet
      comes out, label by label, as the scaled base result. */
  method Measure(i: Inputs, order: seq<string>, bps: seq<int>) returns (r: Result<Report>)
    ensures r.Ok? <==> StandardScenarios(bps) && BaseNet(i, order).Ok?
    ensures r.Ok? ==>
              && Reports(i, order, r.value)
              && r.value.sensitivity == (if r.value.net.Some? then Values(r.value.net.value, bps) else map[])
              && r.value.scenarios == (if r.value.net.Some? then Scenarios(i, r.value.net.value, bps) else map[])
  {
    hide BaseNet, Label, ScenarioLabel, Scaled, Gross, Deltas, Sources, TokenFlags, Factor, StandardScenarios, BaseFlags,
         Scale, TokenPrices, NativeUsd, GasUsd, Capital;
    if !StandardScenarios(bps) {
      return Reject;
    }
    var base := MeasureBase(i, order);
    if base.Reject? {
      return Reject;
    }
    var sensitivity: map<string, real> := map[];
    var scenarios: map<string, Scenario> := map[];
    if base.value.net.Some? {
      for k := 0 to |bps|
        invariant sensitivity == Values(base.value.net.value, bps[..k])
        invariant scenarios == Scenarios(i, base.value.net.value, bps[..k])
      {
        assert bps[..k + 1][..k] == bps[..k];
        var factor := Factor(bps[k]);
        var inputs := Scaled(i, factor);
        var scenario := MeasureBase(inputs, order);
        NetScales(i, order, factor);
        StandardMembers(bps);
        LabelsAgree(bps[k]);
        if scenario.Reject? || scenario.value.net.None? {
          assert false;
          return Reject;
        }
        var name, net := ScenarioLabel(bps[k]), scenario.value.net.value;
        var nativePrice := if inputs.nativePrice.Some? then Some(inputs.nativePrice.value.usd) else None;
        sensitivity := sensitivity[name := net];
        scenarios := scenarios[name := Scenario(bps[k], factor, net, nativePrice, TokenPrices(inputs.prices))];
      }
      assert bps[..|bps|] == bps;
    }
    return Ok(base.value.(sensitivity := sensitivity, scenarios := scenarios));
  }

  lemma {:induction false} TokenPricesScale(prices: seq<(string, Price)>, factor: real)
    ensures TokenPrices(ScaledPrices(prices, factor)).Keys == TokenPrices(prices).Keys
    ensures forall a :: a in TokenPrices(prices) ==>
              TokenPrices(ScaledPrices(prices, factor))[a] == Scale(factor, TokenPrices(prices)[a])
  {
    hide Lower;
    if prices != [] {
      var init, last := prices[..|prices| - 1], prices[|prices| - 1];
      TokenPricesScale(init, factor);
      ScaledPricesSnoc(init, last, factor);
      assert prices == init + [last];
      assert ScaledPrices(prices, factor)[..|prices| - 1] == ScaledPrices(init, factor);
    }
  }

  lemma {:induction false} ScaledPricesSnoc(prices: seq<(string, Price)>, p: (string, Price), factor: real)
    ensures ScaledPrices(prices + [p], factor) == ScaledPrices(prices, factor) + [(p.0, ScaledPrice(p.1, factor))]
  {
    if prices == [] {
      assert prices + [p] == [p];
    } else {
      assert (prices + [p])[1..] == prices[1..] + [p];
      ScaledPricesSnoc(prices[1..], p, factor);
    }
  }

  /** The prices a scenario reports are the base prices times its multiplier, and its net result is
      the base net result times its multiplier. */
  lemma {:induction false} ScenarioIsScaled(i: Inputs, base: real, b: int)
    ensures var s := ScenarioOf(i, b, Scale(Factor(b), base));
            && s.multiplier == Factor(b) && s.net == Scale(s.multiplier, base)
            && (s.nativePrice.Some? <==> i.nativePrice.Some?)
            && (s.nativePrice.Some? ==> s.nativePrice.value == Scale(s.multiplier, i.nativePrice.value.usd))
            && s.tokenPrices.Keys == TokenPrices(i.prices).Keys
            && forall a :: a in s.tokenPrices ==> s.tokenPrices[a] == Scale(s.multiplier, TokenPrices(i.prices)[a])
  {
    hide TokenPrices, ScaledPrices;
    TokenPricesScale(i.prices, Factor(b));
  }

  lemma {:induction false} ValueOf(base: real, bps: seq<int>, b: int)
    requires b in bps && forall j :: 0 <= j < |bps| ==> bps[j] in {-500, 0, 500}
    ensures Label(b) in Values(base, bps) && Values(base, bps)[Label(b)] == Scale(Factor(b), base)
  {
    hide Label, Factor, Scale;
    var init, last := bps[..|bps| - 1], bps[|bps| - 1];
    assert bps == init + [last];
    if b == last {
    } else {
      ValueOf(base, init, b);
      LabelsAgree(b);
      LabelsAgree(last);
      DistinctLabels(b, last);
    }
  }

  lemma {:induction false} DistinctLabels(a: int, b: int)
    requires a in {-500, 0, 500} && b in {-500, 0, 500} && a != b
    ensures ScenarioLabel(a) != ScenarioLabel(b)
  {
    assert ScenarioLabel(-500)[0] == 'm' && ScenarioLabel(0)[0] == 'b' && ScenarioLabel(500)[0] == 'p';
  }

  /** A profit lies strictly between the two perturbed scenarios, and a loss strictly between them
      the other way round. */
  lemma {:induction false} ProfitIsBracketed(base: real, bps: seq<int>)
    requires StandardScenarios(bps)
    ensures "minus_500bps" in Values(base, bps) && "plus_500bps" in Values(base, bps) && "base" in Values(base, bps)
    ensures Values(base, bps)["base"] == base
    ensures base > 0.0 <==> Values(base, bps)["minus_500bps"] < base < Values(base, bps)["plus_500bps"]
    ensures base < 0.0 <==> Values(base, bps)["plus_500bps"] < base < Values(base, bps)["minus_500bps"]
  {
    hide Values, Label;
    StandardMembers(bps);
    ValueOf(base, bps, -500);
    ValueOf(base, bps, 0);
    ValueOf(base, bps, 500);
    LabelsAgree(-500);
    LabelsAgree(0);
    LabelsAgree(500);
  }
}
