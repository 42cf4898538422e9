/**
 verifier/derived.py, transfer flow: the net flow a witness declares for an actor is the change of
 its balance under any starting ledger and any order of the transfers.
 */
module Flow {
  import opened Prelude
  import opened Bags
  import opened Arena
  import opened Trace
  import opened Adapter
  import opened TraceChain

  // ---------------------------------------------------------------- ledgers

  /** Balances by token and account. */
  type Ledger = (Bytes, Bytes) -> int

  /** A transfer debits the sender and credits the receiver. */
  function Debit(l: Ledger, t: Transfer): Ledger {
    (token, who) => if token == t.token && who == t.from then l(token, who) - t.amount else l(token, who)
  }

  function Credit(l: Ledger, t: Transfer): Ledger {
    (token, who) => if token == t.token && who == t.to then l(token, who) + t.amount else l(token, who)
  }

  function Apply(l: Ledger, ts: seq<Transfer>): Ledger {
    if ts == [] then l else Credit(Debit(Apply(l, ts[..|ts| - 1]), ts[|ts| - 1]), ts[|ts| - 1])
  }

  // ---------------------------------------------------------------- the sums the verifier takes

  function Incoming(ts: seq<Transfer>, token: Bytes, who: Bytes): int {
    if ts == [] then 0
    else
      var t := ts[|ts| - 1];
      Incoming(ts[..|ts| - 1], token, who) + if t.token == token && t.to == who then t.amount else 0
  }

  function Outgoing(ts: seq<Transfer>, token: Bytes, who: Bytes): int {
    if ts == [] then 0
    else
      var t := ts[|ts| - 1];
      Outgoing(ts[..|ts| - 1], token, who) + if t.token == token && t.from == who then t.amount else 0
  }

  function Net(ts: seq<Transfer>, token: Bytes, who: Bytes): int {
    Incoming(ts, token, who) - Outgoing(ts, token, who)
  }

  /** Incoming minus outgoing is the change of the balance, whatever the ledger was before; a
      transfer to oneself changes nothing. */
  lemma {:induction false} NetIsBalanceChange(l: Ledger, ts: seq<Transfer>, token: Bytes, who: Bytes)
    ensures Apply(l, ts)(token, who) == l(token, who) + Net(ts, token, who)
    ensures (forall i :: 0 <= i < |ts| ==> ts[i].from == ts[i].to) ==> Apply(l, ts)(token, who) == l(token, who)
  {
    if ts != [] {
      var init := ts[..|ts| - 1];
      NetIsBalanceChange(l, init, token, who);
    }
  }

  // ---------------------------------------------------------------- order does not matter

  lemma {:induction false} NetOne(t: Transfer, token: Bytes, who: Bytes)
    ensures Net([t], token, who) ==
            if t.token != token then 0 else (if t.to == who then t.amount else 0) - (if t.from == who then t.amount else 0)
  {
    assert [t][..0] == [];
    assert Incoming([], token, who) == 0 && Outgoing([], token, who) == 0;
    assert Incoming([t], token, who) == if t.token == token && t.to == who then t.amount else 0;
  }

  lemma {:induction false} NetSnoc(ts: seq<Transfer>, t: Transfer, token: Bytes, who: Bytes)
    ensures Net(ts + [t], token, who) == Net(ts, token, who) + Net([t], token, who)
  {
    assert (ts + [t])[..|ts|] == ts;
    NetOne(t, token, who);
  }

  lemma {:induction false} NetAppend(a: seq<Transfer>, b: seq<Transfer>, token: Bytes, who: Bytes)
    ensures Net(a + b, token, who) == Net(a, token, who) + Net(b, token, who)
  {
    assert Net([], token, who) == 0;
    hide Net;
    if b == [] {
      assert a + b == a;
    } else {
      var init, last := b[..|b| - 1], b[|b| - 1];
      assert a + b == (a + init) + [last];
      assert b == init + [last];
      NetAppend(a, init, token, who);
      NetSnoc(a + init, last, token, who);
      NetSnoc(init, last, token, who);
    }
  }

  lemma {:induction false} NetIgnoresOrder(xs: seq<Transfer>, ys: seq<Transfer>, token: Bytes, who: Bytes)
    requires multiset(xs) == multiset(ys)
    ensures Net(xs, token, who) == Net(ys, token, who)
    decreases |xs|
  {
    hide Net;
    if xs == [] {
      assert |multiset(ys)| == 0;
      assert ys == xs;
    } else {
      var x, init := xs[|xs| - 1], xs[..|xs| - 1];
      assert xs == init + [x];
      assert x in multiset(ys);
      var k :| 0 <= k < |ys| && ys[k] == x;
      var a, b := ys[..k], ys[k + 1..];
      assert ys == a + [x] + b;
      assert multiset(a + [x] + b) == multiset(a + b) + multiset{x};
      CancelOne(multiset(init), multiset(a + b), x);
      NetIgnoresOrder(init, a + b, token, who);
      NetAppend(a + [x], b, token, who);
      NetAppend(a, [x], token, who);
      NetAppend(a, b, token, who);
      NetSnoc(init, x, token, who);
    }
  }

  // ---------------------------------------------------------------- nothing is created or lost

  function NetOver(ts: seq<Transfer>, token: Bytes, accounts: seq<Bytes>): int {
    if accounts == [] then 0
    else NetOver(ts, token, accounts[..|accounts| - 1]) + Net(ts, token, accounts[|accounts| - 1])
  }

  /** What one transfer contributes over a list of distinct accounts. */
  lemma {:induction false} OneTransferOver(t: Transfer, token: Bytes, accounts: seq<Bytes>)
    requires forall i, j :: 0 <= i < j < |accounts| ==> accounts[i] != accounts[j]
    ensures NetOver([t], token, accounts) ==
            if t.token != token then 0
            else (if t.to in accounts then t.amount else 0) - (if t.from in accounts then t.amount else 0)
  {
    hide Net;
    if accounts != [] {
      var init, last := accounts[..|accounts| - 1], accounts[|accounts| - 1];
      OneTransferOver(t, token, init);
      assert accounts == init + [last];
      NetOne(t, token, last);
    }
  }

  lemma {:induction false} NetOverSnoc(ts: seq<Transfer>, t: Transfer, token: Bytes, accounts: seq<Bytes>)
    ensures NetOver(ts + [t], token, accounts) == NetOver(ts, token, accounts) + NetOver([t], token, accounts)
  {
    hide Net;
    if accounts != [] {
      NetOverSnoc(ts, t, token, accounts[..|accounts| - 1]);
      NetSnoc(ts, t, token, accounts[|accounts| - 1]);
    }
  }

  lemma {:induction false} NetOverNothing(token: Bytes, accounts: seq<Bytes>)
    ensures NetOver([], token, accounts) == 0
  {
    if accounts != [] {
      NetOverNothing(token, accounts[..|accounts| - 1]);
    }
  }

  /** Over any list of distinct accounts that holds every party to the transfers, the changes cancel. */
  lemma {:induction false} FlowsSumToZero(ts: seq<Transfer>, token: Bytes, accounts: seq<Bytes>)
    requires forall i, j :: 0 <= i < j < |accounts| ==> accounts[i] != accounts[j]
    requires forall i :: 0 <= i < |ts| ==> ts[i].from in accounts && ts[i].to in accounts
    ensures NetOver(ts, token, accounts) == 0
  {
    hide NetOver;
    if ts == [] {
      NetOverNothing(token, accounts);
    } else {
      var init, last := ts[..|ts| - 1], ts[|ts| - 1];
      assert ts == init + [last];
      assert forall i :: 0 <= i < |init| ==> init[i] == ts[i];
      FlowsSumToZero(init, token, accounts);
      NetOverSnoc(init, last, token, accounts);
      OneTransferOver(last, token, accounts);
    }
  }

  // ---------------------------------------------------------------- the verifier's check

  /** A declared value: a number, a truth value or a text. */
  datatype Expected = Number(n: int) | Truth(on: bool) | Word(s: string)

  datatype Assertion = Assertion(
    id: string, kind: string, target: string, operator: string, expected: Expected, observedRecord: string,
    actor: Option<Bytes>, token: Option<Bytes>, required: bool)

  /** Python's `int` on a declared value; `textInt` reads text. */
  function IntOf(textInt: string -> Option<int>, e: Expected): Option<int> {
    match e
    case Number(n) => Some(n)
    case Truth(on) => Some(if on then 1 else 0)
    case Word(s) => textInt(s)
  }

  predicate DeclaresFlow(a: Assertion) {
    a.required && a.kind == "balance_delta" && a.actor.Some? && a.token.Some?
  }

  /** The two sums of one assertion, each a pass over the summary's transfers. */
  method FlowOf(transfers: seq<TraceTransfer>, token: Bytes, actor: Bytes) returns (net: int)
    ensures net == Net(Flows(transfers), token, actor)
  {
    var incoming, outgoing := 0, 0;
    for k := 0 to |transfers|
      invariant incoming == Incoming(Flows(transfers[..k]), token, actor)
      invariant outgoing == Outgoing(Flows(transfers[..k]), token, actor)
    {
      var t := transfers[k].flow;
      assert Flows(transfers[..k + 1])[..k] == Flows(transfers[..k]);
      if t.token == token && t.to == actor {
        incoming := incoming + t.amount;
      }
      if t.token == token && t.from == actor {
        outgoing := outgoing + t.amount;
      }
    }
    assert transfers[..|transfers|] == transfers;
    return incoming - outgoing;
  }

  /** The flow part of `derive_harness`: accepts exactly when the balance delta that any required
      assertion declares for an actor and a token is the actor's true change of balance, from any
      starting ledger. */
  method CheckFlows(textInt: string -> Option<int>, assertions: seq<Assertion>, transfers: seq<TraceTransfer>) returns (ok: bool)
    ensures ok <==> forall i :: 0 <= i < |assertions| && assertions[i].required && assertions[i].kind == "balance_delta"
                                && assertions[i].actor.Some? && assertions[i].token.Some? ==>
                      DeltaHolds(textInt, assertions[i], Flows(transfers))
  {
    hide DeltaHolds;
    for k := 0 to |assertions|
      invariant forall i :: 0 <= i < k && DeclaresFlow(assertions[i]) ==> DeltaHolds(textInt, assertions[i], Flows(transfers))
    {
      var a := assertions[k];
      if DeclaresFlow(a) {
        var net := FlowOf(transfers, a.token.value, a.actor.value);
        DeltaIsNet(textInt, a, Flows(transfers));
        if IntOf(textInt, a.expected) != Some(net) {
          return false;
        }
      }
    }
    return true;
  }

  /** The declared value stands for the number. */
  predicate Declares(textInt: string -> Option<int>, e: Expected, n: int) {
    e == Number(n) || (e == Truth(false) && n == 0) || (e == Truth(true) && n == 1) || (e.Word? && textInt(e.s) == Some(n))
  }

  /** The declared value stands for a number, and from every starting ledger, applying the transfers
      changes the actor's balance by it. */
  ghost predicate DeltaHolds(textInt: string -> Option<int>, a: Assertion, ts: seq<Transfer>)
    requires a.actor.Some? && a.token.Some?
  {
    exists n :: Declares(textInt, a.expected, n) &&
                forall l: Ledger :: Apply(l, ts)(a.token.value, a.actor.value) == l(a.token.value, a.actor.value) + n
  }

  lemma {:induction false} DeltaIsNet(textInt: string -> Option<int>, a: Assertion, ts: seq<Transfer>)
    requires a.actor.Some? && a.token.Some?
    ensures DeltaHolds(textInt, a, ts) <==> IntOf(textInt, a.expected) == Some(Net(ts, a.token.value, a.actor.value))
  {
    assert forall n :: Declares(textInt, a.expected, n) <==> IntOf(textInt, a.expected) == Some(n);
    hide Apply, Net, IntOf, Declares;
    forall l: Ledger
      ensures Apply(l, ts)(a.token.value, a.actor.value) == l(a.token.value, a.actor.value) + Net(ts, a.token.value, a.actor.value)
    {
      NetIsBalanceChange(l, ts, a.token.value, a.actor.value);
    }
    var zero: Ledger := (token, who) => 0;
    assert zero(a.token.value, a.actor.value) == 0;
    assert Apply(zero, ts)(a.token.value, a.actor.value) == Net(ts, a.token.value, a.actor.value);
  }

  /** End to end: what the check accepts on a summary is the true change of balance over all the
      transfers that successful nodes of the arenas made, setup included, in whatever order. */
  lemma {:induction false} DeltaIsTrueOfTheArenas(
    cfg: Config, pcfg: ParseConfig, traces: seq<TraceEntry>, forge: ForgeLogs, time: Option<int>, block: Option<int>,
    textInt: string -> Option<int>, a: Assertion, ts: seq<Transfer>)
    requires Adapt(cfg, traces, forge).Ok? && a.actor.Some? && a.token.Some?
    requires Acceptable(pcfg, Records(ForestFrames(Adapt(cfg, traces, forge).value)), time, block)
    requires DeltaHolds(textInt, a, Flows(Summarize(pcfg, Records(ForestFrames(Adapt(cfg, traces, forge).value)), time, block).transfers))
    requires multiset(ts) == ArenasTotal(ArenasOf(traces), NodeTransferBag(cfg, ArenasOf(traces)))
    ensures DeltaHolds(textInt, a, ts)
  {
    hide Adapt, Acceptable, Records, ForestFrames, Summarize, ArenasTotal, NodeTransferBag, ArenasOf, DeltaHolds, Net;
    SummaryTransfersExact(cfg, pcfg, traces, forge, time, block);
    var flows := Flows(Summarize(pcfg, Records(ForestFrames(Adapt(cfg, traces, forge).value)), time, block).transfers);
    DeltaIsNet(textInt, a, flows);
    DeltaIsNet(textInt, a, ts);
    NetIgnoresOrder(flows, ts, a.token.value, a.actor.value);
  }
}
