/**
 What it takes for one arena node to be accepted, read off its raw fields: its call, the entries of
 its ordering, its children and its logs.
 */
module NodesExact {
  import opened Prelude
  import opened Bags
  import opened Abi
  import opened Arena
  import opened ArenaWalk
  import opened ArenaFacts
  import opened ArenaGraph
  import opened ArenaAcceptance
  import opened ArenaLogs

  // ---------------------------------------------------------------- the call

  predicate Sized(b: Option<Bytes>, n: nat) {
    b.Some? && |b.value| == n
  }

  /** Call data that names a known cheatcode decodes, and a clock call carries at least one value. */
  predicate Readable(cfg: Config, data: Bytes) {
    |data| >= 4 && data[..4] in cfg.table ==>
      var s := cfg.table[data[..4]];
      var args := Decode(s.types, data[4..]);
      args.Ok? && (s.name in {"warp", "roll"} ==> args.value != [])
  }

  /** All call fields are present, the addresses have 20 bytes and, if the node calls the cheatcode
      address, its data is readable. */
  predicate Callable(cfg: Config, n: Node) {
    && n.trace.Some?
    && var t := n.trace.value;
       && t.kind != "" && Sized(t.address, 20) && Sized(t.caller, 20)
       && t.data.Some? && t.success.Some? && t.depth.Some? && t.gasUsed.Some?
       && (t.kind in CALL_KINDS && t.address == Some(CHEATCODE_ADDRESS) ==> Readable(cfg, t.data.value))
  }

  /** Exactly the clock calls carry an absolute value, their first argument. */
  predicate ClockValue(c: Cheat) {
    c.absolute == if c.name in {"warp", "roll"} && c.args != [] then Some(c.args[0]) else None
  }

  /** A node opens exactly when it is callable, and its frame carries the fields of the call. */
  lemma {:induction false} OpensExactly(cfg: Config, phase: string, n: Node)
    ensures OpenHead(cfg, phase, n).Ok? <==> Callable(cfg, n)
    ensures OpenHead(cfg, phase, n).Ok? ==>
              var h, t := OpenHead(cfg, phase, n).value, n.trace.value;
              && h.kind == t.kind && Some(h.to) == t.address && Some(h.caller) == t.caller && Some(h.data) == t.data
              && Some(h.depth) == t.depth && Some(h.gasUsed) == t.gasUsed && Some(h.success) == t.success && h.phase == phase
              && h.selector == (if t.kind in CALL_KINDS && |h.data| >= 4 then Some(h.data[..4]) else None)
              && (h.cheat.Some? <==> t.kind in CALL_KINDS && t.address == Some(CHEATCODE_ADDRESS))
              && (h.cheat.Some? ==> ClockValue(h.cheat.value))
  {
    if n.trace.Some? && n.trace.value.data.Some? && |n.trace.value.data.value| >= 4 {
      NotAClockName(HexText(n.trace.value.data.value[..4]));
    }
    hide Decode, HexText;
  }

  lemma {:induction false} NotAClockName(hex: string)
    ensures "unknown_0x" + hex !in {"warp", "roll"}
  {
    assert ("unknown_0x" + hex)[0] == 'u';
  }

  // ---------------------------------------------------------------- the ordering

  /** The child position an entry names: "Step" hides "Call". */
  function CallRef(e: Entry): Option<Ref> {
    if e.isStep then None else e.call
  }

  /** The log position an entry names: "Step" and "Call" hide "Log". */
  function LogRef(e: Entry): Option<Ref> {
    if e.isStep || e.call.Some? then None else e.log
  }

  function Picked(ord: seq<Entry>, pick: Entry -> Option<Ref>): seq<Ref> {
    if ord == [] then []
    else Picked(ord[..|ord| - 1], pick) + match pick(ord[|ord| - 1]) case None => [] case Some(r) => [r]
  }

  lemma {:induction false} RefsArePicked(ord: seq<Entry>)
    ensures Calls(ord) == Picked(ord, CallRef) && LogRefs(ord) == Picked(ord, LogRef)
  {
    if ord != [] {
      RefsArePicked(ord[..|ord| - 1]);
    }
  }

  ghost predicate NamedOnce(ord: seq<Entry>, pick: Entry -> Option<Ref>, r: Ref) {
    exists j :: 0 <= j < |ord| && pick(ord[j]) == Some(r) && forall i :: 0 <= i < |ord| && pick(ord[i]) == Some(r) ==> i == j
  }

  ghost predicate Named(ord: seq<Entry>, pick: Entry -> Option<Ref>, r: Ref) {
    exists j :: 0 <= j < |ord| && pick(ord[j]) == Some(r)
  }

  ghost predicate NamedTwice(ord: seq<Entry>, pick: Entry -> Option<Ref>, r: Ref) {
    exists i, j :: 0 <= i < |ord| && 0 <= j < |ord| && pick(ord[i]) == Some(r) && pick(ord[j]) == Some(r) && i != j
  }

  lemma {:induction false} NamedStep(ord: seq<Entry>, pick: Entry -> Option<Ref>, r: Ref)
    requires ord != []
    ensures var init, here := ord[..|ord| - 1], pick(ord[|ord| - 1]) == Some(r);
            && (Named(ord, pick, r) <==> Named(init, pick, r) || here)
            && (NamedTwice(ord, pick, r) <==> NamedTwice(init, pick, r) || (Named(init, pick, r) && here))
  {
    var init, last := ord[..|ord| - 1], |ord| - 1;
    assert forall i :: 0 <= i < |init| ==> init[i] == ord[i];
    if Named(init, pick, r) && pick(ord[last]) == Some(r) {
      var j :| 0 <= j < |init| && pick(init[j]) == Some(r);
      assert pick(ord[j]) == Some(r) && j != last;
    }
  }

  lemma {:induction false} PickedCounted(ord: seq<Entry>, pick: Entry -> Option<Ref>, r: Ref)
    ensures multiset(Picked(ord, pick))[r] >= 1 <==> Named(ord, pick, r)
    ensures multiset(Picked(ord, pick))[r] >= 2 <==> NamedTwice(ord, pick, r)
  {
    if ord != [] {
      NamedStep(ord, pick, r);
      hide Named, NamedTwice;
      PickedCounted(ord[..|ord| - 1], pick, r);
    }
  }

  lemma {:induction false} PickedOnce(ord: seq<Entry>, pick: Entry -> Option<Ref>, r: Ref)
    ensures multiset(Picked(ord, pick))[r] == 1 <==> NamedOnce(ord, pick, r)
  {
    hide Picked;
    PickedCounted(ord, pick, r);
  }

  predicate Within(r: Ref, n: nat) {
    r.Index? && 0 <= r.i < n
  }

  /** Every entry that names a position names one below `n`, and every position below `n` is named by
      exactly one entry. */
  ghost predicate Covers(ord: seq<Entry>, pick: Entry -> Option<Ref>, n: nat) {
    && PicksWithin(ord, pick, n)
    && (forall p :: 0 <= p < n ==> NamedOnce(ord, pick, Index(p)))
  }

  ghost predicate AllWithin(refs: seq<Ref>, n: nat) {
    forall k :: 0 <= k < |refs| ==> Within(refs[k], n)
  }

  lemma {:induction false} AllWithinSnoc(refs: seq<Ref>, r: Ref, n: nat)
    ensures AllWithin(refs + [r], n) <==> AllWithin(refs, n) && Within(r, n)
  {
    hide Within;
    assert (refs + [r])[|refs|] == r;
    assert forall k :: 0 <= k < |refs| ==> (refs + [r])[k] == refs[k];
  }

  ghost predicate PicksWithin(ord: seq<Entry>, pick: Entry -> Option<Ref>, n: nat) {
    forall j :: 0 <= j < |ord| && pick(ord[j]).Some? ==> Within(pick(ord[j]).value, n)
  }

  lemma {:induction false} PickedWithin(ord: seq<Entry>, pick: Entry -> Option<Ref>, n: nat)
    ensures AllWithin(Picked(ord, pick), n) <==> PicksWithin(ord, pick, n)
  {
    hide Within;
    if ord != [] {
      var init, last := ord[..|ord| - 1], pick(ord[|ord| - 1]);
      PickedWithin(init, pick, n);
      assert PicksWithin(ord, pick, n) <==> PicksWithin(init, pick, n) && (last.Some? ==> Within(last.value, n)) by {
        assert forall j :: 0 <= j < |init| ==> init[j] == ord[j];
      }
      if last.Some? {
        AllWithinSnoc(Picked(init, pick), last.value, n);
      } else {
        assert Picked(ord, pick) == Picked(init, pick);
      }
    }
  }

  /** A list of distinct positions below `n`, as long as `n`, holds each of them once. */
  lemma {:induction false} CountsWhenOnce(refs: seq<Ref>, n: nat)
    requires AllWithin(refs, n)
    ensures Distinct(refs) && |refs| == n <==> forall p :: 0 <= p < n ==> multiset(refs)[Index(p)] == 1
  {
    var at := Positions(refs);
    if Distinct(refs) && |refs| == n {
      Pigeonhole(at, n);
      forall p | 0 <= p < n
        ensures multiset(refs)[Index(p)] == 1
      {
        assert Range(n)[p] == p;
        assert p in multiset(at);
        var k :| 0 <= k < |at| && at[k] == p;
        assert refs[k] == Index(p);
        DistinctCount(refs, Index(p));
      }
    }
    if forall p :: 0 <= p < n ==> multiset(refs)[Index(p)] == 1 {
      SingleCounts(refs, n);
      AllNamed(refs, n);
    }
  }

  lemma {:induction false} SingleCounts(refs: seq<Ref>, n: nat)
    requires AllWithin(refs, n) && forall p :: 0 <= p < n ==> multiset(refs)[Index(p)] == 1
    ensures Distinct(refs)
  {
    forall i, j | 0 <= i < j < |refs|
      ensures refs[i] != refs[j]
    {
      assert refs == refs[..j] + [refs[j]] + refs[j + 1..];
      assert refs[..j][i] == refs[i];
      assert multiset(refs[..j] + [refs[j]])[refs[i]] == multiset(refs[..j])[refs[i]] + multiset([refs[j]])[refs[i]];
      assert Within(refs[i], n) && refs[i] == Index(refs[i].i);
    }
  }

  lemma {:induction false} AllNamed(refs: seq<Ref>, n: nat)
    requires AllWithin(refs, n) && Distinct(refs) && forall p :: 0 <= p < n ==> multiset(refs)[Index(p)] == 1
    ensures |refs| == n
  {
    var all := seq(n, i => Index(i));
    DistinctSize(all);
    DistinctSize(refs);
    forall r
      ensures r in refs <==> r in all
    {
      if r in refs {
        assert Within(r, n) && all[r.i] == r;
      }
      if r in all {
        assert multiset(refs)[r] == 1;
      }
    }
    assert (set r | r in refs) == (set r | r in all);
  }

  lemma {:induction false} CoversExactly(ord: seq<Entry>, pick: Entry -> Option<Ref>, n: nat)
    ensures Covers(ord, pick, n) <==>
            Distinct(Picked(ord, pick)) && |Picked(ord, pick)| == n && AllWithin(Picked(ord, pick), n)
  {
    hide Distinct, AllWithin, PicksWithin, Picked, NamedOnce, Within;
    PickedWithin(ord, pick, n);
    forall p | 0 <= p < n
      ensures multiset(Picked(ord, pick))[Index(p)] == 1 <==> NamedOnce(ord, pick, Index(p))
    {
      PickedOnce(ord, pick, Index(p));
    }
    if AllWithin(Picked(ord, pick), n) {
      CountsWhenOnce(Picked(ord, pick), n);
    }
  }

  // ---------------------------------------------------------------- the node

  /** A log with readable fields whose event, if its first topic announces one, decodes. */
  predicate ReadableLog(cfg: Config, entry: Option<RawLog>) {
    && RawKey(entry).Some?
    && var k := RawKey(entry).value;
       k.topics != [] ==>
         var topic := k.topics[0];
         && (topic in {cfg.assertionTopic, cfg.controlTopic, cfg.contextTopic, cfg.economicTopic} ==> |k.topics| == 2 && |k.topics[1]| == 32)
         && (topic == cfg.assertionTopic ==> Decode([String, String, Int(256), Int(256), Bool], k.data).Ok?)
         && (topic != cfg.assertionTopic && topic == cfg.controlTopic ==> Decode([Bool], k.data).Ok?)
         && (topic !in {cfg.assertionTopic, cfg.controlTopic} && topic == cfg.contextTopic ==> Decode([Address, Address], k.data).Ok?)
         && (topic !in {cfg.assertionTopic, cfg.controlTopic, cfg.contextTopic} && topic == cfg.economicTopic ==>
               Decode([Address, Address, Uint(256), Uint(256), Uint(256), Uint(256), Uint(256), Int(256)], k.data).Ok?)
  }

  lemma {:induction false} ConvertsExactly(cfg: Config, entry: Option<RawLog>, reverted: bool)
    ensures ConvertLog(cfg, entry, reverted).Ok? <==> ReadableLog(cfg, entry)
  {
    RawIsRead(entry);
    hide RawKey, ReadLog, Decode, DecodeTransfer, Label;
  }

  function Listed<T>(f: Field<T>): seq<T> {
    if f.Items? then f.items else []
  }

  /** The node's call can be opened; every entry of its ordering is a step or names a position; its
      calls cover its children and its logs its log list, each position once; every child is a node
      that points back; every log is readable. */
  ghost predicate GoodNode(cfg: Config, nodes: map<int, Node>, idx: int)
    requires idx in nodes
  {
    var n := nodes[idx];
    && Callable(cfg, n) && !n.children.Malformed? && !n.logs.Malformed? && n.ordering.Some?
    && var ord := n.ordering.value;
    && (forall j :: 0 <= j < |ord| ==> ord[j].isStep || CallRef(ord[j]).Some? || LogRef(ord[j]).Some?)
    && Covers(ord, CallRef, |Listed(n.children)|) && Covers(ord, LogRef, |Listed(n.logs)|)
    && (forall p :: 0 <= p < |Listed(n.children)| ==> PointsBack(nodes, idx, Listed(n.children)[p]))
    && (forall p :: 0 <= p < |Listed(n.logs)| ==> ReadableLog(cfg, Listed(n.logs)[p]))
  }

  predicate PointsBack(nodes: map<int, Node>, idx: int, child: Ref) {
    child.Index? && child.i in nodes && nodes[child.i].parent == Index(idx)
  }

  lemma {:induction false} Reaches(refs: seq<Ref>, n: nat, p: nat) returns (k: nat)
    requires Distinct(refs) && |refs| == n && AllWithin(refs, n) && p < n
    ensures k < |refs| && refs[k] == Index(p)
  {
    CountsWhenOnce(refs, n);
    assert Index(p) in multiset(refs);
    k :| 0 <= k < |refs| && refs[k] == Index(p);
  }

  lemma {:induction false} ChildrenFit(env: Env, idx: int, refs: seq<Ref>, items: seq<Ref>)
    requires idx in env.nodes && items == Listed(env.nodes[idx].children) && Distinct(refs) && |refs| == |items|
    ensures (forall k :: 0 <= k < |refs| ==> ChildAt(env, idx, refs[k]).Ok?) <==>
            AllWithin(refs, |items|) && forall p :: 0 <= p < |items| ==> PointsBack(env.nodes, idx, items[p])
  {
    hide Distinct;
    if forall k :: 0 <= k < |refs| ==> ChildAt(env, idx, refs[k]).Ok? {
      forall p | 0 <= p < |items|
        ensures PointsBack(env.nodes, idx, items[p])
      {
        var k := Reaches(refs, |items|, p);
      }
    }
  }

  lemma {:induction false} ChildrenExactly(env: Env, idx: int, ord: seq<Entry>)
    requires idx in env.nodes
    ensures var n, refs := env.nodes[idx], Calls(ord);
            CallsOk(env, idx, refs) && Count(n.children) == Some(|refs|) <==>
            && !n.children.Malformed? && Covers(ord, CallRef, |Listed(n.children)|)
            && forall p :: 0 <= p < |Listed(n.children)| ==> PointsBack(env.nodes, idx, Listed(n.children)[p])
  {
    var refs, items := Calls(ord), Listed(env.nodes[idx].children);
    RefsArePicked(ord);
    CoversExactly(ord, CallRef, |items|);
    if Distinct(refs) && |refs| == |items| {
      ChildrenFit(env, idx, refs, items);
    }
    hide Covers, Calls, Picked, ChildAt, PointsBack, Distinct;
  }

  lemma {:induction false} LogsFit(env: Env, idx: int, refs: seq<Ref>, items: seq<Option<RawLog>>)
    requires idx in env.nodes && items == Listed(env.nodes[idx].logs) && Distinct(refs) && |refs| == |items|
    ensures (forall k :: 0 <= k < |refs| ==> RecordAt(env, idx, refs[k], false).Ok?) <==>
            AllWithin(refs, |items|) && forall p :: 0 <= p < |items| ==> ReadableLog(env.cfg, items[p])
  {
    hide Distinct, ReadableLog, ConvertLog;
    forall p | 0 <= p < |items|
      ensures ConvertLog(env.cfg, items[p], false).Ok? <==> ReadableLog(env.cfg, items[p])
    {
      ConvertsExactly(env.cfg, items[p], false);
    }
    if forall k :: 0 <= k < |refs| ==> RecordAt(env, idx, refs[k], false).Ok? {
      forall p | 0 <= p < |items|
        ensures ReadableLog(env.cfg, items[p])
      {
        var k := Reaches(refs, |items|, p);
      }
    }
  }

  lemma {:induction false} LogListExactly(env: Env, idx: int, ord: seq<Entry>)
    requires idx in env.nodes
    ensures var n, refs := env.nodes[idx], LogRefs(ord);
            LogsOk(env, idx, refs) && Count(n.logs) == Some(|refs|) <==>
            && !n.logs.Malformed? && Covers(ord, LogRef, |Listed(n.logs)|)
            && forall p :: 0 <= p < |Listed(n.logs)| ==> ReadableLog(env.cfg, Listed(n.logs)[p])
  {
    var refs, items := LogRefs(ord), Listed(env.nodes[idx].logs);
    RefsArePicked(ord);
    CoversExactly(ord, LogRef, |items|);
    if Distinct(refs) && |refs| == |items| {
      LogsFit(env, idx, refs, items);
    }
    hide Covers, LogRefs, Picked, ReadableLog, RecordAt, Distinct;
  }

  /** The nodes that conversion accepts are the good ones. */
  lemma {:induction false} NodeOkExactly(env: Env, idx: int)
    requires idx in env.nodes
    ensures NodeOk(env, idx) <==> GoodNode(env.cfg, env.nodes, idx)
  {
    var n := env.nodes[idx];
    OpensExactly(env.cfg, env.phase, n);
    if n.ordering.Some? {
      ChildrenExactly(env, idx, n.ordering.value);
      LogListExactly(env, idx, n.ordering.value);
    }
    hide OpenHead, Callable, CallsOk, LogsOk, Covers, PointsBack, ReadableLog, Calls, LogRefs;
  }

  // ---------------------------------------------------------------- the arena

  /** Conversion accepts an arena exactly when its indices are unique, exactly one node has no parent,
      every node is good, and every node lies on exactly one call path from that root. */
  lemma {:induction false} AcceptedArenas(cfg: Config, phase: string, nodes: seq<Node>)
    ensures Convert(cfg, phase, nodes).Ok? <==>
            && (forall i :: 0 <= i < |nodes| ==> nodes[i].idx.Some?)
            && (forall i, j :: 0 <= i < j < |nodes| ==> nodes[i].idx != nodes[j].idx)
            && (exists r :: OnlyParentless(nodes, r) && ReachedOnce(EnvOf(cfg, phase, nodes), nodes[r].idx.value))
            && (forall i :: i in ByIndex(nodes) ==> GoodNode(cfg, ByIndex(nodes), i))
  {
    hide GoodNode, NodeOk, ReachedOnce, Convert;
    AcceptedExactly(cfg, phase, nodes);
    if DistinctIndices(nodes) {
      var env := EnvOf(cfg, phase, nodes);
      forall i | i in env.nodes
        ensures NodeOk(env, i) <==> GoodNode(cfg, env.nodes, i)
      {
        NodeOkExactly(env, i);
      }
      OneRoot(nodes);
      ByIndexFacts(nodes);
      RootsFacts(nodes);
    }
  }

  predicate OnlyParentless(nodes: seq<Node>, r: int) {
    && 0 <= r < |nodes| && nodes[r].idx.Some? && nodes[r].parent.Absent?
    && forall i :: 0 <= i < |nodes| && nodes[i].parent.Absent? ==> i == r
  }

  lemma {:induction false} NoRoots(nodes: seq<Node>)
    requires forall i :: 0 <= i < |nodes| ==> !nodes[i].parent.Absent?
    ensures Roots(nodes) == []
  {
    if nodes != [] {
      NoRoots(nodes[..|nodes| - 1]);
    }
  }

  lemma {:induction false} OneRoot(nodes: seq<Node>)
    requires forall i :: 0 <= i < |nodes| ==> nodes[i].idx.Some?
    ensures |Roots(nodes)| == 1 ==> exists r :: OnlyParentless(nodes, r)
    ensures forall r :: OnlyParentless(nodes, r) ==> Roots(nodes) == [nodes[r]]
  {
    if nodes != [] {
      var init, last := nodes[..|nodes| - 1], |nodes| - 1;
      OneRoot(init);
      RootsFacts(init);
      assert forall i :: 0 <= i < |init| ==> init[i] == nodes[i] && (init[i].parent.Absent? <==> init[i] in Roots(init));
      if nodes[last].parent.Absent? {
        if |Roots(nodes)| == 1 {
          assert OnlyParentless(nodes, last);
        }
        if OnlyParentless(nodes, last) {
          NoRoots(init);
        }
      } else {
        assert forall r :: OnlyParentless(nodes, r) <==> OnlyParentless(init, r);
      }
    }
  }
}
