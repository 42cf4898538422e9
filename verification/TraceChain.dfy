/**
 The whole chain from Forge's arenas to the trace summary: convert, normalize, flatten, parse.
 Nothing in an accepted arena escapes the summary.
 */
module TraceChain {
  import opened Prelude
  import opened Bags
  import opened Abi
  import opened Arena
  import opened ArenaWalk
  import opened ArenaFacts
  import opened ArenaGraph
  import opened ArenaLogs
  import opened ArenaLoop
  import opened Adapter
  import opened Trace

  // ---------------------------------------------------------------- normalizing frames

  /** The canonical record of one frame without its children. `success` is not carried over. */
  function BareRecord(h: FrameHead, logs: seq<LogRecord>, transfers: seq<Transfer>): Record {
    Record(h.depth, h.kind, Some(h.to), h.selector, h.phase, Some(h.caller), Some(h.data), Some(h.gasUsed), None,
           if h.cheat.Some? then Some(h.cheat.value.name) else None,
           if h.cheat.Some? then h.cheat.value.args else [],
           if h.cheat.Some? then h.cheat.value.absolute else None,
           None, transfers, logs, [])
  }

  function RecordOf(s: Tree): (r: Record)
    ensures r.children == []
  {
    BareRecord(s.head, Logs(s.events), Transfers(s.events))
  }

  function Normalized(t: Tree): Record
    decreases t
  {
    RecordOf(t).(children := NormalizedChildren(t.events))
  }

  function NormalizedChildren(events: seq<TreeEvent>): seq<Record>
    decreases events
  {
    if events == [] then []
    else NormalizedChildren(events[..|events| - 1]) + NormalizedEvent(events[|events| - 1])
  }

  function NormalizedEvent(e: TreeEvent): seq<Record>
    decreases e
  {
    if e.Sub? then [Normalized(e.tree)] else []
  }

  lemma {:induction false} NormalizedChild(events: seq<TreeEvent>, j: nat)
    ensures |NormalizedChildren(events)| == |Subs(events)|
    ensures j < |Subs(events)| ==> NormalizedChildren(events)[j] == Normalized(Subs(events)[j])
  {
    hide Normalized;
    if events != [] {
      NormalizedChild(events[..|events| - 1], j);
    }
  }

  lemma {:induction false} ChildRepresented(fs: seq<Frame>, events: seq<TreeEvent>, done: set<Frame>, j: nat)
    requires ChildrenRepresent(fs, events, done)
    ensures |fs| == |Subs(events)|
    ensures j < |fs| ==> Represents(fs[j], Subs(events)[j], done)
  {
    hide Represents;
    if events != [] {
      var e, init := events[|events| - 1], events[..|events| - 1];
      if e.Emit? {
        ChildRepresented(fs, init, done, j);
      } else {
        ChildRepresented(fs[..|fs| - 1], init, done, j);
        assert EventRepresents(fs[|fs| - 1], e, done);
      }
    }
  }

  /** `_normalize_frame` on the frames that conversion built. */
  method NormalizeFrame(f: Frame, ghost t: Tree, ghost done: set<Frame>) returns (r: Record)
    requires Represents(f, t, done)
    ensures r == Normalized(t)
    decreases |Preorder(t)|
  {
    hide Logs, Transfers, Below, Flat, Subs, ChildrenRepresent;
    var children: seq<Record> := [];
    ChildRepresented(f.children, t.events, done, 0);
    NormalizedChild(t.events, 0);
    BelowIsFlat(t.events);
    for k := 0 to |f.children|
      invariant |children| == k
      invariant children == NormalizedChildren(t.events)[..k]
    {
      ChildRepresented(f.children, t.events, done, k);
      NormalizedChild(t.events, k);
      InFlat(Subs(t.events), k);
      var child := NormalizeFrame(f.children[k], Subs(t.events)[k], done);
      children := children + [child];
    }
    r := BareRecord(f.head, f.logs, f.transfers).(children := children);
  }

  // ---------------------------------------------------------------- flattening normalized frames

  function Records(ts: seq<Tree>): (rs: seq<Record>)
    ensures |rs| == |ts|
    ensures forall i :: 0 <= i < |ts| ==> rs[i] == RecordOf(ts[i])
  {
    seq(|ts|, i requires 0 <= i < |ts| => RecordOf(ts[i]))
  }

  lemma {:induction false} RecordsAppend(a: seq<Tree>, b: seq<Tree>)
    ensures Records(a + b) == Records(a) + Records(b)
  {
  }

  lemma {:induction false} FlattenAllAppend(a: seq<Record>, b: seq<Record>)
    ensures FlattenAll(a + b) == FlattenAll(a) + FlattenAll(b)
  {
    if b == [] {
      assert a + b == a;
    } else {
      assert (a + b)[..|a + b| - 1] == a + b[..|b| - 1];
      FlattenAllAppend(a, b[..|b| - 1]);
    }
  }

  /** Flattening a normalized tree lists its frames in pre-order. */
  lemma {:induction false} FlattenTree(t: Tree)
    ensures Flatten(Normalized(t)) == Records(Preorder(t))
    decreases t
  {
    hide RecordOf;
    FlattenEvents(t.events);
    RecordsAppend([t], Below(t.events));
    assert Records([t]) == [RecordOf(t)];
    assert Bare(Normalized(t)) == RecordOf(t);
  }

  lemma {:induction false} FlattenEvents(events: seq<TreeEvent>)
    ensures FlattenAll(NormalizedChildren(events)) == Records(Below(events))
    decreases events
  {
    hide RecordOf, Flatten;
    if events != [] {
      var init, e := events[..|events| - 1], events[|events| - 1];
      FlattenEvents(init);
      FlattenEvent(e);
      FlattenAllAppend(NormalizedChildren(init), NormalizedEvent(e));
      RecordsAppend(Below(init), BelowEvent(e));
    }
  }

  lemma {:induction false} FlattenEvent(e: TreeEvent)
    ensures FlattenAll(NormalizedEvent(e)) == Records(BelowEvent(e))
    decreases e
  {
    hide RecordOf, Flatten, Normalized, Preorder;
    if e.Sub? {
      FlattenTree(e.tree);
      var one := [Normalized(e.tree)];
      assert one[..|one| - 1] == [];
      assert FlattenAll(one) == [] + Flatten(one[0]);
    }
  }

  /** All frames of the arenas' trees, arena by arena. */
  function ForestFrames(trees: seq<Tree>): seq<Tree> {
    if trees == [] then [] else ForestFrames(trees[..|trees| - 1]) + Preorder(trees[|trees| - 1])
  }

  function NormalizedForest(trees: seq<Tree>): (rs: seq<Record>)
    ensures |rs| == |trees|
    ensures forall i :: 0 <= i < |trees| ==> rs[i] == Normalized(trees[i])
  {
    seq(|trees|, i requires 0 <= i < |trees| => Normalized(trees[i]))
  }

  lemma {:induction false} FlattenForest(trees: seq<Tree>)
    ensures FlattenAll(NormalizedForest(trees)) == Records(ForestFrames(trees))
  {
    hide RecordOf, Normalized, Flatten;
    if trees != [] {
      var init, last := trees[..|trees| - 1], trees[|trees| - 1];
      FlattenForest(init);
      FlattenTree(last);
      assert NormalizedForest(trees)[..|trees| - 1] == NormalizedForest(init);
      RecordsAppend(ForestFrames(init), Preorder(last));
    }
  }

  /** Adapt, normalize, flatten and parse: the summary of an accepted run is the summary of the
      records of all frames of all arenas, in pre-order. */
  method DeriveSummary(cfg: Config, pcfg: ParseConfig, traces: seq<TraceEntry>, forge: ForgeLogs, time: Option<int>, block: Option<int>)
    returns (r: Result<Summary>)
    ensures r.Ok? <==>
            && Adapt(cfg, traces, forge).Ok?
            && Acceptable(pcfg, Records(ForestFrames(Adapt(cfg, traces, forge).value)), time, block)
    ensures r.Ok? ==>
              r.value == Summarize(pcfg, Records(ForestFrames(Adapt(cfg, traces, forge).value)), time, block)
  {
    hide Adapt, Acceptable, Normalized, Summarize;
    var frames, done := AdaptTraces(cfg, traces, forge);
    if frames.Reject? {
      return Reject;
    }
    ghost var trees := Adapt(cfg, traces, forge).value;
    var records: seq<Record> := [];
    for k := 0 to |frames.value|
      invariant ForestRepresents(frames.value, trees, done)
      invariant |records| == k && forall i :: 0 <= i < k ==> records[i] == Normalized(trees[i])
    {
      var record := NormalizeFrame(frames.value[k], trees[k], done);
      records := records + [record];
    }
    assert records == NormalizedForest(trees);
    FlattenForest(trees);
    r := ParseTrace(pcfg, records, time, block);
  }

  // ---------------------------------------------------------------- from sums over frames to sums over nodes

  /** A sum over all frames is the sum over the arenas, given what each arena's frames sum to. */
  lemma {:induction false} ForestTotal<T>(cfg: Config, arenas: map<string, seq<Node>>, kinds: seq<string>, f: Tree -> multiset<T>, h: string -> multiset<T>)
    requires ConvertKinds(cfg, arenas, kinds).Ok?
    requires forall kind :: kind in kinds && kind !in arenas ==> h(kind) == multiset{}
    requires forall kind :: kind in kinds && kind in arenas && Convert(cfg, PhaseOf(kind), arenas[kind]).Ok? ==>
               Total(Preorder(Convert(cfg, PhaseOf(kind), arenas[kind]).value), f) == h(kind)
    ensures Total(ForestFrames(ConvertKinds(cfg, arenas, kinds).value), f) == Total(kinds, h)
  {
    hide Convert, Preorder;
    if kinds != [] {
      var init, kind := kinds[..|kinds| - 1], kinds[|kinds| - 1];
      ForestTotal(cfg, arenas, init, f, h);
      if kind in arenas {
        var trees, t := ConvertKinds(cfg, arenas, init).value, Convert(cfg, PhaseOf(kind), arenas[kind]).value;
        assert (trees + [t])[..|trees + [t]| - 1] == trees;
        TotalAppend(ForestFrames(trees), Preorder(t), f);
      }
    }
  }

  /** What one arena's nodes contribute. */
  ghost function KindTotal<T>(arenas: map<string, seq<Node>>, h: (string, Node) -> multiset<T>, kind: string): multiset<T> {
    if kind in arenas then Total(arenas[kind], n => h(kind, n)) else multiset{}
  }

  /** The sum over the present arenas of what their nodes contribute. */
  ghost function ArenasTotal<T>(arenas: map<string, seq<Node>>, h: (string, Node) -> multiset<T>): multiset<T> {
    Total(ARENA_ORDER, kind => KindTotal(arenas, h, kind))
  }

  lemma {:induction false} ChainTotal<T>(cfg: Config, arenas: map<string, seq<Node>>, f: Tree -> multiset<T>, h: (string, Node) -> multiset<T>)
    requires ConvertKinds(cfg, arenas, ARENA_ORDER).Ok?
    requires forall kind :: kind in arenas && Convert(cfg, PhaseOf(kind), arenas[kind]).Ok? ==>
               Total(Preorder(Convert(cfg, PhaseOf(kind), arenas[kind]).value), f) == KindTotal(arenas, h, kind)
    ensures Total(ForestFrames(ConvertKinds(cfg, arenas, ARENA_ORDER).value), f) == ArenasTotal(arenas, h)
  {
    hide Convert, ConvertKinds, Preorder, Total, ForestFrames;
    ForestTotal(cfg, arenas, ARENA_ORDER, f, kind => KindTotal(arenas, h, kind));
  }

  function ArenasOf(traces: seq<TraceEntry>): map<string, seq<Node>> {
    match SelectArenas(traces)
    case Reject => map[]
    case Ok(m) => m
  }

  lemma {:induction false} AdaptIsConvertKinds(cfg: Config, traces: seq<TraceEntry>, forge: ForgeLogs)
    requires Adapt(cfg, traces, forge).Ok?
    ensures ConvertKinds(cfg, ArenasOf(traces), ARENA_ORDER) == Adapt(cfg, traces, forge)
  {
    hide ConvertKinds, SelectArenas;
  }

  // ---------------------------------------------------------------- cheatcodes

  /** The cheatcode call that a frame's record contributes. */
  function FrameCheat(pcfg: ParseConfig, s: Tree): Option<CheatcodeCall> {
    if s.head.to == CHEATCODE_ADDRESS then Some(CallOf(pcfg, BareRecord(s.head, [], []))) else None
  }

  /** The name of a call to the cheatcode address: that of its selector, if it is a call and has one. */
  function NameInData(cfg: Config, pcfg: ParseConfig, isCall: bool, data: Bytes): string {
    if !isCall || |data| < 4 then "unknown"
    else if data[..4] !in cfg.table then "unknown_0x" + HexText(data[..4])
    else if cfg.table[data[..4]].name != "" then cfg.table[data[..4]].name
    else if data[..4] in pcfg.table then pcfg.table[data[..4]].name
    else "unknown_0x" + HexText(data[..4])
  }

  /** The arguments of a call to the cheatcode address, as its data spells them out. */
  function ArgsInData(cfg: Config, isCall: bool, data: Bytes): seq<AbiValue> {
    if !isCall || |data| < 4 || data[..4] !in cfg.table || Decode(cfg.table[data[..4]].types, data[4..]).Reject? then []
    else Decode(cfg.table[data[..4]].types, data[4..]).value
  }

  /** The cheatcode call that an arena node addressed to the cheatcode address stands for, read off
      the node: name and arguments from its data, category from the catalog, phase from its arena. */
  function NodeCheat(cfg: Config, pcfg: ParseConfig, kind: string, n: Node): Option<CheatcodeCall> {
    if n.trace.None? || n.trace.value.address != Some(CHEATCODE_ADDRESS) || n.trace.value.data.None? || n.trace.value.depth.None? then None
    else
      var t, data := n.trace.value, n.trace.value.data.value;
      var isCall := t.kind in {"call", "staticcall", "delegatecall", "callcode"};
      var name := NameInData(cfg, pcfg, isCall, data);
      var listed := if Lower(name) in pcfg.catalog then pcfg.catalog[Lower(name)] else "";
      Some(CheatcodeCall(name, if listed == "" then "UNCLASSIFIED" else listed, t.depth.value,
                         if kind == "Execution" then "witness" else "setup", ArgsInData(cfg, isCall, data),
                         if isCall && |data| >= 4 then Some(data[..4]) else None))
  }

  /** What opening a node addressed to the cheatcode address reads is what the node spells out. */
  lemma {:induction false} OpenedCheat(cfg: Config, pcfg: ParseConfig, kind: string, n: Node)
    requires OpenHead(cfg, PhaseOf(kind), n).Ok?
    ensures var head := OpenHead(cfg, PhaseOf(kind), n).value;
            NodeCheat(cfg, pcfg, kind, n) ==
            if head.to == CHEATCODE_ADDRESS then Some(CallOf(pcfg, BareRecord(head, [], []))) else None
  {
    hide Decode, HexText, Lower;
  }

  function FrameCheats(pcfg: ParseConfig, ts: seq<Tree>): seq<CheatcodeCall> {
    if ts == [] then []
    else
      FrameCheats(pcfg, ts[..|ts| - 1]) +
      match FrameCheat(pcfg, ts[|ts| - 1]) case None => [] case Some(c) => [c]
  }

  lemma {:induction false} CheatsOfFrames(pcfg: ParseConfig, ts: seq<Tree>)
    ensures Cheats(pcfg, Records(ts)) == FrameCheats(pcfg, ts)
  {
    if ts != [] {
      var init := ts[..|ts| - 1];
      CheatsOfFrames(pcfg, init);
      assert Records(ts)[..|ts| - 1] == Records(init);
    }
  }

  ghost function FrameCheatBag(pcfg: ParseConfig): Tree -> multiset<CheatcodeCall> {
    (s: Tree) => OptionBag(FrameCheat(pcfg, s))
  }

  ghost function NodeCheatBag(cfg: Config, pcfg: ParseConfig): (string, Node) -> multiset<CheatcodeCall> {
    (kind, n) => OptionBag(NodeCheat(cfg, pcfg, kind, n))
  }

  lemma {:induction false} FrameCheatsTotal(pcfg: ParseConfig, ts: seq<Tree>)
    ensures multiset(FrameCheats(pcfg, ts)) == Total(ts, FrameCheatBag(pcfg))
  {
    hide FrameCheat;
    if ts != [] {
      FrameCheatsTotal(pcfg, ts[..|ts| - 1]);
    }
  }

  lemma {:induction false} ArenaCheats(cfg: Config, pcfg: ParseConfig, arenas: map<string, seq<Node>>, kind: string)
    requires kind in arenas && Convert(cfg, PhaseOf(kind), arenas[kind]).Ok?
    ensures Total(Preorder(Convert(cfg, PhaseOf(kind), arenas[kind]).value), FrameCheatBag(pcfg))
            == KindTotal(arenas, NodeCheatBag(cfg, pcfg), kind)
  {
    hide Convert, OpenHead, NodeOk, CallOf, Total, NodeCheat;
    var nodes, h := arenas[kind], NodeCheatBag(cfg, pcfg);
    var env := EnvOf(cfg, PhaseOf(kind), nodes);
    forall s | s in Preorder(Convert(cfg, PhaseOf(kind), nodes).value)
      ensures s.idx in env.nodes && FrameCheat(pcfg, s) == NodeCheat(cfg, pcfg, kind, env.nodes[s.idx])
    {
      NodeOfFrame(cfg, PhaseOf(kind), nodes, s);
      OpenedCheat(cfg, pcfg, kind, env.nodes[s.idx]);
    }
    NodeTotal(cfg, PhaseOf(kind), nodes, FrameCheatBag(pcfg), n => h(kind, n));
  }

  /** The summary's cheatcode calls are the frames addressed to the cheatcode address, in pre-order;
      as a multiset they are exactly the calls that the arenas' own nodes to that address stand for,
      each with the phase of its arena. */
  lemma {:induction false} CheatcodesExact(cfg: Config, pcfg: ParseConfig, traces: seq<TraceEntry>, forge: ForgeLogs, time: Option<int>, block: Option<int>)
    requires Adapt(cfg, traces, forge).Ok?
    requires Acceptable(pcfg, Records(ForestFrames(Adapt(cfg, traces, forge).value)), time, block)
    ensures var frames := ForestFrames(Adapt(cfg, traces, forge).value);
            var calls := Summarize(pcfg, Records(frames), time, block).cheatcodes;
            && calls == FrameCheats(pcfg, frames)
            && multiset(calls) == ArenasTotal(ArenasOf(traces), NodeCheatBag(cfg, pcfg))
  {
    hide Adapt, Acceptable, FrameCheats, Convert, ArenasTotal, NodeCheatBag, FrameCheatBag, KindTotal, Total, Preorder;
    var frames := ForestFrames(Adapt(cfg, traces, forge).value);
    CheatsOfFrames(pcfg, frames);
    FrameCheatsTotal(pcfg, frames);
    AdaptIsConvertKinds(cfg, traces, forge);
    var arenas := ArenasOf(traces);
    forall kind | kind in arenas && Convert(cfg, PhaseOf(kind), arenas[kind]).Ok?
      ensures Total(Preorder(Convert(cfg, PhaseOf(kind), arenas[kind]).value), FrameCheatBag(pcfg)) == KindTotal(arenas, NodeCheatBag(cfg, pcfg), kind)
    {
      ArenaCheats(cfg, pcfg, arenas, kind);
    }
    ChainTotal(cfg, arenas, FrameCheatBag(pcfg), NodeCheatBag(cfg, pcfg));
  }

  lemma {:induction false} InTotal<K, T>(xs: seq<K>, f: K -> multiset<T>, x: K, y: T)
    requires x in xs && y in f(x)
    ensures y in Total(xs, f)
  {
    if x != xs[|xs| - 1] {
      InTotal(xs[..|xs| - 1], f, x, y);
    }
  }

  lemma {:induction false} SelectedArena(traces: seq<TraceEntry>, e: TraceEntry)
    requires SelectArenas(traces).Ok? && e in traces
    ensures e.kind in SelectArenas(traces).value && e.kind in ARENA_ORDER
    ensures e.arena == Some(SelectArenas(traces).value[e.kind])
  {
    if e != traces[|traces| - 1] {
      SelectedArena(traces[..|traces| - 1], e);
    }
  }

  lemma {:induction false} KindConverts(cfg: Config, arenas: map<string, seq<Node>>, kinds: seq<string>, kind: string)
    requires ConvertKinds(cfg, arenas, kinds).Ok? && kind in kinds && kind in arenas
    ensures Convert(cfg, PhaseOf(kind), arenas[kind]).Ok?
  {
    hide Convert;
    if kind != kinds[|kinds| - 1] {
      KindConverts(cfg, arenas, kinds[..|kinds| - 1], kind);
    }
  }

  lemma {:induction false} NodeOpens(cfg: Config, pcfg: ParseConfig, kind: string, nodes: seq<Node>, n: Node)
    requires Convert(cfg, PhaseOf(kind), nodes).Ok? && n in nodes
    ensures OpenHead(cfg, PhaseOf(kind), n).Ok?
    ensures n.trace.Some? && n.trace.value.address == Some(CHEATCODE_ADDRESS) ==> NodeCheat(cfg, pcfg, kind, n).Some?
  {
    hide Convert, CallsOk, LogsOk, NoUnknown, OpenHead, CallOf, NodeCheat;
    NodeIsOk(cfg, PhaseOf(kind), nodes, n);
    OpenedCheat(cfg, pcfg, kind, n);
  }

  /** Every node of every arena that is addressed to the cheatcode address has its call in the summary. */
  lemma {:induction false} EveryCheatcodeNodeSummarized(cfg: Config, pcfg: ParseConfig, traces: seq<TraceEntry>, forge: ForgeLogs,
                                                        time: Option<int>, block: Option<int>, e: TraceEntry, n: Node)
    requires Adapt(cfg, traces, forge).Ok?
    requires Acceptable(pcfg, Records(ForestFrames(Adapt(cfg, traces, forge).value)), time, block)
    requires e in traces && e.arena.Some? && n in e.arena.value
    requires n.trace.Some? && n.trace.value.address == Some(CHEATCODE_ADDRESS)
    ensures NodeCheat(cfg, pcfg, e.kind, n).Some?
    ensures NodeCheat(cfg, pcfg, e.kind, n).value in
            Summarize(pcfg, Records(ForestFrames(Adapt(cfg, traces, forge).value)), time, block).cheatcodes
  {
    hide Acceptable, Summarize, Convert, ConvertKinds, NodeCheat, FrameCheats, Total;
    var calls := Summarize(pcfg, Records(ForestFrames(Adapt(cfg, traces, forge).value)), time, block).cheatcodes;
    CheatcodesExact(cfg, pcfg, traces, forge, time, block);
    AdaptIsConvertKinds(cfg, traces, forge);
    SelectedArena(traces, e);
    var arenas := ArenasOf(traces);
    KindConverts(cfg, arenas, ARENA_ORDER, e.kind);
    NodeOpens(cfg, pcfg, e.kind, arenas[e.kind], n);
    var c, h := NodeCheat(cfg, pcfg, e.kind, n).value, NodeCheatBag(cfg, pcfg);
    InTotal(arenas[e.kind], m => h(e.kind, m), n, c);
    InTotal(ARENA_ORDER, kind => KindTotal(arenas, h, kind), e.kind, c);
    assert c in multiset(calls);
  }

  /** If the policy accepts the summary, it has judged and allowed every node of every arena that is
      addressed to the cheatcode address. */
  lemma {:induction false} EveryCheatcodeNodeJudged(cfg: Config, pcfg: ParseConfig, traces: seq<TraceEntry>, forge: ForgeLogs,
                                                    time: Option<int>, block: Option<int>,
                                                    witnessClass: string, policy: Policy, forkBlock: Option<int>,
                                                    e: TraceEntry, n: Node)
    requires Adapt(cfg, traces, forge).Ok?
    requires Acceptable(pcfg, Records(ForestFrames(Adapt(cfg, traces, forge).value)), time, block)
    requires var calls := Summarize(pcfg, Records(ForestFrames(Adapt(cfg, traces, forge).value)), time, block).cheatcodes;
             forall i :: 0 <= i < |calls| ==> Allowed(pcfg, calls[i], witnessClass, policy, forkBlock)
    requires e in traces && e.arena.Some? && n in e.arena.value
    requires n.trace.Some? && n.trace.value.address == Some(CHEATCODE_ADDRESS)
    ensures NodeCheat(cfg, pcfg, e.kind, n).Some?
    ensures Allowed(pcfg, NodeCheat(cfg, pcfg, e.kind, n).value, witnessClass, policy, forkBlock)
  {
    hide Acceptable, Summarize, Adapt, NodeCheat, Allowed;
    EveryCheatcodeNodeSummarized(cfg, pcfg, traces, forge, time, block, e, n);
  }

  // ---------------------------------------------------------------- transfers and assertions

  function Flows(ts: seq<TraceTransfer>): (fs: seq<Transfer>)
    ensures |fs| == |ts|
    ensures forall i :: 0 <= i < |ts| ==> fs[i] == ts[i].flow
  {
    seq(|ts|, i requires 0 <= i < |ts| => ts[i].flow)
  }

  lemma {:induction false} FlowsAppend(a: seq<TraceTransfer>, b: seq<TraceTransfer>)
    ensures Flows(a + b) == Flows(a) + Flows(b)
  {
  }

  lemma {:induction false} FlowsOfFrame(s: Tree)
    ensures Flows(TransfersOf(RecordOf(s))) == Transfers(s.events)
  {
    hide Transfers, Logs;
  }

  lemma {:induction false} FlowsOfFrames(ts: seq<Tree>)
    ensures Flows(RecordTransfers(Records(ts))) == AllTransfers(ts)
  {
    hide Transfers, TransfersOf, RecordOf, Flows;
    if ts == [] {
      assert Flows([]) == [];
    } else {
      var init, last := ts[..|ts| - 1], ts[|ts| - 1];
      FlowsOfFrames(init);
      assert Records(ts)[..|ts| - 1] == Records(init);
      FlowsOfFrame(last);
      FlowsAppend(RecordTransfers(Records(init)), TransfersOf(RecordOf(last)));
    }
  }

  ghost function NodeTransferBag(cfg: Config, arenas: map<string, seq<Node>>): (string, Node) -> multiset<Transfer> {
    (kind, n) => if kind in arenas then NodeTransfers(EnvOf(cfg, PhaseOf(kind), arenas[kind]), n) else multiset{}
  }

  lemma {:induction false} ArenaTransfers(cfg: Config, arenas: map<string, seq<Node>>, kind: string)
    requires kind in arenas && Convert(cfg, PhaseOf(kind), arenas[kind]).Ok?
    ensures Total(Preorder(Convert(cfg, PhaseOf(kind), arenas[kind]).value), FrameBag(TransferBag))
            == KindTotal(arenas, NodeTransferBag(cfg, arenas), kind)
  {
    hide Convert, Total, NodeTransfers, AllTransfers;
    var nodes, h := arenas[kind], NodeTransferBag(cfg, arenas);
    TransfersExact(cfg, PhaseOf(kind), nodes);
    AllTransfersTotal(Preorder(Convert(cfg, PhaseOf(kind), nodes).value));
    TotalAligned(nodes, n => NodeTransfers(EnvOf(cfg, PhaseOf(kind), nodes), n), nodes, n => h(kind, n));
  }

  /** The summary's transfers are, as a multiset, exactly the transfers shown by logs of arena nodes
      whose whole parent chain succeeded. */
  lemma {:induction false} SummaryTransfersExact(cfg: Config, pcfg: ParseConfig, traces: seq<TraceEntry>, forge: ForgeLogs, time: Option<int>, block: Option<int>)
    requires Adapt(cfg, traces, forge).Ok?
    requires Acceptable(pcfg, Records(ForestFrames(Adapt(cfg, traces, forge).value)), time, block)
    ensures var s := Summarize(pcfg, Records(ForestFrames(Adapt(cfg, traces, forge).value)), time, block);
            multiset(Flows(s.transfers)) == ArenasTotal(ArenasOf(traces), NodeTransferBag(cfg, ArenasOf(traces)))
  {
    hide Adapt, Acceptable, Convert, ArenasTotal, NodeTransferBag, KindTotal, Total, Preorder, AllTransfers;
    var frames, arenas := ForestFrames(Adapt(cfg, traces, forge).value), ArenasOf(traces);
    FlowsOfFrames(frames);
    AllTransfersTotal(frames);
    AdaptIsConvertKinds(cfg, traces, forge);
    forall kind | kind in arenas && Convert(cfg, PhaseOf(kind), arenas[kind]).Ok?
      ensures Total(Preorder(Convert(cfg, PhaseOf(kind), arenas[kind]).value), FrameBag(TransferBag)) == KindTotal(arenas, NodeTransferBag(cfg, arenas), kind)
    {
      ArenaTransfers(cfg, arenas, kind);
    }
    ChainTotal(cfg, arenas, FrameBag(TransferBag), NodeTransferBag(cfg, arenas));
  }

  /** The decoded event of an assertion event, without the frame it came from. */
  function Core(a: AssertionEvent): EventBody {
    AssertionChecked(a.id, a.kind, a.target, a.observed, a.expected, a.ok)
  }

  function Cores(es: seq<AssertionEvent>): (cs: seq<EventBody>)
    ensures |cs| == |es|
    ensures forall i :: 0 <= i < |es| ==> cs[i] == Core(es[i])
  {
    seq(|es|, i requires 0 <= i < |es| => Core(es[i]))
  }

  lemma {:induction false} CoresAppend(a: seq<AssertionEvent>, b: seq<AssertionEvent>)
    ensures Cores(a + b) == Cores(a) + Cores(b)
  {
  }

  lemma {:induction false} CoreOfLog(r: Record, e: TreeEvent)
    requires r.success.None? && e.Emit?
    ensures var one := match AssertionOf(r, e.log) case None => [] case Some(a) => [a];
            multiset(Cores(one)) == CheckedBag(e)
  {
    hide ContextFor;
    var one := match AssertionOf(r, e.log) case None => [] case Some(a) => [a];
    if one == [] {
      assert Cores(one) == [];
    } else {
      assert Cores(one) == [e.log.body];
    }
  }

  lemma {:induction false} CoresOfLogs(r: Record, events: seq<TreeEvent>)
    requires r.success.None?
    ensures multiset(Cores(AssertionsIn(r, Logs(events)))) == LogTotal(events, CheckedBag)
  {
    hide AssertionOf, CheckedBag, Cores;
    if events == [] {
      assert Cores([]) == [];
    } else {
      var init, e := events[..|events| - 1], events[|events| - 1];
      CoresOfLogs(r, init);
      if e.Emit? {
        assert Logs(events)[..|Logs(events)| - 1] == Logs(init);
        var one := match AssertionOf(r, e.log) case None => [] case Some(a) => [a];
        CoresAppend(AssertionsIn(r, Logs(init)), one);
        CoreOfLog(r, e);
      } else {
        assert Logs(events) == Logs(init);
      }
    }
  }

  lemma {:induction false} CoresOfFrames(ts: seq<Tree>)
    ensures multiset(Cores(RecordAssertions(Records(ts)))) == Total(ts, FrameBag(CheckedBag))
  {
    hide LogTotal, Logs, AssertionsIn;
    if ts != [] {
      var init, last := ts[..|ts| - 1], ts[|ts| - 1];
      CoresOfFrames(init);
      assert Records(ts)[..|ts| - 1] == Records(init);
      CoresOfLogs(RecordOf(last), last.events);
      CoresAppend(RecordAssertions(Records(init)), AssertionsIn(RecordOf(last), Logs(last.events)));
    }
  }

  ghost function NodeAssertionBag(cfg: Config, arenas: map<string, seq<Node>>): (string, Node) -> multiset<EventBody> {
    (kind, n) => if kind in arenas then NodeAssertions(EnvOf(cfg, PhaseOf(kind), arenas[kind]), n) else multiset{}
  }

  lemma {:induction false} ArenaAssertions(cfg: Config, arenas: map<string, seq<Node>>, kind: string)
    requires kind in arenas && Convert(cfg, PhaseOf(kind), arenas[kind]).Ok?
    ensures Total(Preorder(Convert(cfg, PhaseOf(kind), arenas[kind]).value), FrameBag(CheckedBag))
            == KindTotal(arenas, NodeAssertionBag(cfg, arenas), kind)
  {
    hide Convert, Total, NodeAssertions;
    var nodes, h := arenas[kind], NodeAssertionBag(cfg, arenas);
    AssertionsExact(cfg, PhaseOf(kind), nodes);
    TotalAligned(nodes, n => NodeAssertions(EnvOf(cfg, PhaseOf(kind), nodes), n), nodes, n => h(kind, n));
  }

  /** The summary's assertion events are, as a multiset, exactly the AssertionChecked logs of arena
      nodes whose whole parent chain succeeded. */
  lemma {:induction false} SummaryAssertionsExact(cfg: Config, pcfg: ParseConfig, traces: seq<TraceEntry>, forge: ForgeLogs, time: Option<int>, block: Option<int>)
    requires Adapt(cfg, traces, forge).Ok?
    requires Acceptable(pcfg, Records(ForestFrames(Adapt(cfg, traces, forge).value)), time, block)
    ensures var s := Summarize(pcfg, Records(ForestFrames(Adapt(cfg, traces, forge).value)), time, block);
            multiset(Cores(s.assertions)) == ArenasTotal(ArenasOf(traces), NodeAssertionBag(cfg, ArenasOf(traces)))
  {
    hide Adapt, Acceptable, Convert, ArenasTotal, NodeAssertionBag, KindTotal, Total, Preorder;
    var frames, arenas := ForestFrames(Adapt(cfg, traces, forge).value), ArenasOf(traces);
    CoresOfFrames(frames);
    AdaptIsConvertKinds(cfg, traces, forge);
    forall kind | kind in arenas && Convert(cfg, PhaseOf(kind), arenas[kind]).Ok?
      ensures Total(Preorder(Convert(cfg, PhaseOf(kind), arenas[kind]).value), FrameBag(CheckedBag)) == KindTotal(arenas, NodeAssertionBag(cfg, arenas), kind)
    {
      ArenaAssertions(cfg, arenas, kind);
    }
    ChainTotal(cfg, arenas, FrameBag(CheckedBag), NodeAssertionBag(cfg, arenas));
  }
}
