/**
 The logs, frames, transfers and gas of a summary against the arenas' own nodes: every record is
 that of one node, with what the node's raw fields say.
 */
module SummaryLogs {
  import opened Prelude
  import opened Bags
  import opened Abi
  import opened Arena
  import opened ArenaWalk
  import opened ArenaFacts
  import opened ArenaLogs
  import opened NodesExact
  import opened Adapter
  import opened Trace
  import opened TraceChain

  // ---------------------------------------------------------------- what a raw log says

  /** The event that a log's topics and data spell out; a log of any other shape is plain. */
  function Spelled(cfg: Config, k: LogKey): EventBody {
    if |k.topics| != 2 || |k.topics[1]| != 32 then Plain
    else
      var topic, id := k.topics[0], Label(k.topics[1]);
      if topic == cfg.assertionTopic then
        match Decode([String, String, Int(256), Int(256), Bool], k.data)
        case Reject => Plain
        case Ok(a) => AssertionChecked(id, cfg.utf8(a[0].text), cfg.utf8(a[1].text), a[2].n, a[3].n, a[4].on)
      else if topic == cfg.controlTopic then
        match Decode([Bool], k.data)
        case Reject => Plain
        case Ok(a) => ControlObserved(id, a[0].on)
      else if topic == cfg.contextTopic then
        match Decode([Address, Address], k.data)
        case Reject => Plain
        case Ok(a) => AssertionContext(id, a[0].bytes, a[1].bytes)
      else if topic == cfg.economicTopic then SpelledSnapshot(id, k.data)
      else Plain
  }

  function SpelledSnapshot(id: string, data: Bytes): EventBody {
    match Decode([Address, Address, Uint(256), Uint(256), Uint(256), Uint(256), Uint(256), Int(256)], data)
    case Reject => Plain
    case Ok(a) => Snapshot(id, a)
  }

  function Snapshot(id: string, a: seq<AbiValue>): EventBody {
    if |a| == 8 && a[0].Hex? && a[1].Hex? && forall i :: 2 <= i < 8 ==> a[i].Num?
    then EconomicSnapshot(id, a[0].bytes, a[1].bytes, a[2].n, a[3].n, a[4].n, a[5].n, a[6].n, a[7].n)
    else Plain
  }

  lemma {:induction false} SpelledIsDecoded(cfg: Config, k: LogKey)
    requires DecodeBody(cfg, k.topics, k.data).Ok?
    ensures DecodeBody(cfg, k.topics, k.data) == Ok(Spelled(cfg, k))
  {
    hide Decode, Label;
  }

  /** The record of a raw log, with the given flag. */
  function RawRecord(cfg: Config, entry: Option<RawLog>, reverted: bool): Option<LogRecord> {
    match RawKey(entry)
    case None => None
    case Some(k) => Some(LogRecord(k.address, k.topics, k.data, reverted, Spelled(cfg, k)))
  }

  lemma {:induction false} ConvertedIsRaw(cfg: Config, entry: Option<RawLog>, reverted: bool)
    requires ConvertLog(cfg, entry, reverted).Ok?
    ensures RawRecord(cfg, entry, reverted) == Some(ConvertLog(cfg, entry, reverted).value.0)
  {
    RawIsRead(entry);
    SpelledIsDecoded(cfg, ReadLog(entry).value);
    hide Spelled, DecodeBody, ReadLog, RawKey, DecodeTransfer, KnownTopic;
  }

  // ---------------------------------------------------------------- every log of the summary

  ghost function RecordBag(e: TreeEvent): multiset<LogRecord> {
    if e.Emit? then multiset{e.log} else multiset{}
  }

  /** The records of a node's own logs, flagged if the node or an ancestor of it failed. */
  ghost function NodeRecords(env: Env, n: Node): multiset<LogRecord> {
    if n.idx.None? then multiset{}
    else Total(LogItems(n), item => OptionBag(RawRecord(env.cfg, item, ChainFails(env, n.idx.value))))
  }

  lemma {:induction false} RawWhenRecorded(env: Env, idx: int, p: int, reverted: bool)
    requires NodeOk(env, idx) && 0 <= p < |LogItems(env.nodes[idx])|
    ensures PositionBag(env, idx, reverted, RecordBag, p) == OptionBag(RawRecord(env.cfg, LogItems(env.nodes[idx])[p], reverted))
  {
    var entry := LogItems(env.nodes[idx])[p];
    PositionConverts(env, idx, p);
    LogAcceptanceIgnoresRevert(env.cfg, entry, false, reverted);
    ConvertedIsRaw(env.cfg, entry, reverted);
    hide CallsOk, OpenHead, NodeOk, RawRecord, ConvertLog;
  }

  lemma {:induction false} NodeRecordsBag(env: Env, idx: int)
    requires NodeOk(env, idx) && env.nodes[idx].idx == Some(idx)
    ensures NodeRecords(env, env.nodes[idx]) == NodeBag(env, idx, ChainFails(env, idx), RecordBag)
  {
    hide ChainFails, CallsOk, LogsOk, OpenHead, PositionBag, RawRecord;
    var items, reverted := LogItems(env.nodes[idx]), ChainFails(env, idx);
    forall p | 0 <= p < |items|
      ensures PositionBag(env, idx, reverted, RecordBag, p) == OptionBag(RawRecord(env.cfg, items[p], reverted))
    {
      RawWhenRecorded(env, idx, p, reverted);
    }
    RangeTotal(items, item => OptionBag(RawRecord(env.cfg, item, reverted)), AtPosition(env, idx, reverted, RecordBag));
  }

  ghost function NodeRecordBag(cfg: Config, arenas: map<string, seq<Node>>): (string, Node) -> multiset<LogRecord> {
    (kind, n) => if kind in arenas then NodeRecords(EnvOf(cfg, PhaseOf(kind), arenas[kind]), n) else multiset{}
  }

  lemma {:induction false} ArenaRecords(cfg: Config, arenas: map<string, seq<Node>>, kind: string)
    requires kind in arenas && Convert(cfg, PhaseOf(kind), arenas[kind]).Ok?
    ensures Total(Preorder(Convert(cfg, PhaseOf(kind), arenas[kind]).value), FrameBag(RecordBag))
            == KindTotal(arenas, NodeRecordBag(cfg, arenas), kind)
  {
    hide Convert, NodeOk, NodeBag, NodeRecords, LogTotal, Total, ChainFails;
    var phase, nodes, h := PhaseOf(kind), arenas[kind], NodeRecordBag(cfg, arenas);
    var env := EnvOf(cfg, phase, nodes);
    forall n | n in nodes && n.idx.Some? && n.idx.value in env.nodes && NodeOk(env, n.idx.value)
      ensures NodeRecords(env, n) == NodeBag(env, n.idx.value, ChainFails(env, n.idx.value), RecordBag)
    {
      NodeIsOk(cfg, phase, nodes, n);
      NodeRecordsBag(env, n.idx.value);
    }
    ArenaTotal(cfg, phase, nodes, RecordBag, n => h(kind, n));
  }

  lemma {:induction false} LogsAreRecordTotal(events: seq<TreeEvent>)
    ensures multiset(Logs(events)) == LogTotal(events, RecordBag)
  {
    if events != [] {
      LogsAreRecordTotal(events[..|events| - 1]);
    }
  }

  lemma {:induction false} LogsOfTrees(ts: seq<Tree>)
    ensures multiset(LogsOfFrames(Frames(Records(ts)))) == Total(ts, FrameBag(RecordBag))
  {
    hide LogTotal, Logs;
    if ts != [] {
      var init, last := ts[..|ts| - 1], ts[|ts| - 1];
      LogsOfTrees(init);
      assert Frames(Records(ts))[..|ts| - 1] == Frames(Records(init));
      LogsAreRecordTotal(last.events);
      assert FrameOf(RecordOf(last)).logs == Logs(last.events);
    }
  }

  /** The log records of the summary's frames are, as a multiset, exactly the logs of the arenas'
      nodes, each with its raw fields, the event they spell out, and the reverted flag exactly if its
      node or an ancestor failed. */
  lemma {:induction false} SummaryLogsExact(cfg: Config, pcfg: ParseConfig, traces: seq<TraceEntry>, forge: ForgeLogs, time: Option<int>, block: Option<int>)
    requires Adapt(cfg, traces, forge).Ok?
    requires Acceptable(pcfg, Records(ForestFrames(Adapt(cfg, traces, forge).value)), time, block)
    ensures var s := Summarize(pcfg, Records(ForestFrames(Adapt(cfg, traces, forge).value)), time, block);
            multiset(LogsOfFrames(s.frames)) == ArenasTotal(ArenasOf(traces), NodeRecordBag(cfg, ArenasOf(traces)))
  {
    hide Adapt, Acceptable, Convert, ArenasTotal, NodeRecordBag, KindTotal, Total, Preorder;
    var frames, arenas := ForestFrames(Adapt(cfg, traces, forge).value), ArenasOf(traces);
    LogsOfTrees(frames);
    AdaptIsConvertKinds(cfg, traces, forge);
    forall kind | kind in arenas && Convert(cfg, PhaseOf(kind), arenas[kind]).Ok?
      ensures Total(Preorder(Convert(cfg, PhaseOf(kind), arenas[kind]).value), FrameBag(RecordBag)) == KindTotal(arenas, NodeRecordBag(cfg, arenas), kind)
    {
      ArenaRecords(cfg, arenas, kind);
    }
    ChainTotal(cfg, arenas, FrameBag(RecordBag), NodeRecordBag(cfg, arenas));
  }

  // ---------------------------------------------------------------- every frame of the summary

  /** The frame that a node's call spells out, without its logs. A normalized frame drops the node's
      success flag and reads as successful. */
  function NodeFrame(kind: string, n: Node): Option<TraceFrame> {
    if n.trace.None? || n.trace.value.depth.None? || n.trace.value.data.None? then None
    else
      var t, data := n.trace.value, n.trace.value.data.value;
      Some(TraceFrame(t.depth.value, t.kind, t.address,
                      if t.kind in {"call", "staticcall", "delegatecall", "callcode"} && |data| >= 4 then Some(data[..4]) else None,
                      if kind == "Execution" then "witness" else "setup",
                      t.caller, Some(data), if t.gasUsed.Some? then Some(t.gasUsed.value) else None, true, []))
  }

  /** A frame without its logs, and its logs in any order. */
  ghost function Loosened(f: TraceFrame): (TraceFrame, multiset<LogRecord>) {
    (f.(logs := []), multiset(f.logs))
  }

  ghost function FrameBagOf(): Tree -> multiset<(TraceFrame, multiset<LogRecord>)> {
    (s: Tree) => multiset{Loosened(FrameOf(RecordOf(s)))}
  }

  /** The frame of a node with the records of its own logs. */
  ghost function NodeFrameBag(cfg: Config, arenas: map<string, seq<Node>>): (string, Node) -> multiset<(TraceFrame, multiset<LogRecord>)> {
    (kind, n) =>
      if kind in arenas && NodeFrame(kind, n).Some?
      then multiset{(NodeFrame(kind, n).value, NodeRecords(EnvOf(cfg, PhaseOf(kind), arenas[kind]), n))} else multiset{}
  }

  lemma {:induction false} OpenedFrame(cfg: Config, kind: string, n: Node, s: Tree)
    requires OpenHead(cfg, PhaseOf(kind), n) == Ok(s.head)
    ensures NodeFrame(kind, n) == Some(FrameOf(RecordOf(s)).(logs := [])) && FrameOf(RecordOf(s)).logs == Logs(s.events)
  {
    OpensExactly(cfg, PhaseOf(kind), n);
    hide OpenHead, Readable, Logs, Transfers;
  }

  lemma {:induction false} LogsOfFrame(cfg: Config, phase: string, nodes: seq<Node>, s: Tree)
    requires Convert(cfg, phase, nodes).Ok? && s in Preorder(Convert(cfg, phase, nodes).value)
    ensures var env := EnvOf(cfg, phase, nodes);
            s.idx in env.nodes && multiset(Logs(s.events)) == NodeRecords(env, env.nodes[s.idx])
  {
    hide Convert, Mirrors, EachOnce, NodeOk, NodeRecords, LogTotal, NodeBag, ChainFails, OpenHead, Preorder;
    ConvertMirrors(cfg, phase, nodes);
    var env, t := EnvOf(cfg, phase, nodes), Convert(cfg, phase, nodes).value;
    NodeOfFrame(cfg, phase, nodes, s);
    FrameTotal(env, t, s, RecordBag);
    LogsAreRecordTotal(s.events);
    NodeRecordsBag(env, s.idx);
  }

  lemma {:induction false} ArenaFrames(cfg: Config, arenas: map<string, seq<Node>>, kind: string)
    requires kind in arenas && Convert(cfg, PhaseOf(kind), arenas[kind]).Ok?
    ensures Total(Preorder(Convert(cfg, PhaseOf(kind), arenas[kind]).value), FrameBagOf()) == KindTotal(arenas, NodeFrameBag(cfg, arenas), kind)
  {
    hide Convert, OpenHead, NodeOk, Total, NodeFrame, RecordOf, FrameOf, NodeRecords, Logs;
    var nodes, h := arenas[kind], NodeFrameBag(cfg, arenas);
    var env := EnvOf(cfg, PhaseOf(kind), nodes);
    forall s | s in Preorder(Convert(cfg, PhaseOf(kind), nodes).value)
      ensures s.idx in env.nodes && FrameBagOf()(s) == h(kind, env.nodes[s.idx])
    {
      NodeOfFrame(cfg, PhaseOf(kind), nodes, s);
      OpenedFrame(cfg, kind, env.nodes[s.idx], s);
      LogsOfFrame(cfg, PhaseOf(kind), nodes, s);
    }
    NodeTotal(cfg, PhaseOf(kind), nodes, FrameBagOf(), n => h(kind, n));
  }

  ghost function LoosenedAll(frames: seq<TraceFrame>): (loose: seq<(TraceFrame, multiset<LogRecord>)>)
    ensures |loose| == |frames|
    ensures forall i :: 0 <= i < |loose| ==> loose[i] == (frames[i].(logs := []), multiset(frames[i].logs))
  {
    seq(|frames|, i requires 0 <= i < |frames| => Loosened(frames[i]))
  }

  lemma {:induction false} LoosenedTrees(ts: seq<Tree>)
    ensures multiset(LoosenedAll(Frames(Records(ts)))) == Total(ts, FrameBagOf())
  {
    hide FrameOf, RecordOf;
    if ts == [] {
      assert LoosenedAll(Frames(Records(ts))) == [];
    } else {
      var init, last := ts[..|ts| - 1], ts[|ts| - 1];
      LoosenedTrees(init);
      assert LoosenedAll(Frames(Records(ts))) == LoosenedAll(Frames(Records(init))) + [Loosened(FrameOf(RecordOf(last)))];
    }
  }

  /** The summary's frames are, as a multiset, exactly the calls of the arenas' nodes, each with the
      phase of its arena and with the records of its own logs. */
  lemma {:induction false} SummaryFramesExact(cfg: Config, pcfg: ParseConfig, traces: seq<TraceEntry>, forge: ForgeLogs, time: Option<int>, block: Option<int>)
    requires Adapt(cfg, traces, forge).Ok?
    requires Acceptable(pcfg, Records(ForestFrames(Adapt(cfg, traces, forge).value)), time, block)
    ensures var s := Summarize(pcfg, Records(ForestFrames(Adapt(cfg, traces, forge).value)), time, block);
            multiset(LoosenedAll(s.frames)) == ArenasTotal(ArenasOf(traces), NodeFrameBag(cfg, ArenasOf(traces)))
  {
    hide Adapt, Acceptable, Convert, ArenasTotal, NodeFrameBag, KindTotal, Total, Preorder, FrameBagOf;
    var frames, arenas := ForestFrames(Adapt(cfg, traces, forge).value), ArenasOf(traces);
    LoosenedTrees(frames);
    AdaptIsConvertKinds(cfg, traces, forge);
    forall kind | kind in arenas && Convert(cfg, PhaseOf(kind), arenas[kind]).Ok?
      ensures Total(Preorder(Convert(cfg, PhaseOf(kind), arenas[kind]).value), FrameBagOf()) == KindTotal(arenas, NodeFrameBag(cfg, arenas), kind)
    {
      ArenaFrames(cfg, arenas, kind);
    }
    ChainTotal(cfg, arenas, FrameBagOf(), NodeFrameBag(cfg, arenas));
  }

  // ---------------------------------------------------------------- gas

  /** As many tokens as a quantity of gas. */
  ghost function Copies(gas: nat): (m: multiset<()>)
    ensures |m| == gas
  {
    multiset{}[() := gas]
  }

  ghost function FrameGas(): Tree -> multiset<()> {
    (s: Tree) => if s.head.phase == "witness" && s.head.depth == 0 then Copies(s.head.gasUsed) else multiset{}
  }

  /** The gas of a node of the Execution arena at depth 0; every other node has none. */
  ghost function NodeGas(): (string, Node) -> multiset<()> {
    (kind: string, n: Node) =>
      if kind == "Execution" && n.trace.Some? && n.trace.value.depth == Some(0) && n.trace.value.gasUsed.Some?
      then Copies(n.trace.value.gasUsed.value) else multiset{}
  }

  lemma {:induction false} ArenaGas(cfg: Config, arenas: map<string, seq<Node>>, kind: string)
    requires kind in arenas && Convert(cfg, PhaseOf(kind), arenas[kind]).Ok?
    ensures Total(Preorder(Convert(cfg, PhaseOf(kind), arenas[kind]).value), FrameGas()) == KindTotal(arenas, NodeGas(), kind)
  {
    hide Convert, OpenHead, NodeOk, Total, Copies;
    var nodes, h := arenas[kind], NodeGas();
    var env := EnvOf(cfg, PhaseOf(kind), nodes);
    forall s | s in Preorder(Convert(cfg, PhaseOf(kind), nodes).value)
      ensures s.idx in env.nodes && FrameGas()(s) == h(kind, env.nodes[s.idx])
    {
      NodeOfFrame(cfg, PhaseOf(kind), nodes, s);
      OpensExactly(cfg, PhaseOf(kind), env.nodes[s.idx]);
    }
    NodeTotal(cfg, PhaseOf(kind), nodes, FrameGas(), n => h(kind, n));
  }

  lemma {:induction false} GasOfTrees(ts: seq<Tree>)
    ensures Gas(Records(ts)) == |Total(ts, FrameGas())|
  {
    hide Copies;
    if ts != [] {
      var init, last := ts[..|ts| - 1], ts[|ts| - 1];
      GasOfTrees(init);
      assert Records(ts)[..|ts| - 1] == Records(init);
      assert GasOf(RecordOf(last)) == |FrameGas()(last)|;
    }
  }

  /** The summary's gas is the gas of the Execution arena's own nodes at depth 0. */
  lemma {:induction false} SummaryGasExact(cfg: Config, pcfg: ParseConfig, traces: seq<TraceEntry>, forge: ForgeLogs, time: Option<int>, block: Option<int>)
    requires Adapt(cfg, traces, forge).Ok?
    requires Acceptable(pcfg, Records(ForestFrames(Adapt(cfg, traces, forge).value)), time, block)
    ensures Summarize(pcfg, Records(ForestFrames(Adapt(cfg, traces, forge).value)), time, block).gasUsed
            == |ArenasTotal(ArenasOf(traces), NodeGas())|
  {
    hide Adapt, Acceptable, Convert, ArenasTotal, NodeGas, KindTotal, Total, Preorder, FrameGas;
    var frames, arenas := ForestFrames(Adapt(cfg, traces, forge).value), ArenasOf(traces);
    GasOfTrees(frames);
    AdaptIsConvertKinds(cfg, traces, forge);
    forall kind | kind in arenas && Convert(cfg, PhaseOf(kind), arenas[kind]).Ok?
      ensures Total(Preorder(Convert(cfg, PhaseOf(kind), arenas[kind]).value), FrameGas()) == KindTotal(arenas, NodeGas(), kind)
    {
      ArenaGas(cfg, arenas, kind);
    }
    ChainTotal(cfg, arenas, FrameGas(), NodeGas());
  }

  // ---------------------------------------------------------------- transfers with their place

  /** A transfer with the depth and the phase of its call. */
  function Place(t: Option<Transfer>, depth: int, phase: string): Option<TraceTransfer> {
    if t.None? then None else Some(TraceTransfer(t.value, depth, phase))
  }

  ghost function PlacedBag(depth: int, phase: string): TreeEvent -> multiset<TraceTransfer> {
    (e: TreeEvent) => if e.Emit? then OptionBag(Place(e.transfer, depth, phase)) else multiset{}
  }

  ghost function FramePlaced(): Tree -> multiset<TraceTransfer> {
    (s: Tree) => LogTotal(s.events, PlacedBag(s.head.depth, s.head.phase))
  }

  /** The transfers that the logs of a node show, placed at its depth in the phase of its arena, if
      neither the node nor an ancestor failed. */
  ghost function NodePlaced(env: Env, kind: string, n: Node): multiset<TraceTransfer> {
    if n.idx.None? || n.trace.None? || n.trace.value.depth.None? || ChainFails(env, n.idx.value) then multiset{}
    else
      var phase := if kind == "Execution" then "witness" else "setup";
      Total(LogItems(n), item => OptionBag(Place(ShownTransfer(env.cfg, item), n.trace.value.depth.value, phase)))
  }

  lemma {:induction false} PlacedWhenRecorded(env: Env, idx: int, p: int, reverted: bool, depth: int, phase: string)
    requires idx in env.nodes && 0 <= p < |LogItems(env.nodes[idx])|
    ensures PositionBag(env, idx, reverted, PlacedBag(depth, phase), p) ==
            if reverted then multiset{} else OptionBag(Place(ShownTransfer(env.cfg, LogItems(env.nodes[idx])[p]), depth, phase))
  {
    TransferIsShown(env.cfg, LogItems(env.nodes[idx])[p]);
    hide ShownTransfer, DecodeBody, ReadLog;
  }

  lemma {:induction false} NodePlacedBag(env: Env, kind: string, idx: int, depth: int)
    requires NodeOk(env, idx) && env.nodes[idx].idx == Some(idx)
    requires env.nodes[idx].trace.Some? && env.nodes[idx].trace.value.depth == Some(depth)
    ensures NodePlaced(env, kind, env.nodes[idx]) == NodeBag(env, idx, ChainFails(env, idx), PlacedBag(depth, PhaseOf(kind)))
  {
    hide ChainFails, CallsOk, LogsOk, OpenHead, PositionBag, ShownTransfer, Place;
    var items, reverted, bag := LogItems(env.nodes[idx]), ChainFails(env, idx), PlacedBag(depth, PhaseOf(kind));
    forall p | 0 <= p < |items|
      ensures PositionBag(env, idx, reverted, bag, p) ==
              if reverted then multiset{} else OptionBag(Place(ShownTransfer(env.cfg, items[p]), depth, PhaseOf(kind)))
    {
      PlacedWhenRecorded(env, idx, p, reverted, depth, PhaseOf(kind));
    }
    if reverted {
      TotalEmpty(Range(|items|), AtPosition(env, idx, reverted, bag));
    } else {
      RangeTotal(items, item => OptionBag(Place(ShownTransfer(env.cfg, item), depth, PhaseOf(kind))), AtPosition(env, idx, reverted, bag));
    }
  }

  ghost function NodePlacedIn(cfg: Config, arenas: map<string, seq<Node>>): (string, Node) -> multiset<TraceTransfer> {
    (kind, n) => if kind in arenas then NodePlaced(EnvOf(cfg, PhaseOf(kind), arenas[kind]), kind, n) else multiset{}
  }

  lemma {:induction false} FrameIsPlaced(cfg: Config, kind: string, nodes: seq<Node>, s: Tree)
    requires Convert(cfg, PhaseOf(kind), nodes).Ok? && s in Preorder(Convert(cfg, PhaseOf(kind), nodes).value)
    ensures var env := EnvOf(cfg, PhaseOf(kind), nodes);
            s.idx in env.nodes && FramePlaced()(s) == NodePlaced(env, kind, env.nodes[s.idx])
  {
    hide Convert, Mirrors, EachOnce, NodeOk, NodePlaced, LogTotal, NodeBag, ChainFails, OpenHead, Preorder;
    ConvertMirrors(cfg, PhaseOf(kind), nodes);
    var env, t := EnvOf(cfg, PhaseOf(kind), nodes), Convert(cfg, PhaseOf(kind), nodes).value;
    NodeOfFrame(cfg, PhaseOf(kind), nodes, s);
    OpensExactly(cfg, PhaseOf(kind), env.nodes[s.idx]);
    FrameTotal(env, t, s, PlacedBag(s.head.depth, s.head.phase));
    NodePlacedBag(env, kind, s.idx, s.head.depth);
  }

  lemma {:induction false} ArenaPlaced(cfg: Config, arenas: map<string, seq<Node>>, kind: string)
    requires kind in arenas && Convert(cfg, PhaseOf(kind), arenas[kind]).Ok?
    ensures Total(Preorder(Convert(cfg, PhaseOf(kind), arenas[kind]).value), FramePlaced()) == KindTotal(arenas, NodePlacedIn(cfg, arenas), kind)
  {
    hide Convert, Total, NodePlaced, FramePlaced;
    var nodes, h := arenas[kind], NodePlacedIn(cfg, arenas);
    var env := EnvOf(cfg, PhaseOf(kind), nodes);
    forall s | s in Preorder(Convert(cfg, PhaseOf(kind), nodes).value)
      ensures s.idx in env.nodes && FramePlaced()(s) == h(kind, env.nodes[s.idx])
    {
      FrameIsPlaced(cfg, kind, nodes, s);
    }
    NodeTotal(cfg, PhaseOf(kind), nodes, FramePlaced(), n => h(kind, n));
  }

  function PlaceAll(ts: seq<Transfer>, depth: int, phase: string): (placed: seq<TraceTransfer>)
    ensures |placed| == |ts|
    ensures forall i :: 0 <= i < |ts| ==> placed[i] == TraceTransfer(ts[i], depth, phase)
  {
    seq(|ts|, i requires 0 <= i < |ts| => TraceTransfer(ts[i], depth, phase))
  }

  lemma {:induction false} TransfersArePlaced(events: seq<TreeEvent>, depth: int, phase: string)
    ensures multiset(PlaceAll(Transfers(events), depth, phase)) == LogTotal(events, PlacedBag(depth, phase))
  {
    if events == [] {
      assert PlaceAll([], depth, phase) == [];
    } else {
      var init, e := events[..|events| - 1], events[|events| - 1];
      TransfersArePlaced(init, depth, phase);
      if e.Emit? && e.transfer.Some? {
        assert PlaceAll(Transfers(events), depth, phase) ==
               PlaceAll(Transfers(init), depth, phase) + [TraceTransfer(e.transfer.value, depth, phase)];
      } else {
        assert Transfers(events) == Transfers(init);
      }
    }
  }

  lemma {:induction false} PlacedInTrees(ts: seq<Tree>)
    ensures multiset(RecordTransfers(Records(ts))) == Total(ts, FramePlaced())
  {
    hide Transfers, Logs, LogTotal, PlacedBag;
    if ts != [] {
      var init, last := ts[..|ts| - 1], ts[|ts| - 1];
      PlacedInTrees(init);
      assert Records(ts)[..|ts| - 1] == Records(init);
      TransfersArePlaced(last.events, last.head.depth, last.head.phase);
      assert TransfersOf(RecordOf(last)) == PlaceAll(Transfers(last.events), last.head.depth, last.head.phase);
    }
  }

  /** The summary's transfers, each with its depth and phase, are as a multiset exactly the transfers
      shown by logs of nodes whose whole parent chain succeeded. */
  lemma {:induction false} PlacedTransfersExact(cfg: Config, pcfg: ParseConfig, traces: seq<TraceEntry>, forge: ForgeLogs, time: Option<int>, block: Option<int>)
    requires Adapt(cfg, traces, forge).Ok?
    requires Acceptable(pcfg, Records(ForestFrames(Adapt(cfg, traces, forge).value)), time, block)
    ensures multiset(Summarize(pcfg, Records(ForestFrames(Adapt(cfg, traces, forge).value)), time, block).transfers)
            == ArenasTotal(ArenasOf(traces), NodePlacedIn(cfg, ArenasOf(traces)))
  {
    hide Adapt, Acceptable, Convert, ArenasTotal, NodePlacedIn, KindTotal, Total, Preorder, FramePlaced;
    var frames, arenas := ForestFrames(Adapt(cfg, traces, forge).value), ArenasOf(traces);
    PlacedInTrees(frames);
    AdaptIsConvertKinds(cfg, traces, forge);
    forall kind | kind in arenas && Convert(cfg, PhaseOf(kind), arenas[kind]).Ok?
      ensures Total(Preorder(Convert(cfg, PhaseOf(kind), arenas[kind]).value), FramePlaced()) == KindTotal(arenas, NodePlacedIn(cfg, arenas), kind)
    {
      ArenaPlaced(cfg, arenas, kind);
    }
    ChainTotal(cfg, arenas, FramePlaced(), NodePlacedIn(cfg, arenas));
  }

  /** In an accepted run every log of a node's list is in the summary's frames. */
  lemma {:induction false} EveryLogSummarized(cfg: Config, pcfg: ParseConfig, traces: seq<TraceEntry>, forge: ForgeLogs,
                                              time: Option<int>, block: Option<int>, e: TraceEntry, n: Node, entry: Option<RawLog>)
    requires Adapt(cfg, traces, forge).Ok?
    requires Acceptable(pcfg, Records(ForestFrames(Adapt(cfg, traces, forge).value)), time, block)
    requires e in traces && e.arena.Some? && n in e.arena.value && n.idx.Some? && n.logs.Items? && entry in n.logs.items
    requires var flag := ChainFails(EnvOf(cfg, PhaseOf(e.kind), e.arena.value), n.idx.value);
             RawRecord(cfg, entry, flag).Some?
    ensures var flag := ChainFails(EnvOf(cfg, PhaseOf(e.kind), e.arena.value), n.idx.value);
            RawRecord(cfg, entry, flag).value in
            LogsOfFrames(Summarize(pcfg, Records(ForestFrames(Adapt(cfg, traces, forge).value)), time, block).frames)
  {
    hide Acceptable, Summarize, Convert, ConvertKinds, RawRecord, ChainFails, Total;
    SummaryLogsExact(cfg, pcfg, traces, forge, time, block);
    AdaptIsConvertKinds(cfg, traces, forge);
    SelectedArena(traces, e);
    var arenas, env := ArenasOf(traces), EnvOf(cfg, PhaseOf(e.kind), e.arena.value);
    var flag := ChainFails(env, n.idx.value);
    var record, h := RawRecord(cfg, entry, flag).value, NodeRecordBag(cfg, arenas);
    InTotal(LogItems(n), item => OptionBag(RawRecord(cfg, item, flag)), entry, record);
    InTotal(arenas[e.kind], m => h(e.kind, m), n, record);
    InTotal(ARENA_ORDER, kind => KindTotal(arenas, h, kind), e.kind, record);
    assert record in multiset(LogsOfFrames(Summarize(pcfg, Records(ForestFrames(Adapt(cfg, traces, forge).value)), time, block).frames));
  }
}
