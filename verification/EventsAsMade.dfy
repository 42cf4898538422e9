/**
 Events from the contract to the summary: what a node of an accepted run emits in canonical form is
 what the summary reports.
 */
module EventsAsMade {
  import opened Prelude
  import opened Bags
  import opened Abi
  import opened Arena
  import opened ArenaWalk
  import opened ArenaLogs
  import opened Adapter
  import opened Trace
  import opened TraceEvents
  import opened TraceChain
  import opened SummaryLogs

  /** The node holds a log of the contract with the topic, the id and the canonical encoding of values. */
  ghost predicate Emits(n: Node, emitter: Bytes, topic: Bytes, id: Bytes, types: seq<AbiType>, values: seq<AbiValue>) {
    && |emitter| == 20 && |id| == 32 && HaveTypes(types, values) && |Encode(types, values)| < WORD_LIMIT
    && n.idx.Some? && n.logs.Items?
    && Some(RawLog(Some(emitter), Some([Some(topic), Some(id)]), Some(Encode(types, values)))) in n.logs.items
  }

  /** Whether the node or an ancestor of it in its arena failed. */
  ghost predicate Failing(cfg: Config, e: TraceEntry, n: Node)
    requires e.arena.Some? && n.idx.Some?
  {
    ChainFails(EnvOf(cfg, PhaseOf(e.kind), e.arena.value), n.idx.value)
  }

  /** The record of such a log, whatever event it is of. */
  lemma {:induction false} EmittedRecord(cfg: Config, emitter: Bytes, topic: Bytes, id: Bytes, types: seq<AbiType>, values: seq<AbiValue>, reverted: bool)
    requires |emitter| == 20 && |id| == 32 && HaveTypes(types, values) && |Encode(types, values)| < WORD_LIMIT
    ensures RawRecord(cfg, Some(RawLog(Some(emitter), Some([Some(topic), Some(id)]), Some(Encode(types, values)))), reverted)
            == Some(LogRecord(emitter, [topic, id], Encode(types, values), reverted,
                              Spelled(cfg, LogKey(emitter, [topic, id], Encode(types, values)))))
    ensures Decode(types, Encode(types, values)) == Ok(values)
  {
    hide Spelled, Encode, Decode, HaveTypes;
    var data := Encode(types, values);
    var topics: seq<Option<Bytes>> := [Some(topic), Some(id)];
    DecodeInvertsEncode(types, values, []);
    assert data + [] == data;
    assert seq(|topics|, i requires 0 <= i < |topics| => topics[i].value) == [topic, id];
  }

  lemma {:induction false} EmittedIsSummarized(cfg: Config, pcfg: ParseConfig, traces: seq<TraceEntry>, forge: ForgeLogs,
                                               time: Option<int>, block: Option<int>, e: TraceEntry, n: Node,
                                               emitter: Bytes, topic: Bytes, id: Bytes, types: seq<AbiType>, values: seq<AbiValue>)
    requires Adapt(cfg, traces, forge).Ok?
    requires Acceptable(pcfg, Records(ForestFrames(Adapt(cfg, traces, forge).value)), time, block)
    requires e in traces && e.arena.Some? && n in e.arena.value && Emits(n, emitter, topic, id, types, values)
    ensures var s := Summarize(pcfg, Records(ForestFrames(Adapt(cfg, traces, forge).value)), time, block);
            LogRecord(emitter, [topic, id], Encode(types, values), Failing(cfg, e, n),
                      Spelled(cfg, LogKey(emitter, [topic, id], Encode(types, values)))) in LogsOfFrames(s.frames)
    ensures Decode(types, Encode(types, values)) == Ok(values)
  {
    hide Adapt, Acceptable, Summarize, Spelled, Encode, Decode, HaveTypes, RawRecord, ChainFails, Records, ForestFrames;
    EmittedRecord(cfg, emitter, topic, id, types, values, Failing(cfg, e, n));
    EveryLogSummarized(cfg, pcfg, traces, forge, time, block, e, n,
                       Some(RawLog(Some(emitter), Some([Some(topic), Some(id)]), Some(Encode(types, values)))));
  }

  /** A ControlObserved event that a node emits, in a reverted call or not, is in the frames of the
      summary with its id and its flag. */
  lemma {:induction false} ControlAsMade(cfg: Config, pcfg: ParseConfig, traces: seq<TraceEntry>, forge: ForgeLogs,
                                         time: Option<int>, block: Option<int>, e: TraceEntry, n: Node,
                                         emitter: Bytes, id: Bytes, changed: bool)
    requires Adapt(cfg, traces, forge).Ok? && cfg.controlTopic != cfg.assertionTopic
    requires Acceptable(pcfg, Records(ForestFrames(Adapt(cfg, traces, forge).value)), time, block)
    requires e in traces && e.arena.Some? && n in e.arena.value && Emits(n, emitter, cfg.controlTopic, id, [Bool], [Flag(changed)])
    ensures var s := Summarize(pcfg, Records(ForestFrames(Adapt(cfg, traces, forge).value)), time, block);
            exists log :: log in LogsOfFrames(s.frames) && log.address == emitter && log.body == ControlObserved(Label(id), changed)
  {
    hide Adapt, Acceptable, Summarize, Encode, Decode, HaveTypes, Label, Failing, Records, ForestFrames;
    var types, values := [Bool], [Flag(changed)];
    EmittedIsSummarized(cfg, pcfg, traces, forge, time, block, e, n, emitter, cfg.controlTopic, id, types, values);
    assert Spelled(cfg, LogKey(emitter, [cfg.controlTopic, id], Encode(types, values))) == ControlObserved(Label(id), changed);
  }

  lemma {:induction false} InFrames(frames: seq<TraceFrame>, log: LogRecord) returns (f: nat, k: nat)
    requires log in LogsOfFrames(frames)
    ensures f < |frames| && k < |frames[f].logs| && frames[f].logs[k] == log
  {
    var init, last := frames[..|frames| - 1], frames[|frames| - 1];
    if log in last.logs {
      f := |frames| - 1;
      k :| 0 <= k < |last.logs| && last.logs[k] == log;
    } else {
      f, k := InFrames(init, log);
    }
  }

  lemma {:induction false} FramesSucceed(ts: seq<Tree>)
    ensures forall f :: 0 <= f < |ts| ==> Frames(Records(ts))[f].success
  {
    hide Logs, Transfers;
  }

  lemma {:induction false} LogIsEvent(pcfg: ParseConfig, ts: seq<Tree>, time: Option<int>, block: Option<int>, log: LogRecord)
    requires Acceptable(pcfg, Records(ts), time, block)
    requires log in LogsOfFrames(Summarize(pcfg, Records(ts), time, block).frames) && !log.reverted && log.body.AssertionChecked?
    ensures exists a :: a in Summarize(pcfg, Records(ts), time, block).assertions && Core(a) == log.body
  {
    hide Acceptable, Clock, LogsOfFrames, Ascending, RecordOf;
    var s := Summarize(pcfg, Records(ts), time, block);
    var f, k := InFrames(s.frames, log);
    FramesSucceed(ts);
    EventsByPosition(pcfg, Records(ts), time, block);
    var spots: seq<(nat, nat)> :| Ascending(spots) && Follow(s.frames, spots, s.assertions) && forall p :: p in spots <==> Spot(s.frames, p);
    assert Spot(s.frames, (f, k));
    var i :| 0 <= i < |spots| && spots[i] == (f, k);
    assert EventOfLog(s.frames[f], k, s.assertions[i]);
    assert s.assertions[i] in s.assertions;
  }

  /** An AssertionChecked event that a node emits, when neither it nor an ancestor failed, is an
      assertion event of the summary with the id and the five values it was emitted with. */
  lemma {:induction false} AssertionAsMade(cfg: Config, pcfg: ParseConfig, traces: seq<TraceEntry>, forge: ForgeLogs,
                                           time: Option<int>, block: Option<int>, e: TraceEntry, n: Node,
                                           emitter: Bytes, id: Bytes, kind: Bytes, target: Bytes, observed: int, expected: int, ok: bool)
    requires Adapt(cfg, traces, forge).Ok?
    requires Acceptable(pcfg, Records(ForestFrames(Adapt(cfg, traces, forge).value)), time, block)
    requires e in traces && e.arena.Some? && n in e.arena.value
    requires Emits(n, emitter, cfg.assertionTopic, id, [String, String, Int(256), Int(256), Bool],
                   [Text(kind), Text(target), Num(observed), Num(expected), Flag(ok)])
    requires !Failing(cfg, e, n)
    ensures var s := Summarize(pcfg, Records(ForestFrames(Adapt(cfg, traces, forge).value)), time, block);
            exists a :: a in s.assertions && a.id == Label(id) && a.kind == cfg.utf8(kind) && a.target == cfg.utf8(target)
                        && a.observed == observed && a.expected == expected && a.ok == ok
  {
    hide Adapt, Acceptable, Summarize, Encode, Decode, HaveTypes, Label, Failing, Records, ForestFrames, Spelled;
    var types := [String, String, Int(256), Int(256), Bool];
    var values := [Text(kind), Text(target), Num(observed), Num(expected), Flag(ok)];
    var key, data := LogKey(emitter, [cfg.assertionTopic, id], Encode(types, values)), Encode(types, values);
    EmittedIsSummarized(cfg, pcfg, traces, forge, time, block, e, n, emitter, cfg.assertionTopic, id, types, values);
    SpelledAssertion(cfg, key, kind, target, observed, expected, ok);
    LogIsEvent(pcfg, ForestFrames(Adapt(cfg, traces, forge).value), time, block,
               LogRecord(emitter, [cfg.assertionTopic, id], data, false, Spelled(cfg, key)));
  }

  lemma {:induction false} SpelledAssertion(cfg: Config, k: LogKey, kind: Bytes, target: Bytes, observed: int, expected: int, ok: bool)
    requires |k.topics| == 2 && k.topics[0] == cfg.assertionTopic && |k.topics[1]| == 32
    requires Decode([String, String, Int(256), Int(256), Bool], k.data) ==
             Ok([Text(kind), Text(target), Num(observed), Num(expected), Flag(ok)])
    ensures Spelled(cfg, k) == AssertionChecked(Label(k.topics[1]), cfg.utf8(kind), cfg.utf8(target), observed, expected, ok)
  {
    hide Decode, Label;
  }

  // ---------------------------------------------------------------- transfers

  /** The node holds the ERC-20 log of the transfer. */
  ghost predicate LogsTransfer(cfg: Config, n: Node, t: Transfer) {
    && |t.token| == 20 && |t.from| == 20 && |t.to| == 20 && t.amount < WORD_LIMIT && n.idx.Some? && n.logs.Items?
    && Some(RawLog(Some(t.token), Some([Some(cfg.transferTopic), Some(Zeros(12) + t.from), Some(Zeros(12) + t.to)]),
                   Some(ToBytes(t.amount, 32)))) in n.logs.items
  }

  lemma {:induction false} TransferLogShows(cfg: Config, t: Transfer)
    requires |t.token| == 20 && |t.from| == 20 && |t.to| == 20 && t.amount < WORD_LIMIT
    requires cfg.transferTopic !in {cfg.assertionTopic, cfg.controlTopic, cfg.contextTopic, cfg.economicTopic}
    ensures ShownTransfer(cfg, Some(RawLog(Some(t.token), Some([Some(cfg.transferTopic), Some(Zeros(12) + t.from), Some(Zeros(12) + t.to)]),
                                           Some(ToBytes(t.amount, 32))))) == Some(t)
  {
    hide BigEndian, ToBytes, Pow256;
    WordLimit();
    BigEndianOfToBytes(t.amount, WORD);
    assert (Zeros(12) + t.from)[..12] == Zeros(12) && (Zeros(12) + t.from)[12..] == t.from;
    assert (Zeros(12) + t.to)[..12] == Zeros(12) && (Zeros(12) + t.to)[12..] == t.to;
  }

  /** An ERC-20 transfer that a node logs, when neither it nor an ancestor failed, is a transfer of the
      summary. */
  lemma {:induction false} TransferAsMade(cfg: Config, pcfg: ParseConfig, traces: seq<TraceEntry>, forge: ForgeLogs,
                                          time: Option<int>, block: Option<int>, e: TraceEntry, n: Node, t: Transfer)
    requires Adapt(cfg, traces, forge).Ok?
    requires cfg.transferTopic !in {cfg.assertionTopic, cfg.controlTopic, cfg.contextTopic, cfg.economicTopic}
    requires Acceptable(pcfg, Records(ForestFrames(Adapt(cfg, traces, forge).value)), time, block)
    requires e in traces && e.arena.Some? && n in e.arena.value && LogsTransfer(cfg, n, t) && !Failing(cfg, e, n)
    ensures t in Flows(Summarize(pcfg, Records(ForestFrames(Adapt(cfg, traces, forge).value)), time, block).transfers)
  {
    hide Acceptable, Summarize, Convert, ConvertKinds, ShownTransfer, ChainFails, Total, ToBytes, Records, ForestFrames;
    SummaryTransfersExact(cfg, pcfg, traces, forge, time, block);
    AdaptIsConvertKinds(cfg, traces, forge);
    SelectedArena(traces, e);
    TransferLogShows(cfg, t);
    var arenas := ArenasOf(traces);
    var h, entry := NodeTransferBag(cfg, arenas),
      Some(RawLog(Some(t.token), Some([Some(cfg.transferTopic), Some(Zeros(12) + t.from), Some(Zeros(12) + t.to)]), Some(ToBytes(t.amount, 32))));
    InTotal(LogItems(n), item => OptionBag(ShownTransfer(cfg, item)), entry, t);
    InTotal(arenas[e.kind], m => h(e.kind, m), n, t);
    InTotal(ARENA_ORDER, kind => KindTotal(arenas, h, kind), e.kind, t);
    assert t in multiset(Flows(Summarize(pcfg, Records(ForestFrames(Adapt(cfg, traces, forge).value)), time, block).transfers));
  }
}
