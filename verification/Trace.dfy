/**
 chain/trace.py: flattening canonical frames, accumulating the trace summary, and the limits and
 cheatcode policy that gate on it.
 */
module Trace {
  import opened Prelude
  import opened Abi
  import opened Arena

  // ---------------------------------------------------------------- canonical frames

  datatype Record = Record(
    depth: int, kind: string, to: Option<Bytes>, selector: Option<Bytes>, phase: string,
    caller: Option<Bytes>, data: Option<Bytes>, gasUsed: Option<int>, success: Option<bool>,
    cheatcode: Option<string>, args: seq<AbiValue>, absolute: Option<AbiValue>,
    transfer: Option<Transfer>, transfers: seq<Transfer>, logs: seq<LogRecord>, children: seq<Record>)

  function Bare(r: Record): Record {
    r.(children := [])
  }

  /** A frame and its descendants, each before its children and without them. */
  function Flatten(r: Record): seq<Record>
    decreases r
  {
    [Bare(r)] + FlattenAll(r.children)
  }

  function FlattenAll(rs: seq<Record>): seq<Record>
    decreases rs
  {
    if rs == [] then [] else FlattenAll(rs[..|rs| - 1]) + Flatten(rs[|rs| - 1])
  }

  /** The `out` list of `_flatten_records` and the function that visits one frame. */
  class Flattener {
    var out: seq<Record>

    constructor ()
      ensures out == []
    {
      out := [];
    }

    method Visit(item: Record)
      modifies this
      ensures out == old(out) + Flatten(item)
      decreases item
    {
      out := out + [Bare(item)];
      for k := 0 to |item.children|
        invariant out == old(out) + ([Bare(item)] + FlattenAll(item.children[..k]))
      {
        Visit(item.children[k]);
        assert item.children[..k + 1][..k] == item.children[..k];
        assert out == (old(out) + ([Bare(item)] + FlattenAll(item.children[..k]))) + Flatten(item.children[k]);
      }
      assert item.children[..|item.children|] == item.children;
    }
  }

  method FlattenRecords(records: seq<Record>) returns (out: seq<Record>)
    ensures out == FlattenAll(records)
  {
    var f := new Flattener();
    for k := 0 to |records|
      invariant f.out == FlattenAll(records[..k])
    {
      f.Visit(records[k]);
      assert records[..k + 1][..k] == records[..k];
    }
    assert records[..|records|] == records;
    return f.out;
  }

  // ---------------------------------------------------------------- what one record contributes

  /** Selector names, category catalog with lower-case keys, and Python's `int` on text. */
  datatype ParseConfig = ParseConfig(table: SelectorTable, catalog: map<string, string>, textInt: Bytes -> Option<int>)

  datatype TraceFrame = TraceFrame(
    depth: int, kind: string, to: Option<Bytes>, selector: Option<Bytes>, phase: string, caller: Option<Bytes>,
    data: Option<Bytes>, gasUsed: Option<int>, success: bool, logs: seq<LogRecord>)

  datatype CheatcodeCall = CheatcodeCall(
    name: string, category: string, depth: int, phase: string, args: seq<AbiValue>, selector: Option<Bytes>)

  datatype TraceTransfer = TraceTransfer(flow: Transfer, depth: int, phase: string)

  datatype AssertionEvent = AssertionEvent(
    id: string, kind: string, target: string, observed: int, expected: int, ok: bool, depth: int,
    caller: Option<Bytes>, emitter: Option<Bytes>, actor: Option<Bytes>, token: Option<Bytes>)

  datatype Summary = Summary(
    frames: seq<TraceFrame>, cheatcodes: seq<CheatcodeCall>, transfers: seq<TraceTransfer>,
    assertions: seq<AssertionEvent>, warp: int, roll: int,
    initialTime: Option<int>, finalTime: Option<int>, initialBlock: Option<int>, finalBlock: Option<int>, gasUsed: int)

  const UNCLASSIFIED := "UNCLASSIFIED"

  function FrameOf(r: Record): TraceFrame {
    TraceFrame(r.depth, r.kind, r.to, r.selector, r.phase, r.caller, r.data, r.gasUsed,
               if r.success.Some? then r.success.value else true, r.logs)
  }

  predicate PlaceOk(r: Record) {
    r.depth >= 0 && r.phase in {"setup", "witness"}
  }

  predicate IsCheat(r: Record) {
    r.to == Some(CHEATCODE_ADDRESS)
  }

  function CheatName(cfg: ParseConfig, r: Record): string {
    if r.cheatcode.Some? && r.cheatcode.value != "" then r.cheatcode.value else NameForSelector(cfg.table, r.selector)
  }

  function Category(cfg: ParseConfig, name: string): string {
    if Lower(name) in cfg.catalog && cfg.catalog[Lower(name)] != "" then cfg.catalog[Lower(name)] else UNCLASSIFIED
  }

  function CallOf(cfg: ParseConfig, r: Record): CheatcodeCall {
    var name := CheatName(cfg, r);
    CheatcodeCall(name, Category(cfg, name), r.depth, r.phase, r.args, r.selector)
  }

  function FirstInt(cfg: ParseConfig, v: AbiValue): Option<int> {
    match v
    case Num(n) => Some(n)
    case Flag(on) => Some(if on then 1 else 0)
    case Text(text) => cfg.textInt(text)
    case Hex(_) => None
    case Present => None
  }

  function NewValue(cfg: ParseConfig, r: Record): Option<int> {
    if r.absolute.Some? then FirstInt(cfg, r.absolute.value)
    else if r.args != [] then FirstInt(cfg, r.args[0])
    else None
  }

  /** The record is a cheatcode call of the given (lower-case) name. */
  predicate Moves(cfg: ParseConfig, r: Record, kind: string) {
    IsCheat(r) && Lower(CheatName(cfg, r)) == kind
  }

  /** One clock step: "warp" and "roll" calls must carry a value that does not go backwards. */
  function Tick(cfg: ParseConfig, kind: string, now: Option<int>, r: Record): Result<Option<int>> {
    if !Moves(cfg, r, kind) then Ok(now)
    else
      match NewValue(cfg, r)
      case None => Reject
      case Some(v) => if now.None? || v < now.value then Reject else Ok(Some(v))
  }

  function Clock(cfg: ParseConfig, kind: string, start: Option<int>, rs: seq<Record>): Result<Option<int>> {
    if rs == [] then Ok(start)
    else
      match Clock(cfg, kind, start, rs[..|rs| - 1])
      case Reject => Reject
      case Ok(now) => Tick(cfg, kind, now, rs[|rs| - 1])
  }

  function TransfersOf(r: Record): seq<TraceTransfer> {
    var single := if r.transfer.Some? then [TraceTransfer(r.transfer.value, r.depth, r.phase)] else [];
    single + seq(|r.transfers|, i requires 0 <= i < |r.transfers| => TraceTransfer(r.transfers[i], r.depth, r.phase))
  }

  /** The last AssertionContext of the frame with the given id. */
  function ContextFor(logs: seq<LogRecord>, id: string): (c: Option<EventBody>)
    ensures c.Some? ==> c.value.AssertionContext? && c.value.id == id
  {
    if logs == [] then None
    else
      var last := logs[|logs| - 1];
      if last.body.AssertionContext? && last.body.id == id then Some(last.body)
      else ContextFor(logs[..|logs| - 1], id)
  }

  /** The assertion event that a log contributes to its frame. */
  function AssertionOf(r: Record, log: LogRecord): Option<AssertionEvent> {
    if log.reverted || r.success == Some(false) || !log.body.AssertionChecked? then None
    else
      var b := log.body;
      var context := ContextFor(r.logs, b.id);
      var actor := if context.Some? then Some(context.value.actor) else None;
      var token := if context.Some? then Some(context.value.token) else None;
      Some(AssertionEvent(b.id, b.kind, b.target, b.observed, b.expected, b.ok, r.depth, r.caller, r.to, actor, token))
  }

  function AssertionsIn(r: Record, logs: seq<LogRecord>): seq<AssertionEvent> {
    if logs == [] then []
    else
      AssertionsIn(r, logs[..|logs| - 1]) +
      match AssertionOf(r, logs[|logs| - 1]) case None => [] case Some(e) => [e]
  }

  function GasOf(r: Record): int {
    if r.gasUsed.Some? && r.phase == "witness" && r.depth == 0 then r.gasUsed.value else 0
  }

  // ---------------------------------------------------------------- what a list of records contributes

  function Frames(rs: seq<Record>): (fs: seq<TraceFrame>)
    ensures |fs| == |rs|
    ensures forall i :: 0 <= i < |rs| ==> fs[i] == FrameOf(rs[i])
  {
    seq(|rs|, i requires 0 <= i < |rs| => FrameOf(rs[i]))
  }

  function Cheats(cfg: ParseConfig, rs: seq<Record>): seq<CheatcodeCall> {
    if rs == [] then []
    else Cheats(cfg, rs[..|rs| - 1]) + if IsCheat(rs[|rs| - 1]) then [CallOf(cfg, rs[|rs| - 1])] else []
  }

  function RecordTransfers(rs: seq<Record>): seq<TraceTransfer> {
    if rs == [] then [] else RecordTransfers(rs[..|rs| - 1]) + TransfersOf(rs[|rs| - 1])
  }

  function RecordAssertions(rs: seq<Record>): seq<AssertionEvent> {
    if rs == [] then [] else RecordAssertions(rs[..|rs| - 1]) + AssertionsIn(rs[|rs| - 1], rs[|rs| - 1].logs)
  }

  function Gas(rs: seq<Record>): int {
    if rs == [] then 0 else Gas(rs[..|rs| - 1]) + GasOf(rs[|rs| - 1])
  }

  /** The logs of a list of frames, in order. */
  function LogsOfFrames(frames: seq<TraceFrame>): seq<LogRecord> {
    if frames == [] then [] else LogsOfFrames(frames[..|frames| - 1]) + frames[|frames| - 1].logs
  }

  function Advance(start: Option<int>, end: Option<int>): int {
    if start.Some? && end.Some? then end.value - start.value else 0
  }

  predicate Acceptable(cfg: ParseConfig, rs: seq<Record>, time: Option<int>, block: Option<int>) {
    && (forall i :: 0 <= i < |rs| ==> PlaceOk(rs[i]))
    && Clock(cfg, "warp", time, rs).Ok?
    && Clock(cfg, "roll", block, rs).Ok?
  }

  function Summarize(cfg: ParseConfig, rs: seq<Record>, time: Option<int>, block: Option<int>): Summary
    requires Acceptable(cfg, rs, time, block)
  {
    var endTime, endBlock := Clock(cfg, "warp", time, rs).value, Clock(cfg, "roll", block, rs).value;
    Summary(Frames(rs), Cheats(cfg, rs), RecordTransfers(rs), RecordAssertions(rs),
            Advance(time, endTime), Advance(block, endBlock), time, endTime, block, endBlock, Gas(rs))
  }

  lemma {:induction false} ClockKeepsNone(cfg: ParseConfig, kind: string, rs: seq<Record>)
    requires Clock(cfg, kind, None, rs).Ok?
    ensures Clock(cfg, kind, None, rs).value.None?
  {
    if rs != [] {
      ClockKeepsNone(cfg, kind, rs[..|rs| - 1]);
    }
  }

  lemma {:induction false} ClockKeepsSome(cfg: ParseConfig, kind: string, start: int, rs: seq<Record>)
    requires Clock(cfg, kind, Some(start), rs).Ok?
    ensures Clock(cfg, kind, Some(start), rs).value.Some?
  {
    if rs != [] {
      ClockKeepsSome(cfg, kind, start, rs[..|rs| - 1]);
    }
  }

  lemma {:induction false} UnacceptablePrefix(cfg: ParseConfig, rs: seq<Record>, time: Option<int>, block: Option<int>, k: nat)
    requires k <= |rs| && !Acceptable(cfg, rs[..k], time, block)
    ensures !Acceptable(cfg, rs, time, block)
    decreases |rs| - k
  {
    if k < |rs| {
      assert rs[..k + 1][..k] == rs[..k];
      if forall i :: 0 <= i < k ==> PlaceOk(rs[i]) {
        assert forall i :: 0 <= i < k ==> rs[..k][i] == rs[i];
      } else {
        assert forall i :: 0 <= i < k ==> rs[..k + 1][i] == rs[i];
      }
      UnacceptablePrefix(cfg, rs, time, block, k + 1);
    } else {
      assert rs[..k] == rs;
    }
  }

  // ---------------------------------------------------------------- parse_trace

  /** The assertion events of one frame, gathered in a loop over its logs. */
  method GatherAssertions(r: Record) returns (events: seq<AssertionEvent>)
    ensures events == AssertionsIn(r, r.logs)
  {
    events := [];
    for k := 0 to |r.logs|
      invariant events == AssertionsIn(r, r.logs[..k])
    {
      assert r.logs[..k + 1][..k] == r.logs[..k];
      match AssertionOf(r, r.logs[k]) {
        case None =>
        case Some(e) => events := events + [e];
      }
    }
    assert r.logs[..|r.logs|] == r.logs;
  }

  /** What the running variables of the loop hold after the records `rs`. */
  ghost predicate Progress(cfg: ParseConfig, rs: seq<Record>, time: Option<int>, block: Option<int>,
                           prevTime: Option<int>, prevBlock: Option<int>, warp: int, roll: int)
  {
    && Acceptable(cfg, rs, time, block)
    && Clock(cfg, "warp", time, rs) == Ok(prevTime) && Clock(cfg, "roll", block, rs) == Ok(prevBlock)
    && warp == Advance(time, prevTime) && roll == Advance(block, prevBlock)
  }

  lemma {:induction false} ProgressStep(cfg: ParseConfig, rs: seq<Record>, r: Record, time: Option<int>, block: Option<int>,
                                        prevTime: Option<int>, prevBlock: Option<int>, warp: int, roll: int)
    requires Progress(cfg, rs, time, block, prevTime, prevBlock, warp, roll)
    ensures Acceptable(cfg, rs + [r], time, block) <==>
            PlaceOk(r) && Tick(cfg, "warp", prevTime, r).Ok? && Tick(cfg, "roll", prevBlock, r).Ok?
    ensures Acceptable(cfg, rs + [r], time, block) ==>
              var t, b := Tick(cfg, "warp", prevTime, r).value, Tick(cfg, "roll", prevBlock, r).value;
              Progress(cfg, rs + [r], time, block, t, b, warp + Advance(prevTime, t), roll + Advance(prevBlock, b))
  {
    hide Tick, PlaceOk;
    var more := rs + [r];
    assert more[..|more| - 1] == rs && more[|more| - 1] == r;
    if time.Some? { ClockKeepsSome(cfg, "warp", time.value, rs); } else { ClockKeepsNone(cfg, "warp", rs); }
    if block.Some? { ClockKeepsSome(cfg, "roll", block.value, rs); } else { ClockKeepsNone(cfg, "roll", rs); }
    if Acceptable(cfg, more, time, block) {
      if time.Some? { ClockKeepsSome(cfg, "warp", time.value, more); } else { ClockKeepsNone(cfg, "warp", more); }
      if block.Some? { ClockKeepsSome(cfg, "roll", block.value, more); } else { ClockKeepsNone(cfg, "roll", more); }
      assert PlaceOk(more[|rs|]);
    }
    if PlaceOk(r) {
      assert forall i :: 0 <= i < |more| ==> PlaceOk(more[i]);
    }
  }

  /** What the result lists of the loop hold after the records `rs`. */
  ghost predicate Gathered(cfg: ParseConfig, rs: seq<Record>, frames: seq<TraceFrame>, cheats: seq<CheatcodeCall>,
                           transfers: seq<TraceTransfer>, assertions: seq<AssertionEvent>, gas: int)
  {
    && frames == Frames(rs) && cheats == Cheats(cfg, rs) && transfers == RecordTransfers(rs)
    && assertions == RecordAssertions(rs) && gas == Gas(rs)
  }

  lemma {:induction false} GatheredStart(cfg: ParseConfig)
    ensures Gathered(cfg, [], [], [], [], [], 0)
  {
  }

  lemma {:induction false} GatheredStep(cfg: ParseConfig, rs: seq<Record>, r: Record, frames: seq<TraceFrame>, cheats: seq<CheatcodeCall>,
                                        transfers: seq<TraceTransfer>, assertions: seq<AssertionEvent>, gas: int)
    requires Gathered(cfg, rs, frames, cheats, transfers, assertions, gas)
    ensures Gathered(cfg, rs + [r], frames + [FrameOf(r)], if IsCheat(r) then cheats + [CallOf(cfg, r)] else cheats,
                     transfers + TransfersOf(r), assertions + AssertionsIn(r, r.logs), gas + GasOf(r))
  {
    hide CallOf, FrameOf, GasOf, AssertionsIn, TransfersOf, IsCheat;
    var more := rs + [r];
    assert more[..|more| - 1] == rs && more[|more| - 1] == r;
    assert Frames(more) == Frames(rs) + [FrameOf(r)];
  }

  lemma {:induction false} GatheredEnd(cfg: ParseConfig, rs: seq<Record>, frames: seq<TraceFrame>, cheats: seq<CheatcodeCall>,
                                       transfers: seq<TraceTransfer>, assertions: seq<AssertionEvent>, gas: int)
    requires Gathered(cfg, rs, frames, cheats, transfers, assertions, gas)
    ensures frames == Frames(rs) && cheats == Cheats(cfg, rs) && transfers == RecordTransfers(rs)
    ensures assertions == RecordAssertions(rs) && gas == Gas(rs)
  {
  }

  /** One clock update of the loop: the new time and how far it moved. */
  method MoveClock(cfg: ParseConfig, kind: string, now: Option<int>, r: Record) returns (ok: bool, next: Option<int>, moved: int)
    ensures ok <==> Tick(cfg, kind, now, r).Ok?
    ensures ok ==> Tick(cfg, kind, now, r) == Ok(next) && moved == Advance(now, next)
  {
    ok, next, moved := true, now, 0;
    if IsCheat(r) && Lower(CheatName(cfg, r)) == kind {
      var v := NewValue(cfg, r);
      if v.None? || now.None? || v.value < now.value {
        return false, now, 0;
      }
      return true, v, v.value - now.value;
    }
  }

  method ParseTrace(cfg: ParseConfig, records: seq<Record>, time: Option<int>, block: Option<int>) returns (r: Result<Summary>)
    ensures r.Ok? <==> Acceptable(cfg, FlattenAll(records), time, block)
    ensures r.Ok? ==> r.value == Summarize(cfg, FlattenAll(records), time, block)
  {
    hide Acceptable, Progress, Tick, Gathered;
    var items := FlattenRecords(records);
    var prevTime, prevBlock, warp, roll, gas := time, block, 0, 0, 0;
    var frames: seq<TraceFrame> := [];
    var cheats: seq<CheatcodeCall> := [];
    var transfers: seq<TraceTransfer> := [];
    var assertions: seq<AssertionEvent> := [];
    ProgressStart(cfg, time, block);
    GatheredStart(cfg);
    assert items[..0] == [];
    for k := 0 to |items|
      invariant Progress(cfg, items[..k], time, block, prevTime, prevBlock, warp, roll)
      invariant Gathered(cfg, items[..k], frames, cheats, transfers, assertions, gas)
    {
      var item := items[k];
      assert items[..k + 1] == items[..k] + [item];
      ProgressStep(cfg, items[..k], item, time, block, prevTime, prevBlock, warp, roll);
      var timeOk, t, warped := MoveClock(cfg, "warp", prevTime, item);
      var blockOk, b, rolled := MoveClock(cfg, "roll", prevBlock, item);
      if !PlaceOk(item) || !timeOk || !blockOk {
        UnacceptablePrefix(cfg, items, time, block, k + 1);
        return Reject;
      }
      prevTime, warp, prevBlock, roll := t, warp + warped, b, roll + rolled;
      var events := GatherAssertions(item);
      GatheredStep(cfg, items[..k], item, frames, cheats, transfers, assertions, gas);
      frames, gas := frames + [FrameOf(item)], gas + GasOf(item);
      if IsCheat(item) {
        cheats := cheats + [CallOf(cfg, item)];
      }
      transfers, assertions := transfers + TransfersOf(item), assertions + events;
    }
    assert items[..|items|] == items;
    GatheredEnd(cfg, items, frames, cheats, transfers, assertions, gas);
    ProgressEnd(cfg, items, time, block, prevTime, prevBlock, warp, roll);
    return Ok(Summary(frames, cheats, transfers, assertions, warp, roll, time, prevTime, block, prevBlock, gas));
  }

  lemma {:induction false} ProgressStart(cfg: ParseConfig, time: Option<int>, block: Option<int>)
    ensures Progress(cfg, [], time, block, time, block, 0, 0)
  {
  }

  lemma {:induction false} ProgressEnd(cfg: ParseConfig, rs: seq<Record>, time: Option<int>, block: Option<int>,
                                       prevTime: Option<int>, prevBlock: Option<int>, warp: int, roll: int)
    requires Progress(cfg, rs, time, block, prevTime, prevBlock, warp, roll)
    ensures Acceptable(cfg, rs, time, block)
    ensures Summarize(cfg, rs, time, block) ==
            Summary(Frames(rs), Cheats(cfg, rs), RecordTransfers(rs), RecordAssertions(rs), warp, roll, time, prevTime, block, prevBlock, Gas(rs))
  {
  }

  // ---------------------------------------------------------------- clocks never run backwards

  /** The values that calls of one kind set, in execution order. */
  function Settings(cfg: ParseConfig, kind: string, rs: seq<Record>): seq<Option<int>> {
    if rs == [] then []
    else
      Settings(cfg, kind, rs[..|rs| - 1]) +
      if Moves(cfg, rs[|rs| - 1], kind) then [NewValue(cfg, rs[|rs| - 1])] else []
  }

  ghost predicate NeverBackwards(start: Option<int>, settings: seq<Option<int>>) {
    && (settings != [] ==> start.Some?)
    && (forall i :: 0 <= i < |settings| ==> settings[i].Some?)
    && (settings != [] ==> settings[0].value >= start.value)
    && (forall i :: 0 < i < |settings| ==> settings[i - 1].value <= settings[i].value)
  }

  /** A clock is accepted exactly when its settings never go backwards from a known start, and it
      then shows the last setting. */
  lemma {:induction false} ClockExact(cfg: ParseConfig, kind: string, start: Option<int>, rs: seq<Record>)
    ensures Clock(cfg, kind, start, rs).Ok? <==> NeverBackwards(start, Settings(cfg, kind, rs))
    ensures Clock(cfg, kind, start, rs).Ok? ==>
              Clock(cfg, kind, start, rs).value == Last([start] + Settings(cfg, kind, rs))
  {
    if rs != [] {
      var init, r := rs[..|rs| - 1], rs[|rs| - 1];
      ClockExact(cfg, kind, start, init);
      var s, v := Settings(cfg, kind, init), NewValue(cfg, r);
      if Moves(cfg, r, kind) {
        BackwardsSnoc(start, s, v);
        assert Settings(cfg, kind, rs) == s + [v] && Last([start] + (s + [v])) == v;
      } else {
        assert Settings(cfg, kind, rs) == s;
      }
    }
  }

  lemma {:induction false} BackwardsSnoc(start: Option<int>, s: seq<Option<int>>, v: Option<int>)
    ensures NeverBackwards(start, s + [v]) <==>
            NeverBackwards(start, s) && v.Some? && Last([start] + s).Some? && v.value >= Last([start] + s).value
  {
    var m := s + [v];
    if NeverBackwards(start, m) {
      assert m[|s|] == v;
      assert forall i :: 0 <= i < |s| ==> s[i] == m[i];
    }
  }

  lemma {:induction false} SettingBounds(start: int, s: seq<Option<int>>, i: nat)
    requires NeverBackwards(Some(start), s) && i < |s|
    ensures start <= s[i].value <= Last(s).value
    decreases |s| - i
  {
    if i + 1 < |s| {
      SettingBounds(start, s, i + 1);
    }
    if i > 0 {
      SettingLower(start, s, i);
    }
  }

  lemma {:induction false} SettingLower(start: int, s: seq<Option<int>>, i: nat)
    requires NeverBackwards(Some(start), s) && i < |s|
    ensures start <= s[i].value
  {
    if i > 0 {
      SettingLower(start, s, i - 1);
    }
  }

  // ---------------------------------------------------------------- limits

  predicate WithinLimits(summary: Summary, maxTime: int, maxBlocks: int) {
    maxTime >= 0 && maxBlocks >= 0 && summary.warp <= maxTime && summary.roll <= maxBlocks
  }

  /** Every setting lies between the start and `limit` above it. */
  ghost predicate SettingsWithin(start: Option<int>, settings: seq<Option<int>>, limit: int) {
    forall i :: 0 <= i < |settings| ==>
      start.Some? && settings[i].Some? && start.value <= settings[i].value <= start.value + limit
  }

  /** With the limits enforced, every timestamp and block a trace ever sets lies between the initial
      value and the limit above it, and the cumulative advance is the final value minus the initial. */
  lemma {:induction false} LimitsHoldThroughout(cfg: ParseConfig, rs: seq<Record>, time: Option<int>, block: Option<int>, maxTime: int, maxBlocks: int)
    requires Acceptable(cfg, rs, time, block) && WithinLimits(Summarize(cfg, rs, time, block), maxTime, maxBlocks)
    ensures SettingsWithin(time, Settings(cfg, "warp", rs), maxTime)
    ensures SettingsWithin(block, Settings(cfg, "roll", rs), maxBlocks)
    ensures var s := Summarize(cfg, rs, time, block);
            && (time.Some? ==> s.finalTime.Some? && s.warp == s.finalTime.value - time.value)
            && (block.Some? ==> s.finalBlock.Some? && s.roll == s.finalBlock.value - block.value)
            && (time.None? ==> s.warp == 0) && (block.None? ==> s.roll == 0)
  {
    LimitOneClock(cfg, "warp", time, rs, maxTime);
    LimitOneClock(cfg, "roll", block, rs, maxBlocks);
  }

  lemma {:induction false} LimitOneClock(cfg: ParseConfig, kind: string, start: Option<int>, rs: seq<Record>, limit: int)
    requires Clock(cfg, kind, start, rs).Ok? && Advance(start, Clock(cfg, kind, start, rs).value) <= limit
    ensures start.Some? ==> Clock(cfg, kind, start, rs).value.Some?
    ensures SettingsWithin(start, Settings(cfg, kind, rs), limit)
  {
    ClockExact(cfg, kind, start, rs);
    var s := Settings(cfg, kind, rs);
    forall i | 0 <= i < |s|
      ensures start.Some? && s[i].Some? && start.value <= s[i].value <= start.value + limit
    {
      SettingBounds(start.value, s, i);
    }
  }

  /** The limits hold exactly when they are not negative and every setting of either clock lies between
      the start and the limit above it. */
  lemma {:induction false} LimitsExactly(cfg: ParseConfig, rs: seq<Record>, time: Option<int>, block: Option<int>, maxTime: int, maxBlocks: int)
    requires Acceptable(cfg, rs, time, block)
    ensures WithinLimits(Summarize(cfg, rs, time, block), maxTime, maxBlocks) <==>
            && maxTime >= 0 && SettingsWithin(time, Settings(cfg, "warp", rs), maxTime)
            && maxBlocks >= 0 && SettingsWithin(block, Settings(cfg, "roll", rs), maxBlocks)
  {
    hide Clock, Settings;
    if WithinLimits(Summarize(cfg, rs, time, block), maxTime, maxBlocks) {
      LimitsHoldThroughout(cfg, rs, time, block, maxTime, maxBlocks);
    }
    if maxTime >= 0 && SettingsWithin(time, Settings(cfg, "warp", rs), maxTime) {
      LastSettingWithin(cfg, "warp", time, rs, maxTime);
    }
    if maxBlocks >= 0 && SettingsWithin(block, Settings(cfg, "roll", rs), maxBlocks) {
      LastSettingWithin(cfg, "roll", block, rs, maxBlocks);
    }
  }

  lemma {:induction false} LastSettingWithin(cfg: ParseConfig, kind: string, start: Option<int>, rs: seq<Record>, limit: nat)
    requires Clock(cfg, kind, start, rs).Ok? && SettingsWithin(start, Settings(cfg, kind, rs), limit)
    ensures Advance(start, Clock(cfg, kind, start, rs).value) <= limit
  {
    ClockExact(cfg, kind, start, rs);
    var s := Settings(cfg, kind, rs);
    if s != [] {
      assert Last([start] + s) == s[|s| - 1];
    }
    hide Clock, Settings;
  }

  // ---------------------------------------------------------------- cheatcode policy

  /** Allowed categories by witness class and phase, where phase "default" stands in for others. */
  type Policy = map<string, map<string, set<string>>>

  const GATE_ALIAS: Bytes := [0x6c, 0x30, 0x76, 0x69, 0x30, 0x78, 0x5f, 0x67, 0x61, 0x74, 0x65]

  const EXTERNAL_IO: set<string> := {"ffi", "readFile", "writeFile", "setEnv", "envString", "envOrFile"}

  const FORK_MUTATIONS: set<string> := {
    "deal", "etch", "store", "load", "prank", "startPrank", "hoax", "startHoax", "setNonce", "mockCall", "mockCallRevert"}

  function AllowedCategories(policy: Policy, witnessClass: string, phase: string): set<string> {
    if witnessClass !in policy then {}
    else
      var byPhase := policy[witnessClass];
      if phase in byPhase then byPhase[phase]
      else if "default" in byPhase then byPhase["default"]
      else {}
  }

  /** createSelectFork is admitted only in the setup of a deployed fork, through the gate alias, at
      the pinned block. */
  predicate ForkSelectionOk(cfg: ParseConfig, call: CheatcodeCall, witnessClass: string, forkBlock: Option<int>) {
    && witnessClass == "deployed_fork" && call.phase == "setup"
    && |call.args| == 2
    && call.args[0] == Text(GATE_ALIAS)
    && forkBlock.Some? && FirstInt(cfg, call.args[1]) == forkBlock
  }

  predicate Allowed(cfg: ParseConfig, call: CheatcodeCall, witnessClass: string, policy: Policy, forkBlock: Option<int>) {
    && call.category != UNCLASSIFIED
    && call.category in AllowedCategories(policy, witnessClass, call.phase)
    && call.name !in EXTERNAL_IO
    && call.name !in {"createFork", "selectFork"}
    && (call.name == "createSelectFork" ==> ForkSelectionOk(cfg, call, witnessClass, forkBlock))
    && (witnessClass == "deployed_fork" && call.phase == "witness" ==> call.name !in FORK_MUTATIONS)
  }

  /** The loop of `enforce_cheatcode_policy`, with its tests in the program's order. */
  method EnforcePolicy(cfg: ParseConfig, summary: Summary, witnessClass: string, policy: Policy, forkBlock: Option<int>) returns (ok: bool)
    ensures ok <==> forall i :: 0 <= i < |summary.cheatcodes| ==> Allowed(cfg, summary.cheatcodes[i], witnessClass, policy, forkBlock)
  {
    for k := 0 to |summary.cheatcodes|
      invariant forall i :: 0 <= i < k ==> Allowed(cfg, summary.cheatcodes[i], witnessClass, policy, forkBlock)
    {
      var call := summary.cheatcodes[k];
      if call.category == UNCLASSIFIED || call.category !in AllowedCategories(policy, witnessClass, call.phase) {
        return false;
      }
      if call.name in EXTERNAL_IO || call.name in {"createFork", "selectFork"} {
        return false;
      }
      if call.name == "createSelectFork" {
        if witnessClass != "deployed_fork" || call.phase != "setup" || |call.args| !in {2, 3} {
          return false;
        }
        if call.args[0] != Text(GATE_ALIAS) || |call.args| != 2 || forkBlock.None? {
          return false;
        }
        if FirstInt(cfg, call.args[1]) != forkBlock {
          return false;
        }
      }
      if witnessClass == "deployed_fork" && call.phase == "witness" && call.name in FORK_MUTATIONS {
        return false;
      }
    }
    return true;
  }
}
