/**
 Cheatcode calls from the arena to the summary: a call that a contract makes with properly encoded
 arguments is the call the policy judges and the setting the clocks follow.
 */
module Cheatcodes {
  import opened Prelude
  import opened Abi
  import opened Arena
  import opened ArenaWalk
  import opened ArenaFacts
  import opened ArenaLogs
  import opened NodesExact
  import opened Adapter
  import opened Trace
  import opened TraceChain

  // ---------------------------------------------------------------- the clocks follow the calls

  /** The first arguments of the calls of one name, upper or lower case, in order. */
  function ClockArgs(pcfg: ParseConfig, calls: seq<CheatcodeCall>, kind: string): seq<Option<int>> {
    if calls == [] then []
    else
      var c := calls[|calls| - 1];
      ClockArgs(pcfg, calls[..|calls| - 1], kind) +
      if Lower(c.name) == kind then [if c.args == [] then None else FirstInt(pcfg, c.args[0])] else []
  }

  lemma {:induction false} ClockArgsSnoc(pcfg: ParseConfig, calls: seq<CheatcodeCall>, c: CheatcodeCall, kind: string)
    ensures ClockArgs(pcfg, calls + [c], kind) ==
            ClockArgs(pcfg, calls, kind) +
            if Lower(c.name) == kind then [if c.args == [] then None else FirstInt(pcfg, c.args[0])] else []
  {
    assert (calls + [c])[..|calls|] == calls;
  }

  predicate PlainValue(r: Record) {
    r.absolute.Some? ==> r.args != [] && r.absolute.value == r.args[0]
  }

  lemma {:induction false} SettingsAreArgs(pcfg: ParseConfig, kind: string, rs: seq<Record>)
    requires forall i :: 0 <= i < |rs| ==> PlainValue(rs[i])
    ensures Settings(pcfg, kind, rs) == ClockArgs(pcfg, Cheats(pcfg, rs), kind)
  {
    hide FirstInt, CheatName, Lower;
    if rs != [] {
      var init, r := rs[..|rs| - 1], rs[|rs| - 1];
      SettingsAreArgs(pcfg, kind, init);
      assert PlainValue(r);
      if IsCheat(r) {
        var c := CallOf(pcfg, r);
        ClockArgsSnoc(pcfg, Cheats(pcfg, init), c, kind);
        assert NewValue(pcfg, r) == if c.args == [] then None else FirstInt(pcfg, c.args[0]);
      } else {
        assert Cheats(pcfg, rs) == Cheats(pcfg, init);
      }
    }
  }

  lemma {:induction false} ForestIsPlain(cfg: Config, arenas: map<string, seq<Node>>, kinds: seq<string>)
    requires ConvertKinds(cfg, arenas, kinds).Ok?
    ensures forall s :: s in ForestFrames(ConvertKinds(cfg, arenas, kinds).value) ==> PlainValue(RecordOf(s))
  {
    hide Convert, Preorder, RecordOf, PlainValue;
    if kinds != [] {
      var init, kind := kinds[..|kinds| - 1], kinds[|kinds| - 1];
      ForestIsPlain(cfg, arenas, init);
      if kind in arenas {
        var trees, t := ConvertKinds(cfg, arenas, init).value, Convert(cfg, PhaseOf(kind), arenas[kind]).value;
        assert (trees + [t])[..|trees + [t]| - 1] == trees;
        forall s | s in Preorder(t)
          ensures PlainValue(RecordOf(s))
        {
          FrameIsPlain(cfg, PhaseOf(kind), arenas[kind], s);
        }
      }
    }
  }

  lemma {:induction false} FrameIsPlain(cfg: Config, phase: string, nodes: seq<Node>, s: Tree)
    requires Convert(cfg, phase, nodes).Ok? && s in Preorder(Convert(cfg, phase, nodes).value)
    ensures PlainValue(RecordOf(s))
  {
    hide Convert, Preorder, OpenHead, Logs, Transfers, NodeOk;
    NodeOfFrame(cfg, phase, nodes, s);
    OpensExactly(cfg, phase, EnvOf(cfg, phase, nodes).nodes[s.idx]);
  }

  /** In an accepted run the values of the summary's own warp and roll calls, in execution order, never
      go backwards from the known start, and the summary's final time and block are the last of them. */
  lemma {:induction false} ClocksFollowCalls(cfg: Config, pcfg: ParseConfig, traces: seq<TraceEntry>, forge: ForgeLogs, time: Option<int>, block: Option<int>)
    requires Adapt(cfg, traces, forge).Ok?
    requires Acceptable(pcfg, Records(ForestFrames(Adapt(cfg, traces, forge).value)), time, block)
    ensures var s := Summarize(pcfg, Records(ForestFrames(Adapt(cfg, traces, forge).value)), time, block);
            var warps, rolls := ClockArgs(pcfg, s.cheatcodes, "warp"), ClockArgs(pcfg, s.cheatcodes, "roll");
            && NeverBackwards(time, warps) && s.initialTime == time && s.finalTime == Last([time] + warps)
            && NeverBackwards(block, rolls) && s.initialBlock == block && s.finalBlock == Last([block] + rolls)
  {
    hide Adapt, ConvertKinds, ForestFrames, RecordOf, Clock, NeverBackwards, Settings, Cheats, PlainValue, ClockArgs;
    var frames := ForestFrames(Adapt(cfg, traces, forge).value);
    var rs := Records(frames);
    AdaptIsConvertKinds(cfg, traces, forge);
    ForestIsPlain(cfg, ArenasOf(traces), ARENA_ORDER);
    SettingsAreArgs(pcfg, "warp", rs);
    SettingsAreArgs(pcfg, "roll", rs);
    ClockExact(pcfg, "warp", time, rs);
    ClockExact(pcfg, "roll", block, rs);
  }

  // ---------------------------------------------------------------- one call, end to end

  /** The node calls the cheatcode address with a known selector and the canonical encoding of values. */
  ghost predicate MakesCall(cfg: Config, n: Node, selector: Bytes, values: seq<AbiValue>) {
    && n.trace.Some? && n.trace.value.address == Some(CHEATCODE_ADDRESS) && n.trace.value.kind in CALL_KINDS
    && |selector| == 4 && selector in cfg.table && cfg.table[selector].name != ""
    && HaveTypes(cfg.table[selector].types, values) && |Encode(cfg.table[selector].types, values)| < WORD_LIMIT
    && n.trace.value.data == Some(selector + Encode(cfg.table[selector].types, values))
  }

  /** The summary's account of such a call. */
  ghost predicate Accounts(cfg: Config, pcfg: ParseConfig, c: CheatcodeCall, kind: string, n: Node, selector: Bytes, values: seq<AbiValue>)
    requires MakesCall(cfg, n, selector, values)
  {
    && c.name == cfg.table[selector].name && c.args == values && c.selector == Some(selector)
    && Some(c.depth) == n.trace.value.depth
    && (c.phase == "witness" <==> kind == "Execution") && (c.phase == "setup" <==> kind != "Execution")
    && var key := Lower(c.name);
       if key in pcfg.catalog && pcfg.catalog[key] != "" then c.category == pcfg.catalog[key] else c.category == "UNCLASSIFIED"
  }

  lemma {:induction false} MadeCallDecodes(cfg: Config, n: Node, selector: Bytes, values: seq<AbiValue>)
    requires MakesCall(cfg, n, selector, values)
    ensures var data := n.trace.value.data.value;
            |data| >= 4 && data[..4] == selector && Decode(cfg.table[selector].types, data[4..]) == Ok(values)
  {
    hide Encode, Decode, HaveTypes;
    var body := Encode(cfg.table[selector].types, values);
    assert (selector + body)[..4] == selector && (selector + body)[4..] == body == body + [];
    DecodeInvertsEncode(cfg.table[selector].types, values, []);
  }

  lemma {:induction false} MadeCallIsRead(cfg: Config, pcfg: ParseConfig, kind: string, n: Node, selector: Bytes, values: seq<AbiValue>)
    requires MakesCall(cfg, n, selector, values) && NodeCheat(cfg, pcfg, kind, n).Some?
    ensures Accounts(cfg, pcfg, NodeCheat(cfg, pcfg, kind, n).value, kind, n, selector, values)
  {
    MadeCallDecodes(cfg, n, selector, values);
    hide Encode, Decode, HaveTypes, Lower, HexText;
  }

  lemma {:induction false} ClockArgsHave(pcfg: ParseConfig, calls: seq<CheatcodeCall>, kind: string, c: CheatcodeCall)
    requires c in calls && Lower(c.name) == kind
    ensures (if c.args == [] then None else FirstInt(pcfg, c.args[0])) in ClockArgs(pcfg, calls, kind)
  {
    hide FirstInt, Lower;
    if c != calls[|calls| - 1] {
      ClockArgsHave(pcfg, calls[..|calls| - 1], kind, c);
    }
  }

  /** The value reads as the number: it is that number, the truth value of zero or one, or a text that
      spells it. */
  predicate ReadsAs(pcfg: ParseConfig, v: AbiValue, n: int) {
    v == Num(n) || (v == Flag(false) && n == 0) || (v == Flag(true) && n == 1) || (v.Text? && pcfg.textInt(v.text) == Some(n))
  }

  /** The first of the values reads as a number that is among the settings of the clock and lies between
      where the clock started and where it ended. */
  ghost predicate SetsClock(pcfg: ParseConfig, values: seq<AbiValue>, settings: seq<Option<int>>, start: Option<int>, end: Option<int>) {
    && values != [] && start.Some? && end.Some?
    && exists n :: ReadsAs(pcfg, values[0], n) && Some(n) in settings && start.value <= n <= end.value
  }

  lemma {:induction false} CallSetsClock(pcfg: ParseConfig, calls: seq<CheatcodeCall>, kind: string, c: CheatcodeCall, start: Option<int>)
    requires c in calls && Lower(c.name) == kind && NeverBackwards(start, ClockArgs(pcfg, calls, kind))
    ensures SetsClock(pcfg, c.args, ClockArgs(pcfg, calls, kind), start, Last([start] + ClockArgs(pcfg, calls, kind)))
  {
    hide Lower, ClockArgs;
    var settings := ClockArgs(pcfg, calls, kind);
    ClockArgsHave(pcfg, calls, kind, c);
    var v := if c.args == [] then None else FirstInt(pcfg, c.args[0]);
    var i :| 0 <= i < |settings| && settings[i] == v;
    SettingBounds(start.value, settings, i);
    assert Last([start] + settings) == Last(settings);
    assert ReadsAs(pcfg, c.args[0], v.value) && Some(v.value) in settings;
  }

  /** In an accepted run, every node that calls a known cheatcode with canonically encoded values is in
      the summary under that cheatcode's name with exactly those values, the catalog's category, the
      phase of its arena and its depth; and the first value of a warp or a roll is a setting of the
      clock. */
  lemma {:induction false} CallAsMade(cfg: Config, pcfg: ParseConfig, traces: seq<TraceEntry>, forge: ForgeLogs,
                                      time: Option<int>, block: Option<int>, e: TraceEntry, n: Node, selector: Bytes, values: seq<AbiValue>)
    requires Adapt(cfg, traces, forge).Ok?
    requires Acceptable(pcfg, Records(ForestFrames(Adapt(cfg, traces, forge).value)), time, block)
    requires e in traces && e.arena.Some? && n in e.arena.value && MakesCall(cfg, n, selector, values)
    ensures var s := Summarize(pcfg, Records(ForestFrames(Adapt(cfg, traces, forge).value)), time, block);
            var name := Lower(cfg.table[selector].name);
            && (exists c :: c in s.cheatcodes && Accounts(cfg, pcfg, c, e.kind, n, selector, values))
            && (name == "warp" ==> SetsClock(pcfg, values, ClockArgs(pcfg, s.cheatcodes, "warp"), time, s.finalTime))
            && (name == "roll" ==> SetsClock(pcfg, values, ClockArgs(pcfg, s.cheatcodes, "roll"), block, s.finalBlock))
  {
    MadeCallIsNamed(cfg, n, selector, values);
    hide Adapt, Acceptable, MakesCall, ForestFrames, RecordOf, Summarize, NeverBackwards, SetsClock, ClockArgs, Lower, NodeCheat;
    var calls := Summarize(pcfg, Records(ForestFrames(Adapt(cfg, traces, forge).value)), time, block).cheatcodes;
    EveryCheatcodeNodeSummarized(cfg, pcfg, traces, forge, time, block, e, n);
    MadeCallIsRead(cfg, pcfg, e.kind, n, selector, values);
    ClocksFollowCalls(cfg, pcfg, traces, forge, time, block);
    var c := NodeCheat(cfg, pcfg, e.kind, n).value;
    if Lower(c.name) == "warp" {
      CallSetsClock(pcfg, calls, "warp", c, time);
    }
    if Lower(c.name) == "roll" {
      CallSetsClock(pcfg, calls, "roll", c, block);
    }
  }

  lemma {:induction false} MadeCallIsNamed(cfg: Config, n: Node, selector: Bytes, values: seq<AbiValue>)
    requires MakesCall(cfg, n, selector, values)
    ensures n.trace.Some? && n.trace.value.address == Some(CHEATCODE_ADDRESS) && selector in cfg.table
  {
    hide Encode, HaveTypes;
  }

  // ---------------------------------------------------------------- what the policy denies

  function Ascii(s: string): (b: Bytes)
    requires forall i :: 0 <= i < |s| ==> s[i] as int < 128
    ensures |b| == |s|
  {
    seq(|s|, i requires 0 <= i < |s| => s[i] as int)
  }

  /** The witness class grants the category in the phase; the class's default speaks for phases that it
      does not name. */
  predicate Grants(policy: Policy, witnessClass: string, phase: string, category: string) {
    && witnessClass in policy
    && ((phase in policy[witnessClass] && category in policy[witnessClass][phase])
        || (phase !in policy[witnessClass] && "default" in policy[witnessClass] && category in policy[witnessClass]["default"]))
  }

  /** The policy denies a call exactly for one of five reasons: its category is unclassified or not
      granted, it reaches outside or manages forks itself, it selects a fork other than the gate at the
      pinned block in the setup of a deployed fork, or it impersonates or mutates a fork's witness. */
  lemma {:induction false} DeniedExactly(cfg: ParseConfig, c: CheatcodeCall, witnessClass: string, policy: Policy, forkBlock: Option<int>)
    ensures !Allowed(cfg, c, witnessClass, policy, forkBlock) <==>
            || c.category == "UNCLASSIFIED" || !Grants(policy, witnessClass, c.phase, c.category)
            || c.name in {"ffi", "readFile", "writeFile", "setEnv", "envString", "envOrFile", "createFork", "selectFork"}
            || (c.name == "createSelectFork"
                && !(witnessClass == "deployed_fork" && c.phase == "setup" && |c.args| == 2 && c.args[0] == Text(Ascii("l0vi0x_gate"))
                     && forkBlock.Some? && ReadsAs(cfg, c.args[1], forkBlock.value)))
            || (witnessClass == "deployed_fork" && c.phase == "witness"
                && c.name in {"deal", "etch", "store", "load", "prank", "startPrank", "hoax", "startHoax", "setNonce", "mockCall", "mockCallRevert"})
  {
    assert Ascii("l0vi0x_gate") == GATE_ALIAS;
  }

  /** A node's canonical createSelectFork call is allowed exactly for the gate alias and the pinned
      block in the setup of a deployed fork whose policy grants its category. */
  lemma {:induction false} ForkCallJudged(cfg: Config, pcfg: ParseConfig, c: CheatcodeCall, kind: string, n: Node, selector: Bytes,
                                          alias: Bytes, number: nat, witnessClass: string, policy: Policy, forkBlock: Option<int>)
    requires MakesCall(cfg, n, selector, [Text(alias), Num(number)]) && cfg.table[selector].name == "createSelectFork"
    requires Accounts(cfg, pcfg, c, kind, n, selector, [Text(alias), Num(number)])
    ensures Allowed(pcfg, c, witnessClass, policy, forkBlock) <==>
            && witnessClass == "deployed_fork" && kind != "Execution" && alias == Ascii("l0vi0x_gate") && forkBlock == Some(number)
            && c.category != "UNCLASSIFIED" && Grants(policy, witnessClass, "setup", c.category)
  {
    hide MakesCall, Lower, Grants, Ascii;
    DeniedExactly(pcfg, c, witnessClass, policy, forkBlock);
    hide Allowed;
  }
}
