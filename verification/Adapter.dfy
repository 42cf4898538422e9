/**
 From Forge's traces to the frames of the canonical envelope: choosing the arenas, converting them
 in the order Deployment, Setup, Execution, and comparing the derived logs with Forge's own list.
 */
module Adapter {
  import opened Prelude
  import opened Arena
  import opened ArenaWalk
  import opened ArenaLoop
  import opened ArenaConvert

  /** One `[kind, {"arena": nodes}]` entry; a malformed body has no arena. */
  datatype TraceEntry = TraceEntry(kind: string, arena: Option<seq<Node>>)

  /** Forge's test-level log list: missing, a list whose malformed entries are None, or no list. */
  datatype ForgeLogs = NoLogs | Listed(entries: seq<Option<LogKey>>) | NotAList

  const ARENA_ORDER: seq<string> := ["Deployment", "Setup", "Execution"]

  function PhaseOf(kind: string): string {
    if kind == "Execution" then "witness" else "setup"
  }

  function SelectArenas(traces: seq<TraceEntry>): Result<map<string, seq<Node>>> {
    if traces == [] then Ok(map[])
    else
      var last := traces[|traces| - 1];
      match SelectArenas(traces[..|traces| - 1])
      case Reject => Reject
      case Ok(m) =>
        if last.kind !in ARENA_ORDER || last.kind in m || last.arena.None? || last.arena.value == [] then Reject
        else Ok(m[last.kind := last.arena.value])
  }

  /** The trees of the listed arenas that are present, in order. */
  function ConvertKinds(cfg: Config, arenas: map<string, seq<Node>>, kinds: seq<string>): Result<seq<Tree>> {
    if kinds == [] then Ok([])
    else
      var kind := kinds[|kinds| - 1];
      match ConvertKinds(cfg, arenas, kinds[..|kinds| - 1])
      case Reject => Reject
      case Ok(trees) =>
        if kind !in arenas then Ok(trees)
        else
          match Convert(cfg, PhaseOf(kind), arenas[kind])
          case Reject => Reject
          case Ok(t) => Ok(trees + [t])
  }

  function ForestLogs(trees: seq<Tree>): seq<LogKey> {
    if trees == [] then [] else ForestLogs(trees[..|trees| - 1]) + TreeLogs(trees[|trees| - 1])
  }

  predicate LogsAgree(forge: ForgeLogs, derived: seq<LogKey>) {
    match forge
    case NoLogs => true
    case NotAList => false
    case Listed(entries) => AllPresent(entries) == Some(derived)
  }

  /** `adapt_forge_test_json` on the traces and logs of the selected test. */
  function Adapt(cfg: Config, traces: seq<TraceEntry>, forge: ForgeLogs): Result<seq<Tree>> {
    match SelectArenas(traces)
    case Reject => Reject
    case Ok(arenas) =>
      if traces == [] || "Execution" !in arenas then Reject
      else
        match ConvertKinds(cfg, arenas, ARENA_ORDER)
        case Reject => Reject
        case Ok(trees) => if LogsAgree(forge, ForestLogs(trees)) then Ok(trees) else Reject
  }

  ghost predicate ForestRepresents(frames: seq<Frame>, trees: seq<Tree>, done: set<Frame>)
    reads done
  {
    |frames| == |trees| && forall i :: 0 <= i < |frames| ==> Represents(frames[i], trees[i], done)
  }

  lemma {:induction false} ForestSnoc(frames: seq<Frame>, trees: seq<Tree>, done: set<Frame>, f: Frame, t: Tree, more: set<Frame>)
    requires ForestRepresents(frames, trees, done) && Represents(f, t, more)
    ensures ForestRepresents(frames + [f], trees + [t], done + more)
    ensures ForestLogs(trees + [t]) == ForestLogs(trees) + TreeLogs(t)
  {
    RepresentsGrows(f, t, more, done + more);
    forall i | 0 <= i < |frames|
      ensures Represents(frames[i], trees[i], done + more)
    {
      RepresentsGrows(frames[i], trees[i], done, done + more);
    }
    assert (trees + [t])[..|trees|] == trees;
  }

  lemma {:induction false} SelectArenasFails(traces: seq<TraceEntry>, k: nat)
    requires k <= |traces| && SelectArenas(traces[..k]).Reject?
    ensures SelectArenas(traces).Reject?
    decreases |traces| - k
  {
    if k < |traces| {
      assert traces[..k + 1][..k] == traces[..k];
      SelectArenasFails(traces, k + 1);
    } else {
      assert traces[..k] == traces;
    }
  }

  /** The loop of `_select_arenas`. */
  method ReadArenas(traces: seq<TraceEntry>) returns (r: Result<map<string, seq<Node>>>)
    ensures r.Ok? <==> SelectArenas(traces).Ok? && traces != [] && "Execution" in SelectArenas(traces).value
    ensures r.Ok? ==> r == SelectArenas(traces)
  {
    if traces == [] {
      return Reject;
    }
    var arenas: map<string, seq<Node>> := map[];
    for k := 0 to |traces|
      invariant SelectArenas(traces[..k]) == Ok(arenas)
    {
      var entry := traces[k];
      assert traces[..k + 1][..k] == traces[..k];
      if entry.kind !in ARENA_ORDER || entry.kind in arenas || entry.arena.None? || entry.arena.value == [] {
        SelectArenasFails(traces, k + 1);
        return Reject;
      }
      arenas := arenas[entry.kind := entry.arena.value];
    }
    assert traces[..|traces|] == traces;
    return if "Execution" in arenas then Ok(arenas) else Reject;
  }

  /** One iteration: converts an arena and appends its frame. */
  method AppendArena(cfg: Config, phase: string, nodes: seq<Node>, derived: LogList, frames: seq<Frame>,
                     ghost trees: seq<Tree>, ghost done: set<Frame>)
    returns (ok: bool, now: seq<Frame>, ghost nowTrees: seq<Tree>, ghost nowDone: set<Frame>)
    requires ForestRepresents(frames, trees, done) && derived.entries == ForestLogs(trees)
    modifies derived
    ensures ok <==> Convert(cfg, phase, nodes).Ok?
    ensures ok ==> nowTrees == trees + [Convert(cfg, phase, nodes).value]
    ensures ok ==> ForestRepresents(now, nowTrees, nowDone) && derived.entries == ForestLogs(nowTrees)
    ensures done <= nowDone && fresh(nowDone - done)
  {
    var frame, more := ConvertArena(cfg, phase, nodes, derived);
    now, nowTrees, nowDone := frames, trees, done + more;
    ok := frame.Ok?;
    if ok {
      ghost var tree := Convert(cfg, phase, nodes).value;
      ForestSnoc(frames, trees, done, frame.value, tree, more);
      now, nowTrees := frames + [frame.value], trees + [tree];
    }
  }

  lemma {:induction false} ConvertNext(cfg: Config, arenas: map<string, seq<Node>>, k: nat, trees: seq<Tree>)
    requires k < |ARENA_ORDER| && ConvertKinds(cfg, arenas, ARENA_ORDER[..k]) == Ok(trees)
    ensures var kind := ARENA_ORDER[k];
            ConvertKinds(cfg, arenas, ARENA_ORDER[..k + 1]) ==
            if kind !in arenas then Ok(trees)
            else if Convert(cfg, PhaseOf(kind), arenas[kind]).Reject? then Reject
            else Ok(trees + [Convert(cfg, PhaseOf(kind), arenas[kind]).value])
  {
    assert ARENA_ORDER[..k + 1][..k] == ARENA_ORDER[..k];
  }

  /** The accumulating loop over the three arenas. */
  method AdaptTraces(cfg: Config, traces: seq<TraceEntry>, forge: ForgeLogs)
    returns (r: Result<seq<Frame>>, ghost done: set<Frame>)
    ensures fresh(done)
    ensures r.Ok? <==> Adapt(cfg, traces, forge).Ok?
    ensures r.Ok? ==> ForestRepresents(r.value, Adapt(cfg, traces, forge).value, done)
  {
    done := {};
    var arenas := ReadArenas(traces);
    if arenas.Reject? {
      return Reject, done;
    }
    var frames: seq<Frame> := [];
    var derived := new LogList();
    ghost var trees: seq<Tree> := [];
    for k := 0 to |ARENA_ORDER|
      invariant fresh(done)
      invariant ConvertKinds(cfg, arenas.value, ARENA_ORDER[..k]) == Ok(trees)
      invariant ForestRepresents(frames, trees, done)
      invariant derived.entries == ForestLogs(trees)
    {
      var kind := ARENA_ORDER[k];
      ConvertNext(cfg, arenas.value, k, trees);
      if kind in arenas.value {
        var ok;
        ok, frames, trees, done := AppendArena(cfg, PhaseOf(kind), arenas.value[kind], derived, frames, trees, done);
        if !ok {
          ConvertKindsFails(cfg, arenas.value, ARENA_ORDER, k + 1);
          return Reject, done;
        }
      }
    }
    assert ARENA_ORDER[..|ARENA_ORDER|] == ARENA_ORDER;
    return if LogsAgree(forge, derived.entries) then Ok(frames) else Reject, done;
  }

  lemma {:induction false} ConvertKindsFails(cfg: Config, arenas: map<string, seq<Node>>, kinds: seq<string>, k: nat)
    requires k <= |kinds| && ConvertKinds(cfg, arenas, kinds[..k]).Reject?
    ensures ConvertKinds(cfg, arenas, kinds).Reject?
    decreases |kinds| - k
  {
    if k < |kinds| {
      assert kinds[..k + 1][..k] == kinds[..k];
      ConvertKindsFails(cfg, arenas, kinds, k + 1);
    } else {
      assert kinds[..k] == kinds;
    }
  }
}
