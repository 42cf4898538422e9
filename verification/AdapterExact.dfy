/**
 chain/foundry_trace.py, the whole adapter: exactly which traces it accepts, and which trees it then
 returns.
 */
module AdapterExact {
  import opened Prelude
  import opened Arena
  import opened ArenaWalk
  import opened ArenaLogs
  import opened Adapter
  import opened TraceChain

  /** One arena per kind, all three kinds at most, none malformed or empty. */
  predicate OneArenaPerKind(traces: seq<TraceEntry>) {
    && (forall i :: 0 <= i < |traces| ==>
          traces[i].kind in {"Deployment", "Setup", "Execution"} && traces[i].arena.Some? && traces[i].arena.value != [])
    && (forall i, j :: 0 <= i < j < |traces| ==> traces[i].kind != traces[j].kind)
  }

  lemma {:induction false} SelectsExactly(traces: seq<TraceEntry>)
    ensures SelectArenas(traces).Ok? <==> OneArenaPerKind(traces)
    ensures SelectArenas(traces).Ok? ==>
              && (forall i :: 0 <= i < |traces| ==>
                    traces[i].kind in SelectArenas(traces).value && traces[i].arena == Some(SelectArenas(traces).value[traces[i].kind]))
              && (forall kind :: kind in SelectArenas(traces).value ==> exists i :: 0 <= i < |traces| && traces[i].kind == kind)
  {
    if traces != [] {
      var init, last := traces[..|traces| - 1], traces[|traces| - 1];
      SelectsExactly(init);
      assert traces == init + [last];
      OnePerKindStep(init, last);
    }
  }

  lemma {:induction false} OnePerKindStep(init: seq<TraceEntry>, last: TraceEntry)
    ensures OneArenaPerKind(init + [last]) <==>
            && OneArenaPerKind(init)
            && last.kind in {"Deployment", "Setup", "Execution"} && last.arena.Some? && last.arena.value != []
            && forall i :: 0 <= i < |init| ==> init[i].kind != last.kind
  {
    var all := init + [last];
    assert all[|init|] == last;
    assert forall i :: 0 <= i < |init| ==> all[i] == init[i];
  }

  /** The tree of the arena of one kind, in its phase, if there is such an arena. */
  function TreeOf(cfg: Config, arenas: map<string, seq<Node>>, kind: string): Result<seq<Tree>> {
    if kind !in arenas then Ok([])
    else
      match Convert(cfg, if kind == "Execution" then "witness" else "setup", arenas[kind])
      case Reject => Reject
      case Ok(t) => Ok([t])
  }

  lemma {:induction false} KindsInOrder(cfg: Config, arenas: map<string, seq<Node>>)
    ensures var d, s, x := TreeOf(cfg, arenas, "Deployment"), TreeOf(cfg, arenas, "Setup"), TreeOf(cfg, arenas, "Execution");
            ConvertKinds(cfg, arenas, ARENA_ORDER) ==
            if d.Reject? || s.Reject? || x.Reject? then Reject else Ok(d.value + s.value + x.value)
  {
    hide Convert;
    var none: seq<string> := [];
    assert ARENA_ORDER[..2] == ["Deployment", "Setup"] && ["Deployment", "Setup"][..1] == ["Deployment"] && ["Deployment"][..0] == none;
    assert ConvertKinds(cfg, arenas, none) == Ok([]);
    KindStep(cfg, arenas, none, "Deployment");
    KindStep(cfg, arenas, ["Deployment"], "Setup");
    KindStep(cfg, arenas, ["Deployment", "Setup"], "Execution");
    var d := TreeOf(cfg, arenas, "Deployment");
    assert d.Ok? ==> [] + d.value == d.value;
    hide ConvertKinds, TreeOf;
    assert none + ["Deployment"] == ["Deployment"] && ["Deployment"] + ["Setup"] == ["Deployment", "Setup"];
    assert ["Deployment", "Setup"] + ["Execution"] == ARENA_ORDER;
  }

  lemma {:induction false} KindStep(cfg: Config, arenas: map<string, seq<Node>>, kinds: seq<string>, kind: string)
    ensures var before, one := ConvertKinds(cfg, arenas, kinds), TreeOf(cfg, arenas, kind);
            ConvertKinds(cfg, arenas, kinds + [kind]) ==
            if before.Reject? || one.Reject? then Reject else Ok(before.value + one.value)
  {
    hide Convert;
    var before := ConvertKinds(cfg, arenas, kinds);
    assert (kinds + [kind])[..|kinds|] == kinds;
    assert before.Ok? ==> before.value + [] == before.value;
  }

  /** Forge's own list, if there is one, is the derived logs entry by entry. */
  predicate ForgeAgrees(forge: ForgeLogs, derived: seq<LogKey>) {
    match forge
    case NoLogs => true
    case NotAList => false
    case Listed(entries) => |entries| == |derived| && forall i :: 0 <= i < |entries| ==> entries[i] == Some(derived[i])
  }

  lemma {:induction false} LogsAgreeExactly(forge: ForgeLogs, derived: seq<LogKey>)
    ensures LogsAgree(forge, derived) <==> ForgeAgrees(forge, derived)
  {
    if forge.Listed? {
      AllPresentExactly(forge.entries);
      var present := AllPresent(forge.entries);
      if ForgeAgrees(forge, derived) {
        assert present.value == derived;
      }
    }
    hide AllPresent;
  }

  /** The adapter accepts exactly when there is one well-formed arena per kind, one of them is the
      execution, each of them converts in its phase, and Forge's own log list is absent or is the
      derived one. It returns the trees in the order deployment, setup, execution. */
  lemma {:induction false} AdaptsExactly(cfg: Config, traces: seq<TraceEntry>, forge: ForgeLogs)
    ensures var m := ArenasOf(traces);
            var d, s, x := TreeOf(cfg, m, "Deployment"), TreeOf(cfg, m, "Setup"), TreeOf(cfg, m, "Execution");
            && (Adapt(cfg, traces, forge).Ok? <==>
                && OneArenaPerKind(traces) && (exists i :: 0 <= i < |traces| && traces[i].kind == "Execution")
                && d.Ok? && s.Ok? && x.Ok? && ForgeAgrees(forge, ForestLogs(d.value + s.value + x.value)))
            && (Adapt(cfg, traces, forge).Ok? ==> Adapt(cfg, traces, forge).value == d.value + s.value + x.value)
  {
    hide ConvertKinds, SelectArenas, TreeOf, LogsAgree, ForgeAgrees, OneArenaPerKind;
    var m := ArenasOf(traces);
    SelectsExactly(traces);
    KindsInOrder(cfg, m);
    var d, s, x := TreeOf(cfg, m, "Deployment"), TreeOf(cfg, m, "Setup"), TreeOf(cfg, m, "Execution");
    if d.Ok? && s.Ok? && x.Ok? {
      LogsAgreeExactly(forge, ForestLogs(d.value + s.value + x.value));
    }
  }
}
