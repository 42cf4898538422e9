/**
 `_convert_arena` itself: indexing the nodes, the stack loop, and the final reachability check,
 proved equal to the recursive `ArenaWalk.Convert` on every input.
 */
module ArenaConvert {
  import opened Prelude
  import opened Arena
  import opened ArenaWalk
  import opened ArenaLoop

  // ---------------------------------------------------------------- the stack as a continuation

  ghost predicate Runnable(env: Env, c: Cursor) {
    c.idx in env.nodes && c.at <= |OrderingOf(env, c.idx)|
  }

  ghost predicate AllRunnable(env: Env, cursors: Stack<Cursor>) {
    match cursors
    case Bottom => true
    case On(waiting, c) => Runnable(env, c) && AllRunnable(env, waiting)
  }

  /** Handing `r` to the waiting cursors, innermost first. */
  ghost function Unwind(env: Env, waiting: Stack<Cursor>, r: Result<Walk>): Result<Walk>
    requires AllRunnable(env, waiting)
    decreases waiting
  {
    match waiting
    case Bottom => r
    case On(below, p) =>
      match r
      case Reject => Reject
      case Ok(w) => Unwind(env, below, Run(env, WithChild(p, w.tree), w.visited))
  }

  /** What the recursive conversion returns once everything on the stack has been followed. */
  ghost function Meaning(env: Env, cursors: Stack<Cursor>, visited: set<int>, finished: Tree): Result<Walk>
    requires AllRunnable(env, cursors)
  {
    match cursors
    case Bottom => Ok(Walk(finished, visited))
    case On(waiting, c) => Unwind(env, waiting, Run(env, c, visited))
  }

  ghost function AllLogs(cursors: Stack<Cursor>, finished: Tree): seq<LogKey> {
    if cursors.Bottom? then TreeLogs(finished) else PendingLogs(cursors)
  }

  /** Ordering entries left to read on the stack, plus the activations left to close. */
  ghost function Work(env: Env, cursors: Stack<Cursor>): nat
    requires AllRunnable(env, cursors)
  {
    match cursors
    case Bottom => 0
    case On(waiting, c) =>
      assert Runnable(env, c);
      Work(env, waiting) + 1 + (|OrderingOf(env, c.idx)| - c.at)
  }

  lemma {:induction false} UnwindReject(env: Env, waiting: Stack<Cursor>)
    requires AllRunnable(env, waiting)
    ensures Unwind(env, waiting, Reject) == Reject
  {
  }

  lemma {:induction false} StepClose(env: Env, cursors: Stack<Cursor>, visited: set<int>, finished: Tree)
    requires cursors.On? && AllRunnable(env, cursors)
    requires cursors.top.at == |OrderingOf(env, cursors.top.idx)|
    ensures AllRunnable(env, Return(cursors))
    ensures Work(env, Return(cursors)) < Work(env, cursors)
    ensures Meaning(env, cursors, visited, finished) ==
            if Consumed(env.nodes[cursors.top.idx], cursors.top.calls, cursors.top.logs)
            then Meaning(env, Return(cursors), visited, Close(cursors.top)) else Reject
    ensures AllLogs(Return(cursors), Close(cursors.top)) == PendingLogs(cursors)
  {
    var c := cursors.top;
    UnwindReject(env, cursors.below);
    match cursors.below
    case Bottom =>
      assert PendingLogs(cursors) == TreeLogs(Close(c));
    case On(waiting, p) =>
      PendingLogsClose(waiting, p, c);
  }

  lemma {:induction false} StepSkip(env: Env, waiting: Stack<Cursor>, c: Cursor, visited: set<int>, finished: Tree)
    requires AllRunnable(env, On(waiting, c)) && c.at < |OrderingOf(env, c.idx)|
    requires Classify(OrderingOf(env, c.idx)[c.at]).Skip?
    ensures AllRunnable(env, On(waiting, c.(at := c.at + 1)))
    ensures Work(env, On(waiting, c.(at := c.at + 1))) < Work(env, On(waiting, c))
    ensures Meaning(env, On(waiting, c), visited, finished) == Meaning(env, On(waiting, c.(at := c.at + 1)), visited, finished)
    ensures PendingLogs(On(waiting, c.(at := c.at + 1))) == PendingLogs(On(waiting, c))
  {
  }

  lemma {:induction false} StepUnknown(env: Env, waiting: Stack<Cursor>, c: Cursor, visited: set<int>, finished: Tree)
    requires AllRunnable(env, On(waiting, c)) && c.at < |OrderingOf(env, c.idx)|
    requires Classify(OrderingOf(env, c.idx)[c.at]).Unknown?
    ensures Meaning(env, On(waiting, c), visited, finished) == Reject
  {
    UnwindReject(env, waiting);
  }

  lemma {:induction false} StepLog(env: Env, waiting: Stack<Cursor>, c: Cursor, visited: set<int>, finished: Tree, pos: Ref)
    requires AllRunnable(env, On(waiting, c)) && c.at < |OrderingOf(env, c.idx)|
    requires Classify(OrderingOf(env, c.idx)[c.at]) == LogAt(pos)
    ensures var e := RecordAt(env, c.idx, pos, c.reverted);
            if e.Reject? || pos.i in c.logs then Meaning(env, On(waiting, c), visited, finished) == Reject
            else
              var next := On(waiting, AfterLog(c, pos.i, e.value));
              && AllRunnable(env, next)
              && Work(env, next) < Work(env, On(waiting, c))
              && Meaning(env, On(waiting, c), visited, finished) == Meaning(env, next, visited, finished)
              && PendingLogs(next) == PendingLogs(On(waiting, c)) + [KeyOf(e.value.log)]
  {
    UnwindReject(env, waiting);
    var e := RecordAt(env, c.idx, pos, c.reverted);
    if e.Ok? {
      PendingLogsEmit(waiting, c, pos.i, e.value);
    }
  }

  lemma {:induction false} StepCall(env: Env, waiting: Stack<Cursor>, c: Cursor, visited: set<int>, finished: Tree, pos: Ref)
    requires AllRunnable(env, On(waiting, c)) && c.at < |OrderingOf(env, c.idx)|
    requires Classify(OrderingOf(env, c.idx)[c.at]) == CallAt(pos)
    ensures var k := Enter(env, c, visited, pos);
            if k.Reject? then Meaning(env, On(waiting, c), visited, finished) == Reject
            else
              var next := On(On(waiting, AfterCall(c, pos.i)), k.value);
              && AllRunnable(env, next)
              && Meaning(env, On(waiting, c), visited, finished) == Meaning(env, next, visited + {k.value.idx}, finished)
              && PendingLogs(next) == PendingLogs(On(waiting, c))
  {
    UnwindReject(env, waiting);
    var k := Enter(env, c, visited, pos);
    if k.Ok? {
      assert Runnable(env, k.value);
      assert Runnable(env, AfterCall(c, pos.i));
      var next := On(On(waiting, AfterCall(c, pos.i)), k.value);
      assert PendingLogs(next) == PendingLogs(On(waiting, c)) + [];
    }
  }

  // ---------------------------------------------------------------- the loop

  lemma {:induction false} IndexedNode(nodes: seq<Node>, i: int)
    requires i in ByIndex(nodes)
    ensures ByIndex(nodes)[i] in nodes && ByIndex(nodes)[i].idx == Some(i)
  {
    if Last(nodes).idx != Some(i) {
      IndexedNode(nodes[..|nodes| - 1], i);
    }
  }

  lemma {:induction false} IndexOneMore(init: seq<Node>, n: Node)
    requires DistinctIndices(init)
    ensures DistinctIndices(init + [n]) <==> n.idx.Some? && n.idx.value !in ByIndex(init)
    ensures n.idx.Some? ==> ByIndex(init + [n]) == ByIndex(init)[n.idx.value := n]
  {
    var more := init + [n];
    assert more[..|more| - 1] == init;
    ByIndexFacts(init);
    if n.idx.Some? && n.idx.value in ByIndex(init) {
      IndexedNode(init, n.idx.value);
      var j :| 0 <= j < |init| && init[j] == ByIndex(init)[n.idx.value];
      assert more[j].idx == more[|init|].idx;
    } else if n.idx.None? {
      assert more[|init|].idx.None?;
    }
  }

  /** Indexing the nodes, refusing a missing or repeated index. */
  method IndexNodes(nodes: seq<Node>) returns (r: Result<map<int, Node>>)
    ensures r.Ok? <==> DistinctIndices(nodes)
    ensures r.Ok? ==> r.value == ByIndex(nodes)
  {
    var byIdx: map<int, Node> := map[];
    for k := 0 to |nodes|
      invariant DistinctIndices(nodes[..k])
      invariant byIdx == ByIndex(nodes[..k])
    {
      IndexOneMore(nodes[..k], nodes[k]);
      assert nodes[..k + 1] == nodes[..k] + [nodes[k]];
      var idx := nodes[k].idx;
      if idx.None? || idx.value in byIdx {
        NotDistinctPrefix(nodes, k + 1);
        return Reject;
      }
      byIdx := byIdx[idx.value := nodes[k]];
    }
    assert nodes[..|nodes|] == nodes;
    return Ok(byIdx);
  }

  lemma {:induction false} NotDistinctPrefix(nodes: seq<Node>, k: nat)
    requires k <= |nodes| && !DistinctIndices(nodes[..k])
    ensures !DistinctIndices(nodes)
  {
    if DistinctIndices(nodes) {
      assert forall i :: 0 <= i < k ==> nodes[..k][i] == nodes[i];
    }
  }

  /** The traversal still computes `goal`, with `base` followed by the logs met so far derived. */
  ghost predicate OnTrack(env: Env, t: Traversal, visited: set<int>, derived: LogList, goal: Result<Walk>, base: seq<LogKey>)
    reads t, t.repr, derived
  {
    && t.Valid()
    && visited <= env.nodes.Keys
    && AllRunnable(env, t.cursors)
    && Meaning(env, t.cursors, visited, t.finished) == goal
    && derived.entries == base + AllLogs(t.cursors, t.finished)
  }

  ghost predicate NextIs(env: Env, t: Traversal, step: Step)
    reads t
  {
    && t.cursors.On?
    && t.cursors.top.at < |OrderingOf(env, t.cursors.top.idx)|
    && Classify(OrderingOf(env, t.cursors.top.idx)[t.cursors.top.at]) == step
  }

  method FollowSkip(env: Env, t: Traversal, visited: set<int>, derived: LogList, ghost goal: Result<Walk>, ghost base: seq<LogKey>)
    requires OnTrack(env, t, visited, derived, goal, base) && t.stack.On? && NextIs(env, t, Skip)
    modifies t
    ensures OnTrack(env, t, visited, derived, goal, base) && t.repr == old(t.repr)
    ensures Work(env, t.cursors) < old(Work(env, t.cursors))
  {
    hide Run, Unwind, Work;
    StepSkip(env, t.cursors.below, t.cursors.top, visited, t.finished);
    t.Advance();
  }

  method FollowLog(env: Env, t: Traversal, visited: set<int>, derived: LogList, pos: Ref, ghost goal: Result<Walk>, ghost base: seq<LogKey>)
    returns (ok: bool)
    requires OnTrack(env, t, visited, derived, goal, base) && t.stack.On? && NextIs(env, t, LogAt(pos))
    modifies t, t.repr, derived
    ensures !ok ==> goal == Reject
    ensures ok ==> OnTrack(env, t, visited, derived, goal, base) && t.repr == old(t.repr)
    ensures ok ==> Work(env, t.cursors) < old(Work(env, t.cursors))
  {
    hide Run, Unwind, RecordAt, Work;
    var a := t.stack.top;
    StepLog(env, t.cursors.below, t.cursors.top, visited, t.finished, pos);
    var e := RecordAt(env, a.idx, pos, a.reverted);
    if e.Reject? || pos.i in a.logs {
      return false;
    }
    ghost var pending := PendingLogs(t.cursors);
    t.EmitLog(pos.i, e.value.log, e.value.transfer);
    derived.Append(KeyOf(e.value.log));
    assert (base + pending) + [KeyOf(e.value.log)] == base + (pending + [KeyOf(e.value.log)]);
    return true;
  }

  method FollowCall(env: Env, t: Traversal, visited: set<int>, derived: LogList, pos: Ref, ghost goal: Result<Walk>, ghost base: seq<LogKey>)
    returns (ok: bool, now: set<int>)
    requires OnTrack(env, t, visited, derived, goal, base) && t.stack.On? && NextIs(env, t, CallAt(pos))
    modifies t, t.repr
    ensures !ok ==> goal == Reject
    ensures ok ==> OnTrack(env, t, now, derived, goal, base) && fresh(t.repr - old(t.repr))
    ensures ok ==> env.nodes.Keys - now < env.nodes.Keys - visited
  {
    hide Run, Unwind, Open, ChildAt, PendingLogs, Suspended, ChildrenRepresent, Logs, Transfers, Outermost;
    var a := t.stack.top;
    StepCall(env, t.cursors.below, t.cursors.top, visited, t.finished, pos);
    var child := ChildAt(env, a.idx, pos);
    if child.Reject? || pos.i in a.calls || child.value in visited {
      return false, visited;
    }
    var k := Open(env, child.value, a.reverted);
    if k.Reject? {
      return false, visited;
    }
    var frame := new Frame(k.value.head);
    t.EnterChild(pos.i, frame, child.value, k.value.reverted, k.value);
    return true, visited + {child.value};
  }

  method FollowEnd(env: Env, t: Traversal, visited: set<int>, derived: LogList, ghost goal: Result<Walk>, ghost base: seq<LogKey>)
    returns (ok: bool)
    requires OnTrack(env, t, visited, derived, goal, base) && t.stack.On?
    requires t.cursors.top.at == |OrderingOf(env, t.cursors.top.idx)|
    modifies t
    ensures !ok ==> goal == Reject
    ensures ok ==> OnTrack(env, t, visited, derived, goal, base) && t.repr == old(t.repr)
    ensures ok ==> Work(env, t.cursors) < old(Work(env, t.cursors))
  {
    var a := t.stack.top;
    StepClose(env, t.cursors, visited, t.finished);
    if !Consumed(env.nodes[a.idx], a.calls, a.logs) {
      return false;
    }
    t.CloseTop();
    return true;
  }

  /** The stack loop from an opened root. It ends on every finite arena, because each iteration
      visits a new node, reads an ordering entry, or closes an activation. */
  method Follow(env: Env, t: Traversal, derived: LogList, root: int, ghost c: Cursor) returns (ok: bool, visited: set<int>)
    requires root in env.nodes && t.Matches() && t.cursors == On(Bottom, c) && Runnable(env, c)
    requires c.events == []
    modifies t, t.repr, derived
    ensures ok <==> Run(env, c, {root}).Ok?
    ensures ok ==> Run(env, c, {root}) == Ok(Walk(t.finished, visited)) && Represents(t.root, t.finished, t.done)
    ensures ok ==> fresh(t.repr - old(t.repr)) && t.done <= t.repr
    ensures ok ==> derived.entries == old(derived.entries) + TreeLogs(t.finished)
  {
    visited := {root};
    ghost var goal, base := Run(env, c, {root}), derived.entries;
    assert PendingLogs(t.cursors) == [];
    while t.stack.On?
      invariant OnTrack(env, t, visited, derived, goal, base) && fresh(t.repr - old(t.repr))
      decreases env.nodes.Keys - visited, Work(env, t.cursors)
    {
      var a := t.stack.top;
      var ord := OrderingOf(env, a.idx);
      if a.at == |ord| {
        ok := FollowEnd(env, t, visited, derived, goal, base);
      } else {
        match Classify(ord[a.at]) {
          case Skip =>
            FollowSkip(env, t, visited, derived, goal, base);
            ok := true;
          case Unknown =>
            StepUnknown(env, t.cursors.below, t.cursors.top, visited, t.finished);
            ok := false;
          case LogAt(pos) =>
            ok := FollowLog(env, t, visited, derived, pos, goal, base);
          case CallAt(pos) =>
            ok, visited := FollowCall(env, t, visited, derived, pos, goal, base);
        }
      }
      if !ok {
        return;
      }
    }
    ok := true;
  }

  /** Conversion accepts exactly the arenas that the recursive definition accepts; the frame it
      returns then represents the recursive definition's tree, and the derived logs grow by that
      tree's logs in execution order. */
  method ConvertArena(cfg: Config, phase: string, nodes: seq<Node>, derived: LogList)
    returns (r: Result<Frame>, ghost done: set<Frame>)
    modifies derived
    ensures fresh(done)
    ensures r.Ok? <==> Convert(cfg, phase, nodes).Ok?
    ensures r.Ok? ==> Represents(r.value, Convert(cfg, phase, nodes).value, done)
    ensures r.Ok? ==> derived.entries == old(derived.entries) + TreeLogs(Convert(cfg, phase, nodes).value)
  {
    done := {};
    var byIdx := IndexNodes(nodes);
    var roots := Roots(nodes);
    if byIdx.Reject? || |roots| != 1 {
      return Reject, done;
    }
    ByIndexFacts(nodes);
    RootsFacts(nodes);
    assert roots[0] in roots;
    var env := Env(cfg, phase, byIdx.value);
    var root := roots[0].idx.value;
    var c := Open(env, root, false);
    if c.Reject? {
      return Reject, done;
    }
    var frame := new Frame(c.value.head);
    var t := new Traversal(frame, c.value, root, c.value.reverted);
    var ok, visited := Follow(env, t, derived, root, c.value);
    if !ok || |visited| != |nodes| {
      return Reject, done;
    }
    done := t.done;
    return Ok(t.root), done;
  }
}
