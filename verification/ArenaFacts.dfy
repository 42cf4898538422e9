/**
 What an accepted conversion says about the arena: the tree mirrors the nodes, and every node of
 the arena is in it exactly once.
 */
module ArenaFacts {
  import opened Prelude
  import opened Arena
  import opened ArenaWalk

  // ---------------------------------------------------------------- what a node's ordering names

  /** The child positions an ordering names, in order. */
  function Calls(ord: seq<Entry>): seq<Ref> {
    if ord == [] then []
    else
      Calls(ord[..|ord| - 1]) +
      match Classify(ord[|ord| - 1]) case CallAt(pos) => [pos] case _ => []
  }

  /** The log positions an ordering names, in order. */
  function LogRefs(ord: seq<Entry>): seq<Ref> {
    if ord == [] then []
    else
      LogRefs(ord[..|ord| - 1]) +
      match Classify(ord[|ord| - 1]) case LogAt(pos) => [pos] case _ => []
  }

  predicate NoUnknown(ord: seq<Entry>) {
    forall i :: 0 <= i < |ord| ==> !Classify(ord[i]).Unknown?
  }

  predicate Distinct<T(==)>(xs: seq<T>) {
    forall i, j :: 0 <= i < j < |xs| ==> xs[i] != xs[j]
  }

  ghost predicate CallsOk(env: Env, idx: int, refs: seq<Ref>) {
    idx in env.nodes && Distinct(refs) && forall k :: 0 <= k < |refs| ==> ChildAt(env, idx, refs[k]).Ok?
  }

  ghost predicate LogsOk(env: Env, idx: int, refs: seq<Ref>) {
    idx in env.nodes && Distinct(refs) && forall k :: 0 <= k < |refs| ==> RecordAt(env, idx, refs[k], false).Ok?
  }

  /** A node that is well formed by itself: its call decodes, its ordering names each child and each
      log exactly once and nothing unknown, its children point back to it, and its logs decode. */
  ghost predicate NodeOk(env: Env, idx: int) {
    && idx in env.nodes
    && var node := env.nodes[idx];
    && OpenHead(env.cfg, env.phase, node).Ok?
    && node.ordering.Some?
    && NoUnknown(node.ordering.value)
    && CallsOk(env, idx, Calls(node.ordering.value)) && Count(node.children) == Some(|Calls(node.ordering.value)|)
    && LogsOk(env, idx, LogRefs(node.ordering.value)) && Count(node.logs) == Some(|LogRefs(node.ordering.value)|)
  }

  // ---------------------------------------------------------------- a tree mirrors its nodes

  /** `t` is the frame of the well-formed node `t.idx`, with one event per call and log entry of its
      ordering, in order, and likewise below. */
  ghost predicate Mirrors(env: Env, t: Tree, parentReverted: bool)
    decreases t
  {
    && NodeOk(env, t.idx)
    && OpenHead(env.cfg, env.phase, env.nodes[t.idx]) == Ok(t.head)
    && t.reverted == (parentReverted || !t.head.success)
    && EventsMirror(env, t.idx, t.reverted, OrderingOf(env, t.idx), t.events)
  }

  ghost predicate EventsMirror(env: Env, idx: int, reverted: bool, ord: seq<Entry>, events: seq<TreeEvent>)
    requires idx in env.nodes
    decreases events, |ord|
  {
    if ord == [] then events == []
    else
      var step := Classify(ord[|ord| - 1]);
      var before := ord[..|ord| - 1];
      if step.Skip? || step.Unknown? then EventsMirror(env, idx, reverted, before, events)
      else
        && events != []
        && EventsMirror(env, idx, reverted, before, events[..|events| - 1])
        && EventMirrors(env, idx, reverted, step, events[|events| - 1])
  }

  ghost predicate EventMirrors(env: Env, idx: int, reverted: bool, step: Step, e: TreeEvent)
    requires idx in env.nodes
    decreases e
  {
    match step
    case LogAt(pos) => RecordAt(env, idx, pos, reverted) == Ok(e)
    case CallAt(pos) => e.Sub? && ChildAt(env, idx, pos) == Ok(e.tree.idx) && Mirrors(env, e.tree, reverted)
    case _ => false
  }

  // ---------------------------------------------------------------- the recursion keeps this

  function Positions(refs: seq<Ref>): (r: seq<int>)
    ensures |r| == |refs|
    ensures forall k :: 0 <= k < |r| ==> r[k] == if refs[k].Index? then refs[k].i else -1
  {
    seq(|refs|, k requires 0 <= k < |refs| => if refs[k].Index? then refs[k].i else -1)
  }

  function Elements<T>(xs: seq<T>): set<T> {
    set x | x in xs
  }

  ghost predicate CursorOk(env: Env, c: Cursor, parentReverted: bool) {
    && c.idx in env.nodes && env.nodes[c.idx].ordering.Some?
    && OpenHead(env.cfg, env.phase, env.nodes[c.idx]) == Ok(c.head)
    && c.reverted == (parentReverted || !c.head.success)
    && var ord := env.nodes[c.idx].ordering.value;
    && c.at <= |ord|
    && var read := ord[..c.at];
    && NoUnknown(read)
    && CallsOk(env, c.idx, Calls(read)) && c.calls == Elements(Positions(Calls(read)))
    && LogsOk(env, c.idx, LogRefs(read)) && c.logs == Elements(Positions(LogRefs(read)))
    && EventsMirror(env, c.idx, c.reverted, read, c.events)
  }

  lemma {:induction false} OneMore(ord: seq<Entry>, at: nat)
    requires at < |ord|
    ensures ord[..at + 1] == ord[..at] + [ord[at]] && ord[..at + 1][..at] == ord[..at]
    ensures Calls(ord[..at + 1]) ==
            if Classify(ord[at]).CallAt? then Calls(ord[..at]) + [Classify(ord[at]).pos] else Calls(ord[..at])
    ensures LogRefs(ord[..at + 1]) ==
            if Classify(ord[at]).LogAt? then LogRefs(ord[..at]) + [Classify(ord[at]).pos] else LogRefs(ord[..at])
    ensures NoUnknown(ord[..at]) && !Classify(ord[at]).Unknown? ==> NoUnknown(ord[..at + 1])
  {
    assert ord[..at + 1][..|ord[..at + 1]| - 1] == ord[..at];
  }

  lemma {:induction false} CallsOkSnoc(env: Env, idx: int, refs: seq<Ref>, pos: Ref)
    requires CallsOk(env, idx, refs) && ChildAt(env, idx, pos).Ok? && pos.i !in Elements(Positions(refs))
    ensures CallsOk(env, idx, refs + [pos])
    ensures Elements(Positions(refs + [pos])) == Elements(Positions(refs)) + {pos.i}
  {
    CallRefsIndexed(env, idx, refs);
    PositionsSnoc(refs, pos);
  }

  lemma {:induction false} LogsOkSnoc(env: Env, idx: int, refs: seq<Ref>, pos: Ref, reverted: bool)
    requires LogsOk(env, idx, refs) && RecordAt(env, idx, pos, reverted).Ok? && pos.i !in Elements(Positions(refs))
    ensures LogsOk(env, idx, refs + [pos])
    ensures Elements(Positions(refs + [pos])) == Elements(Positions(refs)) + {pos.i}
  {
    LogRefsIndexed(env, idx, refs);
    PositionsSnoc(refs, pos);
    LogAcceptanceIgnoresRevert(env.cfg, env.nodes[idx].logs.items[pos.i], reverted, false);
  }

  lemma {:induction false} EventsMirrorSnoc(env: Env, idx: int, reverted: bool, ord: seq<Entry>, events: seq<TreeEvent>, entry: Entry, e: TreeEvent)
    requires idx in env.nodes && EventsMirror(env, idx, reverted, ord, events)
    requires EventMirrors(env, idx, reverted, Classify(entry), e)
    requires Classify(entry).LogAt? || Classify(entry).CallAt?
    ensures EventsMirror(env, idx, reverted, ord + [entry], events + [e])
  {
    hide EventMirrors;
    assert (ord + [entry])[..|ord + [entry]| - 1] == ord;
    assert (events + [e])[..|events + [e]| - 1] == events;
  }

  lemma {:induction false} PositionsSnoc(refs: seq<Ref>, pos: Ref)
    requires pos.Index? && forall k :: 0 <= k < |refs| ==> refs[k].Index?
    ensures Elements(Positions(refs + [pos])) == Elements(Positions(refs)) + {pos.i}
    ensures Distinct(refs) && pos.i !in Elements(Positions(refs)) ==> Distinct(refs + [pos])
  {
    var a, b := Positions(refs), Positions(refs + [pos]);
    assert b == a + [pos.i];
    if Distinct(refs) && pos.i !in Elements(a) {
      forall i | 0 <= i < |refs|
        ensures refs[i] != pos
      {
        assert a[i] in a;
      }
    }
  }

  lemma {:induction false} DistinctCardinality(refs: seq<Ref>)
    requires Distinct(refs) && forall k :: 0 <= k < |refs| ==> refs[k].Index?
    ensures |Elements(Positions(refs))| == |refs|
  {
    if refs != [] {
      var init, last := refs[..|refs| - 1], refs[|refs| - 1];
      DistinctCardinality(init);
      PositionsSnoc(init, last);
      assert refs == init + [last];
      forall k | 0 <= k < |init|
        ensures Positions(init)[k] != last.i
      {
        assert refs[k] != last;
      }
    }
  }

  lemma {:induction false} CallRefsIndexed(env: Env, idx: int, refs: seq<Ref>)
    requires CallsOk(env, idx, refs)
    ensures forall k :: 0 <= k < |refs| ==> refs[k].Index?
  {
    forall k | 0 <= k < |refs|
      ensures refs[k].Index?
    {
      assert ChildAt(env, idx, refs[k]).Ok?;
    }
  }

  lemma {:induction false} LogRefsIndexed(env: Env, idx: int, refs: seq<Ref>)
    requires LogsOk(env, idx, refs)
    ensures forall k :: 0 <= k < |refs| ==> refs[k].Index?
  {
    forall k | 0 <= k < |refs|
      ensures refs[k].Index?
    {
      assert RecordAt(env, idx, refs[k], false).Ok?;
    }
  }

  lemma {:induction false} OkOpen(env: Env, idx: int, parentReverted: bool)
    requires idx in env.nodes && Open(env, idx, parentReverted).Ok?
    ensures CursorOk(env, Open(env, idx, parentReverted).value, parentReverted)
  {
    assert env.nodes[idx].ordering.value[..0] == [];
  }

  lemma {:induction false} OkSkip(env: Env, c: Cursor, parentReverted: bool)
    requires CursorOk(env, c, parentReverted) && c.at < |OrderingOf(env, c.idx)|
    requires Classify(OrderingOf(env, c.idx)[c.at]).Skip?
    ensures CursorOk(env, c.(at := c.at + 1), parentReverted)
  {
    hide CallsOk, LogsOk, NoUnknown, Elements, Positions, OpenHead;
    OneMore(OrderingOf(env, c.idx), c.at);
  }

  lemma {:induction false} OkLog(env: Env, c: Cursor, parentReverted: bool, pos: Ref, e: TreeEvent)
    requires CursorOk(env, c, parentReverted) && c.at < |OrderingOf(env, c.idx)|
    requires Classify(OrderingOf(env, c.idx)[c.at]) == LogAt(pos)
    requires RecordAt(env, c.idx, pos, c.reverted) == Ok(e) && pos.i !in c.logs
    ensures CursorOk(env, AfterLog(c, pos.i, e), parentReverted)
  {
    hide CallsOk, LogsOk, NoUnknown, Elements, Positions, OpenHead, RecordAt, EventsMirror;
    var ord := OrderingOf(env, c.idx);
    OneMore(ord, c.at);
    LogsOkSnoc(env, c.idx, LogRefs(ord[..c.at]), pos, c.reverted);
    EventsMirrorSnoc(env, c.idx, c.reverted, ord[..c.at], c.events, ord[c.at], e);
  }

  lemma {:induction false} OkCall(env: Env, c: Cursor, parentReverted: bool, pos: Ref, t: Tree)
    requires CursorOk(env, c, parentReverted) && c.at < |OrderingOf(env, c.idx)|
    requires Classify(OrderingOf(env, c.idx)[c.at]) == CallAt(pos)
    requires ChildAt(env, c.idx, pos) == Ok(t.idx) && pos.i !in c.calls && Mirrors(env, t, c.reverted)
    ensures CursorOk(env, WithChild(AfterCall(c, pos.i), t), parentReverted)
  {
    hide CallsOk, LogsOk, NoUnknown, Elements, Positions, OpenHead, ChildAt, EventsMirror, Mirrors;
    var ord := OrderingOf(env, c.idx);
    OneMore(ord, c.at);
    CallsOkSnoc(env, c.idx, Calls(ord[..c.at]), pos);
    EventsMirrorSnoc(env, c.idx, c.reverted, ord[..c.at], c.events, ord[c.at], Sub(t));
  }

  lemma {:induction false} OkClose(env: Env, c: Cursor, parentReverted: bool)
    requires CursorOk(env, c, parentReverted) && c.at == |OrderingOf(env, c.idx)|
    ensures Consumed(env.nodes[c.idx], c.calls, c.logs) <==> NodeOk(env, c.idx)
    ensures NodeOk(env, c.idx) ==> Mirrors(env, Close(c), parentReverted)
  {
    var ord := OrderingOf(env, c.idx);
    assert ord[..c.at] == ord;
    CallRefsIndexed(env, c.idx, Calls(ord));
    LogRefsIndexed(env, c.idx, LogRefs(ord));
    DistinctCardinality(Calls(ord));
    DistinctCardinality(LogRefs(ord));
  }

  // ---------------------------------------------------------------- every visited node is in the tree once

  function Occurrences(ts: seq<Tree>, i: int): nat {
    multiset(Indices(ts))[i]
  }

  function In(s: set<int>, i: int): nat {
    if i in s then 1 else 0
  }

  /** The nodes first visited on the way from `before` to `after` are those below the new events. */
  ghost predicate Gathered(before: set<int>, events: seq<TreeEvent>, after: set<int>, more: seq<TreeEvent>) {
    forall i :: Occurrences(Below(more), i) + In(before, i) == Occurrences(Below(events), i) + In(after, i)
  }

  lemma {:induction false} OccurrencesAppend(a: seq<Tree>, b: seq<Tree>, i: int)
    ensures Occurrences(a + b, i) == Occurrences(a, i) + Occurrences(b, i)
  {
    assert Indices(a + b) == Indices(a) + Indices(b);
  }

  lemma {:induction false} OccurrencesPreorder(t: Tree, i: int)
    ensures Occurrences(Preorder(t), i) == (if i == t.idx then 1 else 0) + Occurrences(Below(t.events), i)
  {
    OccurrencesAppend([t], Below(t.events), i);
    assert Indices([t]) == [t.idx];
  }

  lemma {:induction false} GatherChild(visited: set<int>, events: seq<TreeEvent>, t: Tree, inner: set<int>)
    requires t.idx !in visited && Gathered(visited + {t.idx}, [], inner, t.events)
    ensures Gathered(visited, events, inner, events + [Sub(t)])
  {
    EventsSnoc(events, Sub(t));
    forall i
      ensures Occurrences(Below(events + [Sub(t)]), i) + In(visited, i) == Occurrences(Below(events), i) + In(inner, i)
    {
      OccurrencesAppend(Below(events), Preorder(t), i);
      OccurrencesPreorder(t, i);
      assert Occurrences(Below(t.events), i) + In(visited + {t.idx}, i) == Occurrences(Below([]), i) + In(inner, i);
    }
  }

  lemma {:induction false} GatherEmit(visited: set<int>, events: seq<TreeEvent>, e: TreeEvent, after: set<int>, more: seq<TreeEvent>)
    requires e.Emit? && Gathered(visited, events + [e], after, more)
    ensures Gathered(visited, events, after, more)
  {
    EventsSnoc(events, e);
    assert Below(events + [e]) == Below(events);
  }

  lemma {:induction false} GatherTrans(a: set<int>, x: seq<TreeEvent>, b: set<int>, y: seq<TreeEvent>, c: set<int>, z: seq<TreeEvent>)
    requires Gathered(a, x, b, y) && Gathered(b, y, c, z)
    ensures Gathered(a, x, c, z)
  {
    forall i
      ensures Occurrences(Below(z), i) + In(a, i) == Occurrences(Below(x), i) + In(c, i)
    {
      assert Occurrences(Below(y), i) + In(a, i) == Occurrences(Below(x), i) + In(b, i);
    }
  }

  /** What following a node's ordering to its end produces. */
  ghost predicate Mirrored(env: Env, c: Cursor, visited: set<int>, parentReverted: bool, w: Walk) {
    && w.tree.idx == c.idx && Mirrors(env, w.tree, parentReverted)
    && w.visited <= env.nodes.Keys
    && Gathered(visited, c.events, w.visited, w.tree.events)
  }

  lemma {:induction false} RunMirrors(env: Env, c: Cursor, visited: set<int>, parentReverted: bool)
    requires CursorOk(env, c, parentReverted) && visited <= env.nodes.Keys
    requires c.idx in env.nodes && c.at <= |OrderingOf(env, c.idx)|
    requires Run(env, c, visited).Ok?
    ensures Mirrored(env, c, visited, parentReverted, Run(env, c, visited).value)
    decreases env.nodes.Keys - visited, |OrderingOf(env, c.idx)| - c.at, 1
  {
    hide CursorOk, Mirrors, Gathered, RecordAt, Enter, Open;
    var ord := OrderingOf(env, c.idx);
    if c.at == |ord| {
      RunEndMirrors(env, c, visited, parentReverted);
    } else {
      match Classify(ord[c.at])
      case Skip =>
        OkSkip(env, c, parentReverted);
        RunMirrors(env, c.(at := c.at + 1), visited, parentReverted);
      case LogAt(pos) =>
        var e := RecordAt(env, c.idx, pos, c.reverted).value;
        OkLog(env, c, parentReverted, pos, e);
        RunMirrors(env, AfterLog(c, pos.i, e), visited, parentReverted);
        GatherEmit(visited, c.events, e, Run(env, c, visited).value.visited, Run(env, c, visited).value.tree.events);
      case CallAt(pos) =>
        RunCallMirrors(env, c, visited, parentReverted, pos);
    }
  }

  lemma {:induction false} RunEndMirrors(env: Env, c: Cursor, visited: set<int>, parentReverted: bool)
    requires CursorOk(env, c, parentReverted) && visited <= env.nodes.Keys
    requires c.at == |OrderingOf(env, c.idx)| && Run(env, c, visited).Ok?
    ensures Mirrored(env, c, visited, parentReverted, Run(env, c, visited).value)
  {
    hide CursorOk, Mirrors, NodeOk;
    OkClose(env, c, parentReverted);
  }

  lemma {:induction false} RunCallMirrors(env: Env, c: Cursor, visited: set<int>, parentReverted: bool, pos: Ref)
    requires CursorOk(env, c, parentReverted) && visited <= env.nodes.Keys
    requires c.at < |OrderingOf(env, c.idx)| && Classify(OrderingOf(env, c.idx)[c.at]) == CallAt(pos)
    requires Run(env, c, visited).Ok?
    ensures Mirrored(env, c, visited, parentReverted, Run(env, c, visited).value)
    decreases env.nodes.Keys - visited, |OrderingOf(env, c.idx)| - c.at, 0
  {
    hide CursorOk, Mirrors, Gathered, ChildAt, Open;
    var k := Enter(env, c, visited, pos).value;
    OkOpen(env, k.idx, c.reverted);
    RunMirrors(env, k, visited + {k.idx}, c.reverted);
    var inner := Run(env, k, visited + {k.idx}).value;
    var next := WithChild(AfterCall(c, pos.i), inner.tree);
    OkCall(env, c, parentReverted, pos, inner.tree);
    GatherChild(visited, c.events, inner.tree, inner.visited);
    RunMirrors(env, next, inner.visited, parentReverted);
    var w := Run(env, next, inner.visited).value;
    GatherTrans(visited, c.events, inner.visited, next.events, w.visited, w.tree.events);
  }

  lemma {:induction false} FullSubset(a: set<int>, b: set<int>)
    requires a <= b && |a| == |b|
    ensures a == b
  {
    var rest := b - a;
    assert b == a + rest;
    assert |rest| == 0;
  }

  /** Every index of the arena occurs in the list of frames exactly once, and no other does. */
  ghost predicate EachOnce(ts: seq<Tree>, indices: set<int>) {
    forall i :: Occurrences(ts, i) == In(indices, i)
  }

  lemma {:induction false} RootGathered(t: Tree, visited: set<int>)
    requires Gathered({t.idx}, [], visited, t.events)
    ensures EachOnce(Preorder(t), visited)
  {
    forall i
      ensures Occurrences(Preorder(t), i) == In(visited, i)
    {
      OccurrencesPreorder(t, i);
      assert Occurrences(Below(t.events), i) + In({t.idx}, i) == Occurrences(Below([]), i) + In(visited, i);
    }
  }

  /** An accepted arena's tree mirrors it from its only root, and holds each node exactly once. */
  lemma {:induction false} ConvertMirrors(cfg: Config, phase: string, nodes: seq<Node>)
    requires Convert(cfg, phase, nodes).Ok?
    ensures var env, t := EnvOf(cfg, phase, nodes), Convert(cfg, phase, nodes).value;
            && ValidEnv(env) && Mirrors(env, t, false)
            && t.idx in env.nodes && env.nodes[t.idx].parent.Absent?
            && EachOnce(Preorder(t), env.nodes.Keys)
  {
    hide CursorOk, Mirrors, OpenHead, Open, Gathered, Run, EachOnce;
    var env := EnvOf(cfg, phase, nodes);
    ByIndexFacts(nodes);
    RootsFacts(nodes);
    assert Roots(nodes)[0] in Roots(nodes);
    var root := Roots(nodes)[0].idx.value;
    var c := Open(env, root, false).value;
    OkOpen(env, root, false);
    RunMirrors(env, c, {root}, false);
    var w := Run(env, c, {root}).value;
    FullSubset(w.visited, env.nodes.Keys);
    RootGathered(w.tree, w.visited);
  }
}
