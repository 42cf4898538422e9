/**
 The exact condition under which an arena is accepted, stated on the arena's own graph of calls.
 */
module ArenaAcceptance {
  import opened Prelude
  import opened Arena
  import opened ArenaWalk
  import opened ArenaFacts
  import opened ArenaGraph

  // ---------------------------------------------------------------- accepted arenas are reached once

  lemma {:induction false} CountMember(ts: seq<Tree>, s: Tree)
    requires s in ts
    ensures Occurrences(ts, s.idx) >= 1
  {
    var k :| 0 <= k < |ts| && ts[k] == s;
    assert Indices(ts)[k] == s.idx;
  }

  lemma {:induction false} CountedMember(ts: seq<Tree>, i: int) returns (s: Tree)
    requires Occurrences(ts, i) >= 1
    ensures s in ts && s.idx == i
  {
    assert i in Indices(ts);
    var k :| 0 <= k < |Indices(ts)| && Indices(ts)[k] == i;
    s := ts[k];
  }

  /** Two different children of one frame with the same index are counted twice below it. */
  lemma {:induction false} TwoChildren(ts: seq<Tree>, a: nat, b: nat)
    requires a < b < |ts| && ts[a].idx == ts[b].idx
    ensures Occurrences(Flat(ts), ts[a].idx) >= 2
  {
    var init, last, i := ts[..|ts| - 1], ts[|ts| - 1], ts[a].idx;
    OccurrencesAppend(Flat(init), Preorder(last), i);
    if b < |init| {
      TwoChildren(init, a, b);
    } else {
      InFlat(init, a);
      OccurrencesPreorder(init[a], i);
      OccurrencesPreorder(last, i);
    }
  }

  lemma {:induction false} TargetsDistinct(env: Env, t: Tree, idx: int, a: nat, b: nat)
    requires Mirrors(env, t, false) && EachOnce(Preorder(t), env.nodes.Keys) && idx in env.nodes
    requires Target(env, idx, a).Some? && Target(env, idx, a) == Target(env, idx, b)
    ensures a == b
  {
    hide Mirrors;
    assert Occurrences(Preorder(t), idx) == In(env.nodes.Keys, idx);
    var s := CountedMember(Preorder(t), idx);
    var inherited := MirrorsInside(env, t, false, s);
    ChildOf(env, s, inherited, a);
    ChildOf(env, s, inherited, b);
    BelowIsFlat(s.events);
    var i := Target(env, idx, a).value;
    assert Occurrences(Preorder(t), i) == In(env.nodes.Keys, i);
    if a < b {
      TwoChildren(Subs(s.events), a, b);
    } else if b < a {
      TwoChildren(Subs(s.events), b, a);
    }
  }

  lemma {:induction false} OnePath(env: Env, t: Tree, p: seq<nat>, q: seq<nat>)
    requires Mirrors(env, t, false) && EachOnce(Preorder(t), env.nodes.Keys)
    requires t.idx in env.nodes && env.nodes[t.idx].parent.Absent?
    requires NodeAt(env, t.idx, p).Some? && NodeAt(env, t.idx, p) == NodeAt(env, t.idx, q)
    ensures p == q
  {
    hide Mirrors, EachOnce;
    if p != [] && q != [] {
      var p', q' := p[..|p| - 1], q[..|q| - 1];
      var i, j := NodeAt(env, t.idx, p').value, NodeAt(env, t.idx, q').value;
      assert Index(i) == env.nodes[NodeAt(env, t.idx, p).value].parent == Index(j);
      OnePath(env, t, p', q');
      TargetsDistinct(env, t, i, p[|p| - 1], q[|q| - 1]);
      assert p == p' + [p[|p| - 1]] && q == q' + [q[|q| - 1]];
    }
  }

  lemma {:induction false} AcceptedIsReachedOnce(env: Env, t: Tree)
    requires Mirrors(env, t, false) && EachOnce(Preorder(t), env.nodes.Keys)
    requires t.idx in env.nodes && env.nodes[t.idx].parent.Absent?
    ensures AllNodesOk(env) && ReachedOnce(env, t.idx)
  {
    hide NodeOk, EventsMirror;
    forall i | i in env.nodes
      ensures NodeOk(env, i) && exists p :: NodeAt(env, t.idx, p) == Some(i)
    {
      assert Occurrences(Preorder(t), i) == In(env.nodes.Keys, i);
      var s := CountedMember(Preorder(t), i);
      var _ := MirrorsInside(env, t, false, s);
      var p := PathInside(env, t.idx, [], t, false, s);
    }
    forall p, q | NodeAt(env, t.idx, p).Some? && NodeAt(env, t.idx, p) == NodeAt(env, t.idx, q)
      ensures p == q
    {
      OnePath(env, t, p, q);
    }
  }

  // ---------------------------------------------------------------- arenas reached once are accepted

  /** `p` leaves the node at `q` through call number `k` or a later one. */
  predicate Ahead(q: seq<nat>, k: nat, p: seq<nat>) {
    |p| > |q| && p[..|q|] == q && p[|q|] >= k
  }

  /** No visited node lies ahead. */
  ghost predicate Clear(env: Env, root: int, visited: set<int>, q: seq<nat>, k: nat) {
    forall p :: NodeAt(env, root, p).Some? && NodeAt(env, root, p).value in visited ==> !Ahead(q, k, p)
  }

  /** Whatever was newly visited lay ahead. */
  ghost predicate Explored(env: Env, root: int, before: set<int>, q: seq<nat>, k: nat, after: set<int>) {
    forall p :: NodeAt(env, root, p).Some? && NodeAt(env, root, p).value in after && NodeAt(env, root, p).value !in before
                ==> Ahead(q, k, p)
  }

  lemma {:induction false} ClearChild(env: Env, root: int, visited: set<int>, q: seq<nat>, k: nat, x: int)
    requires OnePathEach(env, root) && Clear(env, root, visited, q, k) && NodeAt(env, root, q + [k]) == Some(x)
    ensures x !in visited && Clear(env, root, visited + {x}, q + [k], 0)
  {
    assert Ahead(q, k, q + [k]);
    forall p | NodeAt(env, root, p).Some? && NodeAt(env, root, p).value in visited + {x}
      ensures !Ahead(q + [k], 0, p)
    {
      if Ahead(q + [k], 0, p) {
        assert p[..|q|] == p[..|q| + 1][..|q|] == q && p[|q|] == p[..|q| + 1][|q|];
        assert Ahead(q, k, p);
      }
    }
  }

  lemma {:induction false} AheadOfChild(q: seq<nat>, k: nat, p: seq<nat>)
    requires Ahead(q + [k], 0, p)
    ensures Ahead(q, k, p) && !Ahead(q, k + 1, p)
  {
    assert p[..|q|] == p[..|q| + 1][..|q|] == q && p[|q|] == p[..|q| + 1][|q|];
  }

  lemma {:induction false} ClearNext(env: Env, root: int, visited: set<int>, q: seq<nat>, k: nat, x: int, inner: set<int>)
    requires OnePathEach(env, root) && Clear(env, root, visited, q, k) && NodeAt(env, root, q + [k]) == Some(x)
    requires Explored(env, root, visited + {x}, q + [k], 0, inner)
    ensures Clear(env, root, inner, q, k + 1)
  {
    forall p | NodeAt(env, root, p).Some? && NodeAt(env, root, p).value in inner
      ensures !Ahead(q, k + 1, p)
    {
      var i := NodeAt(env, root, p).value;
      if i !in visited && i != x {
        AheadOfChild(q, k, p);
      } else if i == x {
        assert p == q + [k];
      }
    }
  }

  lemma {:induction false} ExploredJoin(env: Env, root: int, visited: set<int>, q: seq<nat>, k: nat, x: int, inner: set<int>, after: set<int>)
    requires OnePathEach(env, root) && NodeAt(env, root, q + [k]) == Some(x)
    requires Explored(env, root, visited + {x}, q + [k], 0, inner) && Explored(env, root, inner, q, k + 1, after)
    ensures Explored(env, root, visited, q, k, after)
  {
    forall p | NodeAt(env, root, p).Some? && NodeAt(env, root, p).value in after && NodeAt(env, root, p).value !in visited
      ensures Ahead(q, k, p)
    {
      var i := NodeAt(env, root, p).value;
      if i == x {
        assert p == q + [k];
      } else if i in inner {
        AheadOfChild(q, k, p);
      }
    }
  }

  /** What the call at position `c.at` names, and that it is next after the calls already made. */
  lemma {:induction false} CallNumber(ord: seq<Entry>, at: nat)
    requires at < |ord|
    ensures |Calls(ord[..at + 1])| <= |Calls(ord)|
    ensures Classify(ord[at]).CallAt? ==>
              var k := |Calls(ord[..at])|;
              k < |Calls(ord)| && Calls(ord)[k] == Classify(ord[at]).pos && |Calls(ord[..at + 1])| == k + 1
    ensures !Classify(ord[at]).CallAt? ==> |Calls(ord[..at + 1])| == |Calls(ord[..at])|
  {
    OneMore(ord, at);
    CallsPrefix(ord, at + 1);
  }

  lemma {:induction false} CallsPrefix(ord: seq<Entry>, n: nat)
    requires n <= |ord|
    ensures |Calls(ord[..n])| <= |Calls(ord)| && Calls(ord[..n]) == Calls(ord)[..|Calls(ord[..n])|]
    decreases |ord|
  {
    if n == |ord| {
      assert ord[..n] == ord;
    } else {
      assert ord[..|ord| - 1][..n] == ord[..n];
      CallsPrefix(ord[..|ord| - 1], n);
    }
  }

  /** The same for logs: an entry's log position has not been read before. */
  lemma {:induction false} LogNumber(ord: seq<Entry>, at: nat)
    requires at < |ord| && Classify(ord[at]).LogAt?
    ensures |LogRefs(ord[..at])| < |LogRefs(ord)|
    ensures LogRefs(ord)[|LogRefs(ord[..at])|] == Classify(ord[at]).pos
    ensures LogRefs(ord[..at]) == LogRefs(ord)[..|LogRefs(ord[..at])|]
  {
    OneMore(ord, at);
    LogRefsPrefix(ord, at + 1);
    LogRefsPrefix(ord, at);
  }

  lemma {:induction false} LogRefsPrefix(ord: seq<Entry>, n: nat)
    requires n <= |ord|
    ensures |LogRefs(ord[..n])| <= |LogRefs(ord)| && LogRefs(ord[..n]) == LogRefs(ord)[..|LogRefs(ord[..n])|]
    decreases |ord|
  {
    if n == |ord| {
      assert ord[..n] == ord;
    } else {
      assert ord[..|ord| - 1][..n] == ord[..n];
      LogRefsPrefix(ord[..|ord| - 1], n);
    }
  }

  lemma {:induction false} PositionUnused(refs: seq<Ref>, k: nat)
    requires k < |refs| && Distinct(refs) && forall j :: 0 <= j < |refs| ==> refs[j].Index?
    ensures refs[k].i !in Elements(Positions(refs[..k]))
  {
    forall j | 0 <= j < k
      ensures Positions(refs[..k])[j] != refs[k].i
    {
      assert refs[j] != refs[k];
    }
  }

  lemma {:induction false} LogAccepted(env: Env, c: Cursor, parentReverted: bool, pos: Ref)
    requires NodeOk(env, c.idx) && CursorOk(env, c, parentReverted)
    requires c.at < |OrderingOf(env, c.idx)| && Classify(OrderingOf(env, c.idx)[c.at]) == LogAt(pos)
    ensures RecordAt(env, c.idx, pos, c.reverted).Ok? && pos.i !in c.logs
  {
    hide CallsOk, NoUnknown, EventsMirror, OpenHead, ConvertLog;
    var ord := OrderingOf(env, c.idx);
    LogNumber(ord, c.at);
    LogRefsIndexed(env, c.idx, LogRefs(ord));
    PositionUnused(LogRefs(ord), |LogRefs(ord[..c.at])|);
    LogAcceptanceIgnoresRevert(env.cfg, env.nodes[c.idx].logs.items[pos.i], c.reverted, false);
  }

  lemma {:induction false} CallAccepted(env: Env, root: int, c: Cursor, parentReverted: bool, q: seq<nat>, visited: set<int>, pos: Ref)
    requires AllNodesOk(env) && OnePathEach(env, root) && CursorOk(env, c, parentReverted)
    requires c.at < |OrderingOf(env, c.idx)| && Classify(OrderingOf(env, c.idx)[c.at]) == CallAt(pos)
    requires NodeAt(env, root, q) == Some(c.idx)
    requires Clear(env, root, visited, q, |Calls(OrderingOf(env, c.idx)[..c.at])|)
    ensures Enter(env, c, visited, pos).Ok?
    ensures NodeAt(env, root, q + [|Calls(OrderingOf(env, c.idx)[..c.at])|]) == Some(Enter(env, c, visited, pos).value.idx)
  {
    hide LogsOk, NoUnknown, EventsMirror, OpenHead, Clear, OnePathEach;
    var ord := OrderingOf(env, c.idx);
    var k := |Calls(ord[..c.at])|;
    CallNumber(ord, c.at);
    CallsPrefix(ord, c.at);
    assert NodeOk(env, c.idx);
    CallRefsIndexed(env, c.idx, Calls(ord));
    PositionUnused(Calls(ord), k);
    NodeAtSnoc(env, root, q, k);
    var child := ChildAt(env, c.idx, pos).value;
    ClearChild(env, root, visited, q, k, child);
    assert NodeOk(env, child);
  }

  /** Following a node's ordering cannot fail while nothing ahead has been visited. */
  lemma {:induction false} RunAccepts(env: Env, root: int, c: Cursor, parentReverted: bool, q: seq<nat>, visited: set<int>)
    requires AllNodesOk(env) && OnePathEach(env, root) && CursorOk(env, c, parentReverted) && visited <= env.nodes.Keys
    requires c.idx in env.nodes && c.at <= |OrderingOf(env, c.idx)|
    requires NodeAt(env, root, q) == Some(c.idx)
    requires Clear(env, root, visited, q, |Calls(OrderingOf(env, c.idx)[..c.at])|)
    ensures Run(env, c, visited).Ok?
    ensures Explored(env, root, visited, q, |Calls(OrderingOf(env, c.idx)[..c.at])|, Run(env, c, visited).value.visited)
    decreases env.nodes.Keys - visited, |OrderingOf(env, c.idx)| - c.at, 1
  {
    hide CursorOk, OnePathEach, Clear, NodeOk, RecordAt, Enter;
    var ord := OrderingOf(env, c.idx);
    if c.at == |ord| {
      assert NodeOk(env, c.idx);
      OkClose(env, c, parentReverted);
    } else {
      CallNumber(ord, c.at);
      assert NodeOk(env, c.idx);
      match Classify(ord[c.at])
      case Skip =>
        OkSkip(env, c, parentReverted);
        RunAccepts(env, root, c.(at := c.at + 1), parentReverted, q, visited);
      case Unknown =>
        NodeHasNoUnknown(env, c.idx, c.at);
      case LogAt(pos) =>
        LogAccepted(env, c, parentReverted, pos);
        var e := RecordAt(env, c.idx, pos, c.reverted).value;
        OkLog(env, c, parentReverted, pos, e);
        RunAccepts(env, root, AfterLog(c, pos.i, e), parentReverted, q, visited);
      case CallAt(pos) =>
        RunCallAccepts(env, root, c, parentReverted, q, visited, pos);
    }
  }

  lemma {:induction false} NodeHasNoUnknown(env: Env, idx: int, at: nat)
    requires NodeOk(env, idx) && at < |OrderingOf(env, idx)|
    ensures !Classify(OrderingOf(env, idx)[at]).Unknown?
  {
  }

  lemma {:induction false} RunCallAccepts(env: Env, root: int, c: Cursor, parentReverted: bool, q: seq<nat>, visited: set<int>, pos: Ref)
    requires AllNodesOk(env) && OnePathEach(env, root) && CursorOk(env, c, parentReverted) && visited <= env.nodes.Keys
    requires c.at < |OrderingOf(env, c.idx)| && Classify(OrderingOf(env, c.idx)[c.at]) == CallAt(pos)
    requires NodeAt(env, root, q) == Some(c.idx)
    requires Clear(env, root, visited, q, |Calls(OrderingOf(env, c.idx)[..c.at])|)
    ensures Run(env, c, visited).Ok?
    ensures Explored(env, root, visited, q, |Calls(OrderingOf(env, c.idx)[..c.at])|, Run(env, c, visited).value.visited)
    decreases env.nodes.Keys - visited, |OrderingOf(env, c.idx)| - c.at, 0
  {
    hide CursorOk, OnePathEach, Clear, Explored, AllNodesOk, Mirrors, Gathered, Open, ChildAt, Run, Enter, NodeAt, Calls;
    var k := |Calls(OrderingOf(env, c.idx)[..c.at])|;
    CallNumber(OrderingOf(env, c.idx), c.at);
    CallAccepted(env, root, c, parentReverted, q, visited, pos);
    var child := Enter(env, c, visited, pos).value;
    ChildAccepts(env, root, child, c.reverted, q, k, visited);
    RunCallEquation(env, c, visited, pos);
    var inner := Run(env, child, visited + {child.idx}).value;
    var next := WithChild(AfterCall(c, pos.i), inner.tree);
    OkCall(env, c, parentReverted, pos, inner.tree);
    RunAccepts(env, root, next, parentReverted, q, inner.visited);
    ExploredJoin(env, root, visited, q, k, child.idx, inner.visited, Run(env, next, inner.visited).value.visited);
  }

  lemma {:induction false} RunCallEquation(env: Env, c: Cursor, visited: set<int>, pos: Ref)
    requires c.idx in env.nodes && c.at < |OrderingOf(env, c.idx)| && Classify(OrderingOf(env, c.idx)[c.at]) == CallAt(pos)
    requires Enter(env, c, visited, pos).Ok?
    requires var k := Enter(env, c, visited, pos).value; Run(env, k, visited + {k.idx}).Ok?
    ensures var k := Enter(env, c, visited, pos).value;
            var w := Run(env, k, visited + {k.idx}).value;
            Run(env, c, visited) == Run(env, WithChild(AfterCall(c, pos.i), w.tree), w.visited)
  {
    hide Enter;
  }

  /** The whole subtree of the child entered through call number `k` at path `q`. */
  lemma {:induction false} ChildAccepts(env: Env, root: int, child: Cursor, reverted: bool, q: seq<nat>, k: nat, visited: set<int>)
    requires AllNodesOk(env) && OnePathEach(env, root) && visited <= env.nodes.Keys
    requires child.idx in env.nodes && child.idx !in visited && Open(env, child.idx, reverted) == Ok(child)
    requires NodeAt(env, root, q + [k]) == Some(child.idx) && Clear(env, root, visited, q, k)
    ensures Run(env, child, visited + {child.idx}).Ok?
    ensures var inner := Run(env, child, visited + {child.idx}).value;
            && inner.visited <= env.nodes.Keys
            && inner.tree.idx == child.idx && Mirrors(env, inner.tree, reverted)
            && Explored(env, root, visited + {child.idx}, q + [k], 0, inner.visited)
            && Clear(env, root, inner.visited, q, k + 1)
    decreases env.nodes.Keys - visited, 0, 0
  {
    hide CursorOk, OnePathEach, Clear, Explored, AllNodesOk, Mirrors, Gathered, OpenHead, Run;
    var x := child.idx;
    OkOpen(env, x, reverted);
    ClearChild(env, root, visited, q, k, x);
    assert OrderingOf(env, x)[..0] == [];
    RunAccepts(env, root, child, reverted, q + [k], visited + {x});
    RunMirrors(env, child, visited + {x}, reverted);
    ClearNext(env, root, visited, q, k, x, Run(env, child, visited + {x}).value.visited);
  }

  // ---------------------------------------------------------------- the exact condition

  /** Node indices are unique, exactly one node has no parent, every node is well formed by itself,
      and every node lies on exactly one call path from the root. */
  ghost predicate WellFormedArena(cfg: Config, phase: string, nodes: seq<Node>) {
    && DistinctIndices(nodes)
    && |Roots(nodes)| == 1
    && var env := EnvOf(cfg, phase, nodes);
    && AllNodesOk(env)
    && Roots(nodes)[0].idx.Some?
    && ReachedOnce(env, Roots(nodes)[0].idx.value)
  }

  lemma {:induction false} ReachedArenaConverts(cfg: Config, phase: string, nodes: seq<Node>)
    requires WellFormedArena(cfg, phase, nodes)
    ensures Convert(cfg, phase, nodes).Ok?
  {
    hide NodeOk, CursorOk, Mirrors, Gathered, Run;
    var env := EnvOf(cfg, phase, nodes);
    ByIndexFacts(nodes);
    RootsFacts(nodes);
    assert Roots(nodes)[0] in Roots(nodes);
    var root := Roots(nodes)[0].idx.value;
    assert NodeOk(env, root);
    OpensWhenOk(env, root);
    var c := Open(env, root, false).value;
    OkOpen(env, root, false);
    assert NodeAt(env, root, []) == Some(root);
    assert Calls(OrderingOf(env, root)[..0]) == [];
    RunAccepts(env, root, c, false, [], {root});
    RunMirrors(env, c, {root}, false);
    var w := Run(env, c, {root}).value;
    RootGathered(w.tree, w.visited);
    forall i | i in env.nodes
      ensures i in w.visited
    {
      var p :| NodeAt(env, root, p) == Some(i);
      var s := FrameAt(env, w.tree, p);
      CountMember(Preorder(w.tree), s);
      assert Occurrences(Preorder(w.tree), i) == In(w.visited, i);
    }
    assert w.visited == env.nodes.Keys;
  }

  lemma {:induction false} OpensWhenOk(env: Env, idx: int)
    requires NodeOk(env, idx)
    ensures Open(env, idx, false).Ok?
  {
  }

  /** Conversion accepts an arena exactly when it is well formed; in particular it rejects every
      arena, cyclic, shared or disconnected, with a node that is not reached exactly once. */
  lemma {:induction false} AcceptedExactly(cfg: Config, phase: string, nodes: seq<Node>)
    ensures Convert(cfg, phase, nodes).Ok? <==> WellFormedArena(cfg, phase, nodes)
  {
    if Convert(cfg, phase, nodes).Ok? {
      ConvertedIsWellFormed(cfg, phase, nodes);
    }
    if WellFormedArena(cfg, phase, nodes) {
      ReachedArenaConverts(cfg, phase, nodes);
    }
  }

  lemma {:induction false} ConvertedIsWellFormed(cfg: Config, phase: string, nodes: seq<Node>)
    requires Convert(cfg, phase, nodes).Ok?
    ensures WellFormedArena(cfg, phase, nodes)
  {
    hide AllNodesOk, ReachedOnce, Mirrors, EachOnce, Run, Open;
    ConvertMirrors(cfg, phase, nodes);
    var env, t := EnvOf(cfg, phase, nodes), Convert(cfg, phase, nodes).value;
    AcceptedIsReachedOnce(env, t);
    ByIndexFacts(nodes);
    OnlyRoot(nodes, env.nodes[t.idx]);
  }

  lemma {:induction false} OnlyRoot(nodes: seq<Node>, n: Node)
    requires |Roots(nodes)| == 1 && n in nodes && n.parent.Absent?
    ensures Roots(nodes)[0] == n
  {
    RootsFacts(nodes);
    assert n in Roots(nodes);
  }
}
