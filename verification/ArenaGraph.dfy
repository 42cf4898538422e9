/**
 The arena as a graph of call edges. Conversion accepts exactly when every node is well formed by
 itself and lies on exactly one call path from the only root, and a frame's logs are marked
 reverted exactly when its node or one of its parents failed.
 */
module ArenaGraph {
  import opened Prelude
  import opened Arena
  import opened ArenaWalk
  import opened ArenaFacts

  // ---------------------------------------------------------------- paths of calls

  /** Where call number `k` of a node leads. */
  function Target(env: Env, idx: int, k: nat): Option<int> {
    if idx !in env.nodes || k >= |Calls(OrderingOf(env, idx))| then None
    else
      match ChildAt(env, idx, Calls(OrderingOf(env, idx))[k])
      case Reject => None
      case Ok(child) => Some(child)
  }

  /** The node reached from `root` by a sequence of call numbers. */
  function NodeAt(env: Env, root: int, path: seq<nat>): Option<int> {
    if path == [] then Some(root)
    else
      match NodeAt(env, root, path[..|path| - 1])
      case None => None
      case Some(i) => Target(env, i, path[|path| - 1])
  }

  ghost predicate OnePathEach(env: Env, root: int) {
    forall p, q :: NodeAt(env, root, p).Some? && NodeAt(env, root, p) == NodeAt(env, root, q) ==> p == q
  }

  /** Every node is reached from the root by exactly one path. */
  ghost predicate ReachedOnce(env: Env, root: int) {
    && OnePathEach(env, root)
    && forall i :: i in env.nodes ==> exists p :: NodeAt(env, root, p) == Some(i)
  }

  ghost predicate AllNodesOk(env: Env) {
    forall i :: i in env.nodes ==> NodeOk(env, i)
  }

  lemma {:induction false} NodeAtSnoc(env: Env, root: int, path: seq<nat>, k: nat)
    requires NodeAt(env, root, path).Some?
    ensures NodeAt(env, root, path + [k]) == Target(env, NodeAt(env, root, path).value, k)
  {
    assert (path + [k])[..|path + [k]| - 1] == path;
  }

  // ---------------------------------------------------------------- the calls of a mirrored frame

  /** The frames of a list of trees, tree by tree. */
  function Flat(ts: seq<Tree>): seq<Tree> {
    if ts == [] then [] else Flat(ts[..|ts| - 1]) + Preorder(ts[|ts| - 1])
  }

  lemma {:induction false} BelowIsFlat(events: seq<TreeEvent>)
    ensures Below(events) == Flat(Subs(events))
  {
    if events != [] {
      var init, e := events[..|events| - 1], events[|events| - 1];
      BelowIsFlat(init);
      if e.Sub? {
        assert Subs(events)[..|Subs(events)| - 1] == Subs(init);
      } else {
        assert BelowEvent(e) == [] && Subs(events) == Subs(init);
      }
    }
  }

  lemma {:induction false} InFlat(ts: seq<Tree>, j: nat)
    requires j < |ts|
    ensures |Preorder(ts[j])| <= |Flat(ts)|
    ensures forall s :: s in Preorder(ts[j]) ==> s in Flat(ts)
    ensures forall i :: Occurrences(Preorder(ts[j]), i) <= Occurrences(Flat(ts), i)
  {
    var init, last := ts[..|ts| - 1], ts[|ts| - 1];
    if j < |init| {
      InFlat(init, j);
    }
    forall i
      ensures Occurrences(Preorder(ts[j]), i) <= Occurrences(Flat(ts), i)
    {
      OccurrencesAppend(Flat(init), Preorder(last), i);
    }
  }

  lemma {:induction false} FromFlat(ts: seq<Tree>, s: Tree) returns (j: nat)
    requires s in Flat(ts)
    ensures j < |ts| && s in Preorder(ts[j])
  {
    if s in Preorder(ts[|ts| - 1]) {
      j := |ts| - 1;
    } else {
      j := FromFlat(ts[..|ts| - 1], s);
    }
  }

  /** Call number `k` of a mirrored frame is its `k`-th child, which mirrors the call's target. */
  lemma {:induction false} SubsMirror(env: Env, idx: int, reverted: bool, ord: seq<Entry>, events: seq<TreeEvent>, k: nat)
    requires idx in env.nodes && EventsMirror(env, idx, reverted, ord, events)
    ensures |Subs(events)| == |Calls(ord)|
    ensures k < |Calls(ord)| ==>
              ChildAt(env, idx, Calls(ord)[k]) == Ok(Subs(events)[k].idx) && Mirrors(env, Subs(events)[k], reverted)
    decreases |ord|
  {
    hide Mirrors, ChildAt, RecordAt;
    if ord != [] {
      var step, before := Classify(ord[|ord| - 1]), ord[..|ord| - 1];
      if step.Skip? || step.Unknown? {
        SubsMirror(env, idx, reverted, before, events, k);
      } else {
        SubsMirror(env, idx, reverted, before, events[..|events| - 1], k);
      }
    }
  }

  lemma {:induction false} ChildOf(env: Env, t: Tree, parentReverted: bool, k: nat)
    requires Mirrors(env, t, parentReverted)
    ensures |Subs(t.events)| == |Calls(OrderingOf(env, t.idx))|
    ensures k < |Subs(t.events)| ==>
              var c := Subs(t.events)[k];
              && Target(env, t.idx, k) == Some(c.idx)
              && Mirrors(env, c, t.reverted)
              && env.nodes[c.idx].parent == Index(t.idx)
              && |Preorder(c)| < |Preorder(t)|
              && (forall s :: s in Preorder(c) ==> s in Preorder(t))
              && (forall i :: Occurrences(Preorder(c), i) <= Occurrences(Below(t.events), i))
  {
    hide CallsOk, LogsOk, NoUnknown, EventsMirror, OpenHead;
    SubsMirror(env, t.idx, t.reverted, OrderingOf(env, t.idx), t.events, k);
    BelowIsFlat(t.events);
    if k < |Subs(t.events)| {
      InFlat(Subs(t.events), k);
    }
  }

  /** Every frame of a mirrored tree mirrors its own node. */
  lemma {:induction false} MirrorsInside(env: Env, t: Tree, parentReverted: bool, s: Tree) returns (inherited: bool)
    requires Mirrors(env, t, parentReverted) && s in Preorder(t)
    ensures Mirrors(env, s, inherited)
    ensures forall i :: Occurrences(Below(s.events), i) <= Occurrences(Preorder(t), i)
    decreases |Preorder(t)|
  {
    hide Mirrors;
    if s == t {
      inherited := parentReverted;
      forall i ensures Occurrences(Below(s.events), i) <= Occurrences(Preorder(t), i) { OccurrencesPreorder(t, i); }
    } else {
      BelowIsFlat(t.events);
      var j := FromFlat(Subs(t.events), s);
      ChildOf(env, t, parentReverted, j);
      inherited := MirrorsInside(env, Subs(t.events)[j], t.reverted, s);
      forall i ensures Occurrences(Below(s.events), i) <= Occurrences(Preorder(t), i) { OccurrencesPreorder(t, i); }
    }
  }

  /** Each frame of a tree is reached by a path that extends the path to its root. */
  lemma {:induction false} PathInside(env: Env, root: int, path: seq<nat>, t: Tree, parentReverted: bool, s: Tree) returns (p: seq<nat>)
    requires Mirrors(env, t, parentReverted) && s in Preorder(t) && NodeAt(env, root, path) == Some(t.idx)
    ensures NodeAt(env, root, p) == Some(s.idx)
    decreases |Preorder(t)|
  {
    hide Mirrors;
    if s == t {
      p := path;
    } else {
      BelowIsFlat(t.events);
      var j := FromFlat(Subs(t.events), s);
      ChildOf(env, t, parentReverted, j);
      NodeAtSnoc(env, root, path, j);
      p := PathInside(env, root, path + [j], Subs(t.events)[j], t.reverted, s);
    }
  }

  /** Each path from a mirrored tree's root ends at one of the tree's frames. */
  lemma {:induction false} FrameAt(env: Env, t: Tree, path: seq<nat>) returns (s: Tree)
    requires Mirrors(env, t, false) && NodeAt(env, t.idx, path).Some?
    ensures s in Preorder(t) && NodeAt(env, t.idx, path) == Some(s.idx)
  {
    hide Mirrors;
    if path == [] {
      s := t;
    } else {
      var k := path[|path| - 1];
      var p := FrameAt(env, t, path[..|path| - 1]);
      var inherited := MirrorsInside(env, t, false, p);
      ChildOf(env, p, inherited, k);
      s := Subs(p.events)[k];
      InPreorder(t, p, s, env);
    }
  }

  lemma {:induction false} InPreorder(t: Tree, p: Tree, s: Tree, env: Env)
    requires p in Preorder(t) && s in Preorder(p)
    ensures s in Preorder(t)
    decreases |Preorder(t)|
  {
    if p != t {
      BelowIsFlat(t.events);
      var j := FromFlat(Subs(t.events), p);
      InFlat(Subs(t.events), j);
      InPreorder(Subs(t.events)[j], p, s, env);
    }
  }
}
