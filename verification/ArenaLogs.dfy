/**
 What becomes of an accepted arena's logs: which are marked reverted, which count as transfers,
 and that none is lost or repeated.
 */
module ArenaLogs {
  import opened Prelude
  import opened Bags
  import opened Abi
  import opened Arena
  import opened ArenaWalk
  import opened ArenaFacts
  import opened ArenaGraph

  // ---------------------------------------------------------------- failure up the parent chain

  function Parent(env: Env, idx: int): (p: Option<int>)
    ensures p.Some? ==> p.value in env.nodes
  {
    if idx in env.nodes && env.nodes[idx].parent.Index? && env.nodes[idx].parent.i in env.nodes
    then Some(env.nodes[idx].parent.i)
    else None
  }

  /** The node `n` parent pointers above `idx`. */
  function Ancestor(env: Env, idx: int, n: nat): Option<int>
    decreases n
  {
    if n == 0 then Some(idx)
    else
      match Parent(env, idx)
      case None => None
      case Some(p) => Ancestor(env, p, n - 1)
  }

  predicate Failed(env: Env, idx: int) {
    idx in env.nodes && env.nodes[idx].trace.Some? && env.nodes[idx].trace.value.success == Some(false)
  }

  /** The node or one of its ancestors failed. */
  ghost predicate ChainFails(env: Env, idx: int) {
    exists n: nat :: Ancestor(env, idx, n).Some? && Failed(env, Ancestor(env, idx, n).value)
  }

  lemma {:induction false} ChainStep(env: Env, idx: int)
    ensures ChainFails(env, idx) <==>
            Failed(env, idx) || (Parent(env, idx).Some? && ChainFails(env, Parent(env, idx).value))
  {
    if ChainFails(env, idx) {
      var n: nat :| Ancestor(env, idx, n).Some? && Failed(env, Ancestor(env, idx, n).value);
      if n > 0 {
        assert Ancestor(env, Parent(env, idx).value, n - 1) == Ancestor(env, idx, n);
      }
    }
    if Failed(env, idx) {
      assert Ancestor(env, idx, 0) == Some(idx);
    }
    if Parent(env, idx).Some? && ChainFails(env, Parent(env, idx).value) {
      var p := Parent(env, idx).value;
      var n: nat :| Ancestor(env, p, n).Some? && Failed(env, Ancestor(env, p, n).value);
      assert Ancestor(env, idx, n + 1) == Ancestor(env, p, n);
    }
  }

  ghost predicate ParentFails(env: Env, idx: int) {
    Parent(env, idx).Some? && ChainFails(env, Parent(env, idx).value)
  }

  lemma {:induction false} RevertedHere(env: Env, t: Tree, parentReverted: bool)
    requires Mirrors(env, t, parentReverted) && (parentReverted <==> ParentFails(env, t.idx))
    ensures t.reverted <==> ChainFails(env, t.idx)
  {
    hide ChainFails, EventsMirror, CallsOk, LogsOk, NoUnknown;
    ChainStep(env, t.idx);
  }

  /** The revert flag of a frame says whether its parent chain contains a failure. */
  lemma {:induction false} RevertedBelow(env: Env, t: Tree, parentReverted: bool, s: Tree)
    requires Mirrors(env, t, parentReverted) && s in Preorder(t)
    requires parentReverted <==> ParentFails(env, t.idx)
    ensures s.reverted <==> ChainFails(env, s.idx)
    decreases |Preorder(t)|
  {
    hide Mirrors, ChainFails;
    RevertedHere(env, t, parentReverted);
    if s != t {
      BelowIsFlat(t.events);
      var j := FromFlat(Subs(t.events), s);
      ChildOf(env, t, parentReverted, j);
      IdxInNodes(env, t, parentReverted);
      RevertedBelow(env, Subs(t.events)[j], t.reverted, s);
    }
  }

  lemma {:induction false} IdxInNodes(env: Env, t: Tree, parentReverted: bool)
    requires Mirrors(env, t, parentReverted)
    ensures t.idx in env.nodes && forall c :: c in Subs(t.events) ==> c.idx in env.nodes
  {
    hide EventsMirror, CallsOk, LogsOk, OpenHead;
    forall c | c in Subs(t.events)
      ensures c.idx in env.nodes
    {
      var k :| 0 <= k < |Subs(t.events)| && Subs(t.events)[k] == c;
      ChildOf(env, t, parentReverted, k);
    }
  }

  lemma {:induction false} RevertedMeans(env: Env, t: Tree, s: Tree)
    requires Mirrors(env, t, false) && t.idx in env.nodes && env.nodes[t.idx].parent.Absent? && s in Preorder(t)
    ensures s.reverted <==> ChainFails(env, s.idx)
  {
    hide Mirrors, ChainFails;
    RevertedBelow(env, t, false, s);
  }

  // ---------------------------------------------------------------- the logs of one node

  function LogItems(node: Node): seq<Option<RawLog>> {
    if node.logs.Items? then node.logs.items else []
  }

  /** The log event at a position of a node's log list. */
  function EventAt(env: Env, idx: int, p: int, reverted: bool): Option<TreeEvent> {
    if idx !in env.nodes then None
    else
      match RecordAt(env, idx, Index(p), reverted)
      case Reject => None
      case Ok(e) => Some(e)
  }

  /** A sum over the log events of a list, in execution order. */
  ghost function LogTotal<T>(events: seq<TreeEvent>, f: TreeEvent -> multiset<T>): multiset<T> {
    if events == [] then multiset{}
    else LogTotal(events[..|events| - 1], f) + if events[|events| - 1].Emit? then f(events[|events| - 1]) else multiset{}
  }

  /** What the log events of a frame contribute. */
  ghost function FrameBag<T>(f: TreeEvent -> multiset<T>): Tree -> multiset<T> {
    (s: Tree) => LogTotal(s.events, f)
  }

  ghost function PositionBag<T>(env: Env, idx: int, reverted: bool, f: TreeEvent -> multiset<T>, p: int): multiset<T> {
    match EventAt(env, idx, p, reverted)
    case None => multiset{}
    case Some(e) => f(e)
  }

  ghost function AtPosition<T>(env: Env, idx: int, reverted: bool, f: TreeEvent -> multiset<T>): int -> multiset<T> {
    p => PositionBag(env, idx, reverted, f, p)
  }

  lemma {:induction false} MirroredLog<T>(env: Env, idx: int, reverted: bool, pos: Ref, e: TreeEvent, f: TreeEvent -> multiset<T>)
    requires idx in env.nodes && RecordAt(env, idx, pos, reverted) == Ok(e)
    ensures pos.Index? && e.Emit? && AtPosition(env, idx, reverted, f)(pos.i) == f(e)
  {
    assert pos == Index(pos.i);
  }

  lemma {:induction false} LogRefsStep(ord: seq<Entry>)
    requires ord != []
    ensures LogRefs(ord) ==
            if Classify(ord[|ord| - 1]).LogAt? then LogRefs(ord[..|ord| - 1]) + [Classify(ord[|ord| - 1]).pos]
            else LogRefs(ord[..|ord| - 1])
  {
  }

  lemma {:induction false} LogTotalByRefs<T>(env: Env, idx: int, reverted: bool, ord: seq<Entry>, events: seq<TreeEvent>, f: TreeEvent -> multiset<T>)
    requires idx in env.nodes && EventsMirror(env, idx, reverted, ord, events)
    ensures LogTotal(events, f) == Total(Positions(LogRefs(ord)), AtPosition(env, idx, reverted, f))
    decreases |ord|
  {
    hide Mirrors, ChildAt, RecordAt, LogRefs, AtPosition, Total;
    var g := AtPosition(env, idx, reverted, f);
    if ord == [] {
      EmptyTotals(g);
    } else {
      var step, before := Classify(ord[|ord| - 1]), ord[..|ord| - 1];
      LogRefsStep(ord);
      if step.Skip? || step.Unknown? {
        LogTotalByRefs(env, idx, reverted, before, events, f);
      } else {
        var init, e := events[..|events| - 1], events[|events| - 1];
        LogTotalByRefs(env, idx, reverted, before, init, f);
        assert EventMirrors(env, idx, reverted, step, e);
        if step.LogAt? {
          var refs := LogRefs(before);
          MirroredLog(env, idx, reverted, step.pos, e, f);
          assert Positions(refs + [step.pos]) == Positions(refs) + [step.pos.i];
          TotalSnoc(Positions(refs), step.pos.i, g);
        }
      }
    }
  }

  lemma {:induction false} EmptyTotals<T>(g: int -> multiset<T>)
    ensures Total(Positions(LogRefs([])), g) == multiset{}
  {
  }

  lemma {:induction false} OrderingCoversLogs(env: Env, idx: int)
    requires NodeOk(env, idx)
    ensures multiset(Positions(LogRefs(OrderingOf(env, idx)))) == multiset(Range(|LogItems(env.nodes[idx])|))
  {
    hide CallsOk, NoUnknown, OpenHead, ConvertLog;
    var refs := LogRefs(OrderingOf(env, idx));
    LogRefsIndexed(env, idx, refs);
    forall k | 0 <= k < |refs|
      ensures 0 <= refs[k].i < |LogItems(env.nodes[idx])|
    {
      assert RecordAt(env, idx, refs[k], false).Ok?;
    }
    forall i, j | 0 <= i < j < |refs|
      ensures Positions(refs)[i] != Positions(refs)[j]
    {
      assert refs[i] != refs[j];
    }
    LogCountMatches(env, idx);
    Pigeonhole(Positions(refs), |LogItems(env.nodes[idx])|);
  }

  lemma {:induction false} LogCountMatches(env: Env, idx: int)
    requires NodeOk(env, idx)
    ensures |LogRefs(OrderingOf(env, idx))| == |LogItems(env.nodes[idx])|
  {
    hide CallsOk, LogsOk, NoUnknown, OpenHead;
  }

  /** A frame's logs are those of its node's log list, each once. */
  lemma {:induction false} FrameLogs<T>(env: Env, s: Tree, parentReverted: bool, f: TreeEvent -> multiset<T>)
    requires Mirrors(env, s, parentReverted)
    ensures LogTotal(s.events, f) == Total(Range(|LogItems(env.nodes[s.idx])|), AtPosition(env, s.idx, s.reverted, f))
  {
    hide EventsMirror, CallsOk, LogsOk, OpenHead;
    LogTotalByRefs(env, s.idx, s.reverted, OrderingOf(env, s.idx), s.events, f);
    OrderingCoversLogs(env, s.idx);
    TotalPermutation(Positions(LogRefs(OrderingOf(env, s.idx))), Range(|LogItems(env.nodes[s.idx])|),
                     AtPosition(env, s.idx, s.reverted, f));
  }

  // ---------------------------------------------------------------- sums over the whole arena

  ghost function NodeBag<T>(env: Env, idx: int, reverted: bool, f: TreeEvent -> multiset<T>): multiset<T> {
    if idx !in env.nodes then multiset{}
    else Total(Range(|LogItems(env.nodes[idx])|), AtPosition(env, idx, reverted, f))
  }

  /** A sum over a tree's frames is the same sum over the arena's nodes. */
  lemma {:induction false} NodeTotal<T>(cfg: Config, phase: string, nodes: seq<Node>, f: Tree -> multiset<T>, h: Node -> multiset<T>)
    requires Convert(cfg, phase, nodes).Ok?
    requires var env := EnvOf(cfg, phase, nodes);
             forall s :: s in Preorder(Convert(cfg, phase, nodes).value) ==> s.idx in env.nodes && f(s) == h(env.nodes[s.idx])
    ensures Total(Preorder(Convert(cfg, phase, nodes).value), f) == Total(nodes, h)
  {
    hide Convert, Mirrors, EachOnce, NodeOk, Total;
    ConvertMirrors(cfg, phase, nodes);
    var env, t := EnvOf(cfg, phase, nodes), Convert(cfg, phase, nodes).value;
    var ts, g := Preorder(t), (i: int) => if i in env.nodes then h(env.nodes[i]) else multiset{};
    forall k | 0 <= k < |ts|
      ensures f(ts[k]) == g(Indices(ts)[k])
    {
      assert ts[k] in ts;
    }
    TotalAligned(ts, f, Indices(ts), g);
    ConvertedIsIndexed(cfg, phase, nodes);
    SameIndices(cfg, phase, nodes, t);
    TotalPermutation(Indices(ts), NodeIndices(nodes), g);
    forall k | 0 <= k < |nodes|
      ensures g(NodeIndices(nodes)[k]) == h(nodes[k])
    {
      NodeIsOk(cfg, phase, nodes, nodes[k]);
    }
    TotalAligned(NodeIndices(nodes), g, nodes, h);
  }

  /** A sum over all log events of a tree is the same sum over all logs of the arena's nodes. */
  lemma {:induction false} ArenaTotal<T>(cfg: Config, phase: string, nodes: seq<Node>, f: TreeEvent -> multiset<T>, h: Node -> multiset<T>)
    requires Convert(cfg, phase, nodes).Ok?
    requires var env := EnvOf(cfg, phase, nodes);
             forall n :: n in nodes && n.idx.Some? && n.idx.value in env.nodes && NodeOk(env, n.idx.value) ==>
               h(n) == NodeBag(env, n.idx.value, ChainFails(env, n.idx.value), f)
    ensures Total(Preorder(Convert(cfg, phase, nodes).value), FrameBag(f)) == Total(nodes, h)
  {
    hide Convert, Mirrors, EachOnce, NodeOk, NodeBag, LogTotal, Total, ChainFails;
    ConvertMirrors(cfg, phase, nodes);
    var env, t := EnvOf(cfg, phase, nodes), Convert(cfg, phase, nodes).value;
    forall s | s in Preorder(t)
      ensures s.idx in env.nodes && LogTotal(s.events, f) == h(env.nodes[s.idx])
    {
      FrameTotal(env, t, s, f);
      NodeOfFrame(cfg, phase, nodes, s);
    }
    NodeTotal(cfg, phase, nodes, FrameBag(f), h);
  }

  /** The node of a frame, which is well formed and opens to the frame's head. */
  lemma {:induction false} NodeOfFrame(cfg: Config, phase: string, nodes: seq<Node>, s: Tree)
    requires Convert(cfg, phase, nodes).Ok? && s in Preorder(Convert(cfg, phase, nodes).value)
    ensures var env := EnvOf(cfg, phase, nodes);
            && s.idx in env.nodes && NodeOk(env, s.idx) && env.nodes[s.idx] in nodes && env.nodes[s.idx].idx == Some(s.idx)
            && OpenHead(cfg, phase, env.nodes[s.idx]) == Ok(s.head)
  {
    hide Convert, EachOnce, NodeOk, EventsMirror, OpenHead;
    ConvertMirrors(cfg, phase, nodes);
    var env, t := EnvOf(cfg, phase, nodes), Convert(cfg, phase, nodes).value;
    var _ := MirrorsInside(env, t, false, s);
    ConvertedIsIndexed(cfg, phase, nodes);
    ByIndexFacts(nodes);
    FrameNodeOk(env, s);
  }

  lemma {:induction false} FrameNodeOk(env: Env, s: Tree)
    requires NodeOk(env, s.idx)
    ensures s.idx in env.nodes
  {
  }

  lemma {:induction false} FrameTotal<T>(env: Env, t: Tree, s: Tree, f: TreeEvent -> multiset<T>)
    requires Mirrors(env, t, false) && t.idx in env.nodes && env.nodes[t.idx].parent.Absent? && s in Preorder(t)
    ensures LogTotal(s.events, f) == NodeBag(env, s.idx, ChainFails(env, s.idx), f)
  {
    hide LogTotal, Total, ChainFails, EventsMirror, LogItems;
    RevertedMeans(env, t, s);
    var inherited := MirrorsInside(env, t, false, s);
    FrameLogs(env, s, inherited, f);
  }

  function NodeIndices(nodes: seq<Node>): (r: seq<int>)
    ensures |r| == |nodes|
    ensures forall k :: 0 <= k < |r| ==> r[k] == if nodes[k].idx.Some? then nodes[k].idx.value else -1
  {
    seq(|nodes|, k requires 0 <= k < |nodes| => if nodes[k].idx.Some? then nodes[k].idx.value else -1)
  }

  lemma {:induction false} NodeIsOk(cfg: Config, phase: string, nodes: seq<Node>, n: Node)
    requires Convert(cfg, phase, nodes).Ok? && n in nodes
    ensures n.idx.Some? && NodeOk(EnvOf(cfg, phase, nodes), n.idx.value)
    ensures n.idx.value in EnvOf(cfg, phase, nodes).nodes && EnvOf(cfg, phase, nodes).nodes[n.idx.value] == n
  {
    hide Mirrors, EachOnce, Run, Open, NodeOk;
    ByIndexFacts(nodes);
    ConvertMirrors(cfg, phase, nodes);
    var env, t := EnvOf(cfg, phase, nodes), Convert(cfg, phase, nodes).value;
    NodeInTree(env, t, n.idx.value);
  }

  lemma {:induction false} NodeInTree(env: Env, t: Tree, i: int)
    requires Mirrors(env, t, false) && EachOnce(Preorder(t), env.nodes.Keys) && i in env.nodes
    ensures NodeOk(env, i)
  {
    hide NodeOk, EventsMirror;
    assert Occurrences(Preorder(t), i) == In(env.nodes.Keys, i);
    assert i in Indices(Preorder(t));
    var k :| 0 <= k < |Preorder(t)| && Indices(Preorder(t))[k] == i;
    var _ := MirrorsInside(env, t, false, Preorder(t)[k]);
  }

  lemma {:induction false} ConvertedIsIndexed(cfg: Config, phase: string, nodes: seq<Node>)
    requires Convert(cfg, phase, nodes).Ok?
    ensures DistinctIndices(nodes)
  {
  }

  lemma {:induction false} SameIndices(cfg: Config, phase: string, nodes: seq<Node>, t: Tree)
    requires DistinctIndices(nodes) && EachOnce(Preorder(t), EnvOf(cfg, phase, nodes).nodes.Keys)
    ensures multiset(Indices(Preorder(t))) == multiset(NodeIndices(nodes))
  {
    ByIndexFacts(nodes);
    var env := EnvOf(cfg, phase, nodes);
    forall i
      ensures multiset(Indices(Preorder(t)))[i] == multiset(NodeIndices(nodes))[i]
    {
      assert Occurrences(Preorder(t), i) == In(env.nodes.Keys, i);
      DistinctCount(NodeIndices(nodes), i);
      if i in NodeIndices(nodes) {
        var k :| 0 <= k < |nodes| && NodeIndices(nodes)[k] == i;
        assert nodes[k] in nodes;
      }
      if i in env.nodes {
        var k :| 0 <= k < |nodes| && nodes[k] == env.nodes[i];
        assert NodeIndices(nodes)[k] == i;
      }
    }
  }

  // ---------------------------------------------------------------- transfers

  ghost function TransferBag(e: TreeEvent): multiset<Transfer> {
    if e.Emit? then OptionBag(e.transfer) else multiset{}
  }

  /** The ERC-20 transfer that a log shows: the Transfer topic, which is none of the harness topics,
      two indexed addresses and one word of data. */
  function ShownTransfer(cfg: Config, entry: Option<RawLog>): Option<Transfer> {
    if !HasTopics(entry, cfg.transferTopic, 3) then None
    else
      var word1, word2, data := entry.value.topics.value[1].value, entry.value.topics.value[2].value, entry.value.data.value;
      if cfg.transferTopic in {cfg.assertionTopic, cfg.controlTopic, cfg.contextTopic, cfg.economicTopic} then None
      else if |word1| < 12 || |word2| < 12 || word1[..12] != Zeros(12) || word2[..12] != Zeros(12) || |data| != 32 then None
      else Some(Transfer(entry.value.address.value, word1[12..], word2[12..], BigEndian(data)))
  }

  /** A readable log with so many topics, the first of them as given. */
  predicate HasTopics(entry: Option<RawLog>, topic: Bytes, n: nat)
    requires 0 < n <= 4
  {
    && entry.Some? && entry.value.address.Some? && |entry.value.address.value| == 20 && entry.value.data.Some?
    && entry.value.topics.Some? && |entry.value.topics.value| == n
    && entry.value.topics.value[0] == Some(topic) && forall i :: 0 <= i < n ==> entry.value.topics.value[i].Some?
  }

  lemma {:induction false} AllPresentExactly<T(!new)>(xs: seq<Option<T>>)
    ensures AllPresent(xs).Some? <==> forall i :: 0 <= i < |xs| ==> xs[i].Some?
    ensures AllPresent(xs).Some? ==> |AllPresent(xs).value| == |xs| && forall i :: 0 <= i < |xs| ==> xs[i] == Some(AllPresent(xs).value[i])
  {
    if xs != [] {
      AllPresentExactly(xs[1..]);
      if AllPresent(xs[1..]).Some? && xs[0].Some? {
        assert AllPresent(xs) == Some([xs[0].value] + AllPresent(xs[1..]).value);
        assert forall i :: 0 < i < |xs| ==> xs[i] == xs[1..][i - 1];
      }
    }
  }

  /** A log with the given topics is read as its raw fields. */
  lemma {:induction false} ReadTopics(entry: Option<RawLog>, topic: Bytes, n: nat)
    requires 0 < n <= 4
    ensures HasTopics(entry, topic, n) <==> ReadLog(entry).Some? && |ReadLog(entry).value.topics| == n && ReadLog(entry).value.topics[0] == topic
    ensures HasTopics(entry, topic, n) ==>
              var k := ReadLog(entry).value;
              && Some(k.address) == entry.value.address && Some(k.data) == entry.value.data
              && forall i :: 0 <= i < n ==> Some(k.topics[i]) == entry.value.topics.value[i]
  {
    if entry.Some? && entry.value.topics.Some? {
      AllPresentExactly(entry.value.topics.value);
    }
    hide AllPresent;
  }

  lemma {:induction false} TransferIsShown(cfg: Config, entry: Option<RawLog>)
    ensures ShownTransfer(cfg, entry) ==
            match ReadLog(entry)
            case None => None
            case Some(k) =>
              if k.topics == [] || k.topics[0] != cfg.transferTopic || KnownTopic(cfg, k.topics[0]) then None
              else DecodeTransfer(k.address, k.topics, k.data)
  {
    ReadTopics(entry, cfg.transferTopic, 3);
    hide ReadLog, BigEndian, HasTopics;
    if HasTopics(entry, cfg.transferTopic, 3) {
      var k := ReadLog(entry).value;
      WordPrefix(k.topics[1]);
      WordPrefix(k.topics[2]);
    }
  }

  lemma {:induction false} WordPrefix(word: Bytes)
    ensures |word| >= 12 ==> (AllZero(word[..12]) <==> word[..12] == Zeros(12))
  {
  }

  ghost function NodeTransfers(env: Env, n: Node): multiset<Transfer> {
    if n.idx.None? || ChainFails(env, n.idx.value) then multiset{}
    else Total(LogItems(n), item => OptionBag(ShownTransfer(env.cfg, item)))
  }

  function AllTransfers(ts: seq<Tree>): seq<Transfer> {
    if ts == [] then [] else AllTransfers(ts[..|ts| - 1]) + Transfers(ts[|ts| - 1].events)
  }

  lemma {:induction false} TransfersAreLogTotal(events: seq<TreeEvent>)
    ensures multiset(Transfers(events)) == LogTotal(events, TransferBag)
  {
    if events != [] {
      TransfersAreLogTotal(events[..|events| - 1]);
    }
  }

  lemma {:induction false} AllTransfersTotal(ts: seq<Tree>)
    ensures multiset(AllTransfers(ts)) == Total(ts, FrameBag(TransferBag))
  {
    if ts != [] {
      AllTransfersTotal(ts[..|ts| - 1]);
      TransfersAreLogTotal(ts[|ts| - 1].events);
    }
  }

  lemma {:induction false} ShownWhenRecorded(env: Env, idx: int, p: int, reverted: bool)
    requires idx in env.nodes && 0 <= p < |LogItems(env.nodes[idx])|
    ensures PositionBag(env, idx, reverted, TransferBag, p) ==
            if reverted then multiset{} else OptionBag(ShownTransfer(env.cfg, LogItems(env.nodes[idx])[p]))
  {
    TransferIsShown(env.cfg, LogItems(env.nodes[idx])[p]);
    hide ShownTransfer, DecodeBody, ReadLog;
  }

  lemma {:induction false} NodeTransfersBag(env: Env, idx: int)
    requires NodeOk(env, idx) && env.nodes[idx].idx == Some(idx)
    ensures NodeTransfers(env, env.nodes[idx]) == NodeBag(env, idx, ChainFails(env, idx), TransferBag)
  {
    hide ChainFails, CallsOk, LogsOk, OpenHead, PositionBag, ShownTransfer;
    var items, reverted := LogItems(env.nodes[idx]), ChainFails(env, idx);
    forall p | 0 <= p < |items|
      ensures PositionBag(env, idx, reverted, TransferBag, p) ==
              if reverted then multiset{} else OptionBag(ShownTransfer(env.cfg, items[p]))
    {
      ShownWhenRecorded(env, idx, p, reverted);
    }
    if reverted {
      TotalEmpty(Range(|items|), AtPosition(env, idx, reverted, TransferBag));
    } else {
      RangeTotal(items, item => OptionBag(ShownTransfer(env.cfg, item)), AtPosition(env, idx, reverted, TransferBag));
    }
  }

  /** The transfers of a converted arena are, as a multiset, exactly those shown by the logs of nodes
      whose whole parent chain succeeded. */
  lemma {:induction false} TransfersExact(cfg: Config, phase: string, nodes: seq<Node>)
    requires Convert(cfg, phase, nodes).Ok?
    ensures multiset(AllTransfers(Preorder(Convert(cfg, phase, nodes).value))) ==
            Total(nodes, n => NodeTransfers(EnvOf(cfg, phase, nodes), n))
  {
    hide Convert, NodeOk, NodeBag, NodeTransfers, LogTotal, Total, AllTransfers, ChainFails;
    var env := EnvOf(cfg, phase, nodes);
    forall n | n in nodes && n.idx.Some? && n.idx.value in env.nodes && NodeOk(env, n.idx.value)
      ensures NodeTransfers(env, n) == NodeBag(env, n.idx.value, ChainFails(env, n.idx.value), TransferBag)
    {
      NodeIsOk(cfg, phase, nodes, n);
      NodeTransfersBag(env, n.idx.value);
    }
    ArenaTotal(cfg, phase, nodes, TransferBag, n => NodeTransfers(env, n));
    AllTransfersTotal(Preorder(Convert(cfg, phase, nodes).value));
  }

  // ---------------------------------------------------------------- every log, once

  ghost function KeyBag(e: TreeEvent): multiset<LogKey> {
    if e.Emit? then multiset{KeyOf(e.log)} else multiset{}
  }

  /** Address, topics and data of a log with a 20-byte address and up to four topics. */
  function RawKey(entry: Option<RawLog>): Option<LogKey> {
    if entry.None? || entry.value.address.None? || |entry.value.address.value| != 20 || entry.value.data.None? then None
    else if entry.value.topics.None? || |entry.value.topics.value| > 4 || None in entry.value.topics.value then None
    else
      var topics := entry.value.topics.value;
      Some(LogKey(entry.value.address.value, seq(|topics|, i requires 0 <= i < |topics| => topics[i].value), entry.value.data.value))
  }

  lemma {:induction false} RawIsRead(entry: Option<RawLog>)
    ensures ReadLog(entry) == RawKey(entry)
  {
    if entry.Some? && entry.value.topics.Some? {
      var topics := entry.value.topics.value;
      AllPresentExactly(topics);
      if AllPresent(topics).Some? {
        assert AllPresent(topics).value == seq(|topics|, i requires 0 <= i < |topics| => topics[i].value);
      }
    }
    hide AllPresent;
  }

  ghost function NodeLogKeys(n: Node): multiset<LogKey> {
    Total(LogItems(n), item => OptionBag(RawKey(item)))
  }

  ghost function KeysBelow(ts: seq<Tree>): multiset<LogKey> {
    Total(ts, FrameBag(KeyBag))
  }

  lemma {:induction false} KeysOfTree(t: Tree)
    ensures multiset(TreeLogs(t)) == KeysBelow(Preorder(t))
    decreases t
  {
    KeysOfEvents(t.events);
    var f := FrameBag(KeyBag);
    TotalAppend([t], Below(t.events), f);
    TotalSnoc([], t, f);
    assert [t] == [] + [t];
  }

  lemma {:induction false} KeysOfEvents(events: seq<TreeEvent>)
    ensures multiset(ExecutionLogs(events)) == LogTotal(events, KeyBag) + KeysBelow(Below(events))
    decreases events
  {
    if events != [] {
      KeysOfEvents(events[..|events| - 1]);
      KeysOfEvent(events[|events| - 1]);
      TotalAppend(Below(events[..|events| - 1]), BelowEvent(events[|events| - 1]), FrameBag(KeyBag));
    }
  }

  lemma {:induction false} KeysOfEvent(e: TreeEvent)
    ensures multiset(EventLogs(e)) == KeyBag(e) + KeysBelow(BelowEvent(e))
    decreases e
  {
    if e.Sub? {
      KeysOfTree(e.tree);
    }
  }

  lemma {:induction false} NodeKeysBag(env: Env, idx: int)
    requires NodeOk(env, idx)
    ensures NodeLogKeys(env.nodes[idx]) == NodeBag(env, idx, ChainFails(env, idx), KeyBag)
  {
    hide ChainFails, CallsOk, LogsOk, OpenHead, PositionBag, RawKey;
    var items, reverted := LogItems(env.nodes[idx]), ChainFails(env, idx);
    forall p | 0 <= p < |items|
      ensures PositionBag(env, idx, reverted, KeyBag, p) == OptionBag(RawKey(items[p]))
    {
      KeyWhenRecorded(env, idx, p, reverted);
    }
    RangeTotal(items, item => OptionBag(RawKey(item)), AtPosition(env, idx, reverted, KeyBag));
  }

  lemma {:induction false} KeyWhenRecorded(env: Env, idx: int, p: int, reverted: bool)
    requires NodeOk(env, idx) && 0 <= p < |LogItems(env.nodes[idx])|
    ensures PositionBag(env, idx, reverted, KeyBag, p) == OptionBag(RawKey(LogItems(env.nodes[idx])[p]))
  {
    RawIsRead(LogItems(env.nodes[idx])[p]);
    hide CallsOk, OpenHead, RawKey;
    PositionConverts(env, idx, p);
    LogAcceptanceIgnoresRevert(env.cfg, LogItems(env.nodes[idx])[p], false, reverted);
  }

  lemma {:induction false} PositionConverts(env: Env, idx: int, p: int)
    requires NodeOk(env, idx) && 0 <= p < |LogItems(env.nodes[idx])|
    ensures ConvertLog(env.cfg, LogItems(env.nodes[idx])[p], false).Ok?
  {
    hide CallsOk, NoUnknown, OpenHead, ConvertLog;
    OrderingCoversLogs(env, idx);
    var refs := LogRefs(OrderingOf(env, idx));
    assert Range(|LogItems(env.nodes[idx])|)[p] == p;
    assert p in multiset(Positions(refs));
    var k :| 0 <= k < |refs| && Positions(refs)[k] == p;
    assert RecordAt(env, idx, refs[k], false).Ok?;
  }

  /** The derived logs of a converted arena are, as a multiset, all logs of all its nodes. */
  lemma {:induction false} LogsExact(cfg: Config, phase: string, nodes: seq<Node>)
    requires Convert(cfg, phase, nodes).Ok?
    ensures multiset(TreeLogs(Convert(cfg, phase, nodes).value)) == Total(nodes, NodeLogKeys)
  {
    hide Convert, NodeOk, NodeBag, NodeLogKeys, LogTotal, Total, ChainFails;
    var env := EnvOf(cfg, phase, nodes);
    forall n | n in nodes && n.idx.Some? && n.idx.value in env.nodes && NodeOk(env, n.idx.value)
      ensures NodeLogKeys(n) == NodeBag(env, n.idx.value, ChainFails(env, n.idx.value), KeyBag)
    {
      NodeIsOk(cfg, phase, nodes, n);
      NodeKeysBag(env, n.idx.value);
    }
    ArenaTotal(cfg, phase, nodes, KeyBag, NodeLogKeys);
    KeysOfTree(Convert(cfg, phase, nodes).value);
  }

  /** Every log record of a frame carries the frame's flag. */
  lemma {:induction false} RecordsCarryFlag(env: Env, idx: int, reverted: bool, ord: seq<Entry>, events: seq<TreeEvent>)
    requires idx in env.nodes && EventsMirror(env, idx, reverted, ord, events)
    ensures forall log :: log in Logs(events) ==> log.reverted == reverted
    decreases |ord|
  {
    hide Mirrors, ChildAt;
    if ord != [] {
      var step, before := Classify(ord[|ord| - 1]), ord[..|ord| - 1];
      if step.Skip? || step.Unknown? {
        RecordsCarryFlag(env, idx, reverted, before, events);
      } else {
        RecordsCarryFlag(env, idx, reverted, before, events[..|events| - 1]);
        assert EventMirrors(env, idx, reverted, step, events[|events| - 1]);
      }
    }
  }

  /** A log of a converted arena is marked reverted exactly when its node or an ancestor failed. */
  lemma {:induction false} RevertedExact(cfg: Config, phase: string, nodes: seq<Node>, s: Tree, log: LogRecord)
    requires Convert(cfg, phase, nodes).Ok?
    requires s in Preorder(Convert(cfg, phase, nodes).value) && log in Logs(s.events)
    ensures log.reverted <==> ChainFails(EnvOf(cfg, phase, nodes), s.idx)
  {
    hide Convert, EachOnce, ChainFails, CallsOk, LogsOk, OpenHead;
    ConvertMirrors(cfg, phase, nodes);
    var env, t := EnvOf(cfg, phase, nodes), Convert(cfg, phase, nodes).value;
    RevertedMeans(env, t, s);
    var _ := MirrorsInside(env, t, false, s);
    RecordsCarryFlag(env, s.idx, s.reverted, OrderingOf(env, s.idx), s.events);
  }

  // ---------------------------------------------------------------- assertion events

  ghost function CheckedBag(e: TreeEvent): multiset<EventBody> {
    if e.Emit? && !e.log.reverted && e.log.body.AssertionChecked? then multiset{e.log.body} else multiset{}
  }

  /** The AssertionChecked event that an arena log holds: the id in its second topic, and kind, target,
      the two numbers and the verdict in its data. */
  function ShownAssertion(cfg: Config, entry: Option<RawLog>): Option<EventBody> {
    if !HasTopics(entry, cfg.assertionTopic, 2) || |entry.value.topics.value[1].value| != 32 then None
    else
      match Decode([String, String, Int(256), Int(256), Bool], entry.value.data.value)
      case Reject => None
      case Ok(a) =>
        Some(AssertionChecked(Label(entry.value.topics.value[1].value), cfg.utf8(a[0].text), cfg.utf8(a[1].text), a[2].n, a[3].n, a[4].on))
  }

  lemma {:induction false} AssertionIsShown(cfg: Config, entry: Option<RawLog>)
    ensures ShownAssertion(cfg, entry) ==
            match ReadLog(entry)
            case None => None
            case Some(k) =>
              match DecodeBody(cfg, k.topics, k.data)
              case Reject => None
              case Ok(body) => if body.AssertionChecked? then Some(body) else None
  {
    ReadTopics(entry, cfg.assertionTopic, 2);
    hide ReadLog, Decode, Label, HasTopics;
  }

  ghost function NodeAssertions(env: Env, n: Node): multiset<EventBody> {
    if n.idx.None? || ChainFails(env, n.idx.value) then multiset{}
    else Total(LogItems(n), item => OptionBag(ShownAssertion(env.cfg, item)))
  }

  lemma {:induction false} CheckedWhenRecorded(env: Env, idx: int, p: int, reverted: bool)
    requires idx in env.nodes && 0 <= p < |LogItems(env.nodes[idx])|
    ensures PositionBag(env, idx, reverted, CheckedBag, p) ==
            if reverted then multiset{} else OptionBag(ShownAssertion(env.cfg, LogItems(env.nodes[idx])[p]))
  {
    AssertionIsShown(env.cfg, LogItems(env.nodes[idx])[p]);
    hide DecodeBody, ReadLog, DecodeTransfer, KnownTopic, ShownAssertion;
  }

  lemma {:induction false} NodeAssertionsBag(env: Env, idx: int)
    requires NodeOk(env, idx) && env.nodes[idx].idx == Some(idx)
    ensures NodeAssertions(env, env.nodes[idx]) == NodeBag(env, idx, ChainFails(env, idx), CheckedBag)
  {
    hide ChainFails, CallsOk, LogsOk, OpenHead, PositionBag, ShownAssertion;
    var items, reverted := LogItems(env.nodes[idx]), ChainFails(env, idx);
    forall p | 0 <= p < |items|
      ensures PositionBag(env, idx, reverted, CheckedBag, p) ==
              if reverted then multiset{} else OptionBag(ShownAssertion(env.cfg, items[p]))
    {
      CheckedWhenRecorded(env, idx, p, reverted);
    }
    if reverted {
      TotalEmpty(Range(|items|), AtPosition(env, idx, reverted, CheckedBag));
    } else {
      RangeTotal(items, item => OptionBag(ShownAssertion(env.cfg, item)), AtPosition(env, idx, reverted, CheckedBag));
    }
  }

  /** The assertion events of a converted arena are exactly the AssertionChecked logs of nodes whose
      whole parent chain succeeded. */
  lemma {:induction false} AssertionsExact(cfg: Config, phase: string, nodes: seq<Node>)
    requires Convert(cfg, phase, nodes).Ok?
    ensures Total(Preorder(Convert(cfg, phase, nodes).value), FrameBag(CheckedBag)) ==
            Total(nodes, n => NodeAssertions(EnvOf(cfg, phase, nodes), n))
  {
    hide Convert, NodeOk, NodeBag, NodeAssertions, LogTotal, Total, ChainFails;
    var env := EnvOf(cfg, phase, nodes);
    forall n | n in nodes && n.idx.Some? && n.idx.value in env.nodes && NodeOk(env, n.idx.value)
      ensures NodeAssertions(env, n) == NodeBag(env, n.idx.value, ChainFails(env, n.idx.value), CheckedBag)
    {
      NodeIsOk(cfg, phase, nodes, n);
      NodeAssertionsBag(env, n.idx.value);
    }
    ArenaTotal(cfg, phase, nodes, CheckedBag, n => NodeAssertions(env, n));
  }
}
