/**
 The recursive meaning of converting an arena: opening a node, following its `ordering`, and
 recursing into each called child. The stack loop of `_convert_arena` is proved against it.
 */
module ArenaWalk {
  import opened Prelude
  import opened Arena

  datatype Step = Skip | CallAt(pos: Ref) | LogAt(pos: Ref) | Unknown

  /** The program tests for "Step" first, then "Call", then "Log". */
  function Classify(e: Entry): Step {
    if e.isStep then Skip
    else if e.call.Some? then CallAt(e.call.value)
    else if e.log.Some? then LogAt(e.log.value)
    else Unknown
  }

  /** An indexed arena: every node under the index it declares. */
  datatype Env = Env(cfg: Config, phase: string, nodes: map<int, Node>)

  ghost predicate ValidEnv(env: Env) {
    forall i :: i in env.nodes ==> env.nodes[i].idx == Some(i)
  }

  /** A converted frame with, in execution order, the logs it emitted and the calls it made.
      `reverted` is the flag its logs carry. */
  datatype Tree = Tree(idx: int, head: FrameHead, reverted: bool, events: seq<TreeEvent>)
  datatype TreeEvent = Emit(log: LogRecord, transfer: Option<Transfer>) | Sub(tree: Tree)

  /** A node whose ordering has been followed up to position `at`. */
  datatype Cursor = Cursor(idx: int, head: FrameHead, reverted: bool, at: nat,
                           calls: set<int>, logs: set<int>, events: seq<TreeEvent>)

  datatype Walk = Walk(tree: Tree, visited: set<int>)

  function OrderingOf(env: Env, idx: int): seq<Entry> {
    if idx in env.nodes && env.nodes[idx].ordering.Some? then env.nodes[idx].ordering.value else []
  }

  function Count<T>(f: Field<T>): Option<nat> {
    match f
    case Items(items) => Some(|items|)
    case Falsy => Some(0)
    case Malformed => None
  }

  function Open(env: Env, idx: int, parentReverted: bool): (r: Result<Cursor>)
    requires idx in env.nodes
    ensures r.Ok? ==> OpenHead(env.cfg, env.phase, env.nodes[idx]) == Ok(r.value.head)
    ensures r.Ok? ==> r.value == Cursor(idx, r.value.head, parentReverted || !r.value.head.success, 0, {}, {}, [])
  {
    match OpenHead(env.cfg, env.phase, env.nodes[idx])
    case Reject => Reject
    case Ok(head) =>
      if env.nodes[idx].ordering.None? then Reject
      else Ok(Cursor(idx, head, parentReverted || !head.success, 0, {}, {}, []))
  }

  /** The child that position `pos` of a node's children names, if it points back to the node. */
  function ChildAt(env: Env, idx: int, pos: Ref): (r: Result<int>)
    requires idx in env.nodes
    ensures r.Ok? ==> r.value in env.nodes
    ensures r.Ok? ==> pos.Index? && pos.i >= 0
  {
    var node := env.nodes[idx];
    if !node.children.Items? || !pos.Index? || !(0 <= pos.i < |node.children.items|) then Reject
    else
      var child := node.children.items[pos.i];
      if !child.Index? || child.i !in env.nodes || env.nodes[child.i].parent != Index(idx) then Reject
      else Ok(child.i)
  }

  function RecordAt(env: Env, idx: int, pos: Ref, reverted: bool): (r: Result<TreeEvent>)
    requires idx in env.nodes
    ensures r.Ok? ==> r.value.Emit?
    ensures r.Ok? ==> pos.Index? && pos.i >= 0
  {
    var node := env.nodes[idx];
    if !node.logs.Items? || !pos.Index? || !(0 <= pos.i < |node.logs.items|) then Reject
    else
      match ConvertLog(env.cfg, node.logs.items[pos.i], reverted)
      case Reject => Reject
      case Ok((record, transfer)) => Ok(Emit(record, transfer))
  }

  predicate Consumed(node: Node, calls: set<int>, logs: set<int>) {
    Count(node.children) == Some(|calls|) && Count(node.logs) == Some(|logs|)
  }

  function Close(c: Cursor): Tree {
    Tree(c.idx, c.head, c.reverted, c.events)
  }

  function AfterCall(c: Cursor, pos: int): Cursor {
    c.(at := c.at + 1, calls := c.calls + {pos})
  }

  function AfterLog(c: Cursor, pos: int, e: TreeEvent): Cursor {
    c.(at := c.at + 1, logs := c.logs + {pos}, events := c.events + [e])
  }

  function WithChild(c: Cursor, t: Tree): Cursor {
    c.(events := c.events + [Sub(t)])
  }

  /** Opening the child at an unused call position that leads to an unvisited node. */
  function Enter(env: Env, c: Cursor, visited: set<int>, pos: Ref): (r: Result<Cursor>)
    requires c.idx in env.nodes
    ensures r.Ok? ==> pos.Index? && pos.i !in c.calls && ChildAt(env, c.idx, pos) == Ok(r.value.idx)
    ensures r.Ok? ==> r.value.idx !in visited && r.value.at == 0
    ensures r.Ok? ==> Open(env, r.value.idx, c.reverted) == r
  {
    match ChildAt(env, c.idx, pos)
    case Reject => Reject
    case Ok(child) =>
      if pos.i in c.calls || child in visited then Reject else Open(env, child, c.reverted)
  }

  /** Follows the rest of a node's ordering. Each call consumes an unvisited node and each other
      entry shortens the ordering, so this ends on every finite arena. */
  function Run(env: Env, c: Cursor, visited: set<int>): (r: Result<Walk>)
    requires c.idx in env.nodes && c.at <= |OrderingOf(env, c.idx)|
    ensures r.Ok? ==> visited <= r.value.visited
    decreases env.nodes.Keys - visited, |OrderingOf(env, c.idx)| - c.at
  {
    var ord := OrderingOf(env, c.idx);
    if c.at == |ord| then
      if Consumed(env.nodes[c.idx], c.calls, c.logs) then Ok(Walk(Close(c), visited)) else Reject
    else
      match Classify(ord[c.at])
      case Skip => Run(env, c.(at := c.at + 1), visited)
      case Unknown => Reject
      case LogAt(pos) =>
        (match RecordAt(env, c.idx, pos, c.reverted)
         case Reject => Reject
         case Ok(e) => if pos.i in c.logs then Reject else Run(env, AfterLog(c, pos.i, e), visited))
      case CallAt(pos) =>
        (match Enter(env, c, visited, pos)
         case Reject => Reject
         case Ok(child) =>
           match Run(env, child, visited + {child.idx})
           case Reject => Reject
           case Ok(w) => Run(env, WithChild(AfterCall(c, pos.i), w.tree), w.visited))
  }

  // ---------------------------------------------------------------- whole arenas

  predicate DistinctIndices(nodes: seq<Node>) {
    && (forall i :: 0 <= i < |nodes| ==> nodes[i].idx.Some?)
    && (forall i, j :: 0 <= i < j < |nodes| ==> nodes[i].idx != nodes[j].idx)
  }

  function ByIndex(nodes: seq<Node>): map<int, Node> {
    if nodes == [] then map[]
    else
      var m := ByIndex(nodes[..|nodes| - 1]);
      match Last(nodes).idx
      case None => m
      case Some(i) => m[i := Last(nodes)]
  }

  function Roots(nodes: seq<Node>): seq<Node> {
    if nodes == [] then []
    else Roots(nodes[..|nodes| - 1]) + if Last(nodes).parent.Absent? then [Last(nodes)] else []
  }

  function EnvOf(cfg: Config, phase: string, nodes: seq<Node>): Env {
    Env(cfg, phase, ByIndex(nodes))
  }

  lemma {:induction false} ByIndexFacts(nodes: seq<Node>)
    requires DistinctIndices(nodes)
    ensures |ByIndex(nodes)| == |nodes|
    ensures forall i :: i in ByIndex(nodes) ==> ByIndex(nodes)[i].idx == Some(i) && ByIndex(nodes)[i] in nodes
    ensures forall n :: n in nodes ==> n.idx.Some? && n.idx.value in ByIndex(nodes) && ByIndex(nodes)[n.idx.value] == n
  {
    if nodes != [] {
      var init := nodes[..|nodes| - 1];
      ByIndexFacts(init);
      var i := Last(nodes).idx.value;
      assert i !in ByIndex(init);
      assert nodes == init + [Last(nodes)];
    }
  }

  lemma {:induction false} RootsFacts(nodes: seq<Node>)
    ensures forall n :: n in Roots(nodes) <==> n in nodes && n.parent.Absent?
  {
    if nodes != [] {
      RootsFacts(nodes[..|nodes| - 1]);
      assert nodes == nodes[..|nodes| - 1] + [Last(nodes)];
    }
  }

  /** `_convert_arena` as a function of its input. */
  function Convert(cfg: Config, phase: string, nodes: seq<Node>): Result<Tree> {
    if !DistinctIndices(nodes) || |Roots(nodes)| != 1 then Reject
    else
      ByIndexFacts(nodes);
      RootsFacts(nodes);
      assert Roots(nodes)[0] in Roots(nodes);
      var env := EnvOf(cfg, phase, nodes);
      var root := Roots(nodes)[0].idx.value;
      match Open(env, root, false)
      case Reject => Reject
      case Ok(c) =>
        match Run(env, c, {root})
        case Reject => Reject
        case Ok(w) => if |w.visited| == |nodes| then Ok(w.tree) else Reject
  }

  // ---------------------------------------------------------------- reading a tree

  function Logs(events: seq<TreeEvent>): seq<LogRecord> {
    if events == [] then []
    else
      Logs(events[..|events| - 1]) +
      match events[|events| - 1] case Emit(log, _) => [log] case Sub(_) => []
  }

  function Transfers(events: seq<TreeEvent>): seq<Transfer> {
    if events == [] then []
    else
      Transfers(events[..|events| - 1]) +
      match events[|events| - 1] case Emit(_, Some(t)) => [t] case _ => []
  }

  function Subs(events: seq<TreeEvent>): (ts: seq<Tree>)
    ensures forall j :: 0 <= j < |ts| ==> Sub(ts[j]) in events
  {
    if events == [] then []
    else
      Subs(events[..|events| - 1]) +
      match events[|events| - 1] case Sub(t) => [t] case Emit(_, _) => []
  }

  /** The logs of a tree in execution order, as Forge reports them. */
  function TreeLogs(t: Tree): seq<LogKey>
    decreases t
  {
    ExecutionLogs(t.events)
  }

  function ExecutionLogs(events: seq<TreeEvent>): seq<LogKey>
    decreases events
  {
    if events == [] then []
    else
      ExecutionLogs(events[..|events| - 1]) + EventLogs(events[|events| - 1])
  }

  function EventLogs(e: TreeEvent): seq<LogKey>
    decreases e
  {
    match e case Emit(log, _) => [KeyOf(log)] case Sub(t) => TreeLogs(t)
  }

  /** Every frame of a tree, each before the frames it calls. */
  function Preorder(t: Tree): seq<Tree>
    decreases t
  {
    [t] + Below(t.events)
  }

  function Below(events: seq<TreeEvent>): seq<Tree>
    decreases events
  {
    if events == [] then []
    else
      Below(events[..|events| - 1]) + BelowEvent(events[|events| - 1])
  }

  function BelowEvent(e: TreeEvent): seq<Tree>
    decreases e
  {
    match e case Emit(_, _) => [] case Sub(t) => Preorder(t)
  }

  function Indices(ts: seq<Tree>): (r: seq<int>)
    ensures |r| == |ts|
    ensures forall i :: 0 <= i < |ts| ==> r[i] == ts[i].idx
  {
    seq(|ts|, i requires 0 <= i < |ts| => ts[i].idx)
  }

  lemma {:induction false} EventsSnoc(events: seq<TreeEvent>, e: TreeEvent)
    ensures Logs(events + [e]) == Logs(events) + match e case Emit(log, _) => [log] case Sub(_) => []
    ensures Transfers(events + [e]) == Transfers(events) + match e case Emit(_, Some(t)) => [t] case _ => []
    ensures Subs(events + [e]) == Subs(events) + match e case Sub(t) => [t] case Emit(_, _) => []
    ensures ExecutionLogs(events + [e]) == ExecutionLogs(events) + EventLogs(e)
    ensures Below(events + [e]) == Below(events) + BelowEvent(e)
  {
    assert (events + [e])[..|events + [e]| - 1] == events;
    assert Last(events + [e]) == e;
  }
}
