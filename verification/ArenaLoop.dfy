/**
 The stack loop of `_convert_arena` over mutable frames. A child frame is attached to its parent
 when it is opened and filled in afterwards through the stack, so the proof follows the aliasing:
 frames are heap objects, finished ones represent finished trees, and the frames on the stack
 represent their cursors apart from the child that is still open.
 */
module ArenaLoop {
  import opened Prelude
  import opened Arena
  import opened ArenaWalk

  class Frame {
    const head: FrameHead
    var logs: seq<LogRecord>
    var transfers: seq<Transfer>
    var children: seq<Frame>

    constructor (head: FrameHead)
      ensures this.head == head && logs == [] && transfers == [] && children == []
    {
      this.head := head;
      logs, transfers, children := [], [], [];
    }
  }

  /** The `derived_logs` list that all arenas of a test append to. */
  class LogList {
    var entries: seq<LogKey>

    constructor ()
      ensures entries == []
    {
      entries := [];
    }

    method Append(key: LogKey)
      modifies this
      ensures entries == old(entries) + [key]
    {
      entries := entries + [key];
    }
  }

  // ---------------------------------------------------------------- frames represent trees

  /** `f`, whose descendants all lie in `done`, holds exactly the contents of `t`. */
  ghost predicate Represents(f: Frame, t: Tree, done: set<Frame>)
    reads done
    decreases t
  {
    && f in done
    && f.head == t.head
    && f.logs == Logs(t.events)
    && f.transfers == Transfers(t.events)
    && ChildrenRepresent(f.children, t.events, done)
  }

  ghost predicate ChildrenRepresent(fs: seq<Frame>, events: seq<TreeEvent>, done: set<Frame>)
    reads done
    decreases events
  {
    if events == [] then fs == []
    else
      var e := events[|events| - 1];
      var init := events[..|events| - 1];
      if e.Emit? then ChildrenRepresent(fs, init, done)
      else
        && fs != []
        && ChildrenRepresent(fs[..|fs| - 1], init, done)
        && EventRepresents(fs[|fs| - 1], e, done)
  }

  ghost predicate EventRepresents(f: Frame, e: TreeEvent, done: set<Frame>)
    reads done
    decreases e
  {
    e.Sub? && Represents(f, e.tree, done)
  }

  lemma {:induction false} RepresentsGrows(f: Frame, t: Tree, done: set<Frame>, more: set<Frame>)
    requires done <= more && Represents(f, t, done)
    ensures Represents(f, t, more)
    decreases t
  {
    ChildrenRepresentGrows(f.children, t.events, done, more);
  }

  lemma {:induction false} EventRepresentsGrows(f: Frame, e: TreeEvent, done: set<Frame>, more: set<Frame>)
    requires done <= more && EventRepresents(f, e, done)
    ensures EventRepresents(f, e, more)
    decreases e
  {
    RepresentsGrows(f, e.tree, done, more);
  }

  lemma {:induction false} ChildrenRepresentGrows(fs: seq<Frame>, events: seq<TreeEvent>, done: set<Frame>, more: set<Frame>)
    requires done <= more && ChildrenRepresent(fs, events, done)
    ensures ChildrenRepresent(fs, events, more)
    decreases events
  {
    if events != [] {
      var e := events[|events| - 1];
      if e.Emit? {
        ChildrenRepresentGrows(fs, events[..|events| - 1], done, more);
      } else {
        ChildrenRepresentGrows(fs[..|fs| - 1], events[..|events| - 1], done, more);
        EventRepresentsGrows(fs[|fs| - 1], e, done, more);
      }
    }
  }

  lemma {:induction false} ChildrenRepresentSnoc(fs: seq<Frame>, events: seq<TreeEvent>, f: Frame, t: Tree, done: set<Frame>)
    requires ChildrenRepresent(fs, events, done) && Represents(f, t, done)
    ensures ChildrenRepresent(fs + [f], events + [Sub(t)], done)
  {
    assert (events + [Sub(t)])[..|events + [Sub(t)]| - 1] == events;
    assert (fs + [f])[..|fs + [f]| - 1] == fs;
    assert EventRepresents(f, Sub(t), done);
  }

  lemma {:induction false} ChildrenRepresentEmit(fs: seq<Frame>, events: seq<TreeEvent>, e: TreeEvent, done: set<Frame>)
    requires ChildrenRepresent(fs, events, done) && e.Emit?
    ensures ChildrenRepresent(fs, events + [e], done)
  {
    assert (events + [e])[..|events + [e]| - 1] == events;
  }

  // ---------------------------------------------------------------- the stack and what it stands for

  /** A stack entry: the node, its frame, its revert flag, how far its ordering has been read,
      and the call and log positions consumed so far. */
  datatype Activation = Activation(frame: Frame, idx: int, reverted: bool, at: nat, calls: set<int>, logs: set<int>)

  datatype Stack<T> = Bottom | On(below: Stack<T>, top: T)

  function Frames(stack: Stack<Activation>): set<Frame> {
    match stack
    case Bottom => {}
    case On(below, a) => Frames(below) + {a.frame}
  }

  /** Everything but the children: progress, frame fields, logs and transfers. */
  ghost predicate Carries(a: Activation, c: Cursor)
    reads a.frame
  {
    && a.idx == c.idx && a.reverted == c.reverted && a.at == c.at && a.calls == c.calls && a.logs == c.logs
    && a.frame.head == c.head
    && a.frame.logs == Logs(c.events)
    && a.frame.transfers == Transfers(c.events)
  }

  /** The frame of `a` holds exactly what `c` has gathered. */
  ghost predicate Holds(a: Activation, c: Cursor, done: set<Frame>)
    reads a.frame, done
  {
    Carries(a, c) && ChildrenRepresent(a.frame.children, c.events, done)
  }

  /** The frame of `a` holds what `c` has gathered, followed by the child still open. */
  ghost predicate HoldsBut(a: Activation, c: Cursor, child: Frame, done: set<Frame>)
    reads a.frame, done
  {
    && Carries(a, c)
    && a.frame.children != []
    && Last(a.frame.children) == child
    && ChildrenRepresent(a.frame.children[..|a.frame.children| - 1], c.events, done)
  }

  /** Activations that wait for `child`, innermost first. */
  ghost predicate Suspended(stack: Stack<Activation>, cursors: Stack<Cursor>, child: Frame, done: set<Frame>)
    reads Frames(stack), done
    decreases stack
  {
    match (stack, cursors)
    case (Bottom, Bottom) => true
    case (On(below, a), On(waiting, c)) =>
      a.frame !in Frames(below) && a.frame !in done && HoldsBut(a, c, child, done) && Suspended(below, waiting, a.frame, done)
    case _ => false
  }

  lemma {:induction false} SuspendedGrows(stack: Stack<Activation>, cursors: Stack<Cursor>, child: Frame, done: set<Frame>, more: set<Frame>)
    requires Suspended(stack, cursors, child, done) && done <= more && Frames(stack) !! more
    ensures Suspended(stack, cursors, child, more)
    decreases stack
  {
    match (stack, cursors)
    case (On(below, a), On(waiting, c)) =>
      ChildrenRepresentGrows(a.frame.children[..|a.frame.children| - 1], c.events, done, more);
      SuspendedGrows(below, waiting, a.frame, done, more);
    case _ =>
  }

  ghost function PendingLogs(cursors: Stack<Cursor>): seq<LogKey> {
    match cursors
    case Bottom => []
    case On(waiting, c) => PendingLogs(waiting) + ExecutionLogs(c.events)
  }

  lemma {:induction false} PendingLogsEmit(waiting: Stack<Cursor>, c: Cursor, pos: int, e: TreeEvent)
    requires e.Emit?
    ensures PendingLogs(On(waiting, AfterLog(c, pos, e))) == PendingLogs(On(waiting, c)) + [KeyOf(e.log)]
  {
    EventsSnoc(c.events, e);
  }

  lemma {:induction false} PendingLogsClose(waiting: Stack<Cursor>, p: Cursor, c: Cursor)
    ensures PendingLogs(On(waiting, WithChild(p, Close(c)))) == PendingLogs(On(On(waiting, p), c))
  {
    EventsSnoc(p.events, Sub(Close(c)));
  }

  /** A finished frame becomes the last child of the activation that waited for it. */
  lemma {:induction false} ResumeParent(a: Activation, p: Cursor, child: Frame, c: Cursor, done: set<Frame>)
    requires HoldsBut(a, p, child, done) && Represents(child, Close(c), done)
    ensures Holds(a, WithChild(p, Close(c)), done)
  {
    var kids := a.frame.children;
    ChildrenRepresentSnoc(kids[..|kids| - 1], p.events, child, Close(c), done);
    assert kids == kids[..|kids| - 1] + [child];
    EventsSnoc(p.events, Sub(Close(c)));
  }

  lemma {:induction false} RecordHeld(c: Cursor, pos: int, e: TreeEvent)
    requires e.Emit?
    ensures Logs(AfterLog(c, pos, e).events) == Logs(c.events) + [e.log]
    ensures Transfers(AfterLog(c, pos, e).events) == Transfers(c.events) + if e.transfer.Some? then [e.transfer.value] else []
  {
    EventsSnoc(c.events, e);
  }

  /** Closing the innermost cursor hands its tree to the one below. */
  ghost function Return(cursors: Stack<Cursor>): Stack<Cursor>
    requires cursors.On?
  {
    match cursors.below
    case Bottom => Bottom
    case On(waiting, p) => On(waiting, WithChild(p, Close(cursors.top)))
  }

  function Outermost(stack: Stack<Activation>, child: Frame): Frame {
    match stack
    case Bottom => child
    case On(below, a) => Outermost(below, a.frame)
  }

  // ---------------------------------------------------------------- the traversal object

  class Traversal {
    const root: Frame
    var stack: Stack<Activation>
    ghost var cursors: Stack<Cursor>
    ghost var done: set<Frame>
    ghost var repr: set<Frame>
    ghost var finished: Tree

    /** The innermost activation matches its cursor and those below it wait for its frame. */
    ghost predicate Matches()
      reads this, repr
    {
      && repr == Frames(stack) + done
      && stack.On? && cursors.On?
      && var a := stack.top;
      && a.frame !in Frames(stack.below) && a.frame !in done
      && Frames(stack.below) !! done
      && Holds(a, cursors.top, done)
      && Suspended(stack.below, cursors.below, a.frame, done)
      && Outermost(stack.below, a.frame) == root
    }

    /** The whole tree has been built, or some of it is still on the stack. */
    ghost predicate Valid()
      reads this, repr
    {
      if stack.Bottom? then repr == done && cursors.Bottom? && Represents(root, finished, done) else Matches()
    }

    constructor (root: Frame, ghost c: Cursor, idx: int, reverted: bool)
      requires c == Cursor(idx, root.head, reverted, 0, {}, {}, [])
      requires root.logs == [] && root.transfers == [] && root.children == []
      ensures Matches() && cursors == On(Bottom, c) && this.root == root
      ensures repr == {root}
    {
      this.root := root;
      stack := On(Bottom, Activation(root, idx, reverted, 0, {}, {}));
      cursors := On(Bottom, c);
      done, repr := {}, {root};
    }

    /** A "Step" entry: nothing to do. */
    method Advance()
      requires Matches()
      modifies this
      ensures Matches() && repr == old(repr)
      ensures cursors == On(old(cursors.below), old(cursors.top).(at := old(cursors.top).at + 1))
    {
      hide ChildrenRepresent, Logs, Transfers;
      stack := On(stack.below, stack.top.(at := stack.top.at + 1));
      cursors := On(cursors.below, cursors.top.(at := cursors.top.at + 1));
    }

    /** A "Log" entry: the record, and the transfer it shows if any, go to the frame. */
    method EmitLog(pos: int, log: LogRecord, transfer: Option<Transfer>)
      requires Matches()
      modifies this, repr
      ensures Matches() && repr == old(repr)
      ensures cursors == On(old(cursors.below), AfterLog(old(cursors.top), pos, Emit(log, transfer)))
    {
      hide ChildrenRepresent, Logs, Transfers;
      var a := stack.top;
      ghost var c, e := cursors.top, Emit(log, transfer);
      ghost var below, waiting := stack.below, cursors.below;
      ChildrenRepresentEmit(a.frame.children, c.events, e, done);
      RecordHeld(c, pos, e);
      a.frame.logs := a.frame.logs + [log];
      a.frame.transfers := a.frame.transfers + if transfer.Some? then [transfer.value] else [];
      assert Suspended(below, waiting, a.frame, done);
      stack := On(stack.below, a.(at := a.at + 1, logs := a.logs + {pos}));
      cursors := On(waiting, AfterLog(c, pos, e));
    }

    /** A "Call" entry: the child's frame is attached at once and filled in later. */
    method EnterChild(pos: int, child: Frame, idx: int, reverted: bool, ghost k: Cursor)
      requires Matches() && child !in repr
      requires k == Cursor(idx, child.head, reverted, 0, {}, {}, [])
      requires child.logs == [] && child.transfers == [] && child.children == []
      modifies this, repr
      ensures Matches() && repr == old(repr) + {child}
      ensures cursors == On(On(old(cursors.below), AfterCall(old(cursors.top), pos)), k)
    {
      var a := stack.top;
      ghost var c := cursors.top;
      a.frame.children := a.frame.children + [child];
      assert a.frame.children[..|a.frame.children| - 1] == old(a.frame.children);
      stack := On(On(stack.below, a.(at := a.at + 1, calls := a.calls + {pos})), Activation(child, idx, reverted, 0, {}, {}));
      cursors := On(On(cursors.below, AfterCall(c, pos)), k);
      repr := repr + {child};
    }

    /** The ordering is exhausted: the frame is complete and its parent resumes. */
    method CloseTop()
      requires Matches()
      modifies this
      ensures Valid() && repr == old(repr)
      ensures cursors == Return(old(cursors)) && (cursors.Bottom? ==> finished == Close(old(cursors.top)))
    {
      hide ChildrenRepresent, Logs, Transfers;
      var f := stack.top.frame;
      ghost var c := cursors.top;
      ghost var more := done + {f};
      ChildrenRepresentGrows(f.children, c.events, done, more);
      SuspendedGrows(stack.below, cursors.below, f, done, more);
      done := more;
      stack := stack.below;
      finished := Close(c);
      assert Represents(f, finished, done);
      if cursors.below.On? {
        ResumeParent(stack.top, cursors.below.top, f, c, done);
      }
      cursors := Return(cursors);
    }
  }
}
