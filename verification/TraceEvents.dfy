/**
 chain/trace.py, assertion events by position: which logs of which frames become events, in which
 order, and what each event takes from its frame and from the context announced there.
 */
module TraceEvents {
  import opened Prelude
  import opened Arena
  import opened Trace

  /** Log `k` of the frame becomes an assertion event. */
  predicate Counts(frame: TraceFrame, k: int) {
    frame.success && 0 <= k < |frame.logs| && !frame.logs[k].reverted && frame.logs[k].body.AssertionChecked?
  }

  /** Log `j` is the last context that the frame announces for the id, before or after the assertion. */
  predicate LastContext(logs: seq<LogRecord>, j: int, id: string) {
    && 0 <= j < |logs| && logs[j].body.AssertionContext? && logs[j].body.id == id
    && forall i :: j < i < |logs| && logs[i].body.AssertionContext? ==> logs[i].body.id != id
  }

  /** The event is that of log `k` of the frame: its six arguments from the log, depth, caller and
      emitter from the frame, actor and token from the frame's last context for the id, if any. */
  ghost predicate EventOfLog(frame: TraceFrame, k: int, e: AssertionEvent) {
    && Counts(frame, k)
    && frame.logs[k].body == AssertionChecked(e.id, e.kind, e.target, e.observed, e.expected, e.ok)
    && e.depth == frame.depth && e.caller == frame.caller && e.emitter == frame.to
    && (forall j :: LastContext(frame.logs, j, e.id) ==> e.actor == Some(frame.logs[j].body.actor) && e.token == Some(frame.logs[j].body.token))
    && ((forall j :: !LastContext(frame.logs, j, e.id)) ==> e.actor == None && e.token == None)
  }

  lemma {:induction false} ContextIsLast(logs: seq<LogRecord>, id: string)
    ensures forall j :: LastContext(logs, j, id) ==> ContextFor(logs, id) == Some(logs[j].body)
    ensures ContextFor(logs, id).Some? ==> exists j :: LastContext(logs, j, id)
  {
    if logs != [] {
      var init, last := logs[..|logs| - 1], |logs| - 1;
      ContextIsLast(init, id);
      if logs[last].body.AssertionContext? && logs[last].body.id == id {
        assert LastContext(logs, last, id);
      } else {
        assert forall j :: LastContext(logs, j, id) <==> LastContext(init, j, id);
      }
    }
  }

  lemma {:induction false} AssertionIsEvent(r: Record, k: nat)
    requires k < |r.logs|
    ensures AssertionOf(r, r.logs[k]).Some? <==> Counts(FrameOf(r), k)
    ensures AssertionOf(r, r.logs[k]).Some? ==> EventOfLog(FrameOf(r), k, AssertionOf(r, r.logs[k]).value)
  {
    if r.logs[k].body.AssertionChecked? {
      ContextIsLast(r.logs, r.logs[k].body.id);
    }
    hide LastContext, ContextFor;
  }

  /** The positions, frame and log, of the logs that become events, in order. */
  function SpotsIn(frame: TraceFrame, f: nat, n: nat): (spots: seq<(nat, nat)>)
    requires n <= |frame.logs|
  {
    if n == 0 then [] else SpotsIn(frame, f, n - 1) + if Counts(frame, n - 1) then [(f, n - 1)] else []
  }

  function Spots(frames: seq<TraceFrame>): seq<(nat, nat)> {
    if frames == [] then []
    else
      var last := |frames| - 1;
      Spots(frames[..last]) + SpotsIn(frames[last], last, |frames[last].logs|)
  }

  predicate Before(a: (nat, nat), b: (nat, nat)) {
    a.0 < b.0 || (a.0 == b.0 && a.1 < b.1)
  }

  predicate Ascending(spots: seq<(nat, nat)>) {
    forall i, j :: 0 <= i < j < |spots| ==> Before(spots[i], spots[j])
  }

  lemma {:induction false} SpotsInExact(frame: TraceFrame, f: nat, n: nat)
    requires n <= |frame.logs|
    ensures Ascending(SpotsIn(frame, f, n))
    ensures forall p :: p in SpotsIn(frame, f, n) <==> p.0 == f && p.1 < n && Counts(frame, p.1)
  {
    if n > 0 {
      SpotsInExact(frame, f, n - 1);
    }
  }

  predicate Spot(frames: seq<TraceFrame>, p: (nat, nat)) {
    p.0 < |frames| && Counts(frames[p.0], p.1)
  }

  lemma {:induction false} AscendingAppend(a: seq<(nat, nat)>, b: seq<(nat, nat)>, f: nat)
    requires Ascending(a) && Ascending(b)
    requires (forall p :: p in a ==> p.0 < f) && (forall p :: p in b ==> p.0 == f)
    ensures Ascending(a + b)
  {
  }

  /** The positions ascend, and they are exactly those of unreverted assertion logs of frames that
      succeeded. */
  lemma {:induction false} SpotsExact(frames: seq<TraceFrame>)
    ensures Ascending(Spots(frames))
    ensures forall p :: p in Spots(frames) <==> Spot(frames, p)
  {
    if frames != [] {
      var init, last := frames[..|frames| - 1], |frames| - 1;
      SpotsExact(init);
      SpotsInExact(frames[last], last, |frames[last].logs|);
      assert forall p: (nat, nat) :: Spot(frames, p) <==> Spot(init, p) || (p.0 == last && p.1 < |frames[last].logs| && Counts(frames[last], p.1));
      assert forall p: (nat, nat) :: Spot(init, p) ==> p.0 < last;
      hide Counts, SpotsIn, Ascending, Spot;
      AscendingAppend(Spots(init), SpotsIn(frames[last], last, |frames[last].logs|), last);
    }
  }

  /** The event at each index is that of the log at the position of the same index. */
  ghost predicate Follow(frames: seq<TraceFrame>, spots: seq<(nat, nat)>, events: seq<AssertionEvent>) {
    && |events| == |spots|
    && forall i :: 0 <= i < |spots| ==> spots[i].0 < |frames| && EventOfLog(frames[spots[i].0], spots[i].1, events[i])
  }

  lemma {:induction false} RecordFollows(frames: seq<TraceFrame>, r: Record, f: nat, n: nat)
    requires n <= |r.logs| && f < |frames| && frames[f] == FrameOf(r)
    ensures Follow(frames, SpotsIn(FrameOf(r), f, n), AssertionsIn(r, r.logs[..n]))
  {
    if n > 0 {
      RecordFollows(frames, r, f, n - 1);
      assert r.logs[..n][..n - 1] == r.logs[..n - 1];
      AssertionIsEvent(r, n - 1);
      hide Counts, EventOfLog, AssertionOf;
    }
  }

  lemma {:induction false} FollowAppend(frames: seq<TraceFrame>, a: seq<(nat, nat)>, b: seq<(nat, nat)>,
                                        events: seq<AssertionEvent>, more: seq<AssertionEvent>)
    requires frames != [] && Follow(frames[..|frames| - 1], a, events) && Follow(frames, b, more)
    ensures Follow(frames, a + b, events + more)
  {
    hide EventOfLog;
  }

  lemma {:induction false} RecordsFollow(rs: seq<Record>)
    ensures Follow(Frames(rs), Spots(Frames(rs)), RecordAssertions(rs))
  {
    if rs != [] {
      var init, last := rs[..|rs| - 1], |rs| - 1;
      RecordsFollow(init);
      assert Frames(rs)[..last] == Frames(init);
      hide Follow, SpotsIn, AssertionsIn;
      RecordFollows(Frames(rs), rs[last], last, |rs[last].logs|);
      assert rs[last].logs[..|rs[last].logs|] == rs[last].logs;
      FollowAppend(Frames(rs), Spots(Frames(init)), SpotsIn(FrameOf(rs[last]), last, |rs[last].logs|),
                   RecordAssertions(init), AssertionsIn(rs[last], rs[last].logs));
    }
  }

  /** The summary's assertion events are those of the unreverted assertion logs of its successful
      frames, one each, in the order of frames and of logs within a frame. */
  lemma {:induction false} EventsByPosition(cfg: ParseConfig, rs: seq<Record>, time: Option<int>, block: Option<int>)
    requires Acceptable(cfg, rs, time, block)
    ensures var s := Summarize(cfg, rs, time, block);
            exists spots: seq<(nat, nat)> :: Ascending(spots) && Follow(s.frames, spots, s.assertions)
                            && forall p :: p in spots <==> Spot(s.frames, p)
  {
    hide Acceptable, Counts, Follow, Clock, Ascending, Spot;
    RecordsFollow(rs);
    SpotsExact(Frames(rs));
  }
}
