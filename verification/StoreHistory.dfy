/** What the log says about one hypothesis over a whole run: its states, its walk, and its rebuild. */
module StoreHistory {
  import opened Prelude
  import opened Lifecycle
  import opened Ladder
  import opened StoreData
  import opened StoreOps
  import opened StoreRuns

  predicate About(e: Event, id: string) {
    e.entity == Of(Hypotheses) && e.id == id
  }

  // ---------------------------------------------------------------- what the log tells

  /** `rebuild_hypothesis_from_events`: the last snapshot logged for the hypothesis. */
  function Rebuild(events: seq<Event>, id: string): Option<Doc> {
    if events == [] then None
    else
      var e := events[|events| - 1];
      if About(e, id) && e.snapshot.Some? then e.snapshot else Rebuild(events[..|events| - 1], id)
  }

  /** A logged change of state. */
  datatype Hop = Hop(from: Json, to: Json)

  predicate IsHop(e: Event, id: string) {
    About(e, id) && e.kind.HypTransition? && e.rowSnapshot.Some?
  }

  function Hops(events: seq<Event>, id: string): seq<Hop> {
    if events == [] then []
    else
      var e := events[|events| - 1];
      Hops(events[..|events| - 1], id) + if IsHop(e, id) then [Hop(e.from, e.to)] else []
  }

  function End(hops: seq<Hop>): Json {
    if hops == [] then StateText(OPEN) else hops[|hops| - 1].to
  }

  /** A walk from OPEN along legal transitions. */
  predicate IsWalk(hops: seq<Hop>) {
    forall i :: 0 <= i < |hops| ==> LegalChange(hops[i].from, hops[i].to) && hops[i].from == End(hops[..i])
  }

  lemma {:induction false} RebuildSnoc(events: seq<Event>, e: Event, id: string)
    ensures Rebuild(events + [e], id) == if About(e, id) && e.snapshot.Some? then e.snapshot else Rebuild(events, id)
  {
    hide About;
    assert (events + [e])[..|events|] == events;
  }

  lemma {:induction false} HopsSnoc(events: seq<Event>, e: Event, id: string)
    ensures Hops(events + [e], id) == if IsHop(e, id) then Hops(events, id) + [Hop(e.from, e.to)] else Hops(events, id)
  {
    hide IsHop;
    assert (events + [e])[..|events|] == events;
  }

  lemma {:induction false} WalkSnoc(hops: seq<Hop>, h: Hop)
    requires IsWalk(hops) && LegalChange(h.from, h.to) && h.from == End(hops)
    ensures IsWalk(hops + [h]) && End(hops + [h]) == h.to
  {
    hide LegalChange;
    var more := hops + [h];
    forall i | 0 <= i < |more|
      ensures LegalChange(more[i].from, more[i].to) && more[i].from == End(more[..i])
    {
      assert more[..i] == hops[..i];
      if i == |hops| {
        assert hops[..i] == hops;
      }
    }
  }

  // ---------------------------------------------------------------- the invariant of one hypothesis

  /** How many events the log held when the row was last written; none without a row. */
  function WrittenAt(db: Db, id: string): nat {
    var key := Key(Hypotheses, id);
    if key in db.rows then db.rows[key].last else 0
  }

  /** The linked event's snapshot describes the row, and later events about it announce no row. */
  predicate Described(env: Env, db: Db, id: string) {
    var key := Key(Hypotheses, id);
    && WrittenAt(db, id) <= |db.events|
    && BareSince(db, id)
    && (key in db.rows ==>
          && 1 <= db.rows[key].last
          && var e := db.events[db.rows[key].last - 1];
             About(e, id) && e.snapshot.Some? && Describes(env, e.snapshot.value, db.rows[key].cols))
  }

  predicate BareSince(db: Db, id: string) {
    forall j :: WrittenAt(db, id) <= j < |db.events| && About(db.events[j], id) ==> db.events[j].rowSnapshot.None?
  }

  /** The logged transitions are a legal walk from OPEN to the state column. */
  predicate Walked(db: Db, id: string) {
    var key := Key(Hypotheses, id);
    && IsWalk(Hops(db.events, id))
    && if key in db.rows then End(Hops(db.events, id)) == Get(db.rows[key].cols, State) else Hops(db.events, id) == []
  }

  /** The last logged snapshot describes the row, and there is one only if there is a row. */
  predicate Rebuilds(env: Env, db: Db, id: string) {
    var key := Key(Hypotheses, id);
    if key in db.rows then
      Rebuild(db.events, id).Some? && Describes(env, Rebuild(db.events, id).value, db.rows[key].cols)
    else
      Rebuild(db.events, id).None?
  }

  predicate SameRow(a: Db, b: Db, id: string) {
    var key := Key(Hypotheses, id);
    (key in a.rows <==> key in b.rows) && (key in a.rows ==> a.rows[key] == b.rows[key])
  }

  /** An event that announces no row for this hypothesis changes neither its states nor its walk, and
      its rebuild only if it carries a snapshot of it. */
  lemma {:induction false} EventIgnored(env: Env, db: Db, e: Event, now: Db, id: string)
    requires now.events == db.events + [e] && SameRow(db, now, id)
    requires About(e, id) ==> e.rowSnapshot.None?
    ensures Described(env, db, id) ==> Described(env, now, id)
    ensures Walked(db, id) ==> Walked(now, id)
    ensures Rebuilds(env, db, id) && (About(e, id) ==> e.snapshot.None?) ==> Rebuilds(env, now, id)
  {
    hide Describes, About, Rebuild, Hops, IsWalk, End, Get;
    RebuildSnoc(db.events, e, id);
    HopsSnoc(db.events, e, id);
  }

  /** A write of this hypothesis keeps all three. */
  lemma {:induction false} EventWritten(env: Env, db: Db, t: Txn, now: Db, id: string)
    requires t.Write? && t.key == Key(Hypotheses, id) && Fits(db, t) && Matches(db, t) && Announces(env, t)
    requires t.event.kind.HypTransition? ==>
               !t.insert && t.key in db.rows && Get(t.row.cols, State) != Get(db.rows[t.key].cols, State)
    requires now.events == db.events + [t.event] && t.key in now.rows && now.rows[t.key] == t.row
    ensures Described(env, now, id) && WrittenAt(now, id) == |now.events|
    ensures Walked(db, id) ==> Walked(now, id)
    ensures Rebuilds(env, now, id)
  {
    hide Describes, Rebuild, Hops, IsWalk, End, Get, SnapshotRow, Walked, Linked, LegalChange;
    RebuildSnoc(db.events, t.event, id);
    if Walked(db, id) {
      WalkWritten(db, t, now, id);
    }
  }

  lemma {:induction false} StateColumn(cols: Doc, snapshot: Doc)
    requires cols == SnapshotRow(Hypotheses, snapshot)
    ensures State in cols && Get(cols, State) == cols[State]
  {
  }

  lemma {:induction false} NoHops()
    ensures End([]) == StateText(OPEN)
  {
  }

  lemma {:induction false} WalkWritten(db: Db, t: Txn, now: Db, id: string)
    requires t.Write? && t.key == Key(Hypotheses, id) && Fits(db, t) && Matches(db, t) && Walked(db, id)
    requires t.event.kind.HypTransition? ==>
               !t.insert && t.key in db.rows && Get(t.row.cols, State) != Get(db.rows[t.key].cols, State)
    requires now.events == db.events + [t.event] && t.key in now.rows && now.rows[t.key] == t.row
    ensures Walked(now, id)
  {
    hide Hops, IsWalk, End, Get, SnapshotRow, Linked, LegalChange;
    HopsSnoc(db.events, t.event, id);
    var hops := Hops(db.events, id);
    assert (db.events + [t.event])[t.row.last - 1] == t.event;
    StateColumn(t.row.cols, t.event.rowSnapshot.value);
    NoHops();
    if t.event.kind.HypTransition? {
      WalkSnoc(hops, Hop(t.event.from, t.event.to));
    }
  }

  /** A call that logs no bare snapshot of this hypothesis. */
  predicate Quiet(q: Request, id: string) {
    q.RecordEvent? && q.entity == Of(Hypotheses) && q.id == id ==> q.snapshot.None?
  }

  lemma {:induction false} BareIsQuiet(env: Env, db: Db, existing: Option<Row>, q: Request, id: string)
    requires Plan(env, db, existing, q).Bare? && Quiet(q, id)
    ensures About(Plan(env, db, existing, q).event, id) ==> Plan(env, db, existing, q).event.snapshot.None?
  {
    hide Created, Transitioned, AwardedTo, EntitySavedTo, TaskEnded, Dispatched, ValidKind, Saved;
    if !q.RecordEvent? {
      NotBare(env, db, existing, q);
    }
  }

  lemma {:induction false} NotBare(env: Env, db: Db, existing: Option<Row>, q: Request)
    requires !q.RecordEvent?
    ensures !Plan(env, db, existing, q).Bare?
  {
    hide ScrubDoc, HypRow, Dump, SetDetails, Cell, Mandatory, TransitionOk, ValidateAward, BodyDoc, Columns,
         ColsOf, Get, Scrub, IsReopen, Recorded;
  }

  lemma {:induction false} StepKeeps(env: Env, db: Db, existing: Option<Row>, q: Request, id: string)
    requires Faithful(env) && FreshEnough(db, existing, q)
    requires Described(env, db, id) && Walked(db, id)
    ensures Described(env, Perform(env, db, existing, q), id)
    ensures Walked(Perform(env, db, existing, q), id)
    ensures Rebuilds(env, db, id) && Quiet(q, id) ==> Rebuilds(env, Perform(env, db, existing, q), id)
  {
    hide Described, Walked, Rebuilds, Plan, Perform, Matches, Faithful, Announces, Quiet;
    var t, now := Plan(env, db, existing, q), Perform(env, db, existing, q);
    PerformCases(env, db, existing, q);
    if t.Write? {
      if now != db {
        var mid := Db(db.events + [t.event], now.rows, db.counters);
        if t.key == Key(Hypotheses, id) {
          HypothesisWrite(env, db, existing, q);
          EventWritten(env, db, t, mid, id);
        } else {
          EventIgnored(env, db, t.event, mid, id);
        }
        if t.extra.Some? {
          EventIgnored(env, mid, t.extra.value, now, id);
        } else {
          assert now == mid;
        }
      }
    } else if t.Bare? {
      if Quiet(q, id) {
        BareIsQuiet(env, db, existing, q, id);
      }
      EventIgnored(env, db, t.event, now, id);
    } else {
      SameLog(env, db, now, id);
    }
  }

  lemma {:induction false} SameLog(env: Env, db: Db, now: Db, id: string)
    requires now.rows == db.rows && now.events == db.events
    ensures Described(env, db, id) ==> Described(env, now, id)
    ensures Walked(db, id) ==> Walked(now, id)
    ensures Rebuilds(env, db, id) ==> Rebuilds(env, now, id)
  {
    hide Describes, Rebuild, Hops, IsWalk, End, Get;
  }

  lemma {:induction false} RunStart(env: Env, id: string)
    ensures Described(env, EMPTY, id) && Walked(EMPTY, id) && Rebuilds(env, EMPTY, id)
  {
  }

  /** No call of the first `k` logs a bare snapshot of this hypothesis. */
  ghost predicate QuietRun(calls: seq<Call>, k: nat, id: string) {
    forall i :: 0 <= i < k && i < |calls| ==> Quiet(calls[i].request, id)
  }

  lemma {:induction false} RunKeeps(env: Env, calls: seq<Call>, dbs: seq<Db>, k: nat, id: string)
    requires Faithful(env) && IsRun(env, calls, dbs) && k < |dbs|
    ensures Described(env, dbs[k], id) && Walked(dbs[k], id)
    ensures QuietRun(calls, k, id) ==> Rebuilds(env, dbs[k], id)
  {
    hide Described, Walked, Rebuilds, Perform, Faithful, Quiet, ReadBy, FreshEnough;
    if k == 0 {
      RunStart(env, id);
    } else {
      RunKeeps(env, calls, dbs, k - 1, id);
      StepOf(env, calls, dbs, k - 1);
      StepKeeps(env, dbs[k - 1], ReadBy(dbs, k - 1, calls[k - 1]), calls[k - 1].request, id);
    }
  }

  // ---------------------------------------------------------------- the theorems

  lemma {:induction false} BodyOf(env: Env, doc: Doc, cols: Doc)
    requires Faithful(env) && Describes(env, doc, cols)
    ensures BodyDoc(env, cols) == Some(doc)
  {
    assert env.loads(env.dumps(Obj(doc))) == Obj(doc);
  }

  /** The state column, the state in the body and the state in the linked event's snapshot agree. */
  predicate StatesAgree(env: Env, db: Db, id: string) {
    var key := Key(Hypotheses, id);
    key in db.rows ==>
      && 1 <= db.rows[key].last <= |db.events|
      && var cols, snapshot := db.rows[key].cols, db.events[db.rows[key].last - 1].snapshot;
         && snapshot.Some? && BodyDoc(env, cols) == snapshot
         && Get(cols, State).StateText? && Get(snapshot.value, State) == Get(cols, State)
  }

  lemma {:induction false} WalkEndsInState(hops: seq<Hop>)
    requires IsWalk(hops)
    ensures End(hops).StateText?
  {
    if hops != [] {
      assert LegalChange(hops[|hops| - 1].from, hops[|hops| - 1].to);
    }
  }

  /** Under any interleaving of saves, transitions and awards with stale reads, the three states of a
      hypothesis never diverge. */
  lemma {:induction false} StatesNeverDiverge(env: Env, calls: seq<Call>, dbs: seq<Db>, k: nat, id: string)
    requires Faithful(env) && IsRun(env, calls, dbs) && k < |dbs|
    ensures StatesAgree(env, dbs[k], id)
  {
    hide IsRun, Faithful, BodyDoc, Hops, Rebuilds, Get, IsWalk, End;
    RunKeeps(env, calls, dbs, k, id);
    var db := dbs[k];
    if Key(Hypotheses, id) in db.rows {
      var row := db.rows[Key(Hypotheses, id)];
      BodyOf(env, db.events[row.last - 1].snapshot.value, row.cols);
      WalkEndsInState(Hops(db.events, id));
    }
  }

  /** The states a hypothesis has been in are a legal walk from OPEN, each step of which is a logged
      transition from the state before it to the state after it, ending at the state column; and as a
      run goes on, the walk only grows. */
  lemma {:induction false} HistoryIsLegalWalk(env: Env, calls: seq<Call>, dbs: seq<Db>, j: nat, k: nat, id: string)
    requires Faithful(env) && IsRun(env, calls, dbs) && j <= k < |dbs|
    ensures Walked(dbs[k], id)
    ensures Hops(dbs[j].events, id) <= Hops(dbs[k].events, id)
    decreases k
  {
    hide Faithful, Walked, Hops, Perform, Plan, Fits, Matches, ReadBy, FreshEnough;
    RunKeeps(env, calls, dbs, k, id);
    if j < k {
      HistoryIsLegalWalk(env, calls, dbs, j, k - 1, id);
      StepOf(env, calls, dbs, k - 1);
      var db, existing, q := dbs[k - 1], ReadBy(dbs, k - 1, calls[k - 1]), calls[k - 1].request;
      PerformCases(env, db, existing, q);
      HopsGrow(db, Plan(env, db, existing, q), dbs[k], id);
    }
  }

  lemma {:induction false} HopsGrow(db: Db, t: Txn, now: Db, id: string)
    requires t.Bare? ==> t.event.rowSnapshot.None?
    requires Fits(db, t)
    requires now.events == db.events
      || (t.Bare? && now.events == db.events + [t.event])
      || (t.Write? && now == Written(db, t))
    ensures Hops(now.events, id) == Hops(db.events, id)
      || (t.Write? && IsHop(t.event, id) && Hops(now.events, id) == Hops(db.events, id) + [Hop(t.event.from, t.event.to)])
  {
    hide Hops;
    if t.Bare? || t.Write? {
      HopsSnoc(db.events, t.event, id);
    }
    if t.Write? && t.extra.Some? {
      HopsSnoc(db.events + [t.event], t.extra.value, id);
    } else if t.Write? {
      assert Written(db, t).events == db.events + [t.event];
    }
  }

  /** What one call adds to the walk: one hop, from the state before it to the state after it, if the
      state column changed, and nothing otherwise. */
  predicate OneHopPerChange(before: Db, after: Db, id: string) {
    var key := Key(Hypotheses, id);
    if key in before.rows && key in after.rows && Get(before.rows[key].cols, State) != Get(after.rows[key].cols, State) then
      Hops(after.events, id) == Hops(before.events, id)
                                + [Hop(Get(before.rows[key].cols, State), Get(after.rows[key].cols, State))]
    else
      Hops(after.events, id) == Hops(before.events, id)
  }

  /** Every change of the state column is exactly one logged transition, and nothing else is. */
  lemma {:induction false} EachChangeIsOneHop(env: Env, calls: seq<Call>, dbs: seq<Db>, k: nat, id: string)
    requires Faithful(env) && IsRun(env, calls, dbs) && k < |calls|
    ensures OneHopPerChange(dbs[k], dbs[k + 1], id)
  {
    hide Faithful, Hops, Perform, Plan, Fits, Matches, ReadBy, FreshEnough, IsWalk, Described, Rebuilds, Get, Seen;
    RunKeeps(env, calls, dbs, k, id);
    RunKeeps(env, calls, dbs, k + 1, id);
    StepOf(env, calls, dbs, k);
    RowsPersist(env, calls, dbs, k, k + 1);
    var db, existing, q := dbs[k], ReadBy(dbs, k, calls[k]), calls[k].request;
    var now, t := dbs[k + 1], Plan(env, db, existing, q);
    PerformCases(env, db, existing, q);
    HopsGrow(db, t, now, id);
    if Hops(now.events, id) != Hops(db.events, id) {
      HopIsWrite(env, db, existing, q, t, id);
      HopEnds(Hops(db.events, id), Hop(t.event.from, t.event.to));
    }
  }

  lemma {:induction false} HopIsWrite(env: Env, db: Db, existing: Option<Row>, q: Request, t: Txn, id: string)
    requires Faithful(env) && t == Plan(env, db, existing, q) && t.Write? && IsHop(t.event, id)
    requires Fits(db, t) && Matches(db, t)
    ensures t.key == Key(Hypotheses, id) && t.key in db.rows
    ensures Get(t.row.cols, State) != Get(db.rows[t.key].cols, State)
  {
    hide Plan, Matches, Faithful, Get, Announces;
    HypothesisWrite(env, db, existing, q);
  }

  lemma {:induction false} HopEnds(hops: seq<Hop>, h: Hop)
    requires IsWalk(hops + [h])
    ensures h.from == End(hops) && h.to == End(hops + [h])
  {
    hide LegalChange, End;
    assert (hops + [h])[..|hops|] == hops;
    assert (hops + [h])[|hops|] == h;
    LastHop(hops + [h]);
  }

  lemma {:induction false} LastHop(hops: seq<Hop>)
    requires hops != []
    ensures End(hops) == hops[|hops| - 1].to
  {
  }
}
