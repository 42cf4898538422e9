/**
 Rebuilding a hypothesis from the log: exactly when it gives the body, and exactly when it gives what
 `get` returns.
 */
module StoreRebuild {
  import opened Prelude
  import opened Lifecycle
  import opened StoreData
  import opened StoreOps
  import opened StoreRuns
  import opened StoreHistory

  /** `get` on a hypothesis: the body, with four fields overlaid from the columns. */
  function Fetched(env: Env, cols: Doc): Option<Doc> {
    var doc := BodyDoc(env, cols);
    if doc.None? then None
    else Some(doc.value[State := Get(cols, State)][Lens := Get(cols, Lens)]
                       [ProtocolType := Get(cols, ProtocolType)][PriorP := Get(cols, PriorP)])
  }

  lemma {:induction false} FetchedIsDescribed(env: Env, doc: Doc, cols: Doc)
    requires Faithful(env) && Describes(env, doc, cols)
    ensures BodyDoc(env, cols) == Some(doc)
    ensures Fetched(env, cols) == Some(doc) <==> {Lens, ProtocolType, PriorP} <= doc.Keys
  {
    hide BodyDoc, Faithful;
    BodyOf(env, doc, cols);
    var got := Fetched(env, cols).value;
    if Lens in doc && ProtocolType in doc && PriorP in doc {
      assert got == doc;
    } else {
      assert Lens in got && ProtocolType in got && PriorP in got;
    }
  }

  // ---------------------------------------------------------------- the exact condition

  /** The last snapshot logged since the row was written: the work of bare events alone. */
  function BareSnapshot(db: Db, id: string): Option<Doc>
    requires WrittenAt(db, id) <= |db.events|
  {
    Rebuild(db.events[WrittenAt(db, id)..], id)
  }

  /** The rebuild gives the body exactly when no bare snapshot has come since the row was written, or
      the last one restates the body. It gives what `get` returns exactly when there is none and the
      body carries lens, protocol type and prior, or the last one restates what `get` returns.
      Without a row, only bare events can have left anything to rebuild. */
  predicate RebuildExact(env: Env, db: Db, id: string) {
    var key, rebuilt := Key(Hypotheses, id), Rebuild(db.events, id);
    && WrittenAt(db, id) <= |db.events| && BareSince(db, id)
    && var bare := BareSnapshot(db, id);
       if key in db.rows then
         var body, got := BodyDoc(env, db.rows[key].cols), Fetched(env, db.rows[key].cols);
         && body.Some?
         && (rebuilt == body <==> bare.None? || bare == body)
         && (rebuilt == got <==>
               if bare.None? then {Lens, ProtocolType, PriorP} <= body.value.Keys else bare == got)
       else
         rebuilt == bare
  }

  lemma {:induction false} RebuildAppend(a: seq<Event>, b: seq<Event>, id: string)
    ensures Rebuild(a + b, id) == if Rebuild(b, id).Some? then Rebuild(b, id) else Rebuild(a, id)
  {
    hide About;
    if b == [] {
      assert a + b == a;
    } else {
      assert (a + b)[..|a + b| - 1] == a + b[..|b| - 1];
      RebuildAppend(a, b[..|b| - 1], id);
    }
  }

  lemma {:induction false} RebuildUpTo(events: seq<Event>, n: nat, id: string)
    requires 1 <= n <= |events| && About(events[n - 1], id) && events[n - 1].snapshot.Some?
    ensures Rebuild(events[..n], id) == events[n - 1].snapshot
  {
    hide About;
    assert events[..n] == events[..n - 1] + [events[n - 1]];
    RebuildSnoc(events[..n - 1], events[n - 1], id);
  }

  lemma {:induction false} DescribedRebuild(env: Env, db: Db, id: string)
    requires Faithful(env) && Described(env, db, id)
    ensures RebuildExact(env, db, id)
  {
    hide Faithful, Describes, BodyDoc, Fetched, Rebuild, BareSince, About;
    var n := WrittenAt(db, id);
    assert db.events == db.events[..n] + db.events[n..];
    RebuildAppend(db.events[..n], db.events[n..], id);
    var key := Key(Hypotheses, id);
    if key in db.rows {
      RebuildUpTo(db.events, n, id);
      FetchedIsDescribed(env, db.events[n - 1].snapshot.value, db.rows[key].cols);
    } else {
      assert db.events[n..] == db.events;
    }
  }

  /** At every moment of every run of the store's operations, bare events with snapshots included. */
  lemma {:induction false} RebuildIsExact(env: Env, calls: seq<Call>, dbs: seq<Db>, k: nat, id: string)
    requires Faithful(env) && IsRun(env, calls, dbs) && k < |dbs|
    ensures RebuildExact(env, dbs[k], id)
  {
    hide IsRun, Faithful, Described, RebuildExact;
    RunKeeps(env, calls, dbs, k, id);
    DescribedRebuild(env, dbs[k], id);
  }

  // ---------------------------------------------------------------- runs without bare snapshots

  /** Rebuilding gives the body, and gives what `get` returns exactly when that body carries lens,
      protocol type and prior; without a row there is nothing to rebuild. */
  predicate RebuildAgrees(env: Env, db: Db, id: string) {
    var key, rebuilt := Key(Hypotheses, id), Rebuild(db.events, id);
    if key in db.rows then
      && rebuilt.Some? && BodyDoc(env, db.rows[key].cols) == rebuilt
      && (Fetched(env, db.rows[key].cols) == rebuilt <==> {Lens, ProtocolType, PriorP} <= rebuilt.value.Keys)
    else
      rebuilt.None?
  }

  /** As long as no bare event carries a snapshot of the hypothesis, the rebuild agrees. */
  lemma {:induction false} QuietRebuildAgrees(env: Env, calls: seq<Call>, dbs: seq<Db>, k: nat, id: string)
    requires Faithful(env) && IsRun(env, calls, dbs) && k < |dbs| && QuietRun(calls, k, id)
    ensures RebuildAgrees(env, dbs[k], id)
  {
    hide IsRun, Faithful, Rebuild, BodyDoc, Fetched, Quiet, Walked, Described, Describes;
    RunKeeps(env, calls, dbs, k, id);
    var db, key := dbs[k], Key(Hypotheses, id);
    if key in db.rows {
      FetchedIsDescribed(env, Rebuild(db.events, id).value, db.rows[key].cols);
    }
  }

  // ---------------------------------------------------------------- what one call does to the rebuild

  /** A bare event about the hypothesis that carries a snapshot and is let through. */
  predicate BareSnapshotCall(q: Request, id: string) {
    q.RecordEvent? && ValidKind(q.kind, q.op) && q.entity == Of(Hypotheses) && q.id == id && q.snapshot.Some?
  }

  /** A write of the row repairs the rebuild, a bare snapshot takes it over, and any other call leaves
      row and rebuild alone. */
  predicate RebuildMoves(env: Env, before: Db, q: Request, after: Db, id: string) {
    var key := Key(Hypotheses, id);
    if key in after.rows && (key !in before.rows || before.rows[key] != after.rows[key]) then
      Rebuild(after.events, id).Some? && Rebuild(after.events, id) == BodyDoc(env, after.rows[key].cols)
    else
      && SameRow(before, after, id)
      && Rebuild(after.events, id) ==
         if BareSnapshotCall(q, id) then Some(ScrubDoc(env, q.snapshot.value)) else Rebuild(before.events, id)
  }

  lemma {:induction false} EachCallMovesRebuild(env: Env, calls: seq<Call>, dbs: seq<Db>, k: nat, id: string)
    requires Faithful(env) && IsRun(env, calls, dbs) && k < |calls|
    ensures RebuildMoves(env, dbs[k], calls[k].request, dbs[k + 1], id)
  {
    hide Faithful, Perform, ReadBy, RebuildMoves, Walked, Rebuilds, QuietRun;
    StepOf(env, calls, dbs, k);
    RunKeeps(env, calls, dbs, k, id);
    CallMovesRebuild(env, dbs[k], ReadBy(dbs, k, calls[k]), calls[k].request, id);
  }

  lemma {:induction false} CallMovesRebuild(env: Env, db: Db, existing: Option<Row>, q: Request, id: string)
    requires Faithful(env) && FreshEnough(db, existing, q) && WrittenAt(db, id) <= |db.events|
    ensures RebuildMoves(env, db, q, Perform(env, db, existing, q), id)
  {
    hide Faithful, Plan, Perform, Matches, Rebuild, BodyDoc, ScrubDoc, About, ValidKind;
    var t, now := Plan(env, db, existing, q), Perform(env, db, existing, q);
    PerformCases(env, db, existing, q);
    PlainCalls(env, db, existing, q, id);
    if t.Write? {
      if now != db {
        WriteMovesRebuild(env, db, existing, q, id);
      }
    } else if t.Bare? {
      RebuildSnoc(db.events, t.event, id);
    } else {
      assert now.events == db.events;
    }
  }

  /** Only `record_event` submits a bare event, and that event is the redacted request. */
  lemma {:induction false} PlainCalls(env: Env, db: Db, existing: Option<Row>, q: Request, id: string)
    ensures var t := Plan(env, db, existing, q);
            && (t.Bare? ==>
                  if BareSnapshotCall(q, id) then About(t.event, id) && t.event.snapshot == Some(ScrubDoc(env, q.snapshot.value))
                  else !(About(t.event, id) && t.event.snapshot.Some?))
            && (BareSnapshotCall(q, id) ==> t.Bare?)
  {
    hide ScrubDoc, ValidKind, Scrub, Created, Saved, Transitioned, AwardedTo, EntitySavedTo, Dispatched, TaskEnded;
    if !q.RecordEvent? {
      NotBare(env, db, existing, q);
    }
  }

  lemma {:induction false} WriteMovesRebuild(env: Env, db: Db, existing: Option<Row>, q: Request, id: string)
    requires Faithful(env) && WrittenAt(db, id) <= |db.events| && !BareSnapshotCall(q, id)
    requires var t := Plan(env, db, existing, q);
             t.Write? && Fits(db, t) && Matches(db, t) && Perform(env, db, existing, q) == Written(db, t)
    ensures RebuildMoves(env, db, q, Perform(env, db, existing, q), id)
  {
    hide Faithful, Plan, Perform, Matches, Rebuild, BodyDoc, BareSnapshotCall, Describes, Announces;
    var t, now := Plan(env, db, existing, q), Perform(env, db, existing, q);
    RebuildSnoc(db.events, t.event, id);
    if t.extra.Some? {
      RebuildSnoc(db.events + [t.event], t.extra.value, id);
    } else {
      assert now.events == db.events + [t.event];
    }
    if t.key == Key(Hypotheses, id) {
      HypothesisWrite(env, db, existing, q);
      AnnouncedBody(env, t);
    }
  }

  lemma {:induction false} AnnouncedBody(env: Env, t: Txn)
    requires Faithful(env) && t.Write? && Announces(env, t)
    ensures t.event.snapshot.Some? && BodyDoc(env, t.row.cols) == t.event.snapshot
  {
    hide Faithful, BodyDoc, Describes;
    BodyOf(env, t.event.snapshot.value, t.row.cols);
  }

  // ---------------------------------------------------------------- a run on which the rebuild is wrong

  /** A hypothesis is created, and a bare event with an empty snapshot is recorded about it. */
  const MISLED: seq<Call> := [
    Call(0, CreateHypothesis("H-001", map[])),
    Call(0, RecordEvent(Listed("finding_disputed"), Of(Hypotheses), "H-001", NoOp, Null, Null, Some(map[])))]

  /** Where redaction finds nothing to redact and the tables admit the row, that run ends with a
      hypothesis whose rebuild is neither its body nor what `get` returns. */
  lemma {:induction false} RebuildCanBeWrong(env: Env)
    requires Faithful(env) && (forall s :: env.redact(s) == s) && (forall rows, k, r :: env.permits(rows, k, r))
    ensures var db := States(env, MISLED)[2];
            && IsRun(env, MISLED, States(env, MISLED))
            && Key(Hypotheses, "H-001") in db.rows
            && Rebuild(db.events, "H-001") == Some(map[])
            && Rebuild(db.events, "H-001") != BodyDoc(env, db.rows[Key(Hypotheses, "H-001")].cols)
            && Rebuild(db.events, "H-001") != Fetched(env, db.rows[Key(Hypotheses, "H-001")].cols)
  {
    hide States, Perform, RebuildMoves, BodyDoc, Fetched, Rebuild, Faithful, StatesAgree;
    var dbs, id := States(env, MISLED), "H-001";
    RunsExist(env, MISLED, dbs);
    StepOf(env, MISLED, dbs, 0);
    CreationCommits(env, id);
    StepOf(env, MISLED, dbs, 1);
    RecordingKeepsRows(env, dbs[1], ReadBy(dbs, 1, MISLED[1]), MISLED[1].request);
    EachCallMovesRebuild(env, MISLED, dbs, 1, id);
    StatesNeverDiverge(env, MISLED, dbs, 2, id);
    MisledEnd(env, dbs[1], dbs[2], id);
  }

  lemma {:induction false} CreationCommits(env: Env, id: string)
    requires (forall s :: env.redact(s) == s) && (forall rows, k, r :: env.permits(rows, k, r))
    ensures Key(Hypotheses, id) in Perform(env, EMPTY, None, CreateHypothesis(id, map[])).rows
  {
    hide Submit, Script, Created, HypRow, HypEvent, InsertTrigger, Allowed, Saved, Transitioned, AwardedTo, EntitySavedTo,
         Dispatched, TaskEnded, NextValue;
    var data: Doc := map[Id := Text(id), State := StateText(OPEN)];
    CreatedEmpty(env, id);
    CreationAdmitted(env, id, data, env.dumps(Obj(data)));
    CommitsWhenAdmitted(env, Created(env, EMPTY, id, map[]));
  }

  lemma {:induction false} CreationAdmitted(env: Env, id: string, data: Doc, body: string)
    requires (forall s :: env.redact(s) == s) && (forall rows, k, r :: env.permits(rows, k, r))
    requires data == map[Id := Text(id), State := StateText(OPEN)]
    ensures var e, row := HypEvent(env, HypCreated, id, InsertOp, Null, Null, data, body), Row(HypRow(data, body), 1);
            Allowed(env, map[], Key(Hypotheses, id), row) && InsertTrigger([e], Key(Hypotheses, id), row)
  {
    hide SnapshotRow, Scrub, ScrubDoc;
    UnredactedRow(env, data, body);
  }

  lemma {:induction false} RecordingKeepsRows(env: Env, db: Db, existing: Option<Row>, q: Request)
    requires q.RecordEvent?
    ensures Perform(env, db, existing, q).rows == db.rows
  {
    hide Perform, Fits, Matches, Recorded, ValidKind, Created, Saved, Transitioned, AwardedTo, EntitySavedTo, Dispatched,
         TaskEnded;
    PerformCases(env, db, existing, q);
  }

  lemma {:induction false} CreatedEmpty(env: Env, id: string)
    ensures var data: Doc := map[Id := Text(id), State := StateText(OPEN)];
            var body := env.dumps(Obj(data));
            Created(env, EMPTY, id, map[]) ==
            Write(HypEvent(env, HypCreated, id, InsertOp, Null, Null, data, body), true, Key(Hypotheses, id),
                  Row(HypRow(data, body), 1), None)
  {
    hide HypRow, HypEvent;
    var named := ScrubDoc(env, map[])[Id := Text(id)];
    assert named[State := StateText(OPEN)] == map[Id := Text(id), State := StateText(OPEN)];
  }

  lemma {:induction false} UnredactedRow(env: Env, data: Doc, body: string)
    requires forall s :: env.redact(s) == s
    requires Get(data, Id).Text? && Get(data, State).StateText? && Get(data, Lens).Null?
    requires Get(data, ProtocolType).Null? && Get(data, PriorP).Null?
    ensures SnapshotRow(Hypotheses, ScrubDoc(env, HypRow(data, body))) == HypRow(data, body)
  {
    var row := HypRow(data, body);
    forall n | n in Columns(Hypotheses)
      ensures Get(ScrubDoc(env, row), n) == row[n]
    {
      assert Get(ScrubDoc(env, row), n) == Scrub(env, Get(row, n));
    }
  }

  lemma {:induction false} CommitsWhenAdmitted(env: Env, t: Txn)
    requires t.Write? && t.insert && t.extra.None? && t.row.last == 1
    requires Allowed(env, map[], t.key, t.row) && InsertTrigger([t.event], t.key, t.row)
    ensures t.key in Submit(env, EMPTY, Script(t)).rows
  {
    hide Allowed, InsertTrigger, ExecuteAll;
    ExecuteNothing(env, EMPTY);
    ExecuteSnoc(env, EMPTY, [], Append(t.event));
    ExecuteSnoc(env, EMPTY, [] + [Append(t.event)], Insert(t.key, t.row));
    assert Script(t) == [] + [Append(t.event)] + [Insert(t.key, t.row)];
    assert [] + [t.event] == [t.event];
  }

  lemma {:induction false} MisledEnd(env: Env, before: Db, after: Db, id: string)
    requires RebuildMoves(env, before, MISLED[1].request, after, id) && id == "H-001"
    requires Key(Hypotheses, id) in before.rows && StatesAgree(env, after, id)
    requires before.rows == after.rows
    ensures Rebuild(after.events, id) == Some(map[])
    ensures BodyDoc(env, after.rows[Key(Hypotheses, id)].cols) != Some(map[])
    ensures Fetched(env, after.rows[Key(Hypotheses, id)].cols) != Some(map[])
  {
    hide Rebuild, BodyDoc;
    var cols := after.rows[Key(Hypotheses, id)].cols;
    var empty: Doc := map[];
    assert ScrubDoc(env, empty) == empty;
    assert State in BodyDoc(env, cols).value;
    assert State in Fetched(env, cols).value;
  }
}
