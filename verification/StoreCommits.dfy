/**
 Exactly when each operation of the store commits, and the whole database it then leaves: otherwise
 the database is as it was.
 */
module StoreCommits {
  import opened Prelude
  import opened Lifecycle
  import opened Ladder
  import opened StoreData
  import opened StoreOps
  import opened StoreRuns
  import opened StoreIds
  import opened LifecycleExact

  // ---------------------------------------------------------------- databases as runs leave them

  /** Every row is linked to its event, sits under its own key, and no two tasks share a key. */
  predicate Sane(db: Db) {
    && AllLinked(db)
    && (forall k :: k in db.rows ==> Get(db.rows[k].cols, KeyColumn(k.table)) == Text(k.id))
    && (forall k :: k in db.rows ==> UniqueTask(db.rows, k, db.rows[k]))
  }

  lemma {:induction false} StatementStaysSane(env: Env, db: Db, s: Statement)
    requires Sane(db) && Execute(env, db, s).Ok?
    ensures Sane(Execute(env, db, s).value)
  {
    hide AllLinked, InsertTrigger, UpdateTrigger, Get;
    StatementKeeps(env, db, s);
    var now := Execute(env, db, s).value;
    forall k | k in now.rows
      ensures Get(now.rows[k].cols, KeyColumn(k.table)) == Text(k.id) && UniqueTask(now.rows, k, now.rows[k])
    {
    }
  }

  lemma {:induction false} ScriptStaysSane(env: Env, db: Db, script: seq<Statement>)
    requires Sane(db) && ExecuteAll(env, db, script).Ok?
    ensures Sane(ExecuteAll(env, db, script).value)
  {
    hide Sane, Execute;
    if script != [] {
      var init := script[..|script| - 1];
      ScriptStaysSane(env, db, init);
      StatementStaysSane(env, ExecuteAll(env, db, init).value, script[|script| - 1]);
    }
  }

  lemma {:induction false} EmptyIsSane()
    ensures Sane(EMPTY)
  {
  }

  lemma {:induction false} PerformStaysSane(env: Env, db: Db, existing: Option<Row>, q: Request)
    requires Sane(db)
    ensures Sane(Perform(env, db, existing, q))
  {
    hide Sane, Plan, Script, ExecuteAll;
    if ExecuteAll(env, db, Script(Plan(env, db, existing, q))).Ok? {
      ScriptStaysSane(env, db, Script(Plan(env, db, existing, q)));
    }
  }

  /** Every database of a run is sane. */
  lemma {:induction false} RunsAreSane(env: Env, calls: seq<Call>, dbs: seq<Db>, k: nat)
    requires IsRun(env, calls, dbs) && k < |dbs|
    ensures Sane(dbs[k])
  {
    hide Sane, Perform;
    if k == 0 {
      EmptyIsSane();
    } else {
      RunsAreSane(env, calls, dbs, k - 1);
      StepOf(env, calls, dbs, k - 1);
      PerformStaysSane(env, dbs[k - 1], ReadBy(dbs, k - 1, calls[k - 1]), calls[k - 1].request);
    }
  }

  // ---------------------------------------------------------------- one write

  /** Redaction leaves every text of the row as it is. */
  predicate Unredacted(env: Env, cols: Doc) {
    ScrubDoc(env, cols) == cols
  }

  /** No other task holds the key. */
  predicate KeyIsFree(db: Db, id: string, key: Json) {
    forall k :: k in db.rows && k.table.Tasks? && k.id != id ==> Get(db.rows[k].cols, IdempotencyKey) != key
  }

  /** What the constraints and the trigger ask of a write. */
  predicate Lets(env: Env, db: Db, t: Txn)
    requires t.Write?
  {
    && Allowed(env, db.rows, t.key, t.row)
    && if t.insert then t.key !in db.rows && InsertTrigger(db.events + [t.event], t.key, t.row)
       else t.key in db.rows && UpdateTrigger(db.events + [t.event], t.key, db.rows[t.key], t.row)
  }

  lemma {:induction false} WriteIs(env: Env, db: Db, t: Txn)
    requires t.Write? && Fits(db, t)
    ensures Submit(env, db, Script(t)) == if Lets(env, db, t) then Written(db, t) else db
  {
    hide Allowed, InsertTrigger, UpdateTrigger, ExecuteAll;
    var write := if t.insert then Insert(t.key, t.row) else Update(t.key, t.row);
    ExecuteNothing(env, db);
    ExecuteSnoc(env, db, [], Append(t.event));
    ExecuteSnoc(env, db, [] + [Append(t.event)], write);
    var two := [] + [Append(t.event)] + [write];
    if t.extra.Some? {
      ExecuteSnoc(env, db, two, Append(t.extra.value));
      assert Script(t) == two + [Append(t.extra.value)];
    } else {
      assert Script(t) == two;
    }
  }

  /** A row announced by its own redaction matches the announcement exactly when nothing was redacted. */
  lemma {:induction false} MatchIsUnredacted(env: Env, t: Table, cols: Doc)
    requires cols.Keys == Columns(t)
    ensures cols == SnapshotRow(t, ScrubDoc(env, cols)) <==> Unredacted(env, cols)
  {
    hide Scrub, Columns;
    var scrubbed := ScrubDoc(env, cols);
    forall n | n in Columns(t)
      ensures Get(scrubbed, n) == scrubbed[n]
    {
    }
    assert SnapshotRow(t, scrubbed) == scrubbed;
  }

  /** The part of both triggers that compares the row with the event it comes with. */
  lemma {:induction false} LinkedNow(db: Db, t: Txn)
    requires t.Write? && Fits(db, t)
    ensures Linked(db.events + [t.event], t.key, t.row) <==>
            t.row.cols == SnapshotRow(t.key.table, t.event.rowSnapshot.value)
    ensures (db.events + [t.event])[t.row.last - 1] == t.event
  {
    hide SnapshotRow;
  }

  /** A write into a table other than hypotheses, whose event announces the row's own redaction. */
  lemma {:induction false} EntityWriteLets(env: Env, db: Db, t: Txn)
    requires t.Write? && Fits(db, t) && !t.key.table.Hypotheses? && Sane(db)
    requires t.row.cols.Keys == Columns(t.key.table) && Get(t.row.cols, KeyColumn(t.key.table)) == Text(t.key.id)
    requires t.event.rowSnapshot == Some(ScrubDoc(env, t.row.cols))
    requires t.insert ==> t.event.op.InsertOp?
    requires !t.insert ==> t.event.op.UpdateOp?
    ensures Lets(env, db, t) <==>
            && (t.insert ==> t.key !in db.rows)
            && Unredacted(env, t.row.cols)
            && (t.key.table.Tasks? ==> KeyIsFree(db, t.key.id, Get(t.row.cols, IdempotencyKey)))
            && env.permits(db.rows, t.key, t.row)
  {
    hide SnapshotRow, Columns, ScrubDoc, Unredacted, Linked, Get;
    MatchIsUnredacted(env, t.key.table, t.row.cols);
    LinkedNow(db, t);
    FreeIsUnique(db, t.key, t.row);
    if !t.insert {
      LastIsOld(db, t.key);
    }
  }

  lemma {:induction false} FreeIsUnique(db: Db, key: Key, row: Row)
    ensures UniqueTask(db.rows, key, row) <==>
            (key.table.Tasks? ==> KeyIsFree(db, key.id, Get(row.cols, IdempotencyKey)))
  {
    hide Get;
  }

  lemma {:induction false} LastIsOld(db: Db, key: Key)
    requires Sane(db) && key in db.rows
    ensures db.rows[key].last <= |db.events|
    ensures db.rows[key].cols.Keys == Columns(key.table)
    ensures Get(db.rows[key].cols, KeyColumn(key.table)) == Text(key.id)
  {
    hide UniqueTask, Columns;
    assert Linked(db.events, key, db.rows[key]);
  }

  // ---------------------------------------------------------------- tasks

  function DispatchRow(id: string, key: string, phase: string, role: string, startedAt: string): Doc {
    map[Id := Text(id), IdempotencyKey := Text(key), Phase := Text(phase), Role := Text(role),
        Status := Text("dispatched"), StartedAt := Text(startedAt), FinishedAt := Null, ResultName := Null]
  }

  /** The id is free, no other task holds the key, no text is redacted, and the row is permitted. */
  predicate DispatchAdmitted(env: Env, db: Db, id: string, key: string, phase: string, role: string, startedAt: string) {
    && Key(Tasks, id) !in db.rows
    && (forall k :: k in db.rows && k.table.Tasks? ==> Get(db.rows[k].cols, IdempotencyKey) != Text(key))
    && Unredacted(env, DispatchRow(id, key, phase, role, startedAt))
    && env.permits(db.rows, Key(Tasks, id), Row(DispatchRow(id, key, phase, role, startedAt), |db.events| + 1))
  }

  /** A dispatch commits exactly when it is admitted, and then leaves that task and one event. */
  lemma {:induction false} DispatchCommits(
    env: Env, db: Db, existing: Option<Row>, id: string, key: string, phase: string, role: string, startedAt: string)
    requires Sane(db)
    ensures var row := Row(DispatchRow(id, key, phase, role, startedAt), |db.events| + 1);
            Perform(env, db, existing, DispatchTask(id, key, phase, role, startedAt)) ==
            if DispatchAdmitted(env, db, id, key, phase, role, startedAt) then
              Db(db.events + [Event(TaskDispatched, Of(Tasks), id, InsertOp, Null, Null, None, Some(row.cols))],
                 db.rows[Key(Tasks, id) := row], db.counters)
            else db
  {
    hide Submit, Script, Lets, Sane, Created, Saved, Transitioned, AwardedTo, EntitySavedTo, TaskEnded,
         NextValue, ValidKind, Scrub, ScrubDoc, Unredacted, DispatchRow;
    var t := Dispatched(env, db, id, key, phase, role, startedAt);
    var cols := DispatchRow(id, key, phase, role, startedAt);
    DispatchPlan(env, db, id, key, phase, role, startedAt);
    WriteIs(env, db, t);
    EntityWriteLets(env, db, t);
    if Unredacted(env, cols) {
      UnredactedIs(env, cols);
    }
    if Key(Tasks, id) !in db.rows {
      FreeForNew(db, id, Text(key));
    }
    if DispatchAdmitted(env, db, id, key, phase, role, startedAt) {
      assert Written(db, t).events == db.events + [t.event];
    }
  }

  lemma {:induction false} DispatchPlan(env: Env, db: Db, id: string, key: string, phase: string, role: string, startedAt: string)
    ensures var t, cols := Dispatched(env, db, id, key, phase, role, startedAt), DispatchRow(id, key, phase, role, startedAt);
            && t == Write(Event(TaskDispatched, Of(Tasks), id, InsertOp, Null, Null, None, Some(ScrubDoc(env, cols))),
                          true, Key(Tasks, id), Row(cols, |db.events| + 1), None)
            && Fits(db, t) && cols.Keys == Columns(Tasks)
            && Get(cols, Id) == Text(id) && Get(cols, IdempotencyKey) == Text(key)
  {
    hide ScrubDoc, Scrub;
    ScrubText(env, Null);
  }

  lemma {:induction false} FreeForNew(db: Db, id: string, key: Json)
    requires Key(Tasks, id) !in db.rows
    ensures KeyIsFree(db, id, key) <==>
            forall k :: k in db.rows && k.table.Tasks? ==> Get(db.rows[k].cols, IdempotencyKey) != key
  {
    forall k | k in db.rows && k.table.Tasks?
      ensures k.id != id
    {
      assert k == Key(Tasks, k.id);
    }
  }

  /** The row a finished or blocked task is left with. */
  function EndedRow(env: Env, was: Doc, q: Request): Doc
    requires q.FinishTask? || q.BlockTask?
  {
    was[Status := Text(if q.FinishTask? then "finished" else "blocked_on_human")][FinishedAt := Text(q.finishedAt)]
       [ResultName := Text(env.dumps(EndedResult(env, q)))]
  }

  function EndedResult(env: Env, q: Request): Json
    requires q.FinishTask? || q.BlockTask?
  {
    if q.FinishTask? then Scrub(env, q.result) else Obj(map[Reason := Text(env.redact(q.reason))])
  }

  /** Finishing or blocking commits exactly when the task is there, no text of its new row is
      redacted, and the row is permitted. */
  lemma {:induction false} EndCommits(env: Env, db: Db, existing: Option<Row>, q: Request)
    requires Sane(db) && (q.FinishTask? || q.BlockTask?)
    ensures var key := Key(Tasks, q.id);
            var cols := EndedRow(env, ColsOf(db, key), q);
            var row := Row(cols, |db.events| + 1);
            Perform(env, db, existing, q) ==
            if key in db.rows && Unredacted(env, cols) && env.permits(db.rows, key, row) then
              Db(db.events + [Event(if q.FinishTask? then TaskFinished else TaskBlockedOnHuman, Of(Tasks), q.id, UpdateOp,
                                    Null, Null, Some(ScrubDoc(env, cols[ResultName := EndedResult(env, q)])), Some(cols))],
                 db.rows[key := row], db.counters)
            else db
  {
    hide Submit, Script, Lets, Sane, Created, Saved, Transitioned, AwardedTo, EntitySavedTo, Dispatched,
         NextValue, ValidKind, ScrubDoc, Unredacted, EndedRow, EndedResult;
    var key := Key(Tasks, q.id);
    EndPlan(env, db, existing, q);
    var t := Plan(env, db, existing, q);
    if key in db.rows {
      LastIsOld(db, key);
      EndedKeys(env, db.rows[key].cols, q);
      WriteIs(env, db, t);
      EntityWriteLets(env, db, t);
      EndedKeyIsFree(db, q.id);
      if Unredacted(env, t.row.cols) {
        UnredactedIs(env, t.row.cols);
      }
      assert Written(db, t).events == db.events + [t.event];
    } else {
      NothingDone(env, db);
    }
  }

  lemma {:induction false} NothingDone(env: Env, db: Db)
    ensures Submit(env, db, Script(Nothing)) == db
  {
  }

  lemma {:induction false} UnredactedIs(env: Env, cols: Doc)
    requires Unredacted(env, cols)
    ensures ScrubDoc(env, cols) == cols
  {
  }

  lemma {:induction false} EndPlan(env: Env, db: Db, existing: Option<Row>, q: Request)
    requires q.FinishTask? || q.BlockTask?
    ensures var key, t := Key(Tasks, q.id), Plan(env, db, existing, q);
            var cols := EndedRow(env, ColsOf(db, key), q);
            if key in db.rows then
              && t == Write(Event(if q.FinishTask? then TaskFinished else TaskBlockedOnHuman, Of(Tasks), q.id, UpdateOp,
                                  Null, Null, Some(ScrubDoc(env, cols[ResultName := EndedResult(env, q)])),
                                  Some(ScrubDoc(env, cols))),
                            false, key, Row(cols, |db.events| + 1), None)
              && Fits(db, t)
            else t == Nothing
  {
    hide ScrubDoc, Created, Saved, Transitioned, AwardedTo, EntitySavedTo, Dispatched, NextValue, ValidKind;
    ScrubText(env, Null);
  }

  lemma {:induction false} ScrubText(env: Env, j: Json)
    requires j.Null? || j.StateText? || j.Text?
    ensures Scrub(env, j) == if j.Text? then Text(env.redact(j.s)) else j
  {
  }

  lemma {:induction false} EndedKeys(env: Env, was: Doc, q: Request)
    requires (q.FinishTask? || q.BlockTask?) && was.Keys == Columns(Tasks)
    ensures EndedRow(env, was, q).Keys == Columns(Tasks)
    ensures Get(EndedRow(env, was, q), Id) == Get(was, Id)
    ensures Get(EndedRow(env, was, q), IdempotencyKey) == Get(was, IdempotencyKey)
  {
    hide EndedResult;
  }

  lemma {:induction false} EndedKeyIsFree(db: Db, id: string)
    requires Sane(db) && Key(Tasks, id) in db.rows
    ensures KeyIsFree(db, id, Get(db.rows[Key(Tasks, id)].cols, IdempotencyKey))
  {
    hide AllLinked, Get;
    assert UniqueTask(db.rows, Key(Tasks, id), db.rows[Key(Tasks, id)]);
  }

  // ---------------------------------------------------------------- other entities

  /** The payload fields an entity cannot be saved without. */
  function RequiredFields(t: Table): set<Name> {
    match t
    case Certificates => {WitnessSha, EnvHash, Runs, RecordsSha, PolicySha, ControlSha, MacName, IssuedAt}
    case Tasks => {IdempotencyKey}
    case HumanReviews => {SubjectType, SubjectId, ReasonCode, QueuedAt}
    case BudgetReservations => {TaskId, MaxUsd, ReservedUsd}
    case _ => {}
  }

  /** The row that saving a payload is about. */
  function SavedRowOf(env: Env, t: Table, id: string, payload: Doc): Doc {
    var data := ScrubDoc(env, payload);
    EntityRow(env, t, id, data, env.dumps(Obj(data[Id := Text(id)])))
  }

  predicate SaveAdmitted(env: Env, db: Db, t: Table, id: string, payload: Doc) {
    var cols := SavedRowOf(env, t, id, payload);
    && !t.Hypotheses? && RequiredFields(t) <= payload.Keys
    && Unredacted(env, cols)
    && (t.Tasks? ==> KeyIsFree(db, id, Get(cols, IdempotencyKey)))
    && env.permits(db.rows, Key(t, id), Row(cols, |db.events| + 1))
  }

  /** Saving another entity commits exactly when it is admitted, as an insert when the key is free
      and as an update otherwise. */
  lemma {:induction false} SaveCommits(env: Env, db: Db, existing: Option<Row>, t: Table, id: string, payload: Doc)
    requires Sane(db)
    ensures var cols := SavedRowOf(env, t, id, payload);
            var op := if Key(t, id) in db.rows then UpdateOp else InsertOp;
            Perform(env, db, existing, SaveEntity(t, id, payload)) ==
            if SaveAdmitted(env, db, t, id, payload) then
              Db(db.events + [Event(EntitySaved, Of(t), id, op, Null, Null,
                                    Some(ScrubDoc(env, ScrubDoc(env, payload)[KeyColumn(t) := Text(id)])), Some(cols))],
                 db.rows[Key(t, id) := Row(cols, |db.events| + 1)], db.counters)
            else db
  {
    hide Submit, Script, Lets, Sane, Created, Saved, Transitioned, AwardedTo, TaskEnded, Dispatched, EntitySavedTo,
         NextValue, ValidKind, ScrubDoc, Unredacted, EntityRow, SavedRowOf, RequiredFields, KeyIsFree;
    SavePlan(env, db, t, id, payload);
    var w, cols := EntitySavedTo(env, db, t, id, payload), SavedRowOf(env, t, id, payload);
    if w.Write? {
      SavedKeys(env, t, id, payload);
      WriteIs(env, db, w);
      EntityWriteLets(env, db, w);
      if Unredacted(env, cols) {
        UnredactedIs(env, cols);
      }
      assert Written(db, w).events == db.events + [w.event];
    } else {
      NothingDone(env, db);
    }
  }

  lemma {:induction false} SavePlan(env: Env, db: Db, t: Table, id: string, payload: Doc)
    ensures var w, cols := EntitySavedTo(env, db, t, id, payload), SavedRowOf(env, t, id, payload);
            var insert := Key(t, id) !in db.rows;
            if !t.Hypotheses? && RequiredFields(t) <= payload.Keys then
              && w == Write(Event(EntitySaved, Of(t), id, if insert then InsertOp else UpdateOp, Null, Null,
                                  Some(ScrubDoc(env, ScrubDoc(env, payload)[KeyColumn(t) := Text(id)])),
                                  Some(ScrubDoc(env, cols))),
                            insert, Key(t, id), Row(cols, |db.events| + 1), None)
              && Fits(db, w)
            else w == Nothing
  {
    hide ScrubDoc, EntityRow, RequiredFields, Mandatory, Columns, Scrub;
    MandatoryFields(t);
    ScrubText(env, Null);
    var data := ScrubDoc(env, payload);
    assert data.Keys == payload.Keys;
    if exists c :: c in Columns(t) && Mandatory(t, c) && c !in data {
      var c :| c in Columns(t) && Mandatory(t, c) && c !in data;
      assert c in RequiredFields(t) && c !in payload;
    }
  }

  lemma {:induction false} MandatoryFields(t: Table)
    ensures forall c :: c in Columns(t) && Mandatory(t, c) <==> c in RequiredFields(t)
  {
  }

  lemma {:induction false} SavedKeys(env: Env, t: Table, id: string, payload: Doc)
    ensures SavedRowOf(env, t, id, payload).Keys == Columns(t)
    ensures Get(SavedRowOf(env, t, id, payload), KeyColumn(t)) == Text(id)
  {
    hide ScrubDoc, Columns, Source, Default;
    KeyColumnIsColumn(t);
  }

  lemma {:induction false} KeyColumnIsColumn(t: Table)
    ensures KeyColumn(t) in Columns(t)
  {
  }

  /** What a column holds when the payload does not name it. */
  function Omitted(t: Table): Doc {
    match t
    case Assumptions => map[Status := Text("unverified")]
    case Invariants => map[Status := Text("candidate")]
    case Obligations => map[Status := Text("open"), Attempts := Num(0, 0), Depth := Num(0, 0)]
    case Findings => map[HumanReview := Text("pending")]
    case Tasks => map[Status := Text("dispatched")]
    case HumanReviews => map[Status := Text("queued")]
    case BudgetReservations => map[SettledUsd := Num(0, 0), ReleasedUsd := Num(0, 0), Status := Text("reserved")]
    case _ => map[]
  }

  /** Column by column, the row a save is about: key, body and result text apart, each column is the
      redacted payload field, or what omitting it means. */
  lemma {:induction false} SavedRowReads(env: Env, t: Table, id: string, payload: Doc, c: Name)
    requires c in Columns(t) && !t.Hypotheses?
    ensures SavedRowOf(env, t, id, payload).Keys == Columns(t)
    ensures Get(SavedRowOf(env, t, id, payload), c) ==
            if c == KeyColumn(t) then Text(id)
            else if c == Body then Text(env.dumps(Obj(ScrubDoc(env, payload)[Id := Text(id)])))
            else if c == ResultName then
              if Get(payload, ResultName).Null? then Null else Text(env.dumps(Scrub(env, Get(payload, ResultName))))
            else if c == HypId then Scrub(env, Get(payload, HypothesisId))
            else if c in payload then Scrub(env, payload[c])
            else Get(Omitted(t), c)
  {
    hide Scrub, Columns, KeyColumn, Default, Omitted, ScrubDoc, Cell;
    var data, body := ScrubDoc(env, payload), env.dumps(Obj(ScrubDoc(env, payload)[Id := Text(id)]));
    assert SavedRowOf(env, t, id, payload)[c] == Cell(env, t, id, data, body, c);
    CellReads(env, t, id, payload, body, c);
  }

  lemma {:induction false} CellReads(env: Env, t: Table, id: string, payload: Doc, body: string, c: Name)
    ensures Cell(env, t, id, ScrubDoc(env, payload), body, c) ==
            if c == KeyColumn(t) then Text(id)
            else if c == Body then Text(body)
            else if c == ResultName then
              if Get(payload, ResultName).Null? then Null else Text(env.dumps(Scrub(env, Get(payload, ResultName))))
            else if c == HypId then Scrub(env, Get(payload, HypothesisId))
            else if c in payload then Scrub(env, payload[c])
            else Get(Omitted(t), c)
  {
    hide Scrub, KeyColumn, Default, Omitted, ScrubDoc;
    var data := ScrubDoc(env, payload);
    ScrubText(env, Null);
    ScrubNull(env, Get(payload, ResultName));
    assert Get(data, ResultName) == Scrub(env, Get(payload, ResultName));
    assert Get(data, HypothesisId) == Scrub(env, Get(payload, HypothesisId));
    assert Get(data, c) == Scrub(env, Get(payload, c));
    OmittedIsDefault(t, c);
    NoDefaultHypothesis(t);
  }

  lemma {:induction false} ScrubNull(env: Env, j: Json)
    ensures Scrub(env, j).Null? <==> j.Null?
  {
  }

  lemma {:induction false} OmittedIsDefault(t: Table, c: Name)
    ensures Default(t, c) == Get(Omitted(t), c)
  {
    hide Default, Omitted;
    if t.Obligations? {
      OmittedObligation(c);
    } else if t.BudgetReservations? {
      OmittedReservation(c);
    } else {
      OmittedElsewhere(t, c);
    }
  }

  lemma {:induction false} OmittedObligation(c: Name)
    ensures Default(Obligations, c) == Get(Omitted(Obligations), c)
  {
  }

  lemma {:induction false} OmittedReservation(c: Name)
    ensures Default(BudgetReservations, c) == Get(Omitted(BudgetReservations), c)
  {
  }

  lemma {:induction false} OmittedElsewhere(t: Table, c: Name)
    requires !t.Obligations? && !t.BudgetReservations?
    ensures Default(t, c) == Get(Omitted(t), c)
  {
  }

  lemma {:induction false} NoDefaultHypothesis(t: Table)
    ensures Default(t, HypId) == Null
  {
  }

  // ---------------------------------------------------------------- hypotheses

  /** What the trigger of a hypothesis update asks, beyond the row being there and later. */
  lemma {:induction false} HypothesisWriteLets(env: Env, db: Db, t: Txn)
    requires t.Write? && Fits(db, t) && t.key.table.Hypotheses? && Sane(db) && !t.insert
    requires Get(t.row.cols, Id) == Text(t.key.id) && State in t.row.cols
    requires t.event.kind.HypUpdated? || t.event.kind.HypTransition? || t.event.kind.HypLadderAward?
    ensures Lets(env, db, t) <==>
            && t.row.cols == SnapshotRow(Hypotheses, t.event.rowSnapshot.value)
            && env.permits(db.rows, t.key, t.row)
            && (Get(db.rows[t.key].cols, State) != t.row.cols[State] ==>
                  && LegalChange(Get(db.rows[t.key].cols, State), t.row.cols[State])
                  && t.event.kind.HypTransition?
                  && t.event.from == Get(db.rows[t.key].cols, State) && t.event.to == t.row.cols[State])
  {
    hide SnapshotRow, Linked, Get, LegalChange;
    LinkedNow(db, t);
    LastIsOld(db, t.key);
  }

  /** The document a creation stores. */
  function CreatedDoc(env: Env, id: string, payload: Doc): Doc {
    ScrubDoc(env, payload)[Id := Text(id)][State := StateText(OPEN)]
  }

  function RowOf(env: Env, doc: Doc): Doc {
    HypRow(doc, env.dumps(Obj(doc)))
  }

  /** The payload names no state but OPEN, the id is free, no text of the row is redacted, and the
      row is permitted. */
  predicate CreateAdmitted(env: Env, db: Db, id: string, payload: Doc) {
    var cols := RowOf(env, CreatedDoc(env, id, payload));
    && (State in payload ==> payload[State] == StateText(OPEN))
    && Key(Hypotheses, id) !in db.rows
    && Unredacted(env, cols)
    && env.permits(db.rows, Key(Hypotheses, id), Row(cols, |db.events| + 1))
  }

  lemma {:induction false} CreateCommits(env: Env, db: Db, existing: Option<Row>, id: string, payload: Doc)
    requires Sane(db)
    ensures var doc := CreatedDoc(env, id, payload);
            var cols := RowOf(env, doc);
            Perform(env, db, existing, CreateHypothesis(id, payload)) ==
            if CreateAdmitted(env, db, id, payload) then
              Db(db.events + [Event(HypCreated, Of(Hypotheses), id, InsertOp, Null, Null, Some(ScrubDoc(env, doc)), Some(cols))],
                 db.rows[Key(Hypotheses, id) := Row(cols, |db.events| + 1)], db.counters)
            else db
  {
    hide Submit, Script, Lets, Sane, Created, Saved, Transitioned, AwardedTo, TaskEnded, Dispatched, EntitySavedTo,
         NextValue, ValidKind, ScrubDoc, Unredacted, RowOf, CreatedDoc, SnapshotRow, Linked, Get;
    CreatePlan(env, db, id, payload);
    var t, doc := Created(env, db, id, payload), CreatedDoc(env, id, payload);
    if t.Write? {
      RowOfFields(env, doc);
      CreatedFields(env, id, payload);
      WriteIs(env, db, t);
      LinkedNow(db, t);
      MatchIsUnredacted(env, Hypotheses, t.row.cols);
      CreateLets(env, db, t);
      if Unredacted(env, t.row.cols) {
        UnredactedIs(env, t.row.cols);
      }
      assert Written(db, t).events == db.events + [t.event];
    } else {
      NothingDone(env, db);
    }
  }

  lemma {:induction false} CreateLets(env: Env, db: Db, t: Txn)
    requires t.Write? && Fits(db, t) && t.key.table.Hypotheses? && t.insert && t.event.kind.HypCreated?
    requires Get(t.row.cols, Id) == Text(t.key.id) && State in t.row.cols && t.row.cols[State] == StateText(OPEN)
    ensures Lets(env, db, t) <==>
            && t.key !in db.rows && t.row.cols == SnapshotRow(Hypotheses, t.event.rowSnapshot.value)
            && env.permits(db.rows, t.key, t.row)
  {
    hide SnapshotRow, Linked, Get;
    LinkedNow(db, t);
  }

  lemma {:induction false} RowOfFields(env: Env, doc: Doc)
    ensures RowOf(env, doc).Keys == Columns(Hypotheses)
    ensures Get(RowOf(env, doc), Id) == Get(doc, Id)
    ensures State in RowOf(env, doc) && RowOf(env, doc)[State] == Get(doc, State)
  {
  }

  lemma {:induction false} CreatedFields(env: Env, id: string, payload: Doc)
    ensures Get(CreatedDoc(env, id, payload), Id) == Text(id)
    ensures Get(CreatedDoc(env, id, payload), State) == StateText(OPEN)
  {
    hide ScrubDoc;
  }

  lemma {:induction false} CreatePlan(env: Env, db: Db, id: string, payload: Doc)
    ensures var t, doc := Created(env, db, id, payload), CreatedDoc(env, id, payload);
            if State in payload ==> payload[State] == StateText(OPEN) then
              && t == Write(Event(HypCreated, Of(Hypotheses), id, InsertOp, Null, Null, Some(ScrubDoc(env, doc)),
                                  Some(ScrubDoc(env, RowOf(env, doc)))),
                            true, Key(Hypotheses, id), Row(RowOf(env, doc), |db.events| + 1), None)
              && Fits(db, t)
            else t == Nothing
  {
    hide Scrub, HypRow;
    ScrubText(env, Null);
    var named := ScrubDoc(env, payload)[Id := Text(id)];
    if State in payload {
      OnlyStateScrubsToState(env, payload[State], OPEN);
      if payload[State] == StateText(OPEN) {
        assert named[State := StateText(OPEN)] == named;
      }
    }
  }

  lemma {:induction false} OnlyStateScrubsToState(env: Env, j: Json, s: HState)
    ensures Scrub(env, j) == StateText(s) <==> j == StateText(s)
  {
  }

  /** The document a transition stores: the caller's object moved on. */
  function MovedDoc(h: Hyp, m: Move): Doc {
    var life := After(Life(h.state, h.reopenCount), m);
    Dump(h.(state := life.state, reopenCount := life.reopenCount))
  }

  /** The columns after an update that sets state and details from a document. */
  function UpdatedCols(env: Env, was: Doc, doc: Doc): Doc {
    was[State := Get(doc, State)][Lens := Get(doc, Lens)][ProtocolType := Get(doc, ProtocolType)]
       [PriorP := Get(doc, PriorP)][Body := Text(env.dumps(Obj(ScrubDoc(env, doc))))]
  }

  /** The lifecycle accepts the move from the state the row is in, no text of the row is redacted, and
      the row is permitted. */
  predicate TransitionAdmitted(env: Env, db: Db, h: Hyp, m: Move) {
    var key := Key(Hypotheses, h.id);
    && Accepts(Life(h.state, h.reopenCount), m)
    && key in db.rows && Get(db.rows[key].cols, State) == StateText(h.state)
    && var cols := UpdatedCols(env, db.rows[key].cols, MovedDoc(h, m));
       Unredacted(env, cols) && env.permits(db.rows, key, Row(cols, |db.events| + 1))
  }

  /** A transition commits exactly when it is admitted, and then leaves one transition event, one more
      event on the third reopening, and the row. */
  lemma {:induction false} TransitionCommits(env: Env, db: Db, existing: Option<Row>, h: Hyp, m: Move)
    requires Sane(db)
    ensures var key, doc := Key(Hypotheses, h.id), MovedDoc(h, m);
            var cols := UpdatedCols(env, ColsOf(db, key), doc);
            var third := h.state in {CLOSED, CLOSED_DUPLICATE, MERGED} && m.to == INVESTIGATING && h.reopenCount == 2;
            Perform(env, db, existing, TransitionHypothesis(h, m)) ==
            if TransitionAdmitted(env, db, h, m) then
              Db(db.events + [Event(HypTransition, Of(Hypotheses), h.id, UpdateOp, StateText(h.state), StateText(m.to),
                                    Some(ScrubDoc(env, doc)), Some(cols))]
                 + (if third then [Event(ReopenThresholdExceeded, Of(Hypotheses), h.id, NoOp, Null, Null, None, None)] else []),
                 db.rows[key := Row(cols, |db.events| + 1)], db.counters)
            else db
  {
    hide Submit, Script, Lets, Sane, Created, Saved, Transitioned, AwardedTo, TaskEnded, Dispatched, EntitySavedTo,
         NextValue, ValidKind, ScrubDoc, Unredacted, UpdatedCols, MovedDoc, SnapshotRow, Linked, Get, Accepts, HypRow,
         LegalChange;
    TransitionPlan(env, db, h, m);
    var t, key := Transitioned(env, db, h, m), Key(Hypotheses, h.id);
    if t.Write? {
      LastIsOld(db, key);
      MovedState(h, m);
      UpdatedFields(env, db.rows[key].cols, MovedDoc(h, m));
      WriteIs(env, db, t);
      HypothesisWriteLets(env, db, t);
      AcceptedIsLegal(h, m);
      MovedId(h, m);
      UpdatedMatches(env, db.rows[key].cols, MovedDoc(h, m), h.id);
      if Unredacted(env, t.row.cols) {
        UnredactedIs(env, t.row.cols);
      }
    } else {
      NothingDone(env, db);
    }
  }

  lemma {:induction false} MovedState(h: Hyp, m: Move)
    requires Accepts(Life(h.state, h.reopenCount), m)
    ensures Get(MovedDoc(h, m), State) == StateText(m.to)
  {
    hide Accepts, IsReopen;
  }

  lemma {:induction false} MovedId(h: Hyp, m: Move)
    ensures Get(MovedDoc(h, m), Id) == Text(h.id)
  {
    hide After;
  }

  lemma {:induction false} AcceptedIsLegal(h: Hyp, m: Move)
    requires Accepts(Life(h.state, h.reopenCount), m)
    ensures LegalChange(StateText(h.state), StateText(m.to))
  {
    hide LegalTransitions, Clean, Strip, Meets, Demands, ReopenOk, IsReopen;
  }

  lemma {:induction false} UpdatedFields(env: Env, was: Doc, doc: Doc)
    requires was.Keys == Columns(Hypotheses)
    ensures UpdatedCols(env, was, doc).Keys == Columns(Hypotheses)
    ensures Get(UpdatedCols(env, was, doc), Id) == Get(was, Id)
    ensures State in UpdatedCols(env, was, doc) && UpdatedCols(env, was, doc)[State] == Get(doc, State)
  {
    hide ScrubDoc;
  }

  /** The announced snapshot is that of the updated columns themselves. */
  lemma {:induction false} UpdatedMatches(env: Env, was: Doc, doc: Doc, id: string)
    requires was.Keys == Columns(Hypotheses) && Get(was, Id) == Get(doc, Id)
    ensures HypRow(doc, env.dumps(Obj(ScrubDoc(env, doc)))) == UpdatedCols(env, was, doc)
    ensures UpdatedCols(env, was, doc) == SnapshotRow(Hypotheses, ScrubDoc(env, UpdatedCols(env, was, doc))) <==>
            Unredacted(env, UpdatedCols(env, was, doc))
  {
    hide ScrubDoc, Unredacted, SnapshotRow, HypRow, UpdatedCols;
    UpdatedFields(env, was, doc);
    MatchIsUnredacted(env, Hypotheses, UpdatedCols(env, was, doc));
    UpdatedIsRow(env, was, doc);
  }

  lemma {:induction false} UpdatedIsRow(env: Env, was: Doc, doc: Doc)
    requires was.Keys == Columns(Hypotheses) && Get(was, Id) == Get(doc, Id)
    ensures HypRow(doc, env.dumps(Obj(ScrubDoc(env, doc)))) == UpdatedCols(env, was, doc)
  {
    hide ScrubDoc;
    var row, cols := HypRow(doc, env.dumps(Obj(ScrubDoc(env, doc)))), UpdatedCols(env, was, doc);
    assert row.Keys == cols.Keys;
    forall n | n in row
      ensures row[n] == cols[n]
    {
    }
  }

  lemma {:induction false} TransitionPlan(env: Env, db: Db, h: Hyp, m: Move)
    ensures var t, key, doc := Transitioned(env, db, h, m), Key(Hypotheses, h.id), MovedDoc(h, m);
            var body := env.dumps(Obj(ScrubDoc(env, doc)));
            var third := h.state in {CLOSED, CLOSED_DUPLICATE, MERGED} && m.to == INVESTIGATING && h.reopenCount == 2;
            if Accepts(Life(h.state, h.reopenCount), m) && key in db.rows
               && Get(db.rows[key].cols, State) == StateText(h.state) then
              && t == Write(Event(HypTransition, Of(Hypotheses), h.id, UpdateOp, StateText(h.state), StateText(m.to),
                                  Some(ScrubDoc(env, doc)), Some(ScrubDoc(env, HypRow(doc, body)))),
                            false, key, Row(UpdatedCols(env, db.rows[key].cols, doc), |db.events| + 1),
                            if third then Some(Event(ReopenThresholdExceeded, Of(Hypotheses), h.id, NoOp, Null, Null, None, None))
                            else None)
              && Fits(db, t)
            else t == Nothing
  {
    hide Scrub, ScrubDoc, HypRow, Clean, Strip, Meets, Demands, ReopenOk, LegalTransitions, Dump;
    ScrubText(env, StateText(h.state));
    ScrubText(env, StateText(m.to));
    if Accepts(Life(h.state, h.reopenCount), m) {
      MovedState(h, m);
    }
  }

  /** The document an award stores: the caller's object one rung further. */
  function RaisedDoc(h: Hyp, proof: Proof): Doc {
    Dump(h.(rungs := h.rungs[proof.axis := proof.level]))
  }

  function RaisedText(env: Env, h: Hyp, proof: Proof): Json {
    Text(env.dumps(Obj(ScrubDoc(env, RaisedDoc(h, proof)))))
  }

  /** The award is won, the stored body and the row are in the object's state, the row's other columns
      are those the object announces, no text is redacted, and the row is permitted. */
  predicate AwardAdmitted(env: Env, db: Db, h: Hyp, token: Token, proof: Proof) {
    var key, doc, text := Key(Hypotheses, h.id), RaisedDoc(h, proof), RaisedText(env, h, proof);
    && Outcome(env.mac, h.rungs, Attempt(token, h.state, proof.axis, proof.level, Some(proof))).Awarded?
    && key in db.rows
    && var was := db.rows[key].cols;
       && BodyDoc(env, was).Some? && Get(BodyDoc(env, was).value, State) == StateText(h.state)
       && Get(was, State) == StateText(h.state)
       && Get(was, Lens) == Scrub(env, Get(doc, Lens))
       && Get(was, ProtocolType) == Scrub(env, Get(doc, ProtocolType))
       && Get(was, PriorP) == Scrub(env, Get(doc, PriorP))
       && env.redact(h.id) == h.id && Scrub(env, text) == text
       && env.permits(db.rows, key, Row(was[Body := text], |db.events| + 1))
  }

  /** An award commits exactly when it is admitted, and then leaves one award event and the new body. */
  lemma {:induction false} AwardCommits(env: Env, db: Db, existing: Option<Row>, h: Hyp, token: Token, proof: Proof)
    requires Sane(db)
    ensures var key := Key(Hypotheses, h.id);
            var cols := ColsOf(db, key)[Body := RaisedText(env, h, proof)];
            Perform(env, db, existing, AwardLadder(h, token, proof)) ==
            if AwardAdmitted(env, db, h, token, proof) then
              Db(db.events + [Event(HypLadderAward, Of(Hypotheses), h.id, UpdateOp, Null, Null,
                                    Some(ScrubDoc(env, RaisedDoc(h, proof))), Some(cols))],
                 db.rows[key := Row(cols, |db.events| + 1)], db.counters)
            else db
  {
    hide Submit, Script, Lets, Sane, Created, Saved, Transitioned, AwardedTo, TaskEnded, Dispatched, EntitySavedTo,
         NextValue, ValidKind, ScrubDoc, Scrub, RaisedDoc, RaisedText, SnapshotRow, Linked, Get, Outcome, HypRow,
         LegalChange, BodyDoc;
    AwardPlan(env, db, h, token, proof);
    var t, key := AwardedTo(env, db, h, token, proof), Key(Hypotheses, h.id);
    if t.Write? {
      var was, doc, text := db.rows[key].cols, RaisedDoc(h, proof), RaisedText(env, h, proof);
      LastIsOld(db, key);
      BodyFields(was, text);
      WriteIs(env, db, t);
      HypothesisWriteLets(env, db, t);
      RaisedFields(h, proof);
      RaisedMatches(env, was, doc, text, h);
      assert Written(db, t).events == db.events + [t.event];
    } else {
      NothingDone(env, db);
    }
  }

  lemma {:induction false} BodyFields(was: Doc, text: Json)
    requires was.Keys == Columns(Hypotheses)
    ensures was[Body := text].Keys == Columns(Hypotheses) && State in was
    ensures Get(was[Body := text], Id) == Get(was, Id) && was[Body := text][State] == Get(was, State)
  {
  }

  lemma {:induction false} RaisedFields(h: Hyp, proof: Proof)
    ensures Get(RaisedDoc(h, proof), Id) == Text(h.id) && Get(RaisedDoc(h, proof), State) == StateText(h.state)
  {
  }

  lemma {:induction false} RaisedMatches(env: Env, was: Doc, doc: Doc, text: Json, h: Hyp)
    requires was.Keys == Columns(Hypotheses) && Get(was, Id) == Text(h.id) && text.Text?
    requires Get(doc, Id) == Text(h.id) && Get(doc, State) == StateText(h.state)
    ensures var cols, announced := was[Body := text], ScrubDoc(env, HypRow(doc, text.s));
            cols == SnapshotRow(Hypotheses, announced) <==>
            && env.redact(h.id) == h.id && Get(was, State) == StateText(h.state)
            && Get(was, Lens) == Scrub(env, Get(doc, Lens))
            && Get(was, ProtocolType) == Scrub(env, Get(doc, ProtocolType))
            && Get(was, PriorP) == Scrub(env, Get(doc, PriorP))
            && Scrub(env, text) == text
    ensures var cols, announced := was[Body := text], ScrubDoc(env, HypRow(doc, text.s));
            cols == SnapshotRow(Hypotheses, announced) ==> announced == cols
  {
    hide Scrub;
    var cols, row := was[Body := text], HypRow(doc, text.s);
    var announced := ScrubDoc(env, row);
    ScrubText(env, Text(h.id));
    ScrubText(env, StateText(h.state));
    RowMatches(env, cols, row);
  }

  /** Column by column. */
  lemma {:induction false} RowMatches(env: Env, cols: Doc, row: Doc)
    requires cols.Keys == Columns(Hypotheses) && row.Keys == Columns(Hypotheses)
    ensures cols == SnapshotRow(Hypotheses, ScrubDoc(env, row)) <==>
            && Get(cols, Id) == Scrub(env, Get(row, Id)) && Get(cols, State) == Scrub(env, Get(row, State))
            && Get(cols, Lens) == Scrub(env, Get(row, Lens)) && Get(cols, PriorP) == Scrub(env, Get(row, PriorP))
            && Get(cols, ProtocolType) == Scrub(env, Get(row, ProtocolType))
            && Get(cols, Body) == Scrub(env, Get(row, Body))
    ensures cols == SnapshotRow(Hypotheses, ScrubDoc(env, row)) ==> ScrubDoc(env, row) == cols
  {
    hide Scrub;
    var announced := ScrubDoc(env, row);
    forall n | n in Columns(Hypotheses)
      ensures SnapshotRow(Hypotheses, announced)[n] == Scrub(env, Get(row, n)) == Get(announced, n)
    {
    }
    if && Get(cols, Id) == Scrub(env, Get(row, Id)) && Get(cols, State) == Scrub(env, Get(row, State))
       && Get(cols, Lens) == Scrub(env, Get(row, Lens)) && Get(cols, PriorP) == Scrub(env, Get(row, PriorP))
       && Get(cols, ProtocolType) == Scrub(env, Get(row, ProtocolType)) && Get(cols, Body) == Scrub(env, Get(row, Body)) {
      forall n | n in Columns(Hypotheses)
        ensures cols[n] == SnapshotRow(Hypotheses, announced)[n]
      {
      }
      assert cols == SnapshotRow(Hypotheses, announced);
    }
  }

  lemma {:induction false} AwardPlan(env: Env, db: Db, h: Hyp, token: Token, proof: Proof)
    ensures var t, key, doc := AwardedTo(env, db, h, token, proof), Key(Hypotheses, h.id), RaisedDoc(h, proof);
            var text := RaisedText(env, h, proof);
            if Outcome(env.mac, h.rungs, Attempt(token, h.state, proof.axis, proof.level, Some(proof))).Awarded?
               && key in db.rows && BodyDoc(env, db.rows[key].cols).Some?
               && Get(BodyDoc(env, db.rows[key].cols).value, State) == StateText(h.state) then
              && text.Text?
              && t == Write(Event(HypLadderAward, Of(Hypotheses), h.id, UpdateOp, Null, Null,
                                  Some(ScrubDoc(env, doc)), Some(ScrubDoc(env, HypRow(doc, text.s)))),
                            false, key, Row(db.rows[key].cols[Body := text], |db.events| + 1), None)
              && Fits(db, t)
            else t == Nothing
  {
    hide Scrub, ScrubDoc, HypRow, ValidateAward, BodyDoc, Dump, Get;
    ScrubText(env, Null);
  }

  // ---------------------------------------------------------------- saving an existing hypothesis

  /** Field by field, what a save stores: the payload wins over the body it had read, cause and
      evidence are not stored, id and state are the row's. */
  function SavedDoc(env: Env, existing: Doc, body: Doc, id: string, payload: Doc): Doc {
    map n | n in body.Keys + (payload.Keys - {Cause, Evidence}) + {Id, State} ::
      if n == Id then Scrub(env, Text(id))
      else if n == State then Scrub(env, Get(existing, State))
      else if n in payload && n != Cause && n != Evidence then Scrub(env, payload[n])
      else Scrub(env, Get(body, n))
  }

  function SavedCols(env: Env, was: Doc, doc: Doc): Doc {
    was[Lens := Get(doc, Lens)][ProtocolType := Get(doc, ProtocolType)][PriorP := Get(doc, PriorP)]
       [Body := Text(env.dumps(Obj(doc)))]
  }

  /** The payload names no other state, carries cause and evidence, the body read can be parsed, the
      row is still in the state read, no text is redacted, and the row is permitted. */
  predicate SaveHypothesisAdmitted(env: Env, db: Db, existing: Doc, id: string, payload: Doc) {
    var key := Key(Hypotheses, id);
    && (State in payload ==> payload[State] == Get(existing, State))
    && Cause in payload && Evidence in payload
    && BodyDoc(env, existing).Some?
    && key in db.rows && Get(db.rows[key].cols, State) == Scrub(env, Get(existing, State))
    && env.redact(id) == id
    && var doc := SavedDoc(env, existing, BodyDoc(env, existing).value, id, payload);
       && Scrub(env, Text(env.dumps(Obj(doc)))) == Text(env.dumps(Obj(doc)))
       && env.permits(db.rows, key, Row(SavedCols(env, db.rows[key].cols, doc), |db.events| + 1))
  }

  /** A save on a hypothesis that was there when it was read commits exactly when it is admitted. It
      then stores the payload over the body that was read, field by field, and logs what it stored. */
  lemma {:induction false} SaveHypothesisCommits(env: Env, db: Db, existing: Row, id: string, payload: Doc)
    requires Faithful(env) && Sane(db) && Key(Hypotheses, id) in db.rows
    ensures var key := Key(Hypotheses, id);
            var body := if BodyDoc(env, existing.cols).Some? then BodyDoc(env, existing.cols).value else map[];
            var doc := SavedDoc(env, existing.cols, body, id, payload);
            var cols := SavedCols(env, db.rows[key].cols, doc);
            Perform(env, db, Some(existing), SaveHypothesis(id, payload)) ==
            if SaveHypothesisAdmitted(env, db, existing.cols, id, payload) then
              Db(db.events + [Event(HypUpdated, Of(Hypotheses), id, UpdateOp, Null, Null, Some(doc), Some(cols))],
                 db.rows[key := Row(cols, |db.events| + 1)], db.counters)
            else db
  {
    hide Submit, Script, Lets, Sane, Created, Saved, Transitioned, AwardedTo, TaskEnded, Dispatched, EntitySavedTo,
         NextValue, ValidKind, ScrubDoc, Scrub, SavedDoc, SavedCols, SnapshotRow, Linked, Get, HypRow, LegalChange,
         BodyDoc, Faithful;
    SavePlanOf(env, db, existing, id, payload);
    var t, key := Saved(env, db, Some(existing), id, payload), Key(Hypotheses, id);
    if t.Write? {
      var was := db.rows[key].cols;
      var doc := SavedDoc(env, existing.cols, BodyDoc(env, existing.cols).value, id, payload);
      LastIsOld(db, key);
      SavedColsFields(env, was, doc);
      WriteIs(env, db, t);
      HypothesisWriteLets(env, db, t);
      SavedMatches(env, was, existing.cols, BodyDoc(env, existing.cols).value, id, payload);
      assert Written(db, t).events == db.events + [t.event];
    } else {
      NothingDone(env, db);
    }
  }

  lemma {:induction false} SavedColsFields(env: Env, was: Doc, doc: Doc)
    requires was.Keys == Columns(Hypotheses)
    ensures SavedCols(env, was, doc).Keys == Columns(Hypotheses)
    ensures Get(SavedCols(env, was, doc), Id) == Get(was, Id)
    ensures State in was && SavedCols(env, was, doc)[State] == Get(was, State)
  {
  }

  lemma {:induction false} SavedFields(env: Env, existing: Doc, body: Doc, id: string, payload: Doc)
    requires Faithful(env)
    ensures var doc := SavedDoc(env, existing, body, id, payload);
            && Get(doc, Id) == Text(env.redact(id)) && Get(doc, State) == Scrub(env, Get(existing, State))
            && (forall n :: n in doc ==> Scrub(env, doc[n]) == doc[n])
            && ScrubDoc(env, doc) == doc
  {
    hide Scrub, Faithful, ScrubDoc;
    var doc := SavedDoc(env, existing, body, id, payload);
    ScrubText(env, Text(id));
    forall n | n in doc
      ensures Scrub(env, doc[n]) == doc[n]
    {
      ScrubTwice(env, if n == Id then Text(id) else if n == State then Get(existing, State)
                      else if n in payload && n != Cause && n != Evidence then payload[n] else Get(body, n));
    }
    ScrubFixed(env, doc);
  }

  lemma {:induction false} FixedField(env: Env, doc: Doc, n: Name)
    requires forall m :: m in doc ==> Scrub(env, doc[m]) == doc[m]
    ensures Scrub(env, Get(doc, n)) == Get(doc, n)
  {
  }

  lemma {:induction false} SavedMatches(env: Env, was: Doc, existing: Doc, body: Doc, id: string, payload: Doc)
    requires Faithful(env) && was.Keys == Columns(Hypotheses) && Get(was, Id) == Text(id)
    ensures var doc := SavedDoc(env, existing, body, id, payload);
            var text, cols := env.dumps(Obj(doc)), SavedCols(env, was, doc);
            var announced := ScrubDoc(env, HypRow(doc, text));
            && (cols == SnapshotRow(Hypotheses, announced) <==>
                  && env.redact(id) == id && Get(was, State) == Scrub(env, Get(existing, State))
                  && Scrub(env, Text(text)) == Text(text))
            && (cols == SnapshotRow(Hypotheses, announced) ==> announced == cols)
            && ScrubDoc(env, doc) == doc
  {
    hide Scrub, ScrubDoc, SavedDoc, Faithful, SnapshotRow;
    var doc := SavedDoc(env, existing, body, id, payload);
    var text, cols := env.dumps(Obj(doc)), SavedCols(env, was, doc);
    SavedFields(env, existing, body, id, payload);
    FixedField(env, doc, Id);
    FixedField(env, doc, State);
    FixedField(env, doc, Lens);
    FixedField(env, doc, ProtocolType);
    FixedField(env, doc, PriorP);
    SavedColsFields(env, was, doc);
    RowMatches(env, cols, HypRow(doc, text));
  }

  lemma {:induction false} MergeIsSaved(env: Env, existing: Doc, body: Doc, id: string, payload: Doc)
    ensures ScrubDoc(env, (body + (payload - {Cause, Evidence}))[Id := Text(id)][State := Get(existing, State)])
            == SavedDoc(env, existing, body, id, payload)
  {
    hide Scrub;
    var raw := (body + (payload - {Cause, Evidence}))[Id := Text(id)][State := Get(existing, State)];
    var doc := SavedDoc(env, existing, body, id, payload);
    assert raw.Keys == doc.Keys;
    forall n | n in raw
      ensures Scrub(env, raw[n]) == doc[n]
    {
    }
  }

  lemma {:induction false} SavePlanOf(env: Env, db: Db, existing: Row, id: string, payload: Doc)
    requires Key(Hypotheses, id) in db.rows
    ensures var t, key := Saved(env, db, Some(existing), id, payload), Key(Hypotheses, id);
            if (State in payload ==> payload[State] == Get(existing.cols, State))
               && Cause in payload && Evidence in payload && BodyDoc(env, existing.cols).Some? then
              var doc := SavedDoc(env, existing.cols, BodyDoc(env, existing.cols).value, id, payload);
              && t == Write(Event(HypUpdated, Of(Hypotheses), id, UpdateOp, Null, Null, Some(ScrubDoc(env, doc)),
                                  Some(ScrubDoc(env, HypRow(doc, env.dumps(Obj(doc)))))),
                            false, key, Row(SavedCols(env, db.rows[key].cols, doc), |db.events| + 1), None)
              && Fits(db, t)
            else t == Nothing
  {
    hide Scrub, ScrubDoc, HypRow, SavedDoc, BodyDoc, Get;
    ScrubText(env, Null);
    if BodyDoc(env, existing.cols).Some? {
      MergeIsSaved(env, existing.cols, BodyDoc(env, existing.cols).value, id, payload);
    }
  }

  /** What a committed save on a known hypothesis leaves to be read. A stored field other than id and
      state is the redacted payload field if the payload has it, cause and evidence apart, and else the
      redacted field of the body that was read; id and state are the row's, and the columns follow. */
  lemma {:induction false} SaveHypothesisReadsBack(env: Env, db: Db, existing: Row, id: string, payload: Doc)
    requires Faithful(env) && Sane(db) && Key(Hypotheses, id) in db.rows
    requires |Perform(env, db, Some(existing), SaveHypothesis(id, payload)).events| > |db.events|
    ensures BodyDoc(env, existing.cols).Some? && Key(Hypotheses, id) in Perform(env, db, Some(existing), SaveHypothesis(id, payload)).rows
    ensures var was, now := db.rows[Key(Hypotheses, id)].cols, Perform(env, db, Some(existing), SaveHypothesis(id, payload)).rows[Key(Hypotheses, id)].cols;
            && BodyDoc(env, now).Some?
            && var body, doc := BodyDoc(env, existing.cols).value, BodyDoc(env, now).value;
               && (forall n :: n !in {Id, State} ==>
                     && Get(doc, n) == (if n in payload && n !in {Cause, Evidence} then Scrub(env, payload[n]) else Scrub(env, Get(body, n)))
                     && (n in doc <==> n in body || (n in payload && n !in {Cause, Evidence})))
               && Get(doc, Id) == Text(id) && Get(doc, State) == Get(was, State)
               && Get(now, Id) == Get(was, Id) && Get(now, State) == Get(was, State)
               && Get(now, Lens) == Get(doc, Lens) && Get(now, ProtocolType) == Get(doc, ProtocolType) && Get(now, PriorP) == Get(doc, PriorP)
  {
    hide Perform, Faithful, Scrub, BodyDoc, SavedDoc, Sane;
    SaveHypothesisCommits(env, db, existing, id, payload);
    var was, body := db.rows[Key(Hypotheses, id)].cols, BodyDoc(env, existing.cols).value;
    var doc := SavedDoc(env, existing.cols, body, id, payload);
    StoredText(env, SavedCols(env, was, doc), doc);
    SavedByField(env, existing.cols, body, id, payload);
    ScrubText(env, Text(id));
  }

  lemma {:induction false} StoredText(env: Env, cols: Doc, doc: Doc)
    requires Faithful(env) && Get(cols, Body) == Text(env.dumps(Obj(doc)))
    ensures BodyDoc(env, cols) == Some(doc)
  {
    assert env.loads(env.dumps(Obj(doc))) == Obj(doc);
  }

  lemma {:induction false} SavedByField(env: Env, existing: Doc, body: Doc, id: string, payload: Doc)
    ensures var doc := SavedDoc(env, existing, body, id, payload);
            && Get(doc, Id) == Scrub(env, Text(id)) && Get(doc, State) == Scrub(env, Get(existing, State))
            && forall n :: n !in {Id, State} ==>
                 && Get(doc, n) == (if n in payload && n !in {Cause, Evidence} then Scrub(env, payload[n]) else Scrub(env, Get(body, n)))
                 && (n in doc <==> n in body || (n in payload && n !in {Cause, Evidence}))
  {
    hide Scrub;
    ScrubNull(env, Null);
  }

  /** A save on an unknown hypothesis is its creation. */
  lemma {:induction false} SaveOfUnknownCreates(env: Env, db: Db, existing: Option<Row>, id: string, payload: Doc)
    ensures Perform(env, db, None, SaveHypothesis(id, payload)) == Perform(env, db, existing, CreateHypothesis(id, payload))
  {
    hide Created, Submit;
  }

  // ---------------------------------------------------------------- bare events and identifiers

  /** A bare event is appended, redacted, exactly when its kind is listed and an entity_saved event
      says whether it inserts or updates. */
  lemma {:induction false} RecordCommits(env: Env, db: Db, existing: Option<Row>, q: Request)
    requires q.RecordEvent?
    ensures Perform(env, db, existing, q) ==
            if q.kind.Unlisted? || (q.kind.EntitySaved? && q.op.NoOp?) then db
            else db.(events := db.events + [
                       Event(q.kind, q.entity, q.id, q.op, Scrub(env, q.from), Scrub(env, q.to),
                             if q.snapshot.Some? then Some(ScrubDoc(env, q.snapshot.value)) else None, None)])
  {
    hide Scrub, ScrubDoc, ExecuteAll;
    var t := Plan(env, db, existing, q);
    if t.Bare? {
      ExecuteNothing(env, db);
      ExecuteSnoc(env, db, [], Append(t.event));
      assert Script(t) == [] + [Append(t.event)];
    } else {
      NothingDone(env, db);
    }
  }

  /** The prefix in the form the counters know: without surrounding blanks, in upper case, one to eight
      letters and digits. */
  ghost predicate Normalizes(prefix: string, p: string) {
    && 1 <= |p| <= 8 && Trimmed(prefix, Strip(prefix)) && |Strip(prefix)| == |p|
    && forall i :: 0 <= i < |p| ==>
         var c := Strip(prefix)[i];
         && ('a' <= c <= 'z' || 'A' <= c <= 'Z' || '0' <= c <= '9')
         && p[i] == if 'a' <= c <= 'z' then c - 32 as char else c
  }

  lemma {:induction false} PrefixExactly(prefix: string, p: string)
    ensures NormalPrefix(prefix) == Ok(p) <==> Normalizes(prefix, p)
  {
    hide Strip, Trimmed;
    StripTrims(prefix);
    var s := Strip(prefix);
    if NormalPrefix(prefix) == Ok(p) {
      forall i | 0 <= i < |p|
        ensures AlphaNumeric(p[i]) && p[i] == UpperChar(s[i])
      {
      }
    }
    if Normalizes(prefix, p) {
      assert p == seq(|s|, i requires 0 <= i < |s| => UpperChar(s[i]));
    }
  }

  /** An identifier is drawn exactly for a prefix that normalizes: its counter, one at first, moves on by
      one, and nothing else changes. */
  lemma {:induction false} NextIdCommits(env: Env, db: Db, existing: Option<Row>, prefix: string, p: string)
    ensures Normalizes(prefix, p) ==>
              Perform(env, db, existing, NextId(prefix)) ==
              db.(counters := db.counters[p := if p in db.counters then db.counters[p] + 1 else 2])
    ensures (forall q :: !Normalizes(prefix, q)) ==> Perform(env, db, existing, NextId(prefix)) == db
  {
    hide ExecuteAll, NormalPrefix, Normalizes;
    PrefixExactly(prefix, p);
    var r, t := NormalPrefix(prefix), Plan(env, db, existing, NextId(prefix));
    if r.Ok? {
      PrefixExactly(prefix, r.value);
      ExecuteNothing(env, db);
      ExecuteSnoc(env, db, [], Count(t.prefix, t.value));
      assert Script(t) == [] + [Count(t.prefix, t.value)];
    } else {
      NothingDone(env, db);
    }
  }
}
