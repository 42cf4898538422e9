/** core/store.py, the operations: what each one decides to write, given the database it finds. */
module StoreOps {
  import opened Prelude
  import opened Lifecycle
  import opened Ladder
  import opened StoreData
  import opened StoreIds

  // ---------------------------------------------------------------- recording events

  predicate ValidKind(kind: Kind, op: Op) {
    match kind
    case Unlisted(_) => false
    case EntitySaved => !op.NoOp?
    case _ => true
  }

  function ScrubOption(env: Env, doc: Option<Doc>): Option<Doc> {
    if doc.Some? then Some(ScrubDoc(env, doc.value)) else None
  }

  /** `record_event` stores the redacted payload. */
  function Recorded(env: Env, e: Event): Event {
    e.(from := Scrub(env, e.from), to := Scrub(env, e.to),
       snapshot := ScrubOption(env, e.snapshot), rowSnapshot := ScrubOption(env, e.rowSnapshot))
  }

  // ---------------------------------------------------------------- transactions

  /** What an operation submits: nothing (it raised, or had nothing to do), one bare event, a new
      counter value, or an event with the row it announces and perhaps one bare event after them. */
  datatype Txn =
    | Nothing
    | Bare(event: Event)
    | Counter(prefix: string, value: nat)
    | Write(event: Event, insert: bool, key: Key, row: Row, extra: Option<Event>)

  function Script(t: Txn): seq<Statement> {
    match t
    case Nothing => []
    case Bare(e) => [Append(e)]
    case Counter(prefix, value) => [Count(prefix, value)]
    case Write(e, insert, key, row, extra) =>
      [Append(e), if insert then Insert(key, row) else Update(key, row)]
      + if extra.Some? then [Append(extra.value)] else []
  }

  // ---------------------------------------------------------------- requests

  /** A hypothesis object in a caller's hands, as stale as it may be. */
  datatype Hyp = Hyp(id: string, state: HState, reopenCount: nat, rungs: Rungs, other: Doc)

  function Dump(h: Hyp): Doc {
    h.other[Id := Text(h.id)][State := StateText(h.state)][ReopenCount := Num(h.reopenCount, 0)]
           [LadderName := LadderObj(h.rungs)]
  }

  /** A call of one of the store's methods. */
  datatype Request =
    | RecordEvent(kind: Kind, entity: Entity, id: string, op: Op, from: Json, to: Json, snapshot: Option<Doc>)
    | NextId(prefix: string)
    | CreateHypothesis(id: string, payload: Doc)
    | SaveHypothesis(id: string, payload: Doc)
    | SaveEntity(table: Table, id: string, payload: Doc)
    | TransitionHypothesis(h: Hyp, move: Move)
    | AwardLadder(h: Hyp, token: Token, proof: Proof)
    | DispatchTask(id: string, key: string, phase: string, role: string, startedAt: string)
    | FinishTask(id: string, result: Json, finishedAt: string)
    | BlockTask(id: string, reason: string, finishedAt: string)

  /** `_hypothesis_row_snapshot`. */
  function HypRow(doc: Doc, body: string): Doc {
    map[Id := Get(doc, Id), State := Get(doc, State), Lens := Get(doc, Lens), ProtocolType := Get(doc, ProtocolType),
        PriorP := Get(doc, PriorP), Body := Text(body)]
  }

  function HypEvent(env: Env, kind: Kind, id: string, op: Op, from: Json, to: Json, doc: Doc, body: string): Event {
    Recorded(env, Event(kind, Of(Hypotheses), id, op, from, to, Some(doc), Some(HypRow(doc, body))))
  }

  function Created(env: Env, db: Db, id: string, payload: Doc): Txn {
    var named := ScrubDoc(env, payload)[Id := Text(id)];
    var data := if State in named then named else named[State := StateText(OPEN)];
    var body := env.dumps(Obj(data));
    if data[State] != StateText(OPEN) then Nothing
    else
      Write(HypEvent(env, HypCreated, id, InsertOp, Null, Null, data, body), true,
            Key(Hypotheses, id), Row(HypRow(data, body), |db.events| + 1), None)
  }

  /** The columns an UPDATE leaves alone keep what they hold. */
  function ColsOf(db: Db, key: Key): Doc {
    if key in db.rows then db.rows[key].cols else map[]
  }

  function SetDetails(cols: Doc, doc: Doc, body: string): Doc {
    cols[Lens := Get(doc, Lens)][ProtocolType := Get(doc, ProtocolType)][PriorP := Get(doc, PriorP)][Body := Text(body)]
  }

  function BodyDoc(env: Env, cols: Doc): Option<Doc> {
    if Get(cols, Body).Text? && env.loads(cols[Body].s).Obj? then Some(env.loads(cols[Body].s).fields) else None
  }

  /** `save` on a hypothesis: `existing` was read before the transaction began. */
  function Saved(env: Env, db: Db, existing: Option<Row>, id: string, payload: Doc): Txn {
    if existing.None? then Created(env, db, id, payload)
    else
      var cols := existing.value.cols;
      var state := Get(cols, State);
      if (State in payload && payload[State] != state) || Cause !in payload || Evidence !in payload
         || BodyDoc(env, cols).None? then Nothing
      else
        var merged := BodyDoc(env, cols).value + (payload - {Cause, Evidence});
        var data := ScrubDoc(env, merged[Id := Text(id)][State := state]);
        var body := env.dumps(Obj(data));
        var key := Key(Hypotheses, id);
        Write(HypEvent(env, HypUpdated, id, UpdateOp, Null, Null, data, body), false,
              key, Row(SetDetails(ColsOf(db, key), data, body), |db.events| + 1), None)
  }

  function Transitioned(env: Env, db: Db, h: Hyp, m: Move): Txn {
    var key := Key(Hypotheses, h.id);
    if !TransitionOk(m.token, h.state, h.reopenCount, m.to, m.cause, m.evidence)
       || key !in db.rows || Get(db.rows[key].cols, State) != StateText(h.state) then Nothing
    else
      var reopens := if IsReopen(h.state, m.to) then h.reopenCount + 1 else h.reopenCount;
      var payload := Dump(h.(state := m.to, reopenCount := reopens));
      var body := env.dumps(Obj(ScrubDoc(env, payload)));
      var threshold := Event(ReopenThresholdExceeded, Of(Hypotheses), h.id, NoOp, Null, Null, None, None);
      Write(HypEvent(env, HypTransition, h.id, UpdateOp, StateText(h.state), StateText(m.to), payload, body), false,
            key, Row(SetDetails(ColsOf(db, key)[State := StateText(m.to)], payload, body), |db.events| + 1),
            if IsReopen(h.state, m.to) && reopens == 3 then Some(threshold) else None)
  }

  function AwardedTo(env: Env, db: Db, h: Hyp, token: Token, proof: Proof): Txn {
    var key := Key(Hypotheses, h.id);
    if !ValidateAward(env.mac, token, Some(Subject(h.state, h.rungs)), proof.axis, proof.level, Some(proof)).Awarded?
       || key !in db.rows || BodyDoc(env, db.rows[key].cols).None?
       || Get(BodyDoc(env, db.rows[key].cols).value, State) != StateText(h.state) then Nothing
    else
      var payload := Dump(h.(rungs := h.rungs[proof.axis := proof.level]));
      var body := env.dumps(Obj(ScrubDoc(env, payload)));
      Write(HypEvent(env, HypLadderAward, h.id, UpdateOp, Null, Null, payload, body), false,
            key, Row(ColsOf(db, key)[Body := Text(body)], |db.events| + 1), None)
  }

  // ---------------------------------------------------------------- generic entities

  /** The payload field a column is filled from. */
  function Source(c: Name): Name {
    if c == HypId then HypothesisId else c
  }

  /** Columns whose payload field must be there. */
  predicate Mandatory(t: Table, c: Name) {
    match t
    case Certificates => c in {WitnessSha, EnvHash, Runs, RecordsSha, PolicySha, ControlSha, MacName, IssuedAt}
    case Tasks => c == IdempotencyKey
    case HumanReviews => c in {SubjectType, SubjectId, ReasonCode, QueuedAt}
    case BudgetReservations => c in {TaskId, MaxUsd, ReservedUsd}
    case _ => false
  }

  function Default(t: Table, c: Name): Json {
    match (t, c)
    case (Assumptions, Status) => Text("unverified")
    case (Invariants, Status) => Text("candidate")
    case (Obligations, Status) => Text("open")
    case (Obligations, Attempts) => Num(0, 0)
    case (Obligations, Depth) => Num(0, 0)
    case (Findings, HumanReview) => Text("pending")
    case (Tasks, Status) => Text("dispatched")
    case (HumanReviews, Status) => Text("queued")
    case (BudgetReservations, SettledUsd) => Num(0, 0)
    case (BudgetReservations, ReleasedUsd) => Num(0, 0)
    case (BudgetReservations, Status) => Text("reserved")
    case _ => Null
  }

  function Cell(env: Env, t: Table, id: string, data: Doc, body: string, c: Name): Json {
    if c == KeyColumn(t) then Text(id)
    else if c == Body then Text(body)
    else if c == ResultName then
      if Get(data, ResultName).Null? then Null else Text(env.dumps(data[ResultName]))
    else if Source(c) in data then data[Source(c)]
    else Default(t, c)
  }

  function EntityRow(env: Env, t: Table, id: string, data: Doc, body: string): Doc {
    map c | c in Columns(t) :: Cell(env, t, id, data, body, c)
  }

  /** `_save_generic`: the row is built first and the event announces exactly that row. */
  function EntitySavedTo(env: Env, db: Db, t: Table, id: string, payload: Doc): Txn {
    var data := ScrubDoc(env, payload);
    if t.Hypotheses? || exists c :: c in Columns(t) && Mandatory(t, c) && c !in data then Nothing
    else
      var cols := EntityRow(env, t, id, data, env.dumps(Obj(data[Id := Text(id)])));
      var insert := Key(t, id) !in db.rows;
      var e := Event(EntitySaved, Of(t), id, if insert then InsertOp else UpdateOp, Null, Null,
                     Some(data[KeyColumn(t) := Text(id)]), Some(cols));
      Write(Recorded(env, e), insert, Key(t, id), Row(cols, |db.events| + 1), None)
  }

  // ---------------------------------------------------------------- tasks

  function Dispatched(env: Env, db: Db, id: string, key: string, phase: string, role: string, startedAt: string): Txn {
    var cols := map[
      Id := Text(id), IdempotencyKey := Text(key), Phase := Text(phase), Role := Text(role), Status := Text("dispatched"),
      StartedAt := Text(startedAt), FinishedAt := Null, ResultName := Null];
    var e := Event(TaskDispatched, Of(Tasks), id, InsertOp, Null, Null, None, Some(cols));
    Write(Recorded(env, e), true, Key(Tasks, id), Row(cols, |db.events| + 1), None)
  }

  function TaskEnded(env: Env, db: Db, id: string, kind: Kind, status: string, result: Json, finishedAt: string): Txn {
    var key := Key(Tasks, id);
    if key !in db.rows then Nothing
    else
      var was := db.rows[key].cols;
      var cols := was[Status := Text(status)][FinishedAt := Text(finishedAt)][ResultName := Text(env.dumps(result))];
      var e := Event(kind, Of(Tasks), id, UpdateOp, Null, Null, Some(cols[ResultName := result]), Some(cols));
      Write(Recorded(env, e), false, key, Row(cols, |db.events| + 1), None)
  }

  // ---------------------------------------------------------------- one call

  function NextValue(db: Db, prefix: string): nat {
    if prefix in db.counters then db.counters[prefix] else 1
  }

  /** What the store submits for a request, given the database at the start of the transaction and
      the hypothesis row the caller had read before it. */
  function Plan(env: Env, db: Db, existing: Option<Row>, q: Request): Txn {
    match q
    case RecordEvent(kind, entity, id, op, from, to, snapshot) =>
      if ValidKind(kind, op) then Bare(Recorded(env, Event(kind, entity, id, op, from, to, snapshot, None))) else Nothing
    case NextId(prefix) =>
      var p := NormalPrefix(prefix);
      if p.Ok? then Counter(p.value, NextValue(db, p.value) + 1) else Nothing
    case CreateHypothesis(id, payload) => Created(env, db, id, payload)
    case SaveHypothesis(id, payload) => Saved(env, db, existing, id, payload)
    case SaveEntity(t, id, payload) => EntitySavedTo(env, db, t, id, payload)
    case TransitionHypothesis(h, m) => Transitioned(env, db, h, m)
    case AwardLadder(h, token, proof) => AwardedTo(env, db, h, token, proof)
    case DispatchTask(id, key, phase, role, at) => Dispatched(env, db, id, key, phase, role, at)
    case FinishTask(id, result, at) => TaskEnded(env, db, id, TaskFinished, "finished", Scrub(env, result), at)
    case BlockTask(id, reason, at) =>
      TaskEnded(env, db, id, TaskBlockedOnHuman, "blocked_on_human",
                Obj(map[Reason := Scrub(env, Text(reason))]), at)
  }

  function Perform(env: Env, db: Db, existing: Option<Row>, q: Request): Db {
    Submit(env, db, Script(Plan(env, db, existing, q)))
  }

  // ---------------------------------------------------------------- what a plan looks like

  /** The event announces the row it comes with, under the next event id, and an update finds its row. */
  predicate Fits(db: Db, t: Txn) {
    t.Write? ==>
      && t.event.entity == Of(t.key.table) && t.event.id == t.key.id && t.event.rowSnapshot.Some?
      && t.row.last == |db.events| + 1
      && (!t.insert ==> t.key in db.rows)
      && (t.extra.Some? ==> t.extra.value.rowSnapshot.None? && t.extra.value.snapshot.None?)
  }

  predicate FreshEnough(db: Db, existing: Option<Row>, q: Request) {
    q.SaveHypothesis? && existing.Some? ==> Key(Hypotheses, q.id) in db.rows
  }

  lemma {:induction false} PlansFit(env: Env, db: Db, existing: Option<Row>, q: Request)
    requires FreshEnough(db, existing, q)
    ensures Fits(db, Plan(env, db, existing, q))
    ensures Plan(env, db, existing, q).Bare? ==> Plan(env, db, existing, q).event.rowSnapshot.None?
  {
    hide ScrubDoc, HypRow, Dump, SetDetails, Cell, Mandatory, TransitionOk, ValidateAward, ValidKind, BodyDoc, Columns,
         ColsOf, Get, Scrub, IsReopen, NormalPrefix, NextValue;
  }

  /** The database after a write took effect. */
  function Written(db: Db, t: Txn): Db
    requires t.Write?
  {
    Db(db.events + [t.event] + (if t.extra.Some? then [t.extra.value] else []), db.rows[t.key := t.row], db.counters)
  }

  /** A write either leaves the database as it was or commits event and row together, and then the
      trigger has compared the two. */
  lemma {:induction false} WriteOutcome(env: Env, db: Db, t: Txn)
    requires t.Write? && Fits(db, t)
    ensures var now := Submit(env, db, Script(t));
            || now == db
            || (&& now == Written(db, t)
                && t.row.cols == SnapshotRow(t.key.table, t.event.rowSnapshot.value)
                && Allowed(env, db.rows, t.key, t.row)
                && if t.insert then t.key !in db.rows && InsertTrigger(db.events + [t.event], t.key, t.row)
                   else UpdateTrigger(db.events + [t.event], t.key, db.rows[t.key], t.row))
  {
    hide Allowed, SnapshotRow, LegalChange, ExecuteAll;
    var write := if t.insert then Insert(t.key, t.row) else Update(t.key, t.row);
    ExecuteNothing(env, db);
    ExecuteSnoc(env, db, [], Append(t.event));
    ExecuteSnoc(env, db, [] + [Append(t.event)], write);
    var two := [] + [Append(t.event)] + [write];
    if t.extra.Some? {
      ExecuteSnoc(env, db, two, Append(t.extra.value));
      assert Script(t) == two + [Append(t.extra.value)];
    } else {
      assert Script(t) == two;
    }
  }

  lemma {:induction false} PlainOutcome(env: Env, db: Db, t: Txn)
    requires !t.Write?
    ensures Submit(env, db, Script(t)).rows == db.rows
    ensures Submit(env, db, Script(t)).events == db.events + if t.Bare? then [t.event] else []
    ensures Submit(env, db, Script(t)).counters ==
            if t.Counter? then db.counters[t.prefix := t.value] else db.counters
  {
    hide ExecuteAll;
    ExecuteNothing(env, db);
    if t.Bare? {
      ExecuteSnoc(env, db, [], Append(t.event));
      assert Script(t) == [] + [Append(t.event)];
    } else if t.Counter? {
      ExecuteSnoc(env, db, [], Count(t.prefix, t.value));
      assert Script(t) == [] + [Count(t.prefix, t.value)];
    }
  }
}
