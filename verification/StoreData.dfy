/**
 core/store.py, the database: the append-only event log, the event-backed tables with the triggers
 that guard them, and the all-or-nothing transactions that are the only way to change either.
 */
module StoreData {
  import opened Prelude
  import opened Lifecycle
  import opened Ladder

  // ---------------------------------------------------------------- values

  /** Names of JSON fields and table columns; `Field` stands for every name the store does not use. */
  datatype Name =
    | Id | KeyName | State | Lens | ProtocolType | PriorP | Body | Status | HypId | HypothesisId | TaskId | KindName
    | ResultName | Ref | Reason | Attempts | Depth | WitnessSha | EnvHash | Runs | RecordsSha | PolicySha | ControlSha
    | CrossSha | MacName | IssuedAt | HumanReview | CertificateId | IdempotencyKey | Phase | Role | StartedAt
    | FinishedAt | SubjectType | SubjectId | ReasonCode | QueuedAt | ResolvedAt | Reviewer | Resolution | MaxUsd
    | ReservedUsd | SettledUsd | ReleasedUsd | ReopenCount | LadderName | Cause | Evidence | Field(name: string)

  /** JSON values; a number is `n` times ten to the exponent. A string that spells a hypothesis state, and an object that spells a ladder, are
      kept apart from other strings and objects. */
  datatype Json =
    | Null
    | Num(n: int, exponent: int)
    | Text(s: string)
    | StateText(state: HState)
    | LadderObj(rungs: Rungs)
    | List(items: seq<Json>)
    | Obj(fields: map<Name, Json>)

  type Doc = map<Name, Json>

  /** `dict.get` and `json_extract`: a missing field reads as null. */
  function Get(doc: Doc, n: Name): Json {
    if n in doc then doc[n] else Null
  }

  /** The parts of the surroundings the store relies on: redaction of one string, JSON text, the
      certificate MAC, and the table constraints that depend on nothing but the tables (types, CHECK,
      NOT NULL, foreign keys). */
  datatype Env = Env(
    redact: string -> string, dumps: Json -> string, loads: string -> Json, mac: Mac,
    permits: (map<Key, Row>, Key, Row) -> bool)

  /** Redacting twice is redacting once, and reading back dumped JSON gives it unchanged. */
  ghost predicate Faithful(env: Env) {
    && (forall s :: env.redact(env.redact(s)) == env.redact(s))
    && (forall j :: env.loads(env.dumps(j)) == j)
  }

  /** `redact_payload`: every string value redacted, field names kept. */
  function Scrub(env: Env, j: Json): Json
    decreases j
  {
    match j
    case Text(s) => Text(env.redact(s))
    case List(items) => List(seq(|items|, i requires 0 <= i < |items| => Scrub(env, items[i])))
    case Obj(fields) => Obj(map n | n in fields :: Scrub(env, fields[n]))
    case _ => j
  }

  function ScrubDoc(env: Env, doc: Doc): (r: Doc)
    ensures r.Keys == doc.Keys
    ensures forall n :: Get(r, n) == Scrub(env, Get(doc, n))
  {
    map n | n in doc :: Scrub(env, doc[n])
  }

  lemma {:induction false} ScrubTwice(env: Env, j: Json)
    requires Faithful(env)
    ensures Scrub(env, Scrub(env, j)) == Scrub(env, j)
    decreases j
  {
    match j
    case List(items) =>
      var once := Scrub(env, j).items;
      forall i | 0 <= i < |items|
        ensures Scrub(env, once[i]) == once[i]
      {
        ScrubTwice(env, items[i]);
      }
      assert Scrub(env, List(once)).items == once;
    case Obj(fields) =>
      var once := Scrub(env, j).fields;
      forall n | n in fields
        ensures Scrub(env, once[n]) == once[n]
      {
        ScrubTwice(env, fields[n]);
      }
      assert Scrub(env, Obj(once)).fields == once;
    case _ =>
  }

  /** One step into a value: to an item of a list or to a field of an object. */
  datatype Hop = Item(i: nat) | Under(n: Name)

  /** The value found by following the hops, if there is one. */
  function Inside(j: Json, hops: seq<Hop>): Option<Json> {
    if hops == [] then Some(j)
    else
      match (j, hops[0])
      case (List(items), Item(i)) => if i < |items| then Inside(items[i], hops[1..]) else None
      case (Obj(fields), Under(n)) => if n in fields then Inside(fields[n], hops[1..]) else None
      case _ => None
  }

  /** A redacted payload has a value in just the places where the payload has one: the redacted text
      for a text, a container with as many items or the same fields, and otherwise the same value. */
  lemma {:induction false} ScrubInside(env: Env, j: Json, hops: seq<Hop>)
    ensures var was, now := Inside(j, hops), Inside(Scrub(env, j), hops);
            && (now.Some? <==> was.Some?)
            && (was.Some? ==>
                  match was.value
                  case Text(s) => now.value == Text(env.redact(s))
                  case List(items) => now.value.List? && |now.value.items| == |items|
                  case Obj(fields) => now.value.Obj? && now.value.fields.Keys == fields.Keys
                  case _ => now == was)
  {
    if hops != [] {
      match (j, hops[0]) {
        case (List(items), Item(i)) =>
          if i < |items| {
            ScrubInside(env, items[i], hops[1..]);
          }
        case (Obj(fields), Under(n)) =>
          if n in fields {
            ScrubInside(env, fields[n], hops[1..]);
          }
        case _ =>
      }
    }
  }

  // ---------------------------------------------------------------- tables and events

  datatype Table =
    | Hypotheses | Assumptions | Invariants | Experiments | Failures | Obligations | Certificates | Findings | Tasks
    | KnownIssues | Campaigns | HumanReviews | BudgetReservations

  function KeyColumn(t: Table): Name {
    if t.Obligations? then KeyName else Id
  }

  /** The columns the snapshots must match; `last_event_id` is kept beside them. */
  function Columns(t: Table): set<Name> {
    match t
    case Hypotheses => {Id, State, Lens, ProtocolType, PriorP, Body}
    case Assumptions => {Id, Status, Body}
    case Invariants => {Id, Status, Body}
    case Experiments => {Id, HypId, TaskId, KindName, ResultName, Body}
    case Failures => {Id, HypId, KindName, Body}
    case Obligations => {KeyName, Status, Ref, Reason, Attempts, Depth}
    case Certificates => {Id, WitnessSha, EnvHash, Runs, RecordsSha, PolicySha, ControlSha, CrossSha, MacName, IssuedAt, Body}
    case Findings => {Id, HypId, HumanReview, CertificateId, Body}
    case Tasks => {Id, IdempotencyKey, Phase, Role, Status, StartedAt, FinishedAt, ResultName}
    case KnownIssues => {Id, Body}
    case Campaigns => {Id, Body}
    case HumanReviews => {Id, SubjectType, SubjectId, ReasonCode, Status, QueuedAt, ResolvedAt, Reviewer, Resolution}
    case BudgetReservations => {Id, TaskId, MaxUsd, ReservedUsd, SettledUsd, ReleasedUsd, Status}
  }

  datatype Key = Key(table: Table, id: string)

  datatype Row = Row(cols: Doc, last: nat)

  /** What an event is about: one of the event-backed tables, or anything else. */
  datatype Entity = Of(table: Table) | Other(name: string)

  /** Event kinds: those the store's own operations write, the others `EVENT_KINDS` lists, and names
      it does not list. */
  datatype Kind =
    | HypCreated | HypUpdated | HypTransition | HypLadderAward | EntitySaved | TaskDispatched | TaskFinished
    | TaskBlockedOnHuman | ReopenThresholdExceeded | Listed(name: string) | Unlisted(name: string)

  datatype Op = InsertOp | UpdateOp | NoOp

  /** An event with the payload fields the triggers and the rebuild look at. Its id is its position
      in the log, counted from one. */
  datatype Event = Event(
    kind: Kind, entity: Entity, id: string, op: Op, from: Json, to: Json,
    snapshot: Option<Doc>, rowSnapshot: Option<Doc>)

  datatype Db = Db(events: seq<Event>, rows: map<Key, Row>, counters: map<string, nat>)

  const EMPTY: Db := Db([], map[], map[])

  // ---------------------------------------------------------------- trigger guards

  function SnapshotRow(t: Table, snapshot: Doc): (r: Doc)
    ensures r.Keys == Columns(t)
    ensures forall n :: n in Columns(t) ==> r[n] == Get(snapshot, n)
  {
    map n | n in Columns(t) :: Get(snapshot, n)
  }

  /** The log holds an event for this row at its `last_event_id`, with exactly its columns. */
  predicate Linked(events: seq<Event>, key: Key, row: Row) {
    && 1 <= row.last <= |events|
    && var e := events[row.last - 1];
       && e.entity == Of(key.table) && e.id == key.id
       && e.rowSnapshot.Some? && row.cols == SnapshotRow(key.table, e.rowSnapshot.value)
  }

  predicate LegalChange(from: Json, to: Json) {
    from.StateText? && to.StateText? && to.state in LegalTransitions(from.state)
  }

  predicate InsertTrigger(events: seq<Event>, key: Key, row: Row) {
    && Linked(events, key, row)
    && if key.table.Hypotheses? then
         events[row.last - 1].kind.HypCreated? && row.cols[State] == StateText(OPEN)
       else
         events[row.last - 1].op.InsertOp?
  }

  predicate UpdateTrigger(events: seq<Event>, key: Key, was: Row, row: Row) {
    && row.last > was.last
    && Linked(events, key, row)
    && var e := events[row.last - 1];
       if key.table.Hypotheses? then
         && (e.kind.HypUpdated? || e.kind.HypTransition? || e.kind.HypLadderAward?)
         && (Get(was.cols, State) != row.cols[State] ==>
               && LegalChange(Get(was.cols, State), row.cols[State])
               && e.kind.HypTransition? && e.from == Get(was.cols, State) && e.to == row.cols[State])
       else
         e.op.UpdateOp?
  }

  /** Only the tasks table has a second unique column. */
  predicate UniqueTask(rows: map<Key, Row>, key: Key, row: Row) {
    key.table.Tasks? ==>
      forall k :: k in rows && k.table.Tasks? && k != key ==>
        Get(rows[k].cols, IdempotencyKey) != Get(row.cols, IdempotencyKey)
  }

  predicate Allowed(env: Env, rows: map<Key, Row>, key: Key, row: Row) {
    && Get(row.cols, KeyColumn(key.table)) == Text(key.id)
    && UniqueTask(rows, key, row)
    && env.permits(rows, key, row)
  }

  // ---------------------------------------------------------------- statements and transactions

  /** One step of a transaction. `Update` keeps the key, and `Fail` is an exception raised between
      two SQL statements. */
  datatype Statement =
    | Append(event: Event)
    | Insert(key: Key, row: Row)
    | Update(key: Key, row: Row)
    | Count(prefix: string, value: nat)
    | Fail

  function Execute(env: Env, db: Db, s: Statement): Result<Db> {
    match s
    case Append(e) => Ok(db.(events := db.events + [e]))
    case Insert(key, row) =>
      if key !in db.rows && Allowed(env, db.rows, key, row) && InsertTrigger(db.events, key, row)
      then Ok(db.(rows := db.rows[key := row]))
      else Reject
    case Update(key, row) =>
      if key !in db.rows then Ok(db)
      else if Allowed(env, db.rows, key, row) && UpdateTrigger(db.events, key, db.rows[key], row)
      then Ok(db.(rows := db.rows[key := row]))
      else Reject
    case Count(prefix, value) => Ok(db.(counters := db.counters[prefix := value]))
    case Fail => Reject
  }

  function ExecuteAll(env: Env, db: Db, script: seq<Statement>): Result<Db> {
    if script == [] then Ok(db)
    else
      var before := ExecuteAll(env, db, script[..|script| - 1]);
      if before.Reject? then Reject else Execute(env, before.value, script[|script| - 1])
  }

  lemma {:induction false} ExecuteNothing(env: Env, db: Db)
    ensures ExecuteAll(env, db, []) == Ok(db)
  {
  }

  lemma {:induction false} ExecuteSnoc(env: Env, db: Db, script: seq<Statement>, s: Statement)
    ensures ExecuteAll(env, db, script + [s]) ==
            if ExecuteAll(env, db, script).Ok? then Execute(env, ExecuteAll(env, db, script).value, s) else Reject
  {
    hide Execute;
    assert (script + [s])[..|script|] == script;
  }

  /** `submit`: the whole script, or nothing. */
  function Submit(env: Env, db: Db, script: seq<Statement>): Db {
    var r := ExecuteAll(env, db, script);
    if r.Ok? then r.value else db
  }

  // ---------------------------------------------------------------- what every transaction keeps

  /** Every row matches the snapshot of the event it names. */
  predicate AllLinked(db: Db) {
    forall k :: k in db.rows ==> Linked(db.events, k, db.rows[k])
  }

  /** The log only grows, no row disappears, and a row that changes moves to a later event. */
  predicate Extends(was: Db, now: Db) {
    && was.events <= now.events
    && forall k :: k in was.rows ==>
         && k in now.rows
         && (now.rows[k] == was.rows[k] || was.rows[k].last < now.rows[k].last)
  }

  lemma {:induction false} LinkedStays(events: seq<Event>, more: seq<Event>, key: Key, row: Row)
    requires Linked(events, key, row) && events <= more
    ensures Linked(more, key, row)
  {
    hide SnapshotRow;
    assert more[row.last - 1] == events[row.last - 1];
  }

  lemma {:induction false} StatementKeeps(env: Env, db: Db, s: Statement)
    requires AllLinked(db) && Execute(env, db, s).Ok?
    ensures AllLinked(Execute(env, db, s).value)
    ensures Extends(db, Execute(env, db, s).value)
  {
    hide Linked, Allowed;
    var now := Execute(env, db, s).value;
    forall k | k in now.rows
      ensures Linked(now.events, k, now.rows[k])
    {
      if k in db.rows && now.rows[k] == db.rows[k] {
        LinkedStays(db.events, now.events, k, db.rows[k]);
      }
    }
  }

  lemma {:induction false} ExtendsSelf(db: Db)
    ensures Extends(db, db)
  {
  }

  lemma {:induction false} LinkedStart()
    ensures AllLinked(EMPTY)
  {
  }

  lemma {:induction false} ExtendsTrans(a: Db, b: Db, c: Db)
    requires Extends(a, b) && Extends(b, c)
    ensures Extends(a, c)
  {
    forall k | k in a.rows
      ensures k in c.rows && (c.rows[k] == a.rows[k] || a.rows[k].last < c.rows[k].last)
    {
      assert k in b.rows;
    }
  }

  lemma {:induction false} ScriptKeeps(env: Env, db: Db, script: seq<Statement>)
    requires AllLinked(db) && ExecuteAll(env, db, script).Ok?
    ensures AllLinked(ExecuteAll(env, db, script).value)
    ensures Extends(db, ExecuteAll(env, db, script).value)
  {
    hide AllLinked, Extends, Execute;
    if script == [] {
      ExtendsSelf(db);
    } else {
      var init := script[..|script| - 1];
      ScriptKeeps(env, db, init);
      var mid := ExecuteAll(env, db, init).value;
      StatementKeeps(env, mid, script[|script| - 1]);
      ExtendsTrans(db, mid, ExecuteAll(env, db, script).value);
    }
  }

  function RunScripts(env: Env, scripts: seq<seq<Statement>>): Db {
    if scripts == [] then EMPTY else Submit(env, RunScripts(env, scripts[..|scripts| - 1]), scripts[|scripts| - 1])
  }

  /** After any transactions whatever, each row agrees with the event it is linked to; between any
      two moments the log has only grown and each changed row has moved to a later event. */
  lemma {:induction false} GuardsHold(env: Env, scripts: seq<seq<Statement>>, j: nat)
    requires j <= |scripts|
    ensures AllLinked(RunScripts(env, scripts))
    ensures Extends(RunScripts(env, scripts[..j]), RunScripts(env, scripts))
    decreases |scripts|
  {
    hide AllLinked, Extends, ExecuteAll;
    if scripts == [] {
      assert scripts[..j] == [];
      LinkedStart();
      ExtendsSelf(EMPTY);
    } else {
      var init, script := scripts[..|scripts| - 1], scripts[|scripts| - 1];
      var db := RunScripts(env, init);
      var k := if j < |scripts| then j else |scripts| - 1;
      assert init[..k] == scripts[..k];
      GuardsHold(env, init, k);
      var now := RunScripts(env, scripts);
      if ExecuteAll(env, db, script).Ok? {
        ScriptKeeps(env, db, script);
      } else {
        ExtendsSelf(db);
      }
      if j < |scripts| {
        ExtendsTrans(RunScripts(env, scripts[..j]), db, now);
      } else {
        assert scripts[..j] == scripts;
        ExtendsSelf(now);
      }
    }
  }

  /** A transaction is all or nothing: if any statement is refused or an exception is raised, neither
      an event nor a row nor a counter of it is left behind; otherwise every statement took effect in order. */
  lemma {:induction false} AllOrNothing(env: Env, db: Db, script: seq<Statement>, i: nat)
    requires i < |script|
    requires ExecuteAll(env, db, script[..i]).Ok? ==> Execute(env, ExecuteAll(env, db, script[..i]).value, script[i]).Reject?
    ensures Submit(env, db, script) == db
  {
    hide Execute;
    RefusedAt(env, db, script, i);
  }

  lemma {:induction false} RefusedAt(env: Env, db: Db, script: seq<Statement>, i: nat)
    requires i < |script|
    requires ExecuteAll(env, db, script[..i]).Ok? ==> Execute(env, ExecuteAll(env, db, script[..i]).value, script[i]).Reject?
    ensures ExecuteAll(env, db, script).Reject?
  {
    hide Execute;
    var init := script[..|script| - 1];
    if i < |script| - 1 {
      assert init[..i] == script[..i];
      RefusedAt(env, db, init, i);
    }
  }
}
