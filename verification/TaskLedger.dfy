/**
 core/tasks.py: any number of threads beginning, finishing, failing and blocking tasks, interleaved
 between any two of their store calls.
 */
module TaskLedger {
  import opened Prelude
  import opened Lifecycle
  import opened StoreIds
  import opened StoreData
  import opened StoreOps
  import opened StoreRuns

  // ---------------------------------------------------------------- the task table

  predicate IsTaskOf(db: Db, id: string, key: string) {
    Key(Tasks, id) in db.rows && TaskKey(db, id) == Text(key)
  }

  function TaskKey(db: Db, id: string): Json {
    Get(ColsOf(db, Key(Tasks, id)), IdempotencyKey)
  }

  /** `find_task_by_key`. */
  ghost function FindTask(db: Db, key: string): (r: Option<string>)
    ensures r.Some? ==> IsTaskOf(db, r.value, key)
    ensures r.None? ==> forall id :: !IsTaskOf(db, id, key)
  {
    if exists id :: IsTaskOf(db, id, key) then
      var id :| IsTaskOf(db, id, key);
      Some(id)
    else None
  }

  ghost predicate OneTaskPerKey(db: Db) {
    forall i, j :: Key(Tasks, i) in db.rows && Key(Tasks, j) in db.rows && TaskKey(db, i) == TaskKey(db, j) ==> i == j
  }

  /** Stored keys are already redacted. */
  ghost predicate KeysRedacted(env: Env, db: Db) {
    forall i :: Key(Tasks, i) in db.rows ==> Scrub(env, TaskKey(db, i)) == TaskKey(db, i)
  }

  /** No task disappears and none changes its key. */
  ghost predicate KeepsTasks(db: Db, now: Db) {
    forall i :: Key(Tasks, i) in db.rows ==> Key(Tasks, i) in now.rows && TaskKey(now, i) == TaskKey(db, i)
  }

  // ---------------------------------------------------------------- interleaved steps

  /** Where a thread inside `begin` or `fail` has got to. */
  datatype Pc =
    | Finding(key: string)
    | Numbering(key: string)
    | Dispatching(key: string, id: string)
    | Fetching(key: string, id: string)
    | Refinding(key: string)
    | Failing(id: string, payload: Doc)

  datatype Issued = Issued(prefix: string, value: nat)

  function IssuedId(i: Issued): string {
    Format(i.prefix, i.value)
  }

  /** A completed `begin`: its key and the id of the task it returned. */
  datatype Begun = Begun(key: string, id: string)

  datatype World = World(db: Db, threads: map<nat, Pc>, begun: seq<Begun>, issued: seq<Issued>)

  datatype Step =
    | Begin(thread: nat, key: string)
    | Advance(thread: nat, phase: string, role: string, startedAt: string)
    | ReadToFail(thread: nat, id: string, result: Json, at: Json)
    | End(request: Request)
    | Issue(prefix: string)
    | Outside(script: seq<Statement>)

  /** Another transaction of the store, on anything but tasks and counters. */
  predicate Untouching(script: seq<Statement>) {
    forall i :: 0 <= i < |script| ==>
      && !script[i].Count?
      && (script[i].Insert? ==> !script[i].key.table.Tasks?)
      && (script[i].Update? ==> !script[i].key.table.Tasks?)
  }

  function Call(env: Env, w: World, q: Request): World {
    w.(db := Perform(env, w.db, None, q))
  }

  function Goto(w: World, thread: nat, pc: Pc): World {
    w.(threads := w.threads[thread := pc])
  }

  function Leave(w: World, thread: nat): World {
    w.(threads := w.threads - {thread})
  }

  function Return(w: World, thread: nat, key: string, id: string): World {
    Leave(w, thread).(begun := w.begun + [Begun(key, id)])
  }

  function Issuing(env: Env, w: World, prefix: string): World {
    var p := NormalPrefix(prefix);
    if p.Reject? then w
    else Call(env, w, NextId(prefix)).(issued := w.issued + [Issued(p.value, NextValue(w.db, p.value))])
  }

  ghost function Advanced(env: Env, w: World, s: Step): World
    requires s.Advance? && s.thread in w.threads
  {
    match w.threads[s.thread]
    case Finding(key) =>
      var found := FindTask(w.db, key);
      if found.Some? then Return(w, s.thread, key, found.value) else Goto(w, s.thread, Numbering(key))
    case Numbering(key) =>
      Goto(Issuing(env, w, "T"), s.thread, Dispatching(key, Format("T", NextValue(w.db, "T"))))
    case Dispatching(key, id) =>
      var now := Call(env, w, DispatchTask(id, key, s.phase, s.role, s.startedAt));
      Goto(now, s.thread, if |now.db.events| > |w.db.events| then Fetching(key, id) else Refinding(key))
    case Fetching(key, id) =>
      if Key(Tasks, id) in w.db.rows then Return(w, s.thread, key, id) else Goto(w, s.thread, Refinding(key))
    case Refinding(key) =>
      var found := FindTask(w.db, key);
      if found.Some? then Return(w, s.thread, key, found.value) else Leave(w, s.thread)
    case Failing(id, payload) => Leave(Call(env, w, SaveEntity(Tasks, id, payload)), s.thread)
  }

  ghost function Next(env: Env, w: World, s: Step): World {
    match s
    case Begin(thread, key) =>
      if thread in w.threads || Strip(key) == [] then w else Goto(w, thread, Finding(Strip(key)))
    case Advance(thread, _, _, _) => if thread in w.threads then Advanced(env, w, s) else w
    case ReadToFail(thread, id, result, at) =>
      if thread in w.threads || Key(Tasks, id) !in w.db.rows then w
      else Goto(w, thread, Failing(id, w.db.rows[Key(Tasks, id)].cols
                                       [Status := Text("failed")][FinishedAt := at][ResultName := result]))
    case End(q) => if q.FinishTask? || q.BlockTask? then Call(env, w, q) else w
    case Issue(prefix) => Issuing(env, w, prefix)
    case Outside(script) => if Untouching(script) then w.(db := Submit(env, w.db, script)) else w
  }

  const START: World := World(EMPTY, map[], [], [])

  ghost function RunLedger(env: Env, steps: seq<Step>): World {
    if steps == [] then START else Next(env, RunLedger(env, steps[..|steps| - 1]), steps[|steps| - 1])
  }

  // ---------------------------------------------------------------- task writes

  predicate IsTaskRequest(q: Request) {
    q.DispatchTask? || q.FinishTask? || q.BlockTask? || (q.SaveEntity? && q.table.Tasks?)
  }

  /** The stored event's row snapshot is the redacted row, and the row's key is where it should come from. */
  predicate TaskTxn(env: Env, db: Db, q: Request, t: Txn)
    requires IsTaskRequest(q)
  {
    && !t.Bare? && !t.Counter?
    && (t.Write? ==>
          && t.key == Key(Tasks, q.id) && t.extra.None?
          && t.event.rowSnapshot == Some(ScrubDoc(env, t.row.cols))
          && (q.DispatchTask? ==> t.insert && Get(t.row.cols, IdempotencyKey) == Text(q.key))
          && (q.FinishTask? || q.BlockTask? ==>
                !t.insert && Get(t.row.cols, IdempotencyKey) == TaskKey(db, q.id))
          && (q.SaveEntity? ==> Get(t.row.cols, IdempotencyKey) == Scrub(env, Get(q.payload, IdempotencyKey))))
  }

  lemma {:induction false} KeyCell(env: Env, id: string, data: Doc, body: string)
    requires IdempotencyKey in data
    ensures Get(EntityRow(env, Tasks, id, data, body), IdempotencyKey) == data[IdempotencyKey]
  {
    assert IdempotencyKey in Columns(Tasks);
    assert Cell(env, Tasks, id, data, body, IdempotencyKey) == data[IdempotencyKey];
  }

  lemma {:induction false} KeyColumnIsMandatory()
    ensures IdempotencyKey in Columns(Tasks) && Mandatory(Tasks, IdempotencyKey)
  {
  }

  lemma {:induction false} SavedRow(env: Env, db: Db, t: Table, id: string, payload: Doc)
    requires EntitySavedTo(env, db, t, id, payload).Write?
    ensures var w, data := EntitySavedTo(env, db, t, id, payload), ScrubDoc(env, payload);
            && w.key == Key(t, id) && w.extra.None? && w.event.rowSnapshot == Some(ScrubDoc(env, w.row.cols))
            && w.row.cols == EntityRow(env, t, id, data, env.dumps(Obj(data[Id := Text(id)])))
            && forall c :: c in Columns(t) && Mandatory(t, c) ==> c in data
  {
    hide Scrub, ScrubDoc, EntityRow, Columns, Mandatory;
  }

  lemma {:induction false} SavedTask(env: Env, db: Db, q: Request)
    requires q.SaveEntity? && q.table.Tasks?
    ensures TaskTxn(env, db, q, EntitySavedTo(env, db, q.table, q.id, q.payload))
  {
    hide Scrub, ScrubDoc, EntityRow, Columns, TaskKey, EntitySavedTo, Mandatory;
    var data, t := ScrubDoc(env, q.payload), EntitySavedTo(env, db, Tasks, q.id, q.payload);
    assert Get(data, IdempotencyKey) == Scrub(env, Get(q.payload, IdempotencyKey));
    if t.Write? {
      SavedRow(env, db, Tasks, q.id, q.payload);
      KeyColumnIsMandatory();
      KeyCell(env, q.id, data, env.dumps(Obj(data[Id := Text(q.id)])));
    }
    NotPlain(env, db, Tasks, q.id, q.payload);
  }

  lemma {:induction false} NotPlain(env: Env, db: Db, t: Table, id: string, payload: Doc)
    ensures !EntitySavedTo(env, db, t, id, payload).Bare? && !EntitySavedTo(env, db, t, id, payload).Counter?
  {
    hide Scrub, ScrubDoc, EntityRow, Columns, Mandatory;
  }

  lemma {:induction false} EndedTask(env: Env, db: Db, q: Request, kind: Kind, status: string, result: Json, at: string)
    requires q.FinishTask? || q.BlockTask?
    ensures TaskTxn(env, db, q, TaskEnded(env, db, q.id, kind, status, result, at))
  {
    hide Scrub, ScrubDoc;
  }

  lemma {:induction false} DispatchedTask(env: Env, db: Db, q: Request)
    requires q.DispatchTask?
    ensures TaskTxn(env, db, q, Dispatched(env, db, q.id, q.key, q.phase, q.role, q.startedAt))
  {
    hide Scrub, ScrubDoc;
  }

  lemma {:induction false} TaskPlan(env: Env, db: Db, q: Request)
    requires IsTaskRequest(q)
    ensures TaskTxn(env, db, q, Plan(env, db, None, q))
  {
    hide Scrub, TaskTxn, TaskEnded, EntitySavedTo, Dispatched, Created, Saved, Transitioned, AwardedTo, NormalPrefix,
         NextValue, ValidKind;
    match q
    case SaveEntity(_, _, _) => SavedTask(env, db, q);
    case DispatchTask(_, _, _, _, _) => DispatchedTask(env, db, q);
    case FinishTask(id, result, at) => EndedTask(env, db, q, TaskFinished, "finished", Scrub(env, result), at);
    case BlockTask(id, reason, at) =>
      EndedTask(env, db, q, TaskBlockedOnHuman, "blocked_on_human", Obj(map[Reason := Scrub(env, Text(reason))]), at);
    case _ =>
  }

  /** What any task request does to the keys of the tasks. */
  lemma {:induction false} TaskWrite(env: Env, db: Db, q: Request)
    requires Faithful(env) && OneTaskPerKey(db) && KeysRedacted(env, db)
    requires IsTaskRequest(q)
    requires q.SaveEntity? && Key(Tasks, q.id) in db.rows ==> Get(q.payload, IdempotencyKey) == TaskKey(db, q.id)
    ensures var now := Perform(env, db, None, q);
            && OneTaskPerKey(now) && KeysRedacted(env, now) && KeepsTasks(db, now) && now.counters == db.counters
            && (q.DispatchTask? && |now.events| > |db.events| ==> IsTaskOf(now, q.id, q.key))
  {
    hide Plan, Perform, Fits, Faithful, Scrub, Allowed, Matches, OneTaskPerKey, KeysRedacted, KeepsTasks;
    var now, t := Perform(env, db, None, q), Plan(env, db, None, q);
    PerformCases(env, db, None, q);
    TaskPlan(env, db, q);
    if t.Write? && now != db {
      RedactedRow(env, db, t);
      KeyUnchanged(env, db, q, t);
      TaskRowWritten(env, db, t, now);
    } else {
      SameTasks(env, db, now);
    }
  }

  lemma {:induction false} KeyUnchanged(env: Env, db: Db, q: Request, t: Txn)
    requires IsTaskRequest(q) && TaskTxn(env, db, q, t) && t.Write? && Matches(db, t) && KeysRedacted(env, db)
    requires q.SaveEntity? && Key(Tasks, q.id) in db.rows ==> Get(q.payload, IdempotencyKey) == TaskKey(db, q.id)
    ensures if t.insert then t.key !in db.rows
            else t.key in db.rows && Get(t.row.cols, IdempotencyKey) == TaskKey(db, t.key.id)
  {
    hide Scrub, InsertTrigger, UpdateTrigger, SnapshotRow, Get;
  }

  lemma {:induction false} RedactedRow(env: Env, db: Db, t: Txn)
    requires Faithful(env) && t.Write? && t.key.table.Tasks? && Matches(db, t)
    requires t.event.rowSnapshot == Some(ScrubDoc(env, t.row.cols))
    ensures Scrub(env, Get(t.row.cols, IdempotencyKey)) == Get(t.row.cols, IdempotencyKey)
  {
    hide Scrub, Faithful, InsertTrigger, UpdateTrigger;
    assert Get(ScrubDoc(env, t.row.cols), IdempotencyKey) == Scrub(env, Get(t.row.cols, IdempotencyKey));
    assert IdempotencyKey in Columns(Tasks);
  }

  lemma {:induction false} TaskRowWritten(env: Env, db: Db, t: Txn, now: Db)
    requires OneTaskPerKey(db) && KeysRedacted(env, db) && t.Write? && t.key.table.Tasks?
    requires now.rows == db.rows[t.key := t.row] && Allowed(env, db.rows, t.key, t.row)
    requires Scrub(env, Get(t.row.cols, IdempotencyKey)) == Get(t.row.cols, IdempotencyKey)
    requires if t.insert then t.key !in db.rows
             else t.key in db.rows && Get(t.row.cols, IdempotencyKey) == TaskKey(db, t.key.id)
    ensures OneTaskPerKey(now) && KeysRedacted(env, now) && KeepsTasks(db, now)
    ensures Key(Tasks, t.key.id) in now.rows && TaskKey(now, t.key.id) == Get(t.row.cols, IdempotencyKey)
  {
    hide Scrub, Get;
    var id, key := t.key.id, Get(t.row.cols, IdempotencyKey);
    forall i | Key(Tasks, i) in now.rows && i != id
      ensures Key(Tasks, i) in db.rows && TaskKey(now, i) == TaskKey(db, i) && TaskKey(db, i) != key
    {
      assert Key(Tasks, i) != t.key;
      assert Get(db.rows[Key(Tasks, i)].cols, IdempotencyKey) != key;
    }
    assert TaskKey(now, id) == key;
  }

  lemma {:induction false} SameTasks(env: Env, db: Db, now: Db)
    requires forall i :: Key(Tasks, i) in db.rows <==> Key(Tasks, i) in now.rows
    requires forall i :: Key(Tasks, i) in db.rows ==> db.rows[Key(Tasks, i)] == now.rows[Key(Tasks, i)]
    ensures KeepsTasks(db, now)
    ensures OneTaskPerKey(db) ==> OneTaskPerKey(now)
    ensures KeysRedacted(env, db) ==> KeysRedacted(env, now)
  {
    hide Scrub, Get;
    forall i | Key(Tasks, i) in db.rows
      ensures TaskKey(now, i) == TaskKey(db, i)
    {
    }
  }

  lemma {:induction false} OutsideTasks(env: Env, db: Db, script: seq<Statement>)
    requires Untouching(script) && ExecuteAll(env, db, script).Ok?
    ensures var now := ExecuteAll(env, db, script).value;
            && now.counters == db.counters
            && (forall i :: Key(Tasks, i) in db.rows <==> Key(Tasks, i) in now.rows)
            && (forall i :: Key(Tasks, i) in db.rows ==> db.rows[Key(Tasks, i)] == now.rows[Key(Tasks, i)])
  {
    hide Allowed, InsertTrigger, UpdateTrigger;
    if script != [] {
      OutsideTasks(env, db, script[..|script| - 1]);
    }
  }

  // ---------------------------------------------------------------- the invariant

  ghost predicate PcOk(db: Db, pc: Pc) {
    match pc
    case Fetching(key, id) => IsTaskOf(db, id, key)
    case Failing(id, payload) => Key(Tasks, id) in db.rows && Get(payload, IdempotencyKey) == TaskKey(db, id)
    case _ => true
  }

  ghost predicate ThreadsOk(w: World) {
    forall n :: n in w.threads ==> PcOk(w.db, w.threads[n])
  }

  ghost predicate BegunOk(w: World) {
    forall i :: 0 <= i < |w.begun| ==> IsTaskOf(w.db, w.begun[i].id, w.begun[i].key)
  }

  predicate IssuedBelow(db: Db, i: Issued) {
    i.value < NextValue(db, i.prefix) && forall k :: 0 <= k < |i.prefix| ==> i.prefix[k] != '-'
  }

  ghost predicate IssuedOk(w: World) {
    && (forall i :: 0 <= i < |w.issued| ==> IssuedBelow(w.db, w.issued[i]))
    && (forall i, j :: 0 <= i < j < |w.issued| ==> w.issued[i] != w.issued[j])
  }

  ghost predicate Inv(env: Env, w: World) {
    OneTaskPerKey(w.db) && KeysRedacted(env, w.db) && ThreadsOk(w) && BegunOk(w) && IssuedOk(w)
  }

  lemma {:induction false} TasksKept(env: Env, w: World, now: Db)
    requires ThreadsOk(w) && BegunOk(w) && KeepsTasks(w.db, now)
    ensures ThreadsOk(w.(db := now)) && BegunOk(w.(db := now))
    ensures IssuedOk(w) && now.counters == w.db.counters ==> IssuedOk(w.(db := now))
  {
    hide TaskKey, Get;
    forall n | n in w.threads
      ensures PcOk(now, w.threads[n])
    {
      assert PcOk(w.db, w.threads[n]);
    }
    forall i | 0 <= i < |w.begun|
      ensures IsTaskOf(now, w.begun[i].id, w.begun[i].key)
    {
      assert IsTaskOf(w.db, w.begun[i].id, w.begun[i].key);
    }
    if IssuedOk(w) && now.counters == w.db.counters {
      forall i | 0 <= i < |w.issued|
        ensures IssuedBelow(now, w.issued[i])
      {
        assert IssuedBelow(w.db, w.issued[i]);
      }
    }
  }

  lemma {:induction false} GotoOk(env: Env, w: World, thread: nat, pc: Pc)
    requires Inv(env, w) && PcOk(w.db, pc)
    ensures Inv(env, Goto(w, thread, pc))
  {
    hide OneTaskPerKey, KeysRedacted, PcOk, IssuedBelow, IsTaskOf;
  }

  lemma {:induction false} LeaveOk(env: Env, w: World, thread: nat)
    requires Inv(env, w)
    ensures Inv(env, Leave(w, thread))
  {
    hide OneTaskPerKey, KeysRedacted, PcOk, IssuedBelow, IsTaskOf;
  }

  lemma {:induction false} ReturnOk(env: Env, w: World, thread: nat, key: string, id: string)
    requires Inv(env, w) && IsTaskOf(w.db, id, key)
    ensures Inv(env, Return(w, thread, key, id))
  {
    hide OneTaskPerKey, KeysRedacted, PcOk, IssuedBelow, IsTaskOf;
  }

  lemma {:induction false} IssuingOk(env: Env, w: World, prefix: string)
    requires Inv(env, w)
    ensures Inv(env, Issuing(env, w, prefix))
  {
    hide OneTaskPerKey, KeysRedacted, Submit, Script, KeepsTasks, PcOk, IsTaskOf, NormalPrefix;
    var p := NormalPrefix(prefix);
    if p.Ok? {
      var value := NextValue(w.db, p.value);
      var t := Counter(p.value, value + 1);
      PlainOutcome(env, w.db, t);
      var now := Perform(env, w.db, None, NextId(prefix));
      assert now.rows == w.db.rows;
      SameTasks(env, w.db, now);
      TasksKept(env, w, now);
      var issued := Issued(p.value, value);
      forall i | 0 <= i < |w.issued|
        ensures IssuedBelow(now, w.issued[i]) && w.issued[i] != issued
      {
        assert IssuedBelow(w.db, w.issued[i]);
      }
    }
  }

  lemma {:induction false} CallOk(env: Env, w: World, q: Request)
    requires Faithful(env) && Inv(env, w)
    requires IsTaskRequest(q)
    requires q.SaveEntity? && Key(Tasks, q.id) in w.db.rows ==> Get(q.payload, IdempotencyKey) == TaskKey(w.db, q.id)
    ensures Inv(env, Call(env, w, q))
  {
    hide OneTaskPerKey, KeysRedacted, KeepsTasks, Faithful, Perform, ThreadsOk, BegunOk, IssuedOk;
    TaskWrite(env, w.db, q);
    TasksKept(env, w, Perform(env, w.db, None, q));
  }

  lemma {:induction false} InvParts(env: Env, w: World)
    requires Inv(env, w)
    ensures OneTaskPerKey(w.db) && KeysRedacted(env, w.db)
    ensures forall n :: n in w.threads ==> PcOk(w.db, w.threads[n])
  {
    hide OneTaskPerKey, KeysRedacted, PcOk;
  }

  lemma {:induction false} AdvancedOk(env: Env, w: World, s: Step)
    requires Faithful(env) && Inv(env, w) && s.Advance? && s.thread in w.threads
    ensures Inv(env, Advanced(env, w, s))
  {
    hide Inv, Faithful, Perform, Goto, Leave, Return, Issuing, IsTaskOf, FindTask;
    InvParts(env, w);
    match w.threads[s.thread]
    case Finding(key) =>
      var found := FindTask(w.db, key);
      if found.Some? {
        ReturnOk(env, w, s.thread, key, found.value);
      } else {
        GotoOk(env, w, s.thread, Numbering(key));
      }
    case Numbering(key) =>
      IssuingOk(env, w, "T");
      GotoOk(env, Issuing(env, w, "T"), s.thread, Dispatching(key, Format("T", NextValue(w.db, "T"))));
    case Dispatching(key, id) =>
      var q := DispatchTask(id, key, s.phase, s.role, s.startedAt);
      CallOk(env, w, q);
      TaskWrite(env, w.db, q);
      var now := Call(env, w, q);
      GotoOk(env, now, s.thread, if |now.db.events| > |w.db.events| then Fetching(key, id) else Refinding(key));
    case Fetching(key, id) =>
      if Key(Tasks, id) in w.db.rows {
        ReturnOk(env, w, s.thread, key, id);
      } else {
        GotoOk(env, w, s.thread, Refinding(key));
      }
    case Refinding(key) =>
      var found := FindTask(w.db, key);
      if found.Some? {
        ReturnOk(env, w, s.thread, key, found.value);
      } else {
        LeaveOk(env, w, s.thread);
      }
    case Failing(id, payload) =>
      var q := SaveEntity(Tasks, id, payload);
      CallOk(env, w, q);
      LeaveOk(env, Call(env, w, q), s.thread);
  }

  lemma {:induction false} NextOk(env: Env, w: World, s: Step)
    requires Faithful(env) && Inv(env, w)
    ensures Inv(env, Next(env, w, s))
  {
    hide Inv, Faithful, Perform, Goto, Leave, Return, Issuing, IsTaskOf, Advanced, Untouching, Submit, Strip;
    match s
    case Begin(thread, key) => GotoOk(env, w, thread, Finding(Strip(key)));
    case Advance(thread, _, _, _) =>
      if thread in w.threads {
        AdvancedOk(env, w, s);
      }
    case ReadToFail(thread, id, result, at) =>
      if Key(Tasks, id) in w.db.rows {
        var cols := w.db.rows[Key(Tasks, id)].cols;
        var payload := cols[Status := Text("failed")][FinishedAt := at][ResultName := result];
        assert Get(payload, IdempotencyKey) == Get(cols, IdempotencyKey);
        GotoOk(env, w, thread, Failing(id, payload));
      }
    case End(q) =>
      if q.FinishTask? || q.BlockTask? {
        CallOk(env, w, q);
      }
    case Issue(prefix) => IssuingOk(env, w, prefix);
    case Outside(script) =>
      if Untouching(script) {
        OutsideOk(env, w, script);
      }
  }

  lemma {:induction false} OutsideOk(env: Env, w: World, script: seq<Statement>)
    requires Inv(env, w) && Untouching(script)
    ensures Inv(env, w.(db := Submit(env, w.db, script)))
  {
    hide OneTaskPerKey, KeysRedacted, KeepsTasks, ThreadsOk, BegunOk, IssuedOk, Untouching, ExecuteAll;
    if ExecuteAll(env, w.db, script).Ok? {
      var now := ExecuteAll(env, w.db, script).value;
      OutsideTasks(env, w.db, script);
      SameTasks(env, w.db, now);
      TasksKept(env, w, now);
    } else {
      assert w.(db := Submit(env, w.db, script)) == w;
    }
  }

  lemma {:induction false} RunOk(env: Env, steps: seq<Step>)
    requires Faithful(env)
    ensures Inv(env, RunLedger(env, steps))
  {
    hide Faithful, Next;
    if steps != [] {
      hide Inv;
      RunOk(env, steps[..|steps| - 1]);
      NextOk(env, RunLedger(env, steps[..|steps| - 1]), steps[|steps| - 1]);
    }
  }

  // ---------------------------------------------------------------- the theorems

  /** However the steps of any number of threads interleave, a key has at most one task, and every
      `begin` of that key that returned has returned this task. */
  lemma {:induction false} BeginIsIdempotent(env: Env, steps: seq<Step>, key: string)
    requires Faithful(env)
    ensures var w := RunLedger(env, steps);
            && (forall i, j :: IsTaskOf(w.db, i, key) && IsTaskOf(w.db, j, key) ==> i == j)
            && (forall n :: 0 <= n < |w.begun| && w.begun[n].key == key ==> FindTask(w.db, key) == Some(w.begun[n].id))
  {
    hide RunLedger, Faithful, KeysRedacted, ThreadsOk, IssuedOk, TaskKey;
    RunOk(env, steps);
    var w := RunLedger(env, steps);
    forall n | 0 <= n < |w.begun| && w.begun[n].key == key
      ensures FindTask(w.db, key) == Some(w.begun[n].id)
    {
      assert IsTaskOf(w.db, w.begun[n].id, key);
    }
  }

  /** No identifier is ever issued twice, whatever the prefixes and however many digits. */
  lemma {:induction false} IdsNeverRepeat(env: Env, steps: seq<Step>, i: nat, j: nat)
    requires Faithful(env) && i < j < |RunLedger(env, steps).issued|
    ensures IssuedId(RunLedger(env, steps).issued[i]) != IssuedId(RunLedger(env, steps).issued[j])
  {
    hide RunLedger, Faithful, KeysRedacted, ThreadsOk, BegunOk, OneTaskPerKey, Format;
    RunOk(env, steps);
    var a, b := RunLedger(env, steps).issued[i], RunLedger(env, steps).issued[j];
    assert IssuedBelow(RunLedger(env, steps).db, a) && IssuedBelow(RunLedger(env, steps).db, b);
    if IssuedId(a) == IssuedId(b) {
      FormatIsInjective(a.prefix, a.value, b.prefix, b.value);
    }
  }
}
