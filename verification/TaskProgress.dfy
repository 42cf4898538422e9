/**
 core/tasks.py: left to itself at any moment of any interleaving, a `begin` ends, and exactly when it
 returns a task.
 */
module TaskProgress {
  import opened Prelude
  import Lifecycle
  import opened StoreIds
  import opened StoreData
  import opened StoreOps
  import opened StoreCommits
  import opened TaskLedger

  // ---------------------------------------------------------------- the store under the ledger

  lemma {:induction false} NextStaysSane(env: Env, w: World, s: Step)
    requires Sane(w.db)
    ensures Sane(Next(env, w, s).db)
  {
    hide Sane, Perform, Untouching, NormalPrefix, NextValue, Format, ExecuteAll;
    match s
    case Advance(thread, phase, role, at) =>
      if thread in w.threads {
        match w.threads[thread]
        case Numbering(_) => PerformStaysSane(env, w.db, None, NextId("T"));
        case Dispatching(key, id) => PerformStaysSane(env, w.db, None, DispatchTask(id, key, phase, role, at));
        case Failing(id, payload) => PerformStaysSane(env, w.db, None, SaveEntity(Tasks, id, payload));
        case _ =>
      }
    case End(q) => PerformStaysSane(env, w.db, None, q);
    case Issue(prefix) => PerformStaysSane(env, w.db, None, NextId(prefix));
    case Outside(script) =>
      if ExecuteAll(env, w.db, script).Ok? {
        ScriptStaysSane(env, w.db, script);
      }
    case _ =>
  }

  lemma {:induction false} LedgerIsSane(env: Env, steps: seq<Step>)
    ensures Sane(RunLedger(env, steps).db)
  {
    hide Sane, Next;
    if steps == [] {
      EmptyIsSane();
    } else {
      LedgerIsSane(env, steps[..|steps| - 1]);
      NextStaysSane(env, RunLedger(env, steps[..|steps| - 1]), steps[|steps| - 1]);
    }
  }

  // ---------------------------------------------------------------- one thread alone

  /** The same step `n` times over: one thread advancing by itself. */
  ghost function Alone(env: Env, w: World, s: Step, n: nat): World
    decreases n
  {
    if n == 0 then w else Alone(env, Next(env, w, s), s, n - 1)
  }

  predicate Advances(w: World, s: Step, pc: Pc) {
    s.Advance? && s.thread in w.threads && w.threads[s.thread] == pc
  }

  /** The thread has left, the log of returns is as given, and nobody else has moved. */
  ghost predicate Left(w: World, s: Step, now: World, begun: seq<Begun>)
    requires s.Advance?
  {
    now.threads == w.threads - {s.thread} && now.begun == begun
  }

  lemma {:induction false} GoneStays(env: Env, w: World, s: Step, n: nat)
    requires s.Advance? && s.thread !in w.threads
    ensures Alone(env, w, s, n) == w
  {
    hide Advanced;
    if n > 0 {
      GoneStays(env, w, s, n - 1);
    }
  }

  ghost predicate Taken(db: Db, key: string) {
    exists i :: IsTaskOf(db, i, key)
  }

  /** The thread has returned the task that holds the key in `db`. */
  ghost predicate Returned(w: World, s: Step, now: World, db: Db, key: string)
    requires s.Advance?
  {
    exists i :: IsTaskOf(db, i, key) && Left(w, s, now, w.begun + [Begun(key, i)])
  }

  lemma {:induction false} FromRefinding(env: Env, w: World, s: Step, key: string, n: nat)
    requires Advances(w, s, Refinding(key)) && n >= 1
    ensures if Taken(w.db, key) then Returned(w, s, Alone(env, w, s, n), w.db, key) else Left(w, s, Alone(env, w, s, n), w.begun)
  {
    hide IsTaskOf;
    GoneStays(env, Next(env, w, s), s, n - 1);
  }

  lemma {:induction false} FromFetching(env: Env, w: World, s: Step, key: string, id: string, n: nat)
    requires Advances(w, s, Fetching(key, id)) && Key(Tasks, id) in w.db.rows && n >= 1
    ensures Left(w, s, Alone(env, w, s, n), w.begun + [Begun(key, id)])
  {
    GoneStays(env, Next(env, w, s), s, n - 1);
  }

  lemma {:induction false} FromDispatching(env: Env, w: World, s: Step, key: string, id: string, n: nat)
    requires Advances(w, s, Dispatching(key, id)) && Sane(w.db) && n >= 2
    ensures if DispatchAdmitted(env, w.db, id, key, s.phase, s.role, s.startedAt)
            then Left(w, s, Alone(env, w, s, n), w.begun + [Begun(key, id)])
            else if Taken(w.db, key) then Returned(w, s, Alone(env, w, s, n), w.db, key)
            else Left(w, s, Alone(env, w, s, n), w.begun)
  {
    hide Sane, Perform, DispatchAdmitted, DispatchRow, IsTaskOf;
    DispatchCommits(env, w.db, None, id, key, s.phase, s.role, s.startedAt);
    var next := Next(env, w, s);
    if DispatchAdmitted(env, w.db, id, key, s.phase, s.role, s.startedAt) {
      FromFetching(env, next, s, key, id, n - 1);
    } else {
      FromRefinding(env, next, s, key, n - 1);
    }
  }

  /** Drawing an identifier leaves every task as it was. */
  lemma {:induction false} NumberedTasks(env: Env, db: Db, key: string)
    ensures forall i :: IsTaskOf(Perform(env, db, None, NextId("T")), i, key) <==> IsTaskOf(db, i, key)
  {
    hide NormalPrefix, NextValue, Submit, Script, Get;
    PlainOutcome(env, db, Plan(env, db, None, NextId("T")));
  }

  lemma {:induction false} FromNumbering(env: Env, w: World, s: Step, key: string, n: nat)
    requires Advances(w, s, Numbering(key)) && Sane(w.db) && n >= 3
    ensures var numbered, id := Perform(env, w.db, None, NextId("T")), Format("T", NextValue(w.db, "T"));
            if DispatchAdmitted(env, numbered, id, key, s.phase, s.role, s.startedAt)
            then Left(w, s, Alone(env, w, s, n), w.begun + [Begun(key, id)])
            else if Taken(w.db, key) then Returned(w, s, Alone(env, w, s, n), w.db, key)
            else Left(w, s, Alone(env, w, s, n), w.begun)
  {
    hide Sane, Perform, DispatchAdmitted, IsTaskOf, Format, NextValue, NormalPrefix;
    TaskPrefix();
    PerformStaysSane(env, w.db, None, NextId("T"));
    NumberedTasks(env, w.db, key);
    var next := Next(env, w, s);
    FromDispatching(env, next, s, key, Format("T", NextValue(w.db, "T")), n - 1);
  }

  /** Nothing can be dispatched under a key that a task holds. */
  lemma {:induction false} TakenIsRefused(env: Env, db: Db, id: string, key: string, phase: string, role: string, at: string)
    requires Taken(db, key)
    ensures !DispatchAdmitted(env, db, id, key, phase, role, at)
  {
    hide Unredacted, DispatchRow, Get;
  }

  lemma {:induction false} FromFinding(env: Env, w: World, s: Step, key: string, n: nat)
    requires Advances(w, s, Finding(key)) && Sane(w.db) && n >= 4
    ensures var numbered, id := Perform(env, w.db, None, NextId("T")), Format("T", NextValue(w.db, "T"));
            if Taken(w.db, key) then Returned(w, s, Alone(env, w, s, n), w.db, key)
            else if DispatchAdmitted(env, numbered, id, key, s.phase, s.role, s.startedAt)
            then Left(w, s, Alone(env, w, s, n), w.begun + [Begun(key, id)])
            else Left(w, s, Alone(env, w, s, n), w.begun)
  {
    hide Sane, Perform, DispatchAdmitted, IsTaskOf, Format, NextValue;
    var next := Next(env, w, s);
    if Taken(w.db, key) {
      GoneStays(env, next, s, n - 1);
    } else {
      FromNumbering(env, next, s, key, n - 1);
    }
  }

  /** The identifier and the database that the thread's dispatch will meet, if it has not dispatched yet. */
  ghost predicate WillDispatch(env: Env, db: Db, pc: Pc, s: Step)
    requires s.Advance?
  {
    match pc
    case Finding(key) => DispatchAdmitted(env, Perform(env, db, None, NextId("T")), Format("T", NextValue(db, "T")), key, s.phase, s.role, s.startedAt)
    case Numbering(key) => DispatchAdmitted(env, Perform(env, db, None, NextId("T")), Format("T", NextValue(db, "T")), key, s.phase, s.role, s.startedAt)
    case Dispatching(key, id) => DispatchAdmitted(env, db, id, key, s.phase, s.role, s.startedAt)
    case _ => false
  }

  ghost predicate ReturnsSome(w: World, s: Step, now: World, key: string)
    requires s.Advance?
  {
    exists i :: Left(w, s, now, w.begun + [Begun(key, i)])
  }

  /** Whatever the interleaving has done so far, a `begin` left to itself ends within four steps. If a
      task holds its key, however far the begin had got, it returns that task; if none does, it returns
      a task exactly if it has yet to dispatch and its dispatch is admitted, and raises otherwise. */
  lemma {:induction false} BeginEnds(env: Env, steps: seq<Step>, s: Step, n: nat)
    requires Faithful(env) && s.Advance? && s.thread in RunLedger(env, steps).threads && n >= 4
    requires !RunLedger(env, steps).threads[s.thread].Failing?
    ensures var w := RunLedger(env, steps);
            var now, pc := Alone(env, w, s, n), w.threads[s.thread];
            && s.thread !in now.threads
            && (Taken(w.db, pc.key) ==> Returned(w, s, now, w.db, pc.key))
            && (!Taken(w.db, pc.key) ==>
                  if WillDispatch(env, w.db, pc, s) then ReturnsSome(w, s, now, pc.key) else Left(w, s, now, w.begun))
  {
    hide RunLedger, Faithful, Alone, Sane, Perform, DispatchAdmitted, IsTaskOf, Format, NextValue;
    var w := RunLedger(env, steps);
    LedgerIsSane(env, steps);
    match w.threads[s.thread] {
      case Finding(key) => FromFinding(env, w, s, key, n);
      case Numbering(key) =>
        if Taken(w.db, key) {
          NumberedTasks(env, w.db, key);
          TakenIsRefused(env, Perform(env, w.db, None, NextId("T")), Format("T", NextValue(w.db, "T")), key, s.phase, s.role, s.startedAt);
        }
        FromNumbering(env, w, s, key, n);
      case Dispatching(key, id) =>
        if Taken(w.db, key) {
          TakenIsRefused(env, w.db, id, key, s.phase, s.role, s.startedAt);
        }
        FromDispatching(env, w, s, key, id, n);
      case Fetching(key, id) =>
        FetchedIsThere(env, steps, s, key, id);
        FromFetching(env, w, s, key, id, n);
      case Refinding(key) => FromRefinding(env, w, s, key, n);
    }
  }

  lemma {:induction false} FetchedIsThere(env: Env, steps: seq<Step>, s: Step, key: string, id: string)
    requires Faithful(env) && Advances(RunLedger(env, steps), s, Fetching(key, id))
    ensures IsTaskOf(RunLedger(env, steps).db, id, key) && Key(Tasks, id) in RunLedger(env, steps).db.rows
  {
    hide Inv, RunLedger, Faithful, TaskKey;
    RunOk(env, steps);
    InvParts(env, RunLedger(env, steps));
    assert PcOk(RunLedger(env, steps).db, RunLedger(env, steps).threads[s.thread]);
  }

  /** A begin of a key that is not blank, started by an idle thread and left to itself, ends: with the
      task of the stripped key if there is one, else with the next task of the store if its dispatch is
      admitted, and else with an exception. */
  lemma {:induction false} BeginAlone(env: Env, steps: seq<Step>, key: string, s: Step, n: nat)
    requires s.Advance? && s.thread !in RunLedger(env, steps).threads && n >= 4
    ensures Lifecycle.Strip(key) == [] ==> Next(env, RunLedger(env, steps), Step.Begin(s.thread, key)) == RunLedger(env, steps)
    ensures Lifecycle.Strip(key) != [] ==>
              var w, k := RunLedger(env, steps), Lifecycle.Strip(key);
              var numbered, id := Perform(env, w.db, None, NextId("T")), Format("T", NextValue(w.db, "T"));
              var now := Alone(env, Next(env, w, Step.Begin(s.thread, key)), s, n);
              && now.threads == w.threads
              && if Taken(w.db, k) then exists i :: IsTaskOf(w.db, i, k) && now.begun == w.begun + [Begun(k, i)]
                 else if DispatchAdmitted(env, numbered, id, k, s.phase, s.role, s.startedAt)
                 then now.begun == w.begun + [Begun(k, id)]
                 else now.begun == w.begun
  {
    hide RunLedger, Alone, Sane, Perform, DispatchAdmitted, IsTaskOf, Format, NextValue, Lifecycle.Strip;
    var w := RunLedger(env, steps);
    if Lifecycle.Strip(key) != [] {
      LedgerIsSane(env, steps);
      var started := Next(env, w, Step.Begin(s.thread, key));
      FromFinding(env, started, s, Lifecycle.Strip(key), n);
      assert started.threads - {s.thread} == w.threads;
    }
  }

  /** What `fail` saves back: the row it read, with status, time and result replaced. */
  function FailedDoc(was: Doc, result: Json, at: Json): Doc {
    was[Status := Text("failed")][FinishedAt := at][ResultName := result]
  }

  /** A `fail` of a known task that is left to itself after its read ends, and saves the task back as
      failed exactly if that save is admitted; every other row is as it was. */
  lemma {:induction false} FailEnds(env: Env, steps: seq<Step>, id: string, result: Json, at: Json, s: Step, n: nat)
    requires s.Advance? && s.thread !in RunLedger(env, steps).threads && n >= 1
    requires Key(Tasks, id) in RunLedger(env, steps).db.rows
    ensures var w := RunLedger(env, steps);
            var doc := FailedDoc(w.db.rows[Key(Tasks, id)].cols, result, at);
            var now := Alone(env, Next(env, w, ReadToFail(s.thread, id, result, at)), s, n);
            && now.threads == w.threads && now.begun == w.begun
            && if SaveAdmitted(env, w.db, Tasks, id, doc)
               then now.db.rows == w.db.rows[Key(Tasks, id) := Row(SavedRowOf(env, Tasks, id, doc), |w.db.events| + 1)]
               else now.db == w.db
  {
    hide RunLedger, Alone, Sane, SaveAdmitted, SavedRowOf, Perform, FailedDoc;
    var w := RunLedger(env, steps);
    LedgerIsSane(env, steps);
    var doc := FailedDoc(w.db.rows[Key(Tasks, id)].cols, result, at);
    SaveCommits(env, w.db, None, Tasks, id, doc);
    ReadThenSaved(env, w, id, result, at, s, n);
  }

  lemma {:induction false} ReadThenSaved(env: Env, w: World, id: string, result: Json, at: Json, s: Step, n: nat)
    requires s.Advance? && s.thread !in w.threads && n >= 1 && Key(Tasks, id) in w.db.rows
    ensures var doc := FailedDoc(w.db.rows[Key(Tasks, id)].cols, result, at);
            Alone(env, Next(env, w, ReadToFail(s.thread, id, result, at)), s, n) ==
            w.(db := Perform(env, w.db, None, SaveEntity(Tasks, id, doc)))
  {
    hide Perform;
    var read := Next(env, w, ReadToFail(s.thread, id, result, at));
    GoneStays(env, Next(env, read, s), s, n - 1);
    assert read.threads - {s.thread} == w.threads;
  }

  /** The columns of a task saved back as failed: the new status, time and result, and the key it had. */
  lemma {:induction false} FailedColumns(env: Env, id: string, was: Doc, result: Json, at: Json)
    ensures var cols := SavedRowOf(env, Tasks, id, FailedDoc(was, result, at));
            && Get(cols, Status) == Text(env.redact("failed")) && Get(cols, FinishedAt) == Scrub(env, at)
            && Get(cols, IdempotencyKey) == Scrub(env, Get(was, IdempotencyKey))
            && Get(cols, ResultName) == if result.Null? then Null else Text(env.dumps(Scrub(env, result)))
  {
    hide SavedRowOf, Scrub;
    var doc := FailedDoc(was, result, at);
    ScrubText(env, Text("failed"));
    PlainColumn(env, id, doc, Status);
    PlainColumn(env, id, doc, FinishedAt);
    PlainColumn(env, id, doc, IdempotencyKey);
    ResultColumn(env, id, doc);
  }

  lemma {:induction false} PlainColumn(env: Env, id: string, doc: Doc, c: Name)
    requires (c == Status && c in doc) || c == FinishedAt || c == IdempotencyKey
    ensures Get(SavedRowOf(env, Tasks, id, doc), c) == Scrub(env, Get(doc, c))
  {
    hide SavedRowOf, Scrub;
    ScrubNull(env, Null);
    SavedRowReads(env, Tasks, id, doc, c);
  }

  lemma {:induction false} ResultColumn(env: Env, id: string, doc: Doc)
    ensures Get(SavedRowOf(env, Tasks, id, doc), ResultName) ==
            if Get(doc, ResultName).Null? then Null else Text(env.dumps(Scrub(env, Get(doc, ResultName))))
  {
    hide SavedRowOf, Scrub;
    SavedRowReads(env, Tasks, id, doc, ResultName);
  }
}
