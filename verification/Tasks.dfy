/** core/tasks.py, the object: each method is a sequence of separate reads and transactions of the store. */
module TasksObject {
  import opened Prelude
  import opened Lifecycle
  import opened StoreIds
  import opened StoreData
  import opened StoreOps
  import opened StoreRuns
  import opened StoreCommits
  import opened StoreObject
  import opened TaskLedger
  import opened TaskProgress

  /** A dispatch that committed has left a task with that id and key. */
  lemma {:induction false} DispatchGivesTask(env: Env, db: Db, q: Request)
    requires q.DispatchTask? && |Perform(env, db, None, q).events| > |db.events|
    ensures IsTaskOf(Perform(env, db, None, q), q.id, q.key)
  {
    hide Plan, Perform, Fits, Scrub, Allowed, Matches;
    PerformCases(env, db, None, q);
    TaskPlan(env, db, q);
  }

  class Ledger {
    const store: Store

    constructor (store: Store)
      ensures this.store == store
    {
      this.store := store;
    }

    /** `find_task_by_key`: one query over the tasks table. */
    method Find(key: string) returns (id: Option<string>)
      ensures id.Some? ==> IsTaskOf(store.Contents(), id.value, key)
      ensures id.None? ==> forall i :: !IsTaskOf(store.Contents(), i, key)
    {
      var rows := store.rows;
      if exists k :: k in rows && k.table.Tasks? && Get(rows[k].cols, IdempotencyKey) == Text(key) {
        var k :| k in rows && k.table.Tasks? && Get(rows[k].cols, IdempotencyKey) == Text(key);
        assert k == Key(Tasks, k.id);
        return Some(k.id);
      }
      forall i
        ensures !IsTaskOf(store.Contents(), i, key)
      {
        if Key(Tasks, i) in rows {
          assert Get(rows[Key(Tasks, i)].cols, IdempotencyKey) != Text(key);
        }
      }
      return None;
    }

    /** `begin`, with nobody else between its steps: the task of the key, found or dispatched. */
    method Begin(key: string, phase: string, role: string, startedAt: string) returns (id: Result<string>)
      modifies store
      ensures Strip(key) == [] ==> id.Reject? && store.Contents() == old(store.Contents())
      ensures Strip(key) != [] && id.Ok? ==> IsTaskOf(store.Contents(), id.value, Strip(key))
      ensures Strip(key) != [] && id.Reject? ==> forall i :: !IsTaskOf(store.Contents(), i, Strip(key))
      ensures (exists i :: IsTaskOf(old(store.Contents()), i, Strip(key))) ==> store.Contents() == old(store.Contents())
      ensures Strip(key) != [] && !(exists i :: IsTaskOf(old(store.Contents()), i, Strip(key))) ==>
                var numbered := Perform(store.env, old(store.Contents()), None, NextId("T"));
                var taskId := Format("T", NextValue(old(store.Contents()), "T"));
                store.Contents() == Perform(store.env, numbered, None, DispatchTask(taskId, Strip(key), phase, role, startedAt))
      ensures Strip(key) != [] && !(exists i :: IsTaskOf(old(store.Contents()), i, Strip(key))) && Sane(old(store.Contents())) ==>
                var numbered := Perform(store.env, old(store.Contents()), None, NextId("T"));
                var taskId := Format("T", NextValue(old(store.Contents()), "T"));
                && (id.Ok? <==> DispatchAdmitted(store.env, numbered, taskId, Strip(key), phase, role, startedAt))
                && (id.Ok? ==> id.value == taskId)
    {
      hide Perform, NextValue, Format, Strip, DispatchAdmitted, DispatchRow, Sane;
      ghost var start := store.Contents();
      var k := Strip(key);
      if k == [] {
        return Reject;
      }
      var existing := Find(k);
      if existing.Some? {
        return Ok(existing.value);
      }
      var taskId := store.NextId("T");
      TaskPrefix();
      ghost var numbered := store.Contents();
      if Sane(start) {
        PerformStaysSane(store.env, start, None, NextId("T"));
        DispatchCommits(store.env, numbered, None, taskId.value, k, phase, role, startedAt);
        NumberedTasks(store.env, start, k);
      }
      var done := store.DispatchTask(taskId.value, k, phase, role, startedAt);
      if done {
        DispatchGivesTask(store.env, numbered, DispatchTask(taskId.value, k, phase, role, startedAt));
        return Ok(taskId.value);
      }
      existing := Find(k);
      return if existing.Some? then Ok(existing.value) else Reject;
    }

    method Finish(id: string, result: Json, finishedAt: string)
      modifies store
      ensures store.Contents() == Perform(store.env, old(store.Contents()), None, FinishTask(id, result, finishedAt))
    {
      var _ := store.EndTask(FinishTask(id, result, finishedAt));
    }

    method BlockHuman(id: string, reason: string, finishedAt: string)
      modifies store
      ensures store.Contents() == Perform(store.env, old(store.Contents()), None, BlockTask(id, reason, finishedAt))
    {
      var _ := store.EndTask(BlockTask(id, reason, finishedAt));
    }

    /** `fail` reads the task and saves it back as failed; an unknown task raises and changes nothing. */
    method Fail(id: string, result: Json, finishedAt: Json) returns (found: bool)
      modifies store
      ensures found <==> Key(Tasks, id) in old(store.rows)
      ensures store.Contents() ==
              if found then
                Perform(store.env, old(store.Contents()), None, SaveEntity(Tasks, id,
                  old(ColsOf(store.Contents(), Key(Tasks, id)))[Status := Text("failed")][FinishedAt := finishedAt][ResultName := result]))
              else old(store.Contents())
    {
      hide Perform;
      if Key(Tasks, id) !in store.rows {
        return false;
      }
      var task := store.rows[Key(Tasks, id)].cols;
      var _ := store.SaveEntity(Tasks, id, task[Status := Text("failed")][FinishedAt := finishedAt][ResultName := result]);
      return true;
    }
  }
}
