/** core/store.py, the object: one writer whose methods change the log and the tables in place. */
module StoreObject {
  import opened Prelude
  import opened Lifecycle
  import opened Ladder
  import opened StoreIds
  import opened StoreData
  import opened StoreOps
  import opened StoreHistory
  import opened HypothesisObject

  /** A script that starts by appending an event grows the log exactly when it commits. */
  lemma {:induction false} CommitShows(env: Env, db: Db, script: seq<Statement>)
    requires script != [] && script[0].Append?
    ensures ExecuteAll(env, db, script).Ok? <==> |StoreData.Submit(env, db, script).events| > |db.events|
  {
    if ExecuteAll(env, db, script).Ok? {
      CommittedGrows(env, db, script);
    }
  }

  lemma {:induction false} CommittedGrows(env: Env, db: Db, script: seq<Statement>)
    requires script != [] && script[0].Append? && ExecuteAll(env, db, script).Ok?
    ensures |ExecuteAll(env, db, script).value.events| > |db.events|
  {
    hide Allowed, InsertTrigger, UpdateTrigger;
    var init := script[..|script| - 1];
    if init == [] {
      assert script == [] + [script[0]];
      ExecuteNothing(env, db);
      ExecuteSnoc(env, db, [], script[0]);
    } else {
      CommittedGrows(env, db, init);
    }
  }

  class Store {
    const env: Env
    var events: seq<Event>
    var rows: map<Key, Row>
    var counters: map<string, nat>

    constructor (env: Env)
      ensures this.env == env && Contents() == EMPTY
    {
      this.env := env;
      events, rows, counters := [], map[], map[];
    }

    function Contents(): Db
      reads this
    {
      Db(events, rows, counters)
    }

    /** One SQL statement. A refused one may be followed only by a rollback. */
    method Execute(s: Statement) returns (ok: bool)
      modifies this
      ensures ok <==> StoreData.Execute(env, old(Contents()), s).Ok?
      ensures ok ==> Contents() == StoreData.Execute(env, old(Contents()), s).value
    {
      hide Allowed, InsertTrigger, UpdateTrigger;
      ok := true;
      match s
      case Append(e) => events := events + [e];
      case Insert(key, row) =>
        ok := key !in rows && Allowed(env, rows, key, row) && InsertTrigger(events, key, row);
        if ok {
          rows := rows[key := row];
        }
      case Update(key, row) =>
        if key in rows {
          ok := Allowed(env, rows, key, row) && UpdateTrigger(events, key, rows[key], row);
          if ok {
            rows := rows[key := row];
          }
        }
      case Count(prefix, value) => counters := counters[prefix := value];
      case Fail => ok := false;
    }

    /** `submit`: the statements run one by one, and the first one refused rolls everything back. */
    method Submit(script: seq<Statement>) returns (ok: bool)
      modifies this
      ensures ok <==> ExecuteAll(env, old(Contents()), script).Ok?
      ensures Contents() == StoreData.Submit(env, old(Contents()), script)
    {
      hide StoreData.Execute;
      var saved := (events, rows, counters);
      ghost var start := Contents();
      for k := 0 to |script|
        invariant ExecuteAll(env, start, script[..k]) == Ok(Contents())
      {
        var done := Execute(script[k]);
        assert script[..k + 1][..k] == script[..k];
        if !done {
          events, rows, counters := saved.0, saved.1, saved.2;
          RefusedAt(env, start, script, k);
          return false;
        }
      }
      assert script[..|script|] == script;
      return true;
    }

    method RecordEvent(kind: Kind, entity: Entity, id: string, op: Op, from: Json, to: Json, snapshot: Option<Doc>)
      returns (ok: bool)
      modifies this
      ensures Contents() == Perform(env, old(Contents()), None, StoreOps.RecordEvent(kind, entity, id, op, from, to, snapshot))
      ensures ok <==> ValidKind(kind, op)
    {
      hide ValidKind, Scrub, ScrubOption, ExecuteAll;
      if !ValidKind(kind, op) {
        ExecuteNothing(env, Contents());
        return false;
      }
      var event := Recorded(env, Event(kind, entity, id, op, from, to, snapshot, None));
      ExecuteNothing(env, Contents());
      ExecuteSnoc(env, Contents(), [], Append(event));
      assert [] + [Append(event)] == [Append(event)];
      ok := Submit([Append(event)]);
    }

    /** `create_hypothesis`, once the id is chosen. */
    method CreateHypothesis(id: string, payload: Doc) returns (ok: bool)
      modifies this
      ensures Contents() == Perform(env, old(Contents()), None, StoreOps.CreateHypothesis(id, payload))
      ensures ok <==> |events| > |old(events)|
    {
      hide Scrub, ScrubDoc, ExecuteAll, HypRow, NormalPrefix, NextValue, ValidKind, EntitySavedTo, Dispatched, TaskEnded, Saved,
           Transitioned, AwardedTo, Recorded, StoreData.Execute, Get;
      var data := ScrubDoc(env, payload)[Id := Text(id)];
      if State !in data {
        data := data[State := StateText(OPEN)];
      }
      if data[State] != StateText(OPEN) {
        ExecuteNothing(env, Contents());
        return false;
      }
      var body := env.dumps(Obj(data));
      var event := HypEvent(env, HypCreated, id, InsertOp, Null, Null, data, body);
      var row := Row(HypRow(data, body), |events| + 1);
      var script := [Append(event), Insert(Key(Hypotheses, id), row)] + [];
      CommitShows(env, Contents(), script);
      ok := Submit(script);
    }

    /** `save` on a hypothesis that `existing` was read of before the lock was taken. */
    method SaveHypothesis(id: string, payload: Doc, existing: Option<Row>) returns (ok: bool)
      modifies this
      ensures Contents() == Perform(env, old(Contents()), existing, StoreOps.SaveHypothesis(id, payload))
      ensures ok <==> |events| > |old(events)|
    {
      hide Scrub, ScrubDoc, ExecuteAll, HypRow, BodyDoc, ColsOf, SetDetails, Created, NormalPrefix, NextValue,
           ValidKind, EntitySavedTo, Dispatched, TaskEnded, Transitioned, AwardedTo, Recorded, StoreData.Execute;
      if existing.None? {
        ok := CreateHypothesis(id, payload);
        return;
      }
      var cols := existing.value.cols;
      var state := Get(cols, State);
      var doc := BodyDoc(env, cols);
      if (State in payload && payload[State] != state) || Cause !in payload || Evidence !in payload || doc.None? {
        ExecuteNothing(env, Contents());
        return false;
      }
      var merged := doc.value + (payload - {Cause, Evidence});
      var data := ScrubDoc(env, merged[Id := Text(id)][State := state]);
      var body := env.dumps(Obj(data));
      var event := HypEvent(env, HypUpdated, id, UpdateOp, Null, Null, data, body);
      var key := Key(Hypotheses, id);
      var row := Row(SetDetails(ColsOf(Contents(), key), data, body), |events| + 1);
      var script := [Append(event), Update(key, row)] + [];
      CommitShows(env, Contents(), script);
      ok := Submit(script);
    }

    /** `transition_hypothesis`: the caller's object follows only if the transaction commits. */
    method TransitionHypothesis(h: Hypothesis, m: Move) returns (ok: bool)
      modifies this, h`state, h`reopenCount
      ensures Contents() == Perform(env, old(Contents()), None, StoreOps.TransitionHypothesis(old(h.Value()), m))
      ensures h.CurrentLife() == if ok then After(old(h.CurrentLife()), m) else old(h.CurrentLife())
      ensures ok ==> Accepts(old(h.CurrentLife()), m)
      ensures ok <==> |events| > |old(events)|
    {
      hide Scrub, ScrubDoc, ExecuteAll, HypRow, ColsOf, SetDetails, TransitionOk, IsReopen, Dump, Get, NormalPrefix,
           NextValue, ValidKind, EntitySavedTo, Dispatched, TaskEnded, Created, Saved, AwardedTo, Recorded, StoreData.Execute;
      ghost var value := h.Value();
      var key := Key(Hypotheses, h.id);
      if !TransitionOk(m.token, h.state, h.reopenCount, m.to, m.cause, m.evidence)
         || key !in rows || Get(rows[key].cols, State) != StateText(h.state) {
        ExecuteNothing(env, Contents());
        return false;
      }
      var reopens := h.reopenCount;
      var extra := [];
      if IsReopen(h.state, m.to) {
        reopens := reopens + 1;
        if reopens == 3 {
          extra := [Append(Event(ReopenThresholdExceeded, Of(Hypotheses), h.id, NoOp, Null, Null, None, None))];
        }
      }
      var payload := Dump(h.Value().(state := m.to, reopenCount := reopens));
      var body := env.dumps(Obj(ScrubDoc(env, payload)));
      var event := HypEvent(env, HypTransition, h.id, UpdateOp, StateText(h.state), StateText(m.to), payload, body);
      var row := Row(SetDetails(ColsOf(Contents(), key)[State := StateText(m.to)], payload, body), |events| + 1);
      var script := [Append(event), Update(key, row)] + extra;
      CommitShows(env, Contents(), script);
      ok := Submit(script);
      if ok {
        h.state := m.to;
        h.reopenCount := reopens;
      }
    }

    /** `award_ladder`: the ladder is raised on a copy, and reaches the caller's object only after commit. */
    method AwardLadder(h: Hypothesis, token: Token, proof: Proof) returns (ok: bool)
      modifies this, h`rungs
      ensures Contents() == Perform(env, old(Contents()), None, StoreOps.AwardLadder(old(h.Value()), token, proof))
      ensures h.rungs == if ok then Climb(env.mac, old(h.rungs), Attempt(token, h.state, proof.axis, proof.level, Some(proof)))
                         else old(h.rungs)
      ensures ok <==> |events| > |old(events)|
    {
      hide Scrub, ScrubDoc, ExecuteAll, HypRow, ColsOf, ValidateAward, Dump, Get, BodyDoc, NormalPrefix,
           NextValue, ValidKind, EntitySavedTo, Dispatched, TaskEnded, Created, Saved, Transitioned, Recorded, StoreData.Execute;
      ghost var value := h.Value();
      var key := Key(Hypotheses, h.id);
      if !ValidateAward(env.mac, token, Some(Subject(h.state, h.rungs)), proof.axis, proof.level, Some(proof)).Awarded?
         || key !in rows || BodyDoc(env, rows[key].cols).None?
         || Get(BodyDoc(env, rows[key].cols).value, State) != StateText(h.state) {
        ExecuteNothing(env, Contents());
        return false;
      }
      var candidate := h.rungs[proof.axis := proof.level];
      var payload := Dump(h.Value().(rungs := candidate));
      var body := env.dumps(Obj(ScrubDoc(env, payload)));
      var event := HypEvent(env, HypLadderAward, h.id, UpdateOp, Null, Null, payload, body);
      var row := Row(ColsOf(Contents(), key)[Body := Text(body)], |events| + 1);
      var script := [Append(event), Update(key, row)] + [];
      CommitShows(env, Contents(), script);
      ok := Submit(script);
      if ok {
        h.rungs := candidate;
      }
    }

    /** `save` on any other entity. */
    method SaveEntity(t: Table, id: string, payload: Doc) returns (ok: bool)
      modifies this
      ensures Contents() == Perform(env, old(Contents()), None, StoreOps.SaveEntity(t, id, payload))
      ensures ok <==> |events| > |old(events)|
    {
      hide Scrub, ScrubDoc, ExecuteAll, NormalPrefix, NextValue, ValidKind, Created, Saved, Dispatched, TaskEnded,
           Transitioned, AwardedTo, Recorded, StoreData.Execute, EntityRow, Mandatory, Columns;
      var data := ScrubDoc(env, payload);
      if t.Hypotheses? || exists c :: c in Columns(t) && Mandatory(t, c) && c !in data {
        ExecuteNothing(env, Contents());
        return false;
      }
      var cols := EntityRow(env, t, id, data, env.dumps(Obj(data[Id := Text(id)])));
      var insert := Key(t, id) !in rows;
      var e := Event(EntitySaved, Of(t), id, if insert then InsertOp else UpdateOp, Null, Null,
                     Some(data[KeyColumn(t) := Text(id)]), Some(cols));
      var row := Row(cols, |events| + 1);
      var script := [Append(Recorded(env, e)), if insert then Insert(Key(t, id), row) else Update(Key(t, id), row)] + [];
      CommitShows(env, Contents(), script);
      ok := Submit(script);
    }

    method NextId(prefix: string) returns (id: Option<string>)
      modifies this
      ensures Contents() == Perform(env, old(Contents()), None, StoreOps.NextId(prefix))
      ensures var p := NormalPrefix(prefix);
              id == if p.Ok? then Some(Format(p.value, NextValue(old(Contents()), p.value))) else None
    {
      hide ExecuteAll, NormalPrefix, NextValue, ValidKind, Created, Saved, Dispatched, TaskEnded, Transitioned, AwardedTo,
           EntitySavedTo, Format;
      var p := NormalPrefix(prefix);
      ExecuteNothing(env, Contents());
      if p.Reject? {
        return None;
      }
      var value := NextValue(Contents(), p.value);
      ExecuteSnoc(env, Contents(), [], Count(p.value, value + 1));
      assert [] + [Count(p.value, value + 1)] == [Count(p.value, value + 1)];
      var ok := Submit([Count(p.value, value + 1)]);
      return Some(Format(p.value, value));
    }

    method DispatchTask(id: string, key: string, phase: string, role: string, startedAt: string) returns (ok: bool)
      modifies this
      ensures Contents() == Perform(env, old(Contents()), None, StoreOps.DispatchTask(id, key, phase, role, startedAt))
      ensures ok <==> |events| > |old(events)|
    {
      hide ExecuteAll, NormalPrefix, NextValue, ValidKind, Created, Saved, TaskEnded, Transitioned, AwardedTo,
           EntitySavedTo, Recorded, StoreData.Execute, InsertTrigger, Allowed, Linked, SnapshotRow, Fits;
      var cols := map[
        Id := Text(id), IdempotencyKey := Text(key), Phase := Text(phase), Role := Text(role), Status := Text("dispatched"),
        StartedAt := Text(startedAt), FinishedAt := Null, ResultName := Null];
      var e := Event(TaskDispatched, Of(Tasks), id, InsertOp, Null, Null, None, Some(cols));
      var row := Row(cols, |events| + 1);
      var script := [Append(Recorded(env, e)), Insert(Key(Tasks, id), row)] + [];
      CommitShows(env, Contents(), script);
      ok := Submit(script);
    }

    /** `finish_task` and `block_task` differ in the event kind, the status and the stored result. */
    method EndTask(q: Request) returns (ok: bool)
      requires q.FinishTask? || q.BlockTask?
      modifies this
      ensures Contents() == Perform(env, old(Contents()), None, q)
      ensures ok <==> |events| > |old(events)|
    {
      hide ExecuteAll, NormalPrefix, NextValue, ValidKind, Created, Saved, Dispatched, Transitioned, AwardedTo,
           EntitySavedTo, Recorded, StoreData.Execute, Scrub;
      var kind, status, result := TaskFinished, "finished", Null;
      if q.FinishTask? {
        result := Scrub(env, q.result);
      } else {
        kind, status := TaskBlockedOnHuman, "blocked_on_human";
        result := Obj(map[Reason := Scrub(env, Text(q.reason))]);
      }
      var key := Key(Tasks, q.id);
      if key !in rows {
        ExecuteNothing(env, Contents());
        return false;
      }
      var cols := rows[key].cols[Status := Text(status)][FinishedAt := Text(q.finishedAt)][ResultName := Text(env.dumps(result))];
      var e := Event(kind, Of(Tasks), q.id, UpdateOp, Null, Null, Some(cols[ResultName := result]), Some(cols));
      var script := [Append(Recorded(env, e)), Update(key, Row(cols, |events| + 1))] + [];
      CommitShows(env, Contents(), script);
      ok := Submit(script);
    }

    /** `rebuild_hypothesis_from_events`: one pass over the log, keeping the last snapshot. */
    method RebuildHypothesis(id: string) returns (snapshot: Option<Doc>)
      ensures snapshot == Rebuild(events, id)
    {
      snapshot := None;
      for k := 0 to |events|
        invariant snapshot == Rebuild(events[..k], id)
      {
        assert events[..k + 1][..k] == events[..k];
        if About(events[k], id) && events[k].snapshot.Some? {
          snapshot := events[k].snapshot;
        }
      }
      assert events[..|events|] == events;
    }
  }
}
