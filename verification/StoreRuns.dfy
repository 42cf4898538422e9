/**
 Whole runs of the store's operations: the tables are a replay of the log, rebuilding a hypothesis
 from its events gives what `get` reads, and every hypothesis has walked legally from OPEN.
 */
module StoreRuns {
  import opened Prelude
  import opened Lifecycle
  import opened Ladder
  import opened StoreData
  import opened StoreOps

  // ---------------------------------------------------------------- runs with stale reads

  /** A request, and the moment of the run at which its caller read what it has read. */
  datatype Call = Call(readAt: nat, request: Request)

  /** `_fetch_optional` of the hypothesis a `save` is about. */
  function Seen(db: Db, q: Request): Option<Row> {
    if q.SaveHypothesis? && Key(Hypotheses, q.id) in db.rows then Some(db.rows[Key(Hypotheses, q.id)]) else None
  }

  /** The row a call had read before its transaction began. */
  function ReadBy(dbs: seq<Db>, k: nat, c: Call): Option<Row>
    requires k < |dbs|
  {
    Seen(dbs[if c.readAt < k then c.readAt else k], c.request)
  }

  /** The database after each call of a run, starting from the empty one. */
  ghost predicate IsRun(env: Env, calls: seq<Call>, dbs: seq<Db>) {
    && |dbs| == |calls| + 1 && dbs[0] == EMPTY
    && forall k :: 0 <= k < |calls| ==> dbs[k + 1] == Perform(env, dbs[k], ReadBy(dbs, k, calls[k]), calls[k].request)
  }

  function States(env: Env, calls: seq<Call>): (dbs: seq<Db>)
    ensures |dbs| == |calls| + 1
  {
    if calls == [] then [EMPTY]
    else
      var n := |calls| - 1;
      var before := States(env, calls[..n]);
      before + [Perform(env, before[n], ReadBy(before, n, calls[n]), calls[n].request)]
  }

  /** Every list of calls has exactly one run. */
  lemma {:induction false} RunsExist(env: Env, calls: seq<Call>, dbs: seq<Db>)
    ensures IsRun(env, calls, dbs) <==> dbs == States(env, calls)
  {
    hide Perform, Seen;
    if calls != [] {
      var n := |calls| - 1;
      var before, all := States(env, calls[..n]), States(env, calls);
      RunsExist(env, calls[..n], before);
      assert all == before + [Perform(env, before[n], ReadBy(before, n, calls[n]), calls[n].request)];
      forall k | 0 <= k < |calls|
        ensures all[k + 1] == Perform(env, all[k], ReadBy(all, k, calls[k]), calls[k].request)
      {
        assert all[k] == before[k];
        assert k < n ==> calls[..n][k] == calls[k] && all[k + 1] == before[k + 1];
        assert ReadBy(all, k, calls[k]) == ReadBy(before, k, calls[k]);
      }
      if IsRun(env, calls, dbs) {
        var init := dbs[..|dbs| - 1];
        forall k | 0 <= k < n
          ensures init[k + 1] == Perform(env, init[k], ReadBy(init, k, calls[..n][k]), calls[..n][k].request)
        {
          assert dbs[k + 1] == Perform(env, dbs[k], ReadBy(dbs, k, calls[k]), calls[k].request);
          assert ReadBy(init, k, calls[k]) == ReadBy(dbs, k, calls[k]);
        }
        RunsExist(env, calls[..n], init);
        assert dbs[n + 1] == Perform(env, dbs[n], ReadBy(dbs, n, calls[n]), calls[n].request);
        assert ReadBy(init, n, calls[n]) == ReadBy(dbs, n, calls[n]);
        assert dbs == init + [dbs[n + 1]];
      }
    } else if IsRun(env, calls, dbs) {
      assert dbs == [EMPTY];
    }
  }

  /** Nothing, a bare event, a counter, or an event with its row. */
  lemma {:induction false} PerformCases(env: Env, db: Db, existing: Option<Row>, q: Request)
    requires FreshEnough(db, existing, q)
    ensures var t, now := Plan(env, db, existing, q), Perform(env, db, existing, q);
            && Fits(db, t)
            && if t.Write? then
                 now == db || (now == Written(db, t) && Matches(db, t) && Allowed(env, db.rows, t.key, t.row))
               else
                 && now.rows == db.rows
                 && now.events == db.events + (if t.Bare? then [t.event] else [])
                 && (t.Bare? ==> t.event.rowSnapshot.None?)
                 && now.counters == if t.Counter? then db.counters[t.prefix := t.value] else db.counters
  {
    hide Plan, Script, Submit, Allowed;
    var t := Plan(env, db, existing, q);
    PlansFit(env, db, existing, q);
    if t.Write? {
      WriteOutcome(env, db, t);
    } else {
      PlainOutcome(env, db, t);
    }
  }

  /** What the triggers compared before they let a write through. */
  predicate Matches(db: Db, t: Txn)
    requires t.Write?
  {
    && t.event.rowSnapshot.Some?
    && t.row.cols == SnapshotRow(t.key.table, t.event.rowSnapshot.value)
    && if t.insert then t.key !in db.rows && InsertTrigger(db.events + [t.event], t.key, t.row)
       else t.key in db.rows && UpdateTrigger(db.events + [t.event], t.key, db.rows[t.key], t.row)
  }

  lemma {:induction false} KeysAfter(db: Db, t: Txn)
    ensures t.Write? ==> db.rows.Keys <= Written(db, t).rows.Keys
  {
  }

  lemma {:induction false} RowsPersist(env: Env, calls: seq<Call>, dbs: seq<Db>, j: nat, k: nat)
    requires IsRun(env, calls, dbs) && j <= k < |dbs|
    ensures dbs[j].rows.Keys <= dbs[k].rows.Keys
    decreases k, 1
  {
    hide Plan, Matches, Fits, Perform, Written;
    if j < k {
      RowsPersist(env, calls, dbs, j, k - 1);
      StepOf(env, calls, dbs, k - 1);
      var db, c := dbs[k - 1], calls[k - 1];
      PerformCases(env, db, ReadBy(dbs, k - 1, c), c.request);
      KeysAfter(db, Plan(env, db, ReadBy(dbs, k - 1, c), c.request));
    }
  }

  /** One call of a run; what it had read is still there. */
  lemma {:induction false} StepOf(env: Env, calls: seq<Call>, dbs: seq<Db>, k: nat)
    requires IsRun(env, calls, dbs) && k < |calls|
    ensures |dbs| == |calls| + 1
    ensures dbs[k + 1] == Perform(env, dbs[k], ReadBy(dbs, k, calls[k]), calls[k].request)
    ensures FreshEnough(dbs[k], ReadBy(dbs, k, calls[k]), calls[k].request)
    decreases k + 1, 0
  {
    hide Perform;
    var j := if calls[k].readAt < k then calls[k].readAt else k;
    RowsPersist(env, calls, dbs, j, k);
  }

  // ---------------------------------------------------------------- the tables are a replay of the log

  /** The last row snapshot of each entity in the log. */
  function Replay(events: seq<Event>): map<Key, Row> {
    if events == [] then map[]
    else
      var e, before := events[|events| - 1], Replay(events[..|events| - 1]);
      if e.entity.Of? && e.rowSnapshot.Some?
      then before[Key(e.entity.table, e.id) := Row(SnapshotRow(e.entity.table, e.rowSnapshot.value), |events|)]
      else before
  }

  lemma {:induction false} ReplaySnoc(events: seq<Event>, e: Event)
    ensures Replay(events + [e]) ==
            if e.entity.Of? && e.rowSnapshot.Some?
            then Replay(events)[Key(e.entity.table, e.id) := Row(SnapshotRow(e.entity.table, e.rowSnapshot.value), |events| + 1)]
            else Replay(events)
  {
    hide SnapshotRow;
    assert (events + [e])[..|events|] == events;
  }

  lemma {:induction false} WriteReplays(db: Db, t: Txn)
    requires t.Write? && Fits(db, t) && Matches(db, t) && db.rows == Replay(db.events)
    ensures Written(db, t).rows == Replay(Written(db, t).events)
  {
    hide SnapshotRow, Replay, InsertTrigger, UpdateTrigger;
    ReplaySnoc(db.events, t.event);
    if t.extra.Some? {
      ReplaySnoc(db.events + [t.event], t.extra.value);
    } else {
      assert Written(db, t).events == db.events + [t.event];
    }
  }

  /** The tables are exactly what the log's last row snapshots say. */
  predicate IsReplay(db: Db) {
    db.rows == Replay(db.events)
  }

  lemma {:induction false} ReplayStart()
    ensures IsReplay(EMPTY)
  {
  }

  lemma {:induction false} StepReplays(env: Env, db: Db, existing: Option<Row>, q: Request)
    requires FreshEnough(db, existing, q) && IsReplay(db)
    ensures IsReplay(Perform(env, db, existing, q))
  {
    hide Plan, Perform, Matches, Fits, Written, Replay;
    var t, now := Plan(env, db, existing, q), Perform(env, db, existing, q);
    PerformCases(env, db, existing, q);
    if t.Write? {
      if now != db {
        WriteReplays(db, t);
      }
    } else if t.Bare? {
      ReplaySnoc(db.events, t.event);
    } else {
      assert now.events == db.events;
    }
  }

  /** At every moment of every run of the store's operations, with stale reads, refused transactions
      and bare events, the tables are a replay of the log. */
  lemma {:induction false} TablesAreReplay(env: Env, calls: seq<Call>, dbs: seq<Db>, k: nat)
    requires IsRun(env, calls, dbs) && k < |dbs|
    ensures IsReplay(dbs[k])
  {
    hide Perform, IsReplay;
    if k == 0 {
      ReplayStart();
    } else {
      TablesAreReplay(env, calls, dbs, k - 1);
      StepOf(env, calls, dbs, k - 1);
      StepReplays(env, dbs[k - 1], ReadBy(dbs, k - 1, calls[k - 1]), calls[k - 1].request);
    }
  }

  // ---------------------------------------------------------------- hypothesis writes

  /** The columns are described by the document: its text is the body, its details are the columns. */
  predicate Describes(env: Env, doc: Doc, cols: Doc) {
    && Get(cols, Body) == Text(env.dumps(Obj(doc)))
    && State in doc
    && Get(doc, State) == Get(cols, State) && Get(doc, Lens) == Get(cols, Lens)
    && Get(doc, ProtocolType) == Get(cols, ProtocolType) && Get(doc, PriorP) == Get(cols, PriorP)
  }

  /** What the trigger's comparison says about one hypothesis column. */
  lemma {:induction false} Compared(env: Env, cols: Doc, doc: Doc, body: string, n: Name)
    requires cols == SnapshotRow(Hypotheses, ScrubDoc(env, HypRow(doc, body))) && n in {Id, State, Lens, ProtocolType, PriorP}
    ensures Get(cols, n) == Scrub(env, Get(doc, n))
  {
    hide Scrub;
    var row := HypRow(doc, body);
    assert Get(ScrubDoc(env, row), n) == Scrub(env, Get(row, n));
  }

  /** Redacting a document that is already redacted, up to its id and state, changes nothing. */
  lemma {:induction false} AlreadyScrubbed(env: Env, doc: Doc, data: Doc)
    requires Faithful(env)
    requires forall n :: n in data && n != Id && n != State ==> n in doc && data[n] == Scrub(env, doc[n])
    requires Scrub(env, Get(data, Id)) == Get(data, Id) && Scrub(env, Get(data, State)) == Get(data, State)
    ensures ScrubDoc(env, data) == data
  {
    hide Scrub, Faithful;
    forall n | n in data
      ensures Scrub(env, data[n]) == data[n]
    {
      if n != Id && n != State {
        ScrubTwice(env, doc[n]);
      }
    }
  }

  lemma {:induction false} AllCompared(env: Env, cols: Doc, doc: Doc, body: string)
    requires cols == SnapshotRow(Hypotheses, ScrubDoc(env, HypRow(doc, body)))
    ensures Get(cols, Id) == Scrub(env, Get(doc, Id)) && Get(cols, State) == Scrub(env, Get(doc, State))
    ensures Get(cols, Lens) == Scrub(env, Get(doc, Lens))
    ensures Get(cols, ProtocolType) == Scrub(env, Get(doc, ProtocolType)) && Get(cols, PriorP) == Scrub(env, Get(doc, PriorP))
  {
    hide Scrub, SnapshotRow, ScrubDoc, HypRow;
    Compared(env, cols, doc, body, Id);
    Compared(env, cols, doc, body, State);
    Compared(env, cols, doc, body, Lens);
    Compared(env, cols, doc, body, ProtocolType);
    Compared(env, cols, doc, body, PriorP);
  }

  /** The event's stored snapshot describes the row the triggers let through. */
  ghost predicate Announces(env: Env, t: Txn)
    requires t.Write?
  {
    t.event.snapshot.Some? && Describes(env, t.event.snapshot.value, t.row.cols)
  }

  lemma {:induction false} ScrubState(env: Env, s: HState)
    ensures Scrub(env, StateText(s)) == StateText(s)
  {
  }

  lemma {:induction false} ScrubFixed(env: Env, data: Doc)
    requires forall n :: n in data ==> Scrub(env, data[n]) == data[n]
    ensures ScrubDoc(env, data) == data
  {
    hide Scrub;
  }

  lemma {:induction false} DumpHasState(h: Hyp)
    ensures State in Dump(h)
  {
  }

  lemma {:induction false} BodySet(cols: Doc, text: Json)
    requires Body in cols && cols[Body] == text
    ensures Get(cols, Body) == text
  {
  }

  lemma {:induction false} CreatedAnnounces(env: Env, db: Db, id: string, payload: Doc)
    requires Faithful(env)
    requires Created(env, db, id, payload).Write? && Matches(db, Created(env, db, id, payload))
    ensures Announces(env, Created(env, db, id, payload))
  {
    hide Scrub, ScrubDoc, InsertTrigger, SnapshotRow, Faithful;
    var named := ScrubDoc(env, payload)[Id := Text(id)];
    var data := if State in named then named else named[State := StateText(OPEN)];
    var body := env.dumps(Obj(data));
    var t := Created(env, db, id, payload);
    AllCompared(env, t.row.cols, data, body);
    ScrubState(env, OPEN);
    forall n | n in data && n != Id && n != State
      ensures n in payload && data[n] == Scrub(env, payload[n])
    {
      assert Get(ScrubDoc(env, payload), n) == Scrub(env, Get(payload, n));
    }
    AlreadyScrubbed(env, payload, data);
  }

  lemma {:induction false} SavedAnnounces(env: Env, db: Db, existing: Row, id: string, payload: Doc)
    requires Faithful(env)
    requires Saved(env, db, Some(existing), id, payload).Write? && Matches(db, Saved(env, db, Some(existing), id, payload))
    ensures Announces(env, Saved(env, db, Some(existing), id, payload))
  {
    hide Scrub, ScrubDoc, UpdateTrigger, SnapshotRow, Faithful, BodyDoc, HypRow;
    var raw := (BodyDoc(env, existing.cols).value + (payload - {Cause, Evidence}))
               [Id := Text(id)][State := Get(existing.cols, State)];
    var data := ScrubDoc(env, raw);
    var body := env.dumps(Obj(data));
    var t := Saved(env, db, Some(existing), id, payload);
    assert data.Keys == raw.Keys;
    forall n | n in data
      ensures Scrub(env, data[n]) == data[n]
    {
      assert Get(data, n) == Scrub(env, Get(raw, n));
      ScrubTwice(env, raw[n]);
    }
    ScrubFixed(env, data);
    assert t.row.cols == SnapshotRow(Hypotheses, ScrubDoc(env, HypRow(data, body)));
    AllCompared(env, t.row.cols, data, body);
    assert Get(data, State) == Scrub(env, Get(raw, State));
    ScrubTwice(env, Get(raw, State));
  }

  /** Setting the details from a document leaves columns that the redacted document describes, once
      the trigger has found them unredacted. */
  lemma {:induction false} DetailsDescribe(env: Env, cols: Doc, doc: Doc)
    requires State in doc
    requires var body := env.dumps(Obj(ScrubDoc(env, doc)));
             Get(cols, Body) == Text(body) && cols == SnapshotRow(Hypotheses, ScrubDoc(env, HypRow(doc, body)))
    ensures Describes(env, ScrubDoc(env, doc), cols)
  {
    hide Scrub, SnapshotRow, HypRow;
    AllCompared(env, cols, doc, env.dumps(Obj(ScrubDoc(env, doc))));
  }

  lemma {:induction false} TransitionedAnnounces(env: Env, db: Db, h: Hyp, m: Move)
    requires Transitioned(env, db, h, m).Write? && Matches(db, Transitioned(env, db, h, m))
    ensures Announces(env, Transitioned(env, db, h, m))
  {
    hide Scrub, ScrubDoc, UpdateTrigger, SnapshotRow, TransitionOk, IsReopen, HypRow, Dump, Describes, Get;
    var reopens := if IsReopen(h.state, m.to) then h.reopenCount + 1 else h.reopenCount;
    var after := h.(state := m.to, reopenCount := reopens);
    var payload := Dump(after);
    var t := Transitioned(env, db, h, m);
    DumpHasState(after);
    BodySet(t.row.cols, Text(env.dumps(Obj(ScrubDoc(env, payload)))));
    DetailsDescribe(env, t.row.cols, payload);
  }

  lemma {:induction false} AwardedAnnounces(env: Env, db: Db, h: Hyp, token: Token, proof: Proof)
    requires AwardedTo(env, db, h, token, proof).Write? && Matches(db, AwardedTo(env, db, h, token, proof))
    ensures Announces(env, AwardedTo(env, db, h, token, proof))
  {
    hide Scrub, ScrubDoc, UpdateTrigger, SnapshotRow, ValidateAward, HypRow, Dump, BodyDoc, Describes, Get;
    var after := h.(rungs := h.rungs[proof.axis := proof.level]);
    var payload := Dump(after);
    var t := AwardedTo(env, db, h, token, proof);
    DumpHasState(after);
    BodySet(t.row.cols, Text(env.dumps(Obj(ScrubDoc(env, payload)))));
    DetailsDescribe(env, t.row.cols, payload);
  }

  lemma {:induction false} CreatedKind(env: Env, db: Db, id: string, payload: Doc)
    requires Created(env, db, id, payload).Write?
    ensures Created(env, db, id, payload).event.kind.HypCreated?
  {
    hide HypRow, ScrubDoc;
  }

  lemma {:induction false} AwardKind(env: Env, db: Db, h: Hyp, token: Token, proof: Proof)
    requires AwardedTo(env, db, h, token, proof).Write?
    ensures AwardedTo(env, db, h, token, proof).event.kind.HypLadderAward?
  {
    hide HypRow, ScrubDoc, ValidateAward, BodyDoc, Dump;
  }

  /** Every hypothesis write the triggers let through announces the row it leaves; and one logged as
      a transition does change the state. */
  lemma {:induction false} HypothesisWrite(env: Env, db: Db, existing: Option<Row>, q: Request)
    requires Faithful(env)
    requires Plan(env, db, existing, q).Write? && Plan(env, db, existing, q).key.table.Hypotheses?
    requires Matches(db, Plan(env, db, existing, q))
    ensures Announces(env, Plan(env, db, existing, q))
    ensures var t := Plan(env, db, existing, q);
            t.event.kind.HypTransition? ==>
              !t.insert && t.key in db.rows && Get(t.row.cols, State) != Get(db.rows[t.key].cols, State)
  {
    hide Matches, Announces, Created, Transitioned, AwardedTo, Scrub, ValidKind, Faithful, EntityRow, ScrubDoc;
    match q
    case CreateHypothesis(id, payload) =>
      CreatedAnnounces(env, db, id, payload);
      CreatedKind(env, db, id, payload);
    case SaveHypothesis(id, payload) =>
      if existing.None? {
        CreatedAnnounces(env, db, id, payload);
        CreatedKind(env, db, id, payload);
      } else {
        SavedAnnounces(env, db, existing.value, id, payload);
      }
    case TransitionHypothesis(h, m) =>
      TransitionedAnnounces(env, db, h, m);
      TransitionChanges(env, db, h, m);
    case AwardLadder(h, token, proof) =>
      AwardedAnnounces(env, db, h, token, proof);
      AwardKind(env, db, h, token, proof);
    case _ =>
  }

  lemma {:induction false} TransitionChanges(env: Env, db: Db, h: Hyp, m: Move)
    requires Transitioned(env, db, h, m).Write?
    ensures var t := Transitioned(env, db, h, m);
            !t.insert && t.key in db.rows && Get(t.row.cols, State) != Get(db.rows[t.key].cols, State)
  {
    hide Dump, HypRow, IsReopen, Scrub, Clean, Strip, Meets, Demands, ReopenOk;
  }
}
