/** What a committed operation leaves to be read, and what it leaves alone. */
module StoreReadBack {
  import opened Prelude
  import opened Lifecycle
  import opened Ladder
  import opened StoreData
  import opened StoreOps
  import opened StoreRuns
  import opened StoreHistory

  /** Every operation writes at most one row: all others are as they were. */
  lemma {:induction false} OneRowAtMost(env: Env, db: Db, existing: Option<Row>, q: Request, k: Key)
    requires FreshEnough(db, existing, q)
    requires !(Plan(env, db, existing, q).Write? && Plan(env, db, existing, q).key == k)
    ensures var now := Perform(env, db, existing, q);
            (k in now.rows <==> k in db.rows) && (k in db.rows ==> now.rows[k] == db.rows[k])
  {
    hide Plan, Perform, Fits, Matches, Allowed;
    PerformCases(env, db, existing, q);
  }

  /** A hypothesis call that committed: the body read back is the redacted document it was given. */
  lemma {:induction false} CommittedBody(env: Env, db: Db, existing: Option<Row>, q: Request)
    requires Faithful(env) && FreshEnough(db, existing, q)
    requires Plan(env, db, existing, q).Write? && Plan(env, db, existing, q).key.table.Hypotheses?
    requires |Perform(env, db, existing, q).events| > |db.events|
    ensures var t, now := Plan(env, db, existing, q), Perform(env, db, existing, q);
            t.key in now.rows && now.rows[t.key] == t.row && BodyDoc(env, t.row.cols) == t.event.snapshot
  {
    hide Plan, Perform, Fits, Matches, Allowed, Faithful, BodyDoc, Describes;
    PerformCases(env, db, existing, q);
    HypothesisWrite(env, db, existing, q);
    var t := Plan(env, db, existing, q);
    BodyOf(env, t.event.snapshot.value, t.row.cols);
  }

  /** The row of a hypothesis, as a document. */
  function Stored(env: Env, db: Db, id: string): Doc {
    var doc := BodyDoc(env, ColsOf(db, Key(Hypotheses, id)));
    if doc.Some? then doc.value else map[]
  }

  lemma {:induction false} ScrubbedField(env: Env, doc: Doc, n: Name)
    requires Get(doc, n).StateText? || Get(doc, n).LadderObj? || Get(doc, n).Num?
    ensures Get(ScrubDoc(env, doc), n) == Get(doc, n)
  {
  }

  lemma {:induction false} Dumped(h: Hyp)
    ensures Get(Dump(h), State) == StateText(h.state)
    ensures Get(Dump(h), ReopenCount) == Num(h.reopenCount, 0)
    ensures Get(Dump(h), LadderName) == LadderObj(h.rungs)
  {
  }

  /** A committed transition was accepted, and what is then read is the state and the reopen count
      the lifecycle prescribes, with the ladder of the caller's object. */
  lemma {:induction false} TransitionReadsBack(env: Env, db: Db, h: Hyp, m: Move)
    requires Faithful(env)
    requires |Perform(env, db, None, TransitionHypothesis(h, m)).events| > |db.events|
    ensures Accepts(Life(h.state, h.reopenCount), m)
    ensures var body := Stored(env, Perform(env, db, None, TransitionHypothesis(h, m)), h.id);
            var life := After(Life(h.state, h.reopenCount), m);
            && Get(body, State) == StateText(life.state) && Get(body, ReopenCount) == Num(life.reopenCount, 0)
            && Get(body, LadderName) == LadderObj(h.rungs)
  {
    hide Perform, Faithful, TransitionOk, Dump, ScrubDoc, BodyDoc, Get, IsReopen, HypRow, SetDetails, Scrub;
    var q := TransitionHypothesis(h, m);
    PlanOfTransition(env, db, h, m);
    CommittedBody(env, db, None, q);
    var life := After(Life(h.state, h.reopenCount), m);
    var after := h.(state := life.state, reopenCount := life.reopenCount);
    Dumped(after);
    ScrubbedField(env, Dump(after), State);
    ScrubbedField(env, Dump(after), ReopenCount);
    ScrubbedField(env, Dump(after), LadderName);
  }

  lemma {:induction false} PlanOfTransition(env: Env, db: Db, h: Hyp, m: Move)
    requires |Perform(env, db, None, TransitionHypothesis(h, m)).events| > |db.events|
    ensures var t, life := Plan(env, db, None, TransitionHypothesis(h, m)), After(Life(h.state, h.reopenCount), m);
            && Accepts(Life(h.state, h.reopenCount), m)
            && t.Write? && t.key == Key(Hypotheses, h.id)
            && t.event.snapshot == Some(ScrubDoc(env, Dump(h.(state := life.state, reopenCount := life.reopenCount))))
  {
    hide Perform, TransitionOk, Dump, ScrubDoc, Get, IsReopen, HypRow, SetDetails, Scrub, ColsOf, Fits, Matches, Allowed;
    PerformCases(env, db, None, TransitionHypothesis(h, m));
  }

  /** A committed award was won, and what is then read is the ladder one rung further. */
  lemma {:induction false} AwardReadsBack(env: Env, db: Db, h: Hyp, token: Token, proof: Proof)
    requires Faithful(env)
    requires |Perform(env, db, None, AwardLadder(h, token, proof)).events| > |db.events|
    ensures var a := Attempt(token, h.state, proof.axis, proof.level, Some(proof));
            var body := Stored(env, Perform(env, db, None, AwardLadder(h, token, proof)), h.id);
            && Outcome(env.mac, h.rungs, a).Awarded?
            && Get(body, LadderName) == LadderObj(Climb(env.mac, h.rungs, a)) && Get(body, State) == StateText(h.state)
  {
    hide Perform, Faithful, ValidateAward, Dump, ScrubDoc, BodyDoc, Get, HypRow, Scrub;
    var q := AwardLadder(h, token, proof);
    PlanOfAward(env, db, h, token, proof);
    CommittedBody(env, db, None, q);
    var after := h.(rungs := h.rungs[proof.axis := proof.level]);
    Dumped(after);
    ScrubbedField(env, Dump(after), State);
    ScrubbedField(env, Dump(after), LadderName);
  }

  lemma {:induction false} PlanOfAward(env: Env, db: Db, h: Hyp, token: Token, proof: Proof)
    requires |Perform(env, db, None, AwardLadder(h, token, proof)).events| > |db.events|
    ensures var t := Plan(env, db, None, AwardLadder(h, token, proof));
            && Outcome(env.mac, h.rungs, Attempt(token, h.state, proof.axis, proof.level, Some(proof))).Awarded?
            && t.Write? && t.key == Key(Hypotheses, h.id)
            && t.event.snapshot == Some(ScrubDoc(env, Dump(h.(rungs := h.rungs[proof.axis := proof.level]))))
  {
    hide Perform, ValidateAward, Dump, ScrubDoc, Get, HypRow, Scrub, ColsOf, Fits, Matches, Allowed, BodyDoc;
    PerformCases(env, db, None, AwardLadder(h, token, proof));
  }

  /** A committed creation reads back as the redacted payload under its id, in state OPEN. */
  lemma {:induction false} CreateReadsBack(env: Env, db: Db, id: string, payload: Doc)
    requires Faithful(env)
    requires |Perform(env, db, None, CreateHypothesis(id, payload)).events| > |db.events|
    ensures Stored(env, Perform(env, db, None, CreateHypothesis(id, payload)), id)
            == ScrubDoc(env, payload)[Id := Text(id)][State := StateText(OPEN)]
  {
    hide Perform, Faithful, ScrubDoc, BodyDoc, HypRow, Scrub;
    PlanOfCreation(env, db, id, payload);
    var data := ScrubDoc(env, payload)[Id := Text(id)][State := StateText(OPEN)];
    CommittedBody(env, db, None, CreateHypothesis(id, payload));
    var t := Plan(env, db, None, CreateHypothesis(id, payload));
    assert BodyDoc(env, t.row.cols) == Some(data) by {
      CreatedText(env, t.row.cols, data);
    }
  }

  lemma {:induction false} PlanOfCreation(env: Env, db: Db, id: string, payload: Doc)
    requires |Perform(env, db, None, CreateHypothesis(id, payload)).events| > |db.events|
    ensures var t := Plan(env, db, None, CreateHypothesis(id, payload));
            var data := ScrubDoc(env, payload)[Id := Text(id)][State := StateText(OPEN)];
            t.Write? && t.key == Key(Hypotheses, id) && Get(t.row.cols, Body) == Text(env.dumps(Obj(data)))
  {
    hide Perform, ScrubDoc, Scrub, ColsOf, Fits, Matches, Allowed, Recorded;
    PerformCases(env, db, None, CreateHypothesis(id, payload));
    var named := ScrubDoc(env, payload)[Id := Text(id)];
    if State in named && named[State] == StateText(OPEN) {
      assert named[State := StateText(OPEN)] == named;
    }
  }

  lemma {:induction false} CreatedText(env: Env, cols: Doc, data: Doc)
    requires Faithful(env) && Get(cols, Body) == Text(env.dumps(Obj(data)))
    ensures BodyDoc(env, cols) == Some(data)
  {
    assert env.loads(env.dumps(Obj(data))) == Obj(data);
  }

  /** A committed save of any other entity with a body column reads back as the redacted payload. */
  lemma {:induction false} SaveReadsBack(env: Env, db: Db, t: Table, id: string, payload: Doc)
    requires Faithful(env) && Body in Columns(t)
    requires |Perform(env, db, None, SaveEntity(t, id, payload)).events| > |db.events|
    ensures Key(t, id) in Perform(env, db, None, SaveEntity(t, id, payload)).rows
    ensures BodyDoc(env, Perform(env, db, None, SaveEntity(t, id, payload)).rows[Key(t, id)].cols)
            == Some(ScrubDoc(env, payload)[Id := Text(id)])
  {
    hide Perform, Faithful, ScrubDoc, BodyDoc, Fits, Matches, Allowed, Columns, Mandatory, Scrub, Recorded, EntityRow;
    var q := SaveEntity(t, id, payload);
    PerformCases(env, db, None, q);
    var data := ScrubDoc(env, payload);
    var body := env.dumps(Obj(data[Id := Text(id)]));
    BodyCell(env, t, id, data, body);
    CreatedText(env, EntityRow(env, t, id, data, body), data[Id := Text(id)]);
  }

  lemma {:induction false} BodyCell(env: Env, t: Table, id: string, data: Doc, body: string)
    requires Body in Columns(t)
    ensures Get(EntityRow(env, t, id, data, body), Body) == Text(body)
  {
    hide Columns;
  }

  /** A committed finish or block leaves the task with the new status, time and stored result, and
      with the key, phase, role and start it had. */
  lemma {:induction false} EndReadsBack(env: Env, db: Db, q: Request)
    requires q.FinishTask? || q.BlockTask?
    requires |Perform(env, db, None, q).events| > |db.events|
    ensures Key(Tasks, q.id) in db.rows && Key(Tasks, q.id) in Perform(env, db, None, q).rows
    ensures var was, now := db.rows[Key(Tasks, q.id)].cols, Perform(env, db, None, q).rows[Key(Tasks, q.id)].cols;
            && (forall n :: n !in {Status, FinishedAt, ResultName} ==> Get(now, n) == Get(was, n))
            && Get(now, Status) == Text(if q.FinishTask? then "finished" else "blocked_on_human")
            && Get(now, FinishedAt) == Text(q.finishedAt)
            && Get(now, ResultName) ==
               Text(env.dumps(if q.FinishTask? then Scrub(env, q.result) else Obj(map[Reason := Scrub(env, Text(q.reason))])))
  {
    hide Perform, Fits, Matches, Allowed, Scrub, Recorded, Created, Saved, Transitioned, AwardedTo, EntitySavedTo, Dispatched;
    PerformCases(env, db, None, q);
  }
}
