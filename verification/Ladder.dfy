/**
 core/ladder.py and core/certificates.py: which evidence levels may be awarded on which axis, and
 what a whole run of awards guarantees.
 */
module Ladder {
  import opened Prelude
  import opened Lifecycle

  datatype Axis = Mechanism | Reachability | Execution | Economics | Production | Adjudication

  datatype Level = NotApplicable | L(n: int)

  type Rungs = map<Axis, Level>

  // ---------------------------------------------------------------- tables

  function Levels(axis: Axis): set<int> {
    match axis
    case Mechanism => {0, 1}
    case Reachability => {0, 2, 4}
    case Execution => {3, 4, 5, 6}
    case Economics => {0, 5, 6, 7}
    case Production => {7}
    case Adjudication => {8}
  }

  function Required(axis: Axis, level: Level): set<string> {
    match (axis, level)
    case (Mechanism, L(1)) => {"span", "invariant"}
    case (Reachability, L(2)) => {"entrypoint_path"}
    case (Reachability, L(4)) => {"run_receipt"}
    case (Execution, L(3)) => {"experiment"}
    case (Execution, L(4)) => {"run_receipt"}
    case (Execution, L(5)) => {"run_receipt", "witness_assertion"}
    case (Execution, L(6)) => {"certificate"}
    case (Economics, L(5)) => {"econ_harness"}
    case (Economics, L(6)) => {"econ_harness", "certificate"}
    case (Economics, L(7)) => {"economics_realism", "certificate"}
    case (Production, L(7)) => {"production_replay", "certificate"}
    case (Adjudication, L(8)) => {"adjudication", "human_approval"}
    case _ => {}
  }

  /** A rung of the ladder: an axis and a level on it. */
  datatype Rung = Rung(axis: Axis, level: int)

  function Predecessors(r: Rung): set<Rung> {
    match r
    case Rung(Mechanism, 1) => {Rung(Mechanism, 0)}
    case Rung(Reachability, 2) => {Rung(Reachability, 0)}
    case Rung(Reachability, 4) => {Rung(Reachability, 2)}
    case Rung(Execution, 4) => {Rung(Execution, 3)}
    case Rung(Execution, 5) => {Rung(Execution, 4)}
    case Rung(Execution, 6) => {Rung(Execution, 5)}
    case Rung(Economics, 6) => {Rung(Economics, 5), Rung(Execution, 5)}
    case Rung(Economics, 7) => {Rung(Economics, 6), Rung(Production, 7)}
    case Rung(Production, 7) => {Rung(Execution, 6), Rung(Economics, 6)}
    case Rung(Adjudication, 8) => {Rung(Production, 7), Rung(Economics, 7)}
    case _ => {}
  }

  // ---------------------------------------------------------------- certificates

  /** The signed fields of a replay certificate. */
  datatype Claims = Claims(
    id: string, witnessHash: string, env: string, runs: int, records: string, policy: string,
    control: string, cross: Option<string>)

  datatype Certificate = Certificate(claims: Claims, mac: string)

  /** HMAC-SHA-256 over the canonical text of the fields. */
  type Mac = (Bytes, Claims) -> string

  function Issue(mac: Mac, key: Bytes, claims: Claims): Result<Certificate> {
    if claims.runs < 3 then Reject else Ok(Certificate(claims, mac(key, claims)))
  }

  predicate Verify(mac: Mac, cert: Certificate, key: Bytes, witnessHash: string, env: string, records: Option<string>,
                   policy: Option<string>, control: Option<string>, cross: Option<string>) {
    && cert.claims.witnessHash == witnessHash && cert.claims.env == env && cert.claims.runs >= 3
    && (records.Some? ==> cert.claims.records == records.value)
    && (policy.Some? ==> cert.claims.policy == policy.value)
    && (control.Some? ==> cert.claims.control == control.value)
    && (cross.Some? ==> cert.claims.cross == cross)
    && cert.mac == mac(key, cert.claims)
  }

  // ---------------------------------------------------------------- one award

  datatype Proof = Proof(
    axis: Axis, level: Level, evidence: seq<string>, certificate: Option<Certificate>, key: Option<Bytes>,
    witnessHash: Option<string>, env: Option<string>, records: Option<string>, policy: Option<string>,
    control: Option<string>, cross: Option<string>)

  /** `award` returns true, returns false, or raises. */
  datatype Verdict = Awarded | Refused | Raised

  predicate Given(s: Option<string>) {
    s.Some? && s.value != []
  }

  predicate CertificateChecks(mac: Mac, proof: Proof, level: int) {
    && proof.certificate.Some? && proof.key.Some?
    && Given(proof.witnessHash) && Given(proof.env) && Given(proof.records) && Given(proof.policy) && Given(proof.control)
    && Verify(mac, proof.certificate.value, proof.key.value, proof.witnessHash.value, proof.env.value, proof.records,
              proof.policy, proof.control, if level == 7 then proof.cross else None)
    && (level == 7 ==> Given(proof.cross))
  }

  /** The hypothesis an award is for; `award` may also be asked without one. */
  datatype Subject = Subject(state: HState, rungs: Rungs)

  function Validate(mac: Mac, token: Token, subject: Option<Subject>, axis: Axis, level: Level, proof: Option<Proof>): Verdict {
    if !token.valid || (level.L? && level.n !in Levels(axis)) then Raised
    else if proof.None? || proof.value.axis != axis || proof.value.level != level then Refused
    else if exists r :: r in Required(axis, level) && r !in proof.value.evidence then Refused
    else if level.L? && level.n >= 6 && !CertificateChecks(mac, proof.value, level.n) then Refused
    else if axis == Adjudication && level == L(8) && subject.Some? && subject.value.state !in {FINDING, CLOSED} then Refused
    else Awarded
  }

  predicate Reached(rungs: Rungs, r: Rung) {
    r.axis in rungs && rungs[r.axis].L? && rungs[r.axis].n >= r.level
  }

  function ValidateAward(mac: Mac, token: Token, subject: Option<Subject>, axis: Axis, level: Level, proof: Option<Proof>): Verdict {
    var v := Validate(mac, token, subject, axis, level, proof);
    if !v.Awarded? || subject.None? then v
    else
      var rungs := subject.value.rungs;
      if level.NotApplicable? then
        if axis in rungs && rungs[axis].L? then Raised else Awarded
      else if axis in rungs && rungs[axis].NotApplicable? then Raised
      else
        var current := if axis in rungs then rungs[axis].n else 0;
        if level.n < current then Raised
        else if level.n > current && exists r :: r in Predecessors(Rung(axis, level.n)) && !Reached(rungs, r) then Raised
        else Awarded
  }

  // ---------------------------------------------------------------- runs of awards

  /** One call of `award`, in whatever state the hypothesis then is. */
  datatype Attempt = Attempt(token: Token, state: HState, axis: Axis, level: Level, proof: Option<Proof>)

  function Outcome(mac: Mac, rungs: Rungs, a: Attempt): Verdict {
    ValidateAward(mac, a.token, Some(Subject(a.state, rungs)), a.axis, a.level, a.proof)
  }

  function Climb(mac: Mac, rungs: Rungs, a: Attempt): Rungs {
    if Outcome(mac, rungs, a).Awarded? then rungs[a.axis := a.level] else rungs
  }

  function RunRungs(mac: Mac, run: seq<Attempt>): Rungs {
    if run == [] then map[] else Climb(mac, RunRungs(mac, run[..|run| - 1]), run[|run| - 1])
  }

  /** The attempts that were awarded, in order. */
  function Log(mac: Mac, run: seq<Attempt>): seq<Attempt> {
    if run == [] then []
    else
      var before, a := run[..|run| - 1], run[|run| - 1];
      if Outcome(mac, RunRungs(mac, before), a).Awarded? then Log(mac, before) + [a] else Log(mac, before)
  }

  /** The rungs of `path` were awarded one after another, possibly with other awards between. */
  predicate InOrder(log: seq<Attempt>, path: seq<Rung>) {
    if path == [] then true
    else if log == [] then false
    else
      || InOrder(log[..|log| - 1], path)
      || (IsAwardOf(log[|log| - 1], path[|path| - 1]) && InOrder(log[..|log| - 1], path[..|path| - 1]))
  }

  predicate IsAwardOf(a: Attempt, r: Rung) {
    a.axis == r.axis && a.level == L(r.level)
  }

  // ---------------------------------------------------------------- monotonicity

  /** An axis only ever moves up, and "not applicable" and levels exclude one another for good. */
  predicate NotBelow(before: Rungs, after: Rungs, axis: Axis) {
    axis in before ==>
      && axis in after
      && (before[axis].NotApplicable? ==> after[axis].NotApplicable?)
      && (before[axis].L? ==> after[axis].L? && before[axis].n <= after[axis].n)
  }

  lemma {:induction false} ClimbsUp(mac: Mac, rungs: Rungs, a: Attempt, axis: Axis)
    ensures NotBelow(rungs, Climb(mac, rungs, a), axis)
  {
    hide Validate, Predecessors, Reached;
  }

  lemma {:induction false} LevelsNeverFall(mac: Mac, run: seq<Attempt>, j: nat, axis: Axis)
    requires j <= |run|
    ensures NotBelow(RunRungs(mac, run[..j]), RunRungs(mac, run), axis)
    decreases |run|
  {
    hide Climb;
    if j == |run| {
      assert run[..j] == run;
    } else {
      var before := run[..|run| - 1];
      assert before[..j] == run[..j];
      LevelsNeverFall(mac, before, j, axis);
      ClimbsUp(mac, RunRungs(mac, before), run[|run| - 1], axis);
    }
  }

  // ---------------------------------------------------------------- every rung is earned

  /** Consecutive rungs of the path are required by the table. Economics 0 may be passed by, since
      economics 5 has no predecessor. */
  ghost predicate IsPath(path: seq<Rung>) {
    && (forall i :: 0 <= i < |path| ==> path[i].level in Levels(path[i].axis) && path[i] != Rung(Economics, 0))
    && (forall i :: 0 < i < |path| ==> path[i - 1] in Predecessors(path[i]))
  }

  /** Raising an axis past a supported level means that level had been reached. */
  lemma {:induction false} NoSkips(rungs: Rungs, axis: Axis, n: int, m: int)
    requires n in Levels(axis) && m in Levels(axis) && m < n && Rung(axis, m) != Rung(Economics, 0)
    requires forall r :: r in Predecessors(Rung(axis, n)) ==> Reached(rungs, r)
    ensures Reached(rungs, Rung(axis, m))
  {
    match axis
    case Mechanism => assert Rung(axis, 0) in Predecessors(Rung(axis, n));
    case Reachability => assert Rung(axis, if n == 2 then 0 else 2) in Predecessors(Rung(axis, n));
    case Execution => assert Rung(axis, n - 1) in Predecessors(Rung(axis, n));
    case Economics => assert Rung(axis, n - 1) in Predecessors(Rung(axis, n));
    case Production =>
    case Adjudication =>
  }

  /** An award that takes an axis to a rung it had not reached met every prerequisite of that rung. */
  lemma {:induction false} NewRung(mac: Mac, rungs: Rungs, a: Attempt, r: Rung)
    requires Outcome(mac, rungs, a).Awarded? && a.axis == r.axis && a.level.L? && r.level <= a.level.n
    requires r.level in Levels(r.axis) && r != Rung(Economics, 0)
    requires !Reached(rungs, r)
    ensures a.level.n == r.level
    ensures forall p :: p in Predecessors(r) ==> Reached(rungs, p)
  {
    hide Predecessors, CertificateChecks, Required;
    if r.level == 0 && a.level.n == 0 {
      NoneBelow(r);
    } else {
      assert forall p :: p in Predecessors(Rung(a.axis, a.level.n)) ==> Reached(rungs, p);
      if r.level < a.level.n {
        NoSkips(rungs, r.axis, a.level.n, r.level);
      }
    }
  }

  lemma {:induction false} NoneBelow(r: Rung)
    requires r.level == 0
    ensures Predecessors(r) == {}
  {
  }

  lemma {:induction false} InOrderSnoc(log: seq<Attempt>, a: Attempt, path: seq<Rung>)
    ensures InOrder(log, path) ==> InOrder(log + [a], path)
    ensures path != [] && IsAwardOf(a, path[|path| - 1]) && InOrder(log, path[..|path| - 1]) ==> InOrder(log + [a], path)
  {
    assert (log + [a])[..|log|] == log;
  }

  lemma {:induction false} NothingInOrder(log: seq<Attempt>)
    ensures InOrder(log, [])
  {
  }

  /** Whoever has reached the end of a path of prerequisites was awarded every rung on it, in order. */
  lemma {:induction false} EveryRungEarned(mac: Mac, run: seq<Attempt>, path: seq<Rung>)
    requires IsPath(path) && path != [] && Reached(RunRungs(mac, run), path[|path| - 1])
    ensures InOrder(Log(mac, run), path)
    decreases |run|
  {
    hide InOrder, Outcome, Predecessors, Levels;
    assert run != [];
    var before, a, r := run[..|run| - 1], run[|run| - 1], path[|path| - 1];
    var rungs := RunRungs(mac, before);
    var log := Log(mac, before);
    InOrderSnoc(log, a, path);
    if Reached(rungs, r) {
      EveryRungEarned(mac, before, path);
    } else {
      NewRung(mac, rungs, a, r);
      var init := path[..|path| - 1];
      if init == [] {
        NothingInOrder(log);
      } else {
        assert path[|path| - 2] in Predecessors(path[|path| - 1]);
        EveryRungEarned(mac, before, init);
      }
    }
  }

  /** Execution 6 is only ever the end of execution 3, 4, 5, 6, awarded in that order. */
  lemma {:induction false} ExecutionSixIsEarned(mac: Mac, run: seq<Attempt>)
    requires Reached(RunRungs(mac, run), Rung(Execution, 6))
    ensures InOrder(Log(mac, run), [Rung(Execution, 3), Rung(Execution, 4), Rung(Execution, 5), Rung(Execution, 6)])
  {
    hide InOrder, RunRungs, Log, Reached;
    EveryRungEarned(mac, run, [Rung(Execution, 3), Rung(Execution, 4), Rung(Execution, 5), Rung(Execution, 6)]);
  }

  /** Adjudication 8 closes both chains: execution 3 to 6 and economics 5 and 6 came first, then
      production 7, then economics 7; and all of these levels still stand. */
  lemma {:induction false} AdjudicationIsEarned(mac: Mac, run: seq<Attempt>)
    requires Reached(RunRungs(mac, run), Rung(Adjudication, 8))
    ensures InOrder(Log(mac, run), [
                      Rung(Execution, 3), Rung(Execution, 4), Rung(Execution, 5), Rung(Execution, 6),
                      Rung(Production, 7), Rung(Economics, 7), Rung(Adjudication, 8)])
    ensures InOrder(Log(mac, run), [
                      Rung(Economics, 5), Rung(Economics, 6), Rung(Production, 7), Rung(Economics, 7), Rung(Adjudication, 8)])
    ensures var rungs := RunRungs(mac, run);
            Reached(rungs, Rung(Production, 7)) && Reached(rungs, Rung(Economics, 7)) && Reached(rungs, Rung(Execution, 6))
  {
    hide InOrder, RunRungs, Log, Reached;
    EveryRungEarned(mac, run, [
      Rung(Execution, 3), Rung(Execution, 4), Rung(Execution, 5), Rung(Execution, 6),
      Rung(Production, 7), Rung(Economics, 7), Rung(Adjudication, 8)]);
    EveryRungEarned(mac, run, [
      Rung(Economics, 5), Rung(Economics, 6), Rung(Production, 7), Rung(Economics, 7), Rung(Adjudication, 8)]);
    PrerequisitesStand(mac, run, Rung(Adjudication, 8), Rung(Production, 7));
    PrerequisitesStand(mac, run, Rung(Adjudication, 8), Rung(Economics, 7));
    PrerequisitesStand(mac, run, Rung(Production, 7), Rung(Execution, 6));
  }

  /** A rung's prerequisites hold for as long as the rung does. */
  lemma {:induction false} PrerequisitesStand(mac: Mac, run: seq<Attempt>, r: Rung, p: Rung)
    requires Reached(RunRungs(mac, run), r) && r.level in Levels(r.axis) && p in Predecessors(r)
    requires r != Rung(Economics, 0)
    ensures Reached(RunRungs(mac, run), p)
    decreases |run|
  {
    hide Outcome, Predecessors, Levels;
    assert run != [];
    var before, a := run[..|run| - 1], run[|run| - 1];
    var rungs := RunRungs(mac, before);
    if Reached(rungs, r) {
      PrerequisitesStand(mac, before, r, p);
    } else {
      NewRung(mac, rungs, a, r);
    }
    ClimbsUp(mac, rungs, a, p.axis);
  }

  // ---------------------------------------------------------------- certificates behind awards

  /** The award rests on an untampered certificate of at least three runs, issued for exactly the
      witness, environment, records, policy and control it names. */
  ghost predicate Backed(mac: Mac, a: Attempt) {
    && a.proof.Some? && a.proof.value.certificate.Some? && a.proof.value.key.Some?
    && var p, c := a.proof.value, a.proof.value.certificate.value.claims;
       && Issue(mac, p.key.value, c) == Ok(p.certificate.value)
       && p.witnessHash == Some(c.witnessHash) && p.env == Some(c.env) && p.records == Some(c.records)
       && p.policy == Some(c.policy) && p.control == Some(c.control)
       && (a.level == L(7) ==> c.cross.Some? && c.cross == p.cross && c.cross.value != [])
  }

  lemma {:induction false} HighAwardsAreBacked(mac: Mac, run: seq<Attempt>, i: nat)
    requires i < |Log(mac, run)| && Log(mac, run)[i].level.L? && Log(mac, run)[i].level.n >= 6
    ensures Backed(mac, Log(mac, run)[i])
    ensures Log(mac, run)[i].axis == Adjudication ==> Log(mac, run)[i].state in {FINDING, CLOSED}
    decreases |run|
  {
    hide Outcome, Backed;
    var before, a := run[..|run| - 1], run[|run| - 1];
    if i < |Log(mac, before)| {
      HighAwardsAreBacked(mac, before, i);
    } else {
      AwardIsBacked(mac, RunRungs(mac, before), a);
    }
  }

  lemma {:induction false} AwardIsBacked(mac: Mac, rungs: Rungs, a: Attempt)
    requires Outcome(mac, rungs, a).Awarded? && a.level.L? && a.level.n >= 6
    ensures Backed(mac, a)
    ensures a.axis == Adjudication ==> a.state in {FINDING, CLOSED}
  {
    hide Predecessors, Required, Reached;
  }

  /** Every award was made by a valid driver, at a level its axis has, on a proof of exactly that
      level that carries all the evidence the level requires. */
  ghost predicate Evidenced(a: Attempt) {
    && a.token.valid && (a.level.L? ==> a.level.n in Levels(a.axis))
    && a.proof.Some? && a.proof.value.axis == a.axis && a.proof.value.level == a.level
    && forall e :: e in Required(a.axis, a.level) ==> e in a.proof.value.evidence
  }

  lemma {:induction false} AwardsAreEvidenced(mac: Mac, run: seq<Attempt>, i: nat)
    requires i < |Log(mac, run)|
    ensures Evidenced(Log(mac, run)[i])
    decreases |run|
  {
    hide Outcome, Evidenced;
    var before, a := run[..|run| - 1], run[|run| - 1];
    if i < |Log(mac, before)| {
      AwardsAreEvidenced(mac, before, i);
    } else {
      AwardIsEvidenced(mac, RunRungs(mac, before), a);
    }
  }

  lemma {:induction false} AwardIsEvidenced(mac: Mac, rungs: Rungs, a: Attempt)
    requires Outcome(mac, rungs, a).Awarded?
    ensures Evidenced(a)
  {
    hide Predecessors, Required, Reached, CertificateChecks, Levels;
  }
}
