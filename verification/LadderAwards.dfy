/** core/ladder.py, exactly when an award is won, and that the top of the ladder can be reached. */
module LadderAwards {
  import opened Prelude
  import opened Lifecycle
  import opened Ladder

  // ---------------------------------------------------------------- the exact condition

  predicate NonEmpty(s: Option<string>) {
    s.Some? && |s.value| > 0
  }

  /** The certificate was issued, for at least three runs, for exactly the values the proof names, and
      names none of them as empty; at level 7 that includes the cross check. */
  predicate Certified(mac: Mac, level: int, p: Proof) {
    && p.certificate.Some? && p.key.Some?
    && var c := p.certificate.value.claims;
       && Issue(mac, p.key.value, c) == Ok(p.certificate.value)
       && p.witnessHash == Some(c.witnessHash) && p.env == Some(c.env) && p.records == Some(c.records)
       && p.policy == Some(c.policy) && p.control == Some(c.control)
       && NonEmpty(p.witnessHash) && NonEmpty(p.env) && NonEmpty(p.records) && NonEmpty(p.policy) && NonEmpty(p.control)
       && (level == 7 ==> p.cross == c.cross && NonEmpty(p.cross))
  }

  /** The artifacts that each level asks for; a level that is not listed asks for none. */
  predicate Supplied(axis: Axis, level: Level, e: seq<string>) {
    match (axis, level)
    case (Mechanism, L(1)) => "span" in e && "invariant" in e
    case (Reachability, L(2)) => "entrypoint_path" in e
    case (Reachability, L(4)) => "run_receipt" in e
    case (Execution, L(3)) => "experiment" in e
    case (Execution, L(4)) => "run_receipt" in e
    case (Execution, L(5)) => "run_receipt" in e && "witness_assertion" in e
    case (Execution, L(6)) => "certificate" in e
    case (Economics, L(5)) => "econ_harness" in e
    case (Economics, L(6)) => "econ_harness" in e && "certificate" in e
    case (Economics, L(7)) => "economics_realism" in e && "certificate" in e
    case (Production, L(7)) => "production_replay" in e && "certificate" in e
    case (Adjudication, L(8)) => "adjudication" in e && "human_approval" in e
    case _ => true
  }

  /** The proof is for this very level and carries what the level asks for. */
  predicate Proven(mac: Mac, state: Option<HState>, axis: Axis, level: Level, proof: Option<Proof>) {
    && proof.Some? && proof.value.axis == axis && proof.value.level == level
    && Supplied(axis, level, proof.value.evidence)
    && (level.L? && level.n >= 6 ==> Certified(mac, level.n, proof.value))
    && (axis == Adjudication && level == L(8) && state.Some? ==> state.value == FINDING || state.value == CLOSED)
  }

  /** The axis stands at the level or above it. */
  predicate StandsAt(rungs: Rungs, axis: Axis, level: int) {
    axis in rungs && rungs[axis].L? && level <= rungs[axis].n
  }

  /** The rungs that must stand before each rung; one that is not listed needs none. */
  predicate Prepared(rungs: Rungs, axis: Axis, level: int) {
    match (axis, level)
    case (Mechanism, 1) => StandsAt(rungs, Mechanism, 0)
    case (Reachability, 2) => StandsAt(rungs, Reachability, 0)
    case (Reachability, 4) => StandsAt(rungs, Reachability, 2)
    case (Execution, 4) => StandsAt(rungs, Execution, 3)
    case (Execution, 5) => StandsAt(rungs, Execution, 4)
    case (Execution, 6) => StandsAt(rungs, Execution, 5)
    case (Economics, 6) => StandsAt(rungs, Economics, 5) && StandsAt(rungs, Execution, 5)
    case (Economics, 7) => StandsAt(rungs, Economics, 6) && StandsAt(rungs, Production, 7)
    case (Production, 7) => StandsAt(rungs, Execution, 6) && StandsAt(rungs, Economics, 6)
    case (Adjudication, 8) => StandsAt(rungs, Production, 7) && StandsAt(rungs, Economics, 7)
    case _ => true
  }

  /** The axis may take the level: "not applicable" only if it has no level, a level only if it is not
      marked not applicable, not below the level it has, and, unless it has it already, prepared. */
  predicate MayTake(rungs: Rungs, axis: Axis, level: Level) {
    match level
    case NotApplicable => axis in rungs ==> rungs[axis] == NotApplicable
    case L(n) =>
      && (axis in rungs ==> rungs[axis].L? && rungs[axis].n <= n)
      && ((axis in rungs && rungs[axis] == level) || Prepared(rungs, axis, n))
  }

  /** The levels of each axis, besides "not applicable". */
  predicate OnLadder(axis: Axis, level: Level) {
    level.NotApplicable? ||
    match axis
    case Mechanism => level.n == 0 || level.n == 1
    case Reachability => level.n == 0 || level.n == 2 || level.n == 4
    case Execution => 3 <= level.n <= 6
    case Economics => level.n == 0 || 5 <= level.n <= 7
    case Production => level.n == 7
    case Adjudication => level.n == 8
  }

  lemma {:induction false} TablesAgree(axis: Axis, level: Level, e: seq<string>)
    ensures OnLadder(axis, level) <==> level.L? ==> level.n in Levels(axis)
    ensures Supplied(axis, level, e) <==> forall r :: r in Required(axis, level) ==> r in e
  {
  }

  lemma {:induction false} PreparedAgrees(rungs: Rungs, axis: Axis, n: int)
    ensures Prepared(rungs, axis, n) <==> forall p :: p in Predecessors(Rung(axis, n)) ==> Reached(rungs, p)
  {
    var all := Predecessors(Rung(axis, n));
    assert forall r :: Reached(rungs, r) <==> StandsAt(rungs, r.axis, r.level);
    hide Reached, StandsAt;
    match (axis, n) {
      case (Mechanism, 1) => assert Rung(Mechanism, 0) in all;
      case (Reachability, 2) => assert Rung(Reachability, 0) in all;
      case (Reachability, 4) => assert Rung(Reachability, 2) in all;
      case (Execution, 4) => assert Rung(Execution, 3) in all;
      case (Execution, 5) => assert Rung(Execution, 4) in all;
      case (Execution, 6) => assert Rung(Execution, 5) in all;
      case (Economics, 6) => assert Rung(Economics, 5) in all && Rung(Execution, 5) in all;
      case (Economics, 7) => assert Rung(Economics, 6) in all && Rung(Production, 7) in all;
      case (Production, 7) => assert Rung(Execution, 6) in all && Rung(Economics, 6) in all;
      case (Adjudication, 8) => assert Rung(Production, 7) in all && Rung(Economics, 7) in all;
      case _ =>
    }
  }

  lemma {:induction false} ChecksAreCertified(mac: Mac, p: Proof, level: int)
    ensures CertificateChecks(mac, p, level) <==> Certified(mac, level, p)
  {
  }

  lemma {:induction false} GroundHasNoPredecessors(axis: Axis)
    ensures Predecessors(Rung(axis, 0)) == {}
  {
  }

  /** `award` returns true exactly when the driver is valid, the level is one of the axis, the proof is
      complete and, if there is a hypothesis, the axis may take the level. It raises exactly when
      driver or level are invalid, or the proof is complete and the axis may not take the level. */
  lemma {:induction false} VerdictExactly(mac: Mac, token: Token, subject: Option<Subject>, axis: Axis, level: Level, proof: Option<Proof>)
    ensures var v := ValidateAward(mac, token, subject, axis, level, proof);
            var proven := Proven(mac, if subject.Some? then Some(subject.value.state) else None, axis, level, proof);
            var fits := subject.Some? ==> MayTake(subject.value.rungs, axis, level);
            && (v.Awarded? <==> token.valid && OnLadder(axis, level) && proven && fits)
            && (v.Raised? <==> !token.valid || !OnLadder(axis, level) || (proven && !fits))
  {
    hide CertificateChecks, Certified, Levels, Required, Predecessors, Supplied, OnLadder, Prepared;
    if proof.Some? && level.L? {
      ChecksAreCertified(mac, proof.value, level.n);
    }
    if proof.Some? {
      TablesAgree(axis, level, proof.value.evidence);
    }
    TablesAgree(axis, level, []);
    GroundHasNoPredecessors(axis);
    if level.L? {
      if level.n in Levels(axis) {
        LevelsAreNatural(axis, level.n);
      }
      if subject.Some? {
        PreparedAgrees(subject.value.rungs, axis, level.n);
      }
    }
  }

  lemma {:induction false} LevelsAreNatural(axis: Axis, n: int)
    requires n in Levels(axis)
    ensures n >= 0
  {
  }

  lemma {:induction false} WonExactly(mac: Mac, rungs: Rungs, a: Attempt)
    ensures Outcome(mac, rungs, a).Awarded? <==>
            && a.token.valid && OnLadder(a.axis, a.level)
            && Proven(mac, Some(a.state), a.axis, a.level, a.proof) && MayTake(rungs, a.axis, a.level)
  {
    hide ValidateAward, Proven, MayTake, OnLadder;
    VerdictExactly(mac, a.token, Some(Subject(a.state, rungs)), a.axis, a.level, a.proof);
  }

  // ---------------------------------------------------------------- the top can be reached

  const CLAIMS: Claims := Claims("C-001", "w", "e", 3, "r", "p", "c", Some("x"))

  /** A proof with every artifact and a certificate issued under the key. It offers the cross check at
      level 7 only. */
  function FullProof(mac: Mac, key: Bytes, r: Rung): Proof {
    Proof(r.axis, L(r.level),
          ["experiment", "run_receipt", "witness_assertion", "certificate", "econ_harness", "economics_realism",
           "production_replay", "adjudication", "human_approval"],
          Some(Certificate(CLAIMS, mac(key, CLAIMS))), Some(key), Some("w"), Some("e"), Some("r"), Some("p"), Some("c"),
          if r.level == 7 then Some("x") else None)
  }

  function Try(mac: Mac, key: Bytes, r: Rung): Attempt {
    Attempt(Token(true, false), FINDING, r.axis, L(r.level), Some(FullProof(mac, key, r)))
  }

  const ASCENT: seq<Rung> := [
    Rung(Execution, 3), Rung(Execution, 4), Rung(Execution, 5), Rung(Execution, 6), Rung(Economics, 5), Rung(Economics, 6),
    Rung(Production, 7), Rung(Economics, 7), Rung(Adjudication, 8)]

  function Climbed(mac: Mac, key: Bytes, n: nat): (run: seq<Attempt>)
    requires n <= |ASCENT|
    ensures |run| == n
    ensures forall i :: 0 <= i < n ==> run[i] == Try(mac, key, ASCENT[i])
  {
    seq(n, i requires 0 <= i < n => Try(mac, key, ASCENT[i]))
  }

  lemma {:induction false} FullProofProves(mac: Mac, key: Bytes, r: Rung)
    requires r in ASCENT
    ensures Proven(mac, Some(FINDING), r.axis, L(r.level), Some(FullProof(mac, key, r)))
    ensures OnLadder(r.axis, L(r.level))
  {
    hide Supplied, Certified;
    FullCertificate(mac, key, r);
    FullEvidence(mac, key, r);
  }

  lemma {:induction false} FullCertificate(mac: Mac, key: Bytes, r: Rung)
    ensures Certified(mac, r.level, FullProof(mac, key, r))
  {
  }

  lemma {:induction false} FullEvidence(mac: Mac, key: Bytes, r: Rung)
    requires r in ASCENT
    ensures Supplied(r.axis, L(r.level), FullProof(mac, key, r).evidence)
  {
    var evidence := FullProof(mac, key, r).evidence;
    assert evidence[0] == "experiment" && evidence[1] == "run_receipt" && evidence[2] == "witness_assertion";
    assert evidence[3] == "certificate" && evidence[4] == "econ_harness" && evidence[5] == "economics_realism";
    assert evidence[6] == "production_replay" && evidence[7] == "adjudication" && evidence[8] == "human_approval";
  }

  /** The next rung of the ascent is won if the axis may take it. */
  lemma {:induction false} NextRung(mac: Mac, key: Bytes, n: nat)
    requires n < |ASCENT| && MayTake(RunRungs(mac, Climbed(mac, key, n)), ASCENT[n].axis, L(ASCENT[n].level))
    ensures RunRungs(mac, Climbed(mac, key, n + 1)) ==
            RunRungs(mac, Climbed(mac, key, n))[ASCENT[n].axis := L(ASCENT[n].level)]
  {
    hide Outcome, Proven, MayTake, FullProof, OnLadder;
    var run := Climbed(mac, key, n + 1);
    assert run[..n] == Climbed(mac, key, n);
    FullProofProves(mac, key, ASCENT[n]);
    WonExactly(mac, RunRungs(mac, Climbed(mac, key, n)), run[n]);
  }

  lemma {:induction false} ExecutionClimb(mac: Mac, key: Bytes)
    ensures RunRungs(mac, Climbed(mac, key, 4)) == map[Execution := L(6)]
  {
    StartOfClimb(mac, key);
    hide RunRungs, Climbed;
    NextRung(mac, key, 0);
    NextRung(mac, key, 1);
    NextRung(mac, key, 2);
    NextRung(mac, key, 3);
  }

  lemma {:induction false} EconomicsClimb(mac: Mac, key: Bytes)
    ensures RunRungs(mac, Climbed(mac, key, 6)) == map[Execution := L(6), Economics := L(6)]
  {
    hide RunRungs, Climbed;
    ExecutionClimb(mac, key);
    NextRung(mac, key, 4);
    NextRung(mac, key, 5);
  }

  lemma {:induction false} ProductionClimb(mac: Mac, key: Bytes)
    ensures RunRungs(mac, Climbed(mac, key, 8)) == map[Execution := L(6), Economics := L(7), Production := L(7)]
  {
    hide RunRungs, Climbed;
    EconomicsClimb(mac, key);
    NextRung(mac, key, 6);
    NextRung(mac, key, 7);
  }

  /** From the empty ladder, for any MAC and key, nine awards reach adjudication 8. */
  lemma {:induction false} TopIsReachable(mac: Mac, key: Bytes)
    ensures RunRungs(mac, Climbed(mac, key, |ASCENT|)) ==
            map[Execution := L(6), Economics := L(7), Production := L(7), Adjudication := L(8)]
  {
    hide RunRungs, Climbed;
    ProductionClimb(mac, key);
    NextRung(mac, key, 8);
  }

  lemma {:induction false} StartOfClimb(mac: Mac, key: Bytes)
    ensures RunRungs(mac, Climbed(mac, key, 0)) == map[]
  {
  }
}
