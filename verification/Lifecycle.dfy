/** core/lifecycle.py: the legal hypothesis transitions and the evidence each one demands. */
module Lifecycle {
  datatype HState = OPEN | INVESTIGATING | CONFIRMED | FINDING | CLOSED | CLOSED_DUPLICATE | PARKED | MERGED

  function LegalTransitions(s: HState): set<HState> {
    match s
    case OPEN => {INVESTIGATING, PARKED, CLOSED, CLOSED_DUPLICATE}
    case INVESTIGATING => {CONFIRMED, PARKED, CLOSED, CLOSED_DUPLICATE}
    case CONFIRMED => {INVESTIGATING, FINDING, CLOSED_DUPLICATE, PARKED, CLOSED}
    case PARKED => {INVESTIGATING, CLOSED, MERGED}
    case FINDING => {CLOSED, CLOSED_DUPLICATE, MERGED}
    case CLOSED => {INVESTIGATING}
    case CLOSED_DUPLICATE => {INVESTIGATING}
    case MERGED => {INVESTIGATING}
  }

  predicate IsReopen(from: HState, to: HState) {
    from in {CLOSED, CLOSED_DUPLICATE, MERGED} && to == INVESTIGATING
  }

  /** A driver token: whether it is valid, and whether it carries a human override. */
  datatype Token = Token(valid: bool, humanOverride: bool)

  // ---------------------------------------------------------------- evidence text

  predicate IsSpace(c: char) {
    c == ' ' || 0x9 as char <= c <= 0xD as char || 0x1C as char <= c <= 0x1F as char
  }

  function StripLeft(s: string): string {
    if s != [] && IsSpace(s[0]) then StripLeft(s[1..]) else s
  }

  function StripRight(s: string): string {
    if s != [] && IsSpace(s[|s| - 1]) then StripRight(s[..|s| - 1]) else s
  }

  function Strip(s: string): string {
    StripRight(StripLeft(s))
  }

  predicate StartsWith(s: string, prefix: string) {
    |prefix| <= |s| && s[..|prefix|] == prefix
  }

  /** Stripped evidence items, without the blank ones. */
  function Clean(evidence: seq<string>): seq<string> {
    if evidence == [] then []
    else (if Strip(evidence[0]) != [] then [Strip(evidence[0])] else []) + Clean(evidence[1..])
  }

  /** The item starts with the prefix and has text after it. */
  predicate Supports(item: string, prefix: string) {
    StartsWith(item, prefix) && Strip(item[|prefix|..]) != []
  }

  predicate Has(evidence: seq<string>, prefix: string) {
    exists i :: 0 <= i < |evidence| && Supports(evidence[i], prefix)
  }

  predicate HasAny(evidence: seq<string>, prefixes: seq<string>) {
    exists k :: 0 <= k < |prefixes| && Has(evidence, prefixes[k])
  }

  // ---------------------------------------------------------------- transition rules

  /** The evidence a transition demands: from every group, at least one prefix. */
  function Demands(from: HState, to: HState): seq<seq<string>> {
    match (from, to)
    case (OPEN, INVESTIGATING) => [["task:"], ["scope:", "in_scope:"]]
    case (OPEN, PARKED) => [["assumption:", "budget:", "human_reason:"]]
    case (OPEN, CLOSED) => [["disproof:", "scope:", "not_actionable:"]]
    case (OPEN, CLOSED_DUPLICATE) => [["finding:", "hypothesis:"], ["duplicate_reason:"]]
    case (INVESTIGATING, CONFIRMED) =>
      [["execution_l5:"], ["run_receipt:"], ["witness_assertion:"], ["build_pass:"], ["ast_pass:"],
       ["trace_policy_pass:"], ["mechanism_l1:"], ["reachability_l2:"], ["economics_l5:", "impact:"]]
    case (INVESTIGATING, PARKED) => [["failure:", "human_reason:", "blocker:"]]
    case (INVESTIGATING, CLOSED) => [["disproof:", "scope:", "not_actionable:"]]
    case (INVESTIGATING, CLOSED_DUPLICATE) => [["finding:"], ["duplicate_reason:"]]
    case (CONFIRMED, FINDING) =>
      [["execution_l6:"], ["hard_verifier_pass:"], ["economics_l6:", "impact:"],
       ["production_l7:", "production:not_applicable"], ["adjudication:", "human_override:"]]
    case (CONFIRMED, INVESTIGATING) => [["repair:"]]
    case (CONFIRMED, PARKED) => [["economics:", "blocker:", "certification_failure:"]]
    case (CONFIRMED, CLOSED) => [["disproof:", "scope:", "not_actionable:"]]
    case (CONFIRMED, CLOSED_DUPLICATE) => [["finding:"], ["duplicate_reason:"]]
    case (PARKED, INVESTIGATING) => [["unblocked:"]]
    case (PARKED, CLOSED) => [["permanent_blocker:", "scope:"]]
    case (PARKED, MERGED) => [["parent:"], ["replacement:"], ["merge_rationale:"]]
    case (FINDING, CLOSED) => [["disproof:", "invalidating:", "scope:"]]
    case (FINDING, CLOSED_DUPLICATE) => [["finding:"], ["duplicate_reason:"]]
    case (FINDING, MERGED) => [["replacement:"], ["preserved_evidence:"]]
    case _ => []
  }

  const REOPEN_DEMANDS: seq<seq<string>> := [["human_reason:"], ["new_evidence:"], ["replacement:"]]

  predicate Meets(evidence: seq<string>, demands: seq<seq<string>>) {
    forall k :: 0 <= k < |demands| ==> HasAny(evidence, demands[k])
  }

  predicate ReopenOk(token: Token, reopenCount: nat, evidence: seq<string>) {
    && token.humanOverride
    && Meets(evidence, REOPEN_DEMANDS)
    && (reopenCount >= 3 ==> Has(evidence, "reviewer2:"))
  }

  /** `validate_transition` raises exactly when this fails. */
  predicate TransitionOk(token: Token, from: HState, reopenCount: nat, to: HState, cause: string, evidence: seq<string>) {
    var clean := Clean(evidence);
    && token.valid
    && Strip(cause) != []
    && clean != []
    && to in LegalTransitions(from)
    && (IsReopen(from, to) ==> ReopenOk(token, reopenCount, clean))
    && Meets(clean, Demands(from, to))
  }

  // ---------------------------------------------------------------- runs

  datatype Life = Life(state: HState, reopenCount: nat)

  datatype Move = Move(token: Token, to: HState, cause: string, evidence: seq<string>)

  /** An accepted transition, with the reopen count before it. */
  datatype Step = Step(from: HState, reopens: nat, move: Move)

  predicate Accepts(life: Life, m: Move) {
    TransitionOk(m.token, life.state, life.reopenCount, m.to, m.cause, m.evidence)
  }

  function After(life: Life, m: Move): Life {
    if !Accepts(life, m) then life
    else Life(m.to, if IsReopen(life.state, m.to) then life.reopenCount + 1 else life.reopenCount)
  }

  /** Where a hypothesis stands after any sequence of attempted transitions from OPEN. */
  function RunLife(moves: seq<Move>): Life {
    if moves == [] then Life(OPEN, 0) else After(RunLife(moves[..|moves| - 1]), moves[|moves| - 1])
  }

  /** The transitions that took effect. */
  function History(moves: seq<Move>): seq<Step> {
    if moves == [] then []
    else
      var life, m := RunLife(moves[..|moves| - 1]), moves[|moves| - 1];
      History(moves[..|moves| - 1]) + if Accepts(life, m) then [Step(life.state, life.reopenCount, m)] else []
  }

  function Reopens(history: seq<Step>): nat {
    if history == [] then 0
    else
      var last := history[|history| - 1];
      Reopens(history[..|history| - 1]) + if IsReopen(last.from, last.move.to) then 1 else 0
  }

  /** Step `i` was accepted, started where the one before it ended, and knew the reopenings so far. */
  predicate StepCoherent(history: seq<Step>, i: nat)
    requires i < |history|
  {
    && Accepts(Life(history[i].from, history[i].reopens), history[i].move)
    && history[i].reopens == Reopens(history[..i])
    && history[i].from == (if i == 0 then OPEN else history[i - 1].move.to)
  }

  ghost predicate Coherent(history: seq<Step>, life: Life) {
    && (forall i :: 0 <= i < |history| ==> StepCoherent(history, i))
    && life.state == (if history == [] then OPEN else history[|history| - 1].move.to)
    && life.reopenCount == Reopens(history)
  }

  lemma {:induction false} CoherentStart()
    ensures Coherent([], Life(OPEN, 0))
  {
  }

  lemma {:induction false} RunCoherent(moves: seq<Move>)
    ensures Coherent(History(moves), RunLife(moves))
  {
    hide Accepts, Coherent, Reopens;
    if moves == [] {
      CoherentStart();
    } else {
      var before, m := moves[..|moves| - 1], moves[|moves| - 1];
      RunCoherent(before);
      if Accepts(RunLife(before), m) {
        CoherentSnoc(History(before), RunLife(before), m);
      } else {
        assert History(moves) == History(before);
      }
    }
  }

  lemma {:induction false} CoherentSnoc(history: seq<Step>, life: Life, m: Move)
    requires Coherent(history, life) && Accepts(life, m)
    ensures Coherent(history + [Step(life.state, life.reopenCount, m)], After(life, m))
  {
    hide Accepts;
    var more := history + [Step(life.state, life.reopenCount, m)];
    var n := |history|;
    assert more[..n] == history;
    forall i | 0 <= i < |more|
      ensures StepCoherent(more, i)
    {
      if i < n {
        assert StepCoherent(history, i);
        assert more[..i] == history[..i];
      }
    }
    ReopensSnoc(history, more[n]);
  }

  lemma {:induction false} ReopensSnoc(history: seq<Step>, s: Step)
    ensures Reopens(history + [s]) == Reopens(history) + if IsReopen(s.from, s.move.to) then 1 else 0
  {
    assert (history + [s])[..|history|] == history;
  }

  /** What a step into CONFIRMED must have been given. */
  ghost predicate ReplayEvidence(e: seq<string>) {
    && Has(e, "execution_l5:") && Has(e, "run_receipt:") && Has(e, "witness_assertion:")
    && Has(e, "build_pass:") && Has(e, "ast_pass:") && Has(e, "trace_policy_pass:")
    && Has(e, "mechanism_l1:") && Has(e, "reachability_l2:")
    && (Has(e, "economics_l5:") || Has(e, "impact:"))
  }

  /** What a step into FINDING must have been given. */
  ghost predicate CertifiedEvidence(e: seq<string>) {
    && Has(e, "execution_l6:") && Has(e, "hard_verifier_pass:")
    && (Has(e, "economics_l6:") || Has(e, "impact:"))
    && (Has(e, "production_l7:") || Has(e, "production:not_applicable"))
    && (Has(e, "adjudication:") || Has(e, "human_override:"))
  }

  /** A demand is met by any one of its prefixes. */
  lemma {:induction false} One(e: seq<string>, demands: seq<seq<string>>, k: nat)
    requires k < |demands|
    ensures |demands[k]| == 1 ==> (HasAny(e, demands[k]) <==> Has(e, demands[k][0]))
    ensures |demands[k]| == 2 ==> (HasAny(e, demands[k]) <==> Has(e, demands[k][0]) || Has(e, demands[k][1]))
  {
    hide Has;
    if |demands[k]| >= 1 && Has(e, demands[k][0]) {
      assert HasAny(e, demands[k]);
    }
    if |demands[k]| >= 2 && Has(e, demands[k][1]) {
      assert HasAny(e, demands[k]);
    }
  }

  lemma {:induction false} ConfirmDemands(e: seq<string>)
    ensures Meets(e, Demands(INVESTIGATING, CONFIRMED)) <==> ReplayEvidence(e)
  {
    hide Has, HasAny;
    var d := Demands(INVESTIGATING, CONFIRMED);
    One(e, d, 0);
    One(e, d, 1);
    One(e, d, 2);
    One(e, d, 3);
    One(e, d, 4);
    One(e, d, 5);
    One(e, d, 6);
    One(e, d, 7);
    One(e, d, 8);
    if Meets(e, d) {
      assert HasAny(e, d[0]);
      assert HasAny(e, d[1]);
      assert HasAny(e, d[2]);
      assert HasAny(e, d[3]);
      assert HasAny(e, d[4]);
      assert HasAny(e, d[5]);
      assert HasAny(e, d[6]);
      assert HasAny(e, d[7]);
      assert HasAny(e, d[8]);
    }
  }

  lemma {:induction false} FindingDemands(e: seq<string>)
    ensures Meets(e, Demands(CONFIRMED, FINDING)) <==> CertifiedEvidence(e)
  {
    hide Has, HasAny;
    var d := Demands(CONFIRMED, FINDING);
    One(e, d, 0);
    One(e, d, 1);
    One(e, d, 2);
    One(e, d, 3);
    One(e, d, 4);
    if Meets(e, d) {
      assert HasAny(e, d[0]);
      assert HasAny(e, d[1]);
      assert HasAny(e, d[2]);
      assert HasAny(e, d[3]);
      assert HasAny(e, d[4]);
    }
  }

  /** A step from CONFIRMED to FINDING is accepted exactly when driver and cause are valid and the
      cleaned evidence is complete. */
  lemma {:induction false} FindingAcceptedExactly(token: Token, reopens: nat, cause: string, evidence: seq<string>)
    ensures TransitionOk(token, CONFIRMED, reopens, FINDING, cause, evidence) <==>
            token.valid && Strip(cause) != [] && CertifiedEvidence(Clean(evidence))
  {
    hide Clean, Strip, Demands, Meets, CertifiedEvidence, ReopenOk;
    FindingDemands(Clean(evidence));
    if CertifiedEvidence(Clean(evidence)) {
      CertifiedIsSome(Clean(evidence));
    }
  }

  lemma {:induction false} CertifiedIsSome(e: seq<string>)
    requires CertifiedEvidence(e)
    ensures e != []
  {
    hide Supports;
  }

  /** With everything else in place, a finding is accepted exactly when some cleaned item is
      "production_l7:" or "production:not_applicable" with text after it. */
  lemma {:induction false} ProductionDecides(token: Token, reopens: nat, cause: string, evidence: seq<string>)
    requires token.valid && Strip(cause) != []
    requires Has(Clean(evidence), "execution_l6:") && Has(Clean(evidence), "hard_verifier_pass:")
    requires Has(Clean(evidence), "economics_l6:") || Has(Clean(evidence), "impact:")
    requires Has(Clean(evidence), "adjudication:") || Has(Clean(evidence), "human_override:")
    ensures TransitionOk(token, CONFIRMED, reopens, FINDING, cause, evidence) <==>
            exists i :: 0 <= i < |Clean(evidence)|
              && (Supports(Clean(evidence)[i], "production_l7:") || Supports(Clean(evidence)[i], "production:not_applicable"))
  {
    hide Clean, Strip, TransitionOk, Supports;
    FindingAcceptedExactly(token, reopens, cause, evidence);
  }

  const BARE_WAIVER: seq<string> :=
    ["execution_l6:e", "hard_verifier_pass:v", "impact:i", "adjudication:a", "production:not_applicable"]

  /** The form of the waiver that the refusal's own message names is refused; any text after it is
      enough. */
  lemma {:induction false} BareWaiverIsRefused(reopens: nat)
    ensures !TransitionOk(Token(true, false), CONFIRMED, reopens, FINDING, "certified", BARE_WAIVER)
    ensures TransitionOk(Token(true, false), CONFIRMED, reopens, FINDING, "certified",
                         BARE_WAIVER[4 := "production:not_applicable:n"])
  {
    hide Clean, Strip, TransitionOk, Supports, Has;
    var full := BARE_WAIVER[4 := "production:not_applicable:n"];
    AlreadyClean(BARE_WAIVER);
    AlreadyClean(full);
    SolidIsStripped("certified");
    var t := Token(true, false);
    OtherEvidence(BARE_WAIVER);
    OtherEvidence(full);
    ProductionDecides(t, reopens, "certified", BARE_WAIVER);
    ProductionDecides(t, reopens, "certified", full);
    forall i | 0 <= i < 5
      ensures !Supports(BARE_WAIVER[i], "production_l7:") && !Supports(BARE_WAIVER[i], "production:not_applicable")
    {
      NoProduction(i);
    }
    SupportsWith("production:not_applicable", ":n");
    assert full[4] == "production:not_applicable" + ":n";
  }

  /** A text that neither starts nor ends with blanks is its own stripped form. */
  lemma {:induction false} SolidIsStripped(s: string)
    requires s != [] && !IsSpace(s[0]) && !IsSpace(s[|s| - 1])
    ensures Strip(s) == s
  {
  }

  lemma {:induction false} AlreadyClean(evidence: seq<string>)
    requires forall i :: 0 <= i < |evidence| ==>
               evidence[i] != [] && !IsSpace(evidence[i][0]) && !IsSpace(evidence[i][|evidence[i]| - 1])
    ensures Clean(evidence) == evidence
  {
    hide Strip, IsSpace;
    if evidence != [] {
      SolidIsStripped(evidence[0]);
      AlreadyClean(evidence[1..]);
    }
  }

  lemma {:induction false} SupportsWith(prefix: string, rest: string)
    requires rest != [] && !IsSpace(rest[0]) && !IsSpace(rest[|rest| - 1])
    ensures Supports(prefix + rest, prefix)
  {
    hide Strip;
    SolidIsStripped(rest);
    assert (prefix + rest)[|prefix|..] == rest;
    assert (prefix + rest)[..|prefix|] == prefix;
  }

  lemma {:induction false} HasAt(e: seq<string>, i: nat, prefix: string, rest: string)
    requires i < |e| && e[i] == prefix + rest
    requires rest != [] && !IsSpace(rest[0]) && !IsSpace(rest[|rest| - 1])
    ensures Has(e, prefix)
  {
    hide Supports;
    SupportsWith(prefix, rest);
  }

  lemma {:induction false} OtherEvidence(e: seq<string>)
    requires |e| == 5 && e[..4] == BARE_WAIVER[..4]
    ensures Has(e, "execution_l6:") && Has(e, "hard_verifier_pass:") && Has(e, "impact:") && Has(e, "adjudication:")
  {
    hide Has;
    assert forall i :: 0 <= i < 4 ==> e[i] == e[..4][i] == BARE_WAIVER[i];
    HasAt(e, 0, "execution_l6:", "e");
    HasAt(e, 1, "hard_verifier_pass:", "v");
    HasAt(e, 2, "impact:", "i");
    HasAt(e, 3, "adjudication:", "a");
  }

  lemma {:induction false} NoProduction(i: nat)
    requires i < 5
    ensures !Supports(BARE_WAIVER[i], "production_l7:") && !Supports(BARE_WAIVER[i], "production:not_applicable")
  {
    hide Strip;
    var item := BARE_WAIVER[i];
    if i < 4 {
      assert item[0] != 'p';
      StartMismatch(item, "production_l7:", 0);
      StartMismatch(item, "production:not_applicable", 0);
    } else {
      StartMismatch(item, "production_l7:", 10);
      assert item[|item|..] == [];
      BlankStrips();
    }
  }

  lemma {:induction false} BlankStrips()
    ensures Strip([]) == []
  {
  }

  lemma {:induction false} StartMismatch(item: string, prefix: string, k: nat)
    requires k < |item| && k < |prefix| && item[k] != prefix[k]
    ensures !StartsWith(item, prefix)
  {
    if |prefix| <= |item| {
      assert item[..|prefix|][k] == item[k];
    }
  }

  /** Every entry to FINDING comes straight after INVESTIGATING to CONFIRMED, and both steps carry
      their full evidence. */
  lemma {:induction false} FindingIsEarned(moves: seq<Move>, i: nat)
    requires i < |History(moves)| && History(moves)[i].move.to == FINDING
    ensures i > 0
    ensures History(moves)[i].from == CONFIRMED && CertifiedEvidence(Clean(History(moves)[i].move.evidence))
    ensures History(moves)[i - 1].from == INVESTIGATING && History(moves)[i - 1].move.to == CONFIRMED
    ensures ReplayEvidence(Clean(History(moves)[i - 1].move.evidence))
  {
    hide Meets, Demands, Clean, History, Accepts, Reopens, ReplayEvidence, CertifiedEvidence;
    RunCoherent(moves);
    var h := History(moves);
    assert StepCoherent(h, i);
    AcceptedMove(h[i]);
    OnlyConfirmedReachesFinding(h[i].from);
    FindingDemands(Clean(h[i].move.evidence));
    assert StepCoherent(h, i - 1);
    AcceptedMove(h[i - 1]);
    OnlyInvestigatingReachesConfirmed(h[i - 1].from);
    ConfirmDemands(Clean(h[i - 1].move.evidence));
  }

  lemma {:induction false} AcceptedMove(s: Step)
    requires Accepts(Life(s.from, s.reopens), s.move)
    ensures s.move.to in LegalTransitions(s.from)
    ensures Meets(Clean(s.move.evidence), Demands(s.from, s.move.to))
    ensures IsReopen(s.from, s.move.to) ==> ReopenOk(s.move.token, s.reopens, Clean(s.move.evidence))
  {
    hide Meets, Demands, Clean, ReopenOk, LegalTransitions, IsReopen, Strip;
  }

  lemma {:induction false} OnlyConfirmedReachesFinding(s: HState)
    requires FINDING in LegalTransitions(s)
    ensures s == CONFIRMED
  {
  }

  lemma {:induction false} OnlyInvestigatingReachesConfirmed(s: HState)
    requires CONFIRMED in LegalTransitions(s)
    ensures s == INVESTIGATING
  {
  }

  /** The reopen count is the number of reopenings, each made under a human override, and each from
      the fourth on with second-reviewer evidence. */
  lemma {:induction false} ReopensAreCounted(moves: seq<Move>)
    ensures RunLife(moves).reopenCount == Reopens(History(moves))
    ensures forall i :: 0 <= i < |History(moves)| && IsReopen(History(moves)[i].from, History(moves)[i].move.to) ==>
              var s := History(moves)[i];
              && s.move.token.humanOverride
              && Meets(Clean(s.move.evidence), REOPEN_DEMANDS)
              && (Reopens(History(moves)[..i]) >= 3 ==> Has(Clean(s.move.evidence), "reviewer2:"))
  {
    hide Meets, Demands, Clean, Has, History, Accepts, IsReopen, Reopens;
    RunCoherent(moves);
    var h := History(moves);
    forall i | 0 <= i < |h| && IsReopen(h[i].from, h[i].move.to)
      ensures ReopenOk(h[i].move.token, Reopens(h[..i]), Clean(h[i].move.evidence))
    {
      assert StepCoherent(h, i);
      AcceptedMove(h[i]);
    }
  }
}
