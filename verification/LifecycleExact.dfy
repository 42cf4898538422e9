/**
 core/lifecycle.py, exactly when a transition is accepted, move by move and in terms of the evidence
 as it was given.
 */
module LifecycleExact {
  import opened Lifecycle

  // ---------------------------------------------------------------- evidence as given

  predicate Blank(s: string) {
    forall k :: 0 <= k < |s| ==> IsSpace(s[k])
  }

  /** What is left of `s` between its leading and its trailing blanks. */
  ghost predicate Trimmed(s: string, t: string) {
    exists i, j :: Between(s, t, i, j)
  }

  predicate Between(s: string, t: string, i: int, j: int) {
    && 0 <= i <= j <= |s| && t == s[i..j]
    && (forall k :: 0 <= k < |s| && !(i <= k < j) ==> IsSpace(s[k]))
    && (i < j ==> !IsSpace(s[i]) && !IsSpace(s[j - 1]))
  }

  lemma {:induction false} LeftIs(s: string) returns (i: nat)
    ensures i <= |s| && StripLeft(s) == s[i..] && Blank(s[..i]) && (i < |s| ==> !IsSpace(s[i]))
  {
    hide IsSpace;
    i := 0;
    if s != [] && IsSpace(s[0]) {
      var j := LeftIs(s[1..]);
      i := j + 1;
      assert s[..i] == [s[0]] + s[1..][..j] && s[1..][j..] == s[i..];
    } else {
      assert s[0..] == s;
    }
  }

  lemma {:induction false} RightIs(s: string) returns (j: nat)
    ensures j <= |s| && StripRight(s) == s[..j] && Blank(s[j..]) && (j > 0 ==> !IsSpace(s[j - 1]))
  {
    hide IsSpace;
    j := |s|;
    if s != [] && IsSpace(s[|s| - 1]) {
      var init := s[..|s| - 1];
      j := RightIs(init);
      assert s[j..] == init[j..] + [s[|s| - 1]] && init[..j] == s[..j];
    } else {
      assert s[..|s|] == s;
    }
  }

  /** `strip` takes away the leading and trailing blanks, and nothing else. */
  lemma {:induction false} StripTrims(s: string)
    ensures Trimmed(s, Strip(s))
    ensures Strip(s) == [] <==> Blank(s)
  {
    hide IsSpace;
    var i := LeftIs(s);
    var left := s[i..];
    var j := RightIs(left);
    assert Strip(s) == left[..j] == s[i..i + j];
    assert forall k :: i <= k < |s| ==> s[k] == left[k - i];
    assert forall k :: 0 <= k < i ==> s[k] == s[..i][k];
    assert forall k :: j <= k < |left| ==> left[k] == left[j..][k - j];
    assert Between(s, Strip(s), i, i + j);
  }

  /** Some item, its surrounding blanks aside, is the prefix followed by more than blanks. */
  ghost predicate Backed(evidence: seq<string>, prefix: string) {
    exists i, rest :: 0 <= i < |evidence| && !Blank(rest) && Trimmed(evidence[i], prefix + rest)
  }

  lemma {:induction false} TrimmedIsStrip(s: string, t: string)
    ensures Trimmed(s, t) <==> t == Strip(s)
  {
    StripTrims(s);
    if Trimmed(s, t) {
      var i, j :| Between(s, t, i, j);
      var k, l :| Between(s, Strip(s), k, l);
      hide IsSpace, Strip;
      SameEnds(s, t, i, j, Strip(s), k, l);
    }
  }

  lemma {:induction false} SameEnds(s: string, t: string, i: int, j: int, u: string, k: int, l: int)
    requires Between(s, t, i, j) && Between(s, u, k, l)
    ensures t == u
  {
    hide IsSpace;
    assert i < j && k < l ==> i == k && j == l;
    assert i < j <==> k < l;
  }

  lemma {:induction false} CleanHolds(evidence: seq<string>, x: string)
    ensures x in Clean(evidence) <==> x != [] && exists i :: 0 <= i < |evidence| && Strip(evidence[i]) == x
  {
    hide Strip;
    if evidence != [] {
      CleanHolds(evidence[1..], x);
      assert evidence == [evidence[0]] + evidence[1..];
    }
  }

  lemma {:induction false} StartsWithRest(s: string, prefix: string)
    ensures StartsWith(s, prefix) ==> s == prefix + s[|prefix|..]
  {
  }

  /** The cleaned evidence has a prefix exactly when the evidence as given backs it. */
  lemma {:induction false} HasIsBacked(evidence: seq<string>, prefix: string)
    requires prefix != []
    ensures Has(Clean(evidence), prefix) <==> Backed(evidence, prefix)
  {
    hide Strip, Clean, Trimmed, Blank;
    var clean := Clean(evidence);
    if Has(clean, prefix) {
      var k :| 0 <= k < |clean| && Supports(clean[k], prefix);
      CleanHolds(evidence, clean[k]);
      var i :| 0 <= i < |evidence| && Strip(evidence[i]) == clean[k];
      StartsWithRest(clean[k], prefix);
      var rest := clean[k][|prefix|..];
      StripTrims(rest);
      TrimmedIsStrip(evidence[i], prefix + rest);
    }
    if Backed(evidence, prefix) {
      var i, rest :| 0 <= i < |evidence| && !Blank(rest) && Trimmed(evidence[i], prefix + rest);
      TrimmedIsStrip(evidence[i], prefix + rest);
      CleanHolds(evidence, prefix + rest);
      StripTrims(rest);
      var k :| 0 <= k < |clean| && clean[k] == prefix + rest;
      assert clean[k][..|prefix|] == prefix && clean[k][|prefix|..] == rest;
      assert Supports(clean[k], prefix);
    }
  }

  // ---------------------------------------------------------------- the moves

  /** The moves there are, and the evidence each one needs. */
  ghost predicate Warranted(token: Token, from: HState, reopenCount: nat, to: HState, e: seq<string>) {
    match from
    case OPEN =>
      (match to
       case INVESTIGATING => Backed(e, "task:") && (Backed(e, "scope:") || Backed(e, "in_scope:"))
       case PARKED => Backed(e, "assumption:") || Backed(e, "budget:") || Backed(e, "human_reason:")
       case CLOSED => Backed(e, "disproof:") || Backed(e, "scope:") || Backed(e, "not_actionable:")
       case CLOSED_DUPLICATE => (Backed(e, "finding:") || Backed(e, "hypothesis:")) && Backed(e, "duplicate_reason:")
       case _ => false)
    case INVESTIGATING =>
      (match to
       case CONFIRMED =>
         && Backed(e, "execution_l5:") && Backed(e, "run_receipt:") && Backed(e, "witness_assertion:")
         && Backed(e, "build_pass:") && Backed(e, "ast_pass:") && Backed(e, "trace_policy_pass:")
         && Backed(e, "mechanism_l1:") && Backed(e, "reachability_l2:")
         && (Backed(e, "economics_l5:") || Backed(e, "impact:"))
       case PARKED => Backed(e, "failure:") || Backed(e, "human_reason:") || Backed(e, "blocker:")
       case CLOSED => Backed(e, "disproof:") || Backed(e, "scope:") || Backed(e, "not_actionable:")
       case CLOSED_DUPLICATE => Backed(e, "finding:") && Backed(e, "duplicate_reason:")
       case _ => false)
    case CONFIRMED =>
      (match to
       case FINDING =>
         && Backed(e, "execution_l6:") && Backed(e, "hard_verifier_pass:")
         && (Backed(e, "economics_l6:") || Backed(e, "impact:"))
         && (Backed(e, "production_l7:") || Backed(e, "production:not_applicable"))
         && (Backed(e, "adjudication:") || Backed(e, "human_override:"))
       case INVESTIGATING => Backed(e, "repair:")
       case PARKED => Backed(e, "economics:") || Backed(e, "blocker:") || Backed(e, "certification_failure:")
       case CLOSED => Backed(e, "disproof:") || Backed(e, "scope:") || Backed(e, "not_actionable:")
       case CLOSED_DUPLICATE => Backed(e, "finding:") && Backed(e, "duplicate_reason:")
       case _ => false)
    case PARKED =>
      (match to
       case INVESTIGATING => Backed(e, "unblocked:")
       case CLOSED => Backed(e, "permanent_blocker:") || Backed(e, "scope:")
       case MERGED => Backed(e, "parent:") && Backed(e, "replacement:") && Backed(e, "merge_rationale:")
       case _ => false)
    case FINDING =>
      (match to
       case CLOSED => Backed(e, "disproof:") || Backed(e, "invalidating:") || Backed(e, "scope:")
       case CLOSED_DUPLICATE => Backed(e, "finding:") && Backed(e, "duplicate_reason:")
       case MERGED => Backed(e, "replacement:") && Backed(e, "preserved_evidence:")
       case _ => false)
    case _ =>
      && to == INVESTIGATING && token.humanOverride
      && Backed(e, "human_reason:") && Backed(e, "new_evidence:") && Backed(e, "replacement:")
      && (reopenCount >= 3 ==> Backed(e, "reviewer2:"))
  }

  // ---------------------------------------------------------------- groups of prefixes

  lemma {:induction false} AnyOfOne(e: seq<string>, a: string)
    requires a != []
    ensures HasAny(Clean(e), [a]) <==> Backed(e, a)
  {
    hide Has, Clean, Backed;
    HasIsBacked(e, a);
    assert [a][0] == a;
  }

  lemma {:induction false} AnyOfTwo(e: seq<string>, a: string, b: string)
    requires a != [] && b != []
    ensures HasAny(Clean(e), [a, b]) <==> Backed(e, a) || Backed(e, b)
  {
    hide Has, Clean, Backed;
    HasIsBacked(e, a);
    HasIsBacked(e, b);
    assert [a, b][0] == a && [a, b][1] == b;
  }

  lemma {:induction false} AnyOfThree(e: seq<string>, a: string, b: string, c: string)
    requires a != [] && b != [] && c != []
    ensures HasAny(Clean(e), [a, b, c]) <==> Backed(e, a) || Backed(e, b) || Backed(e, c)
  {
    hide Has, Clean, Backed;
    HasIsBacked(e, a);
    HasIsBacked(e, b);
    HasIsBacked(e, c);
    assert [a, b, c][0] == a && [a, b, c][1] == b && [a, b, c][2] == c;
  }

  lemma {:induction false} MeetsOne(e: seq<string>, a: seq<string>)
    ensures Meets(e, [a]) <==> HasAny(e, a)
  {
    hide HasAny;
    assert [a][0] == a;
  }

  lemma {:induction false} MeetsTwo(e: seq<string>, a: seq<string>, b: seq<string>)
    ensures Meets(e, [a, b]) <==> HasAny(e, a) && HasAny(e, b)
  {
    hide HasAny;
    assert [a, b][0] == a && [a, b][1] == b;
  }

  lemma {:induction false} MeetsThree(e: seq<string>, a: seq<string>, b: seq<string>, c: seq<string>)
    ensures Meets(e, [a, b, c]) <==> HasAny(e, a) && HasAny(e, b) && HasAny(e, c)
  {
    hide HasAny;
    assert [a, b, c][0] == a && [a, b, c][1] == b && [a, b, c][2] == c;
  }

  // ---------------------------------------------------------------- state by state

  /** A move that is no reopening meets its demands exactly when it is warranted. */
  ghost predicate DemandsWarrant(token: Token, from: HState, n: nat, to: HState, e: seq<string>) {
    (to in LegalTransitions(from) && Meets(Clean(e), Demands(from, to))) <==> Warranted(token, from, n, to, e)
  }

  lemma {:induction false} FromOpen(token: Token, n: nat, to: HState, e: seq<string>)
    ensures DemandsWarrant(token, OPEN, n, to, e)
  {
    hide Clean, Meets, HasAny, Backed;
    match to {
      case INVESTIGATING =>
        MeetsTwo(Clean(e), ["task:"], ["scope:", "in_scope:"]);
        AnyOfOne(e, "task:");
        AnyOfTwo(e, "scope:", "in_scope:");
      case PARKED =>
        MeetsOne(Clean(e), ["assumption:", "budget:", "human_reason:"]);
        AnyOfThree(e, "assumption:", "budget:", "human_reason:");
      case CLOSED => Disproved(e);
      case CLOSED_DUPLICATE =>
        MeetsTwo(Clean(e), ["finding:", "hypothesis:"], ["duplicate_reason:"]);
        AnyOfTwo(e, "finding:", "hypothesis:");
        AnyOfOne(e, "duplicate_reason:");
      case _ =>
    }
  }

  lemma {:induction false} Disproved(e: seq<string>)
    ensures Meets(Clean(e), [["disproof:", "scope:", "not_actionable:"]]) <==>
            Backed(e, "disproof:") || Backed(e, "scope:") || Backed(e, "not_actionable:")
  {
    hide Clean, Meets, HasAny, Backed;
    MeetsOne(Clean(e), ["disproof:", "scope:", "not_actionable:"]);
    AnyOfThree(e, "disproof:", "scope:", "not_actionable:");
  }

  lemma {:induction false} Duplicated(e: seq<string>)
    ensures Meets(Clean(e), [["finding:"], ["duplicate_reason:"]]) <==> Backed(e, "finding:") && Backed(e, "duplicate_reason:")
  {
    hide Clean, Meets, HasAny, Backed;
    MeetsTwo(Clean(e), ["finding:"], ["duplicate_reason:"]);
    AnyOfOne(e, "finding:");
    AnyOfOne(e, "duplicate_reason:");
  }

  lemma {:induction false} Replayed(e: seq<string>)
    ensures ReplayEvidence(Clean(e)) <==>
            && Backed(e, "execution_l5:") && Backed(e, "run_receipt:") && Backed(e, "witness_assertion:")
            && Backed(e, "build_pass:") && Backed(e, "ast_pass:") && Backed(e, "trace_policy_pass:")
            && Backed(e, "mechanism_l1:") && Backed(e, "reachability_l2:")
            && (Backed(e, "economics_l5:") || Backed(e, "impact:"))
  {
    hide Clean, Has, Backed;
    HasIsBacked(e, "execution_l5:");
    HasIsBacked(e, "run_receipt:");
    HasIsBacked(e, "witness_assertion:");
    HasIsBacked(e, "build_pass:");
    HasIsBacked(e, "ast_pass:");
    HasIsBacked(e, "trace_policy_pass:");
    HasIsBacked(e, "mechanism_l1:");
    HasIsBacked(e, "reachability_l2:");
    HasIsBacked(e, "economics_l5:");
    HasIsBacked(e, "impact:");
  }

  lemma {:induction false} FromInvestigating(token: Token, n: nat, to: HState, e: seq<string>)
    ensures DemandsWarrant(token, INVESTIGATING, n, to, e)
  {
    if to == CONFIRMED {
      ConfirmDemands(Clean(e));
    }
    hide Clean, Meets, HasAny, Backed, ReplayEvidence;
    match to {
      case CONFIRMED => Replayed(e);
      case PARKED =>
        MeetsOne(Clean(e), ["failure:", "human_reason:", "blocker:"]);
        AnyOfThree(e, "failure:", "human_reason:", "blocker:");
      case CLOSED => Disproved(e);
      case CLOSED_DUPLICATE => Duplicated(e);
      case _ =>
    }
  }

  lemma {:induction false} CertifiedBacked(e: seq<string>)
    ensures CertifiedEvidence(Clean(e)) <==>
            && Backed(e, "execution_l6:") && Backed(e, "hard_verifier_pass:")
            && (Backed(e, "economics_l6:") || Backed(e, "impact:"))
            && (Backed(e, "production_l7:") || Backed(e, "production:not_applicable"))
            && (Backed(e, "adjudication:") || Backed(e, "human_override:"))
  {
    hide Clean, Has, Backed;
    HasIsBacked(e, "execution_l6:");
    HasIsBacked(e, "hard_verifier_pass:");
    HasIsBacked(e, "economics_l6:");
    HasIsBacked(e, "impact:");
    HasIsBacked(e, "production_l7:");
    HasIsBacked(e, "production:not_applicable");
    HasIsBacked(e, "adjudication:");
    HasIsBacked(e, "human_override:");
  }

  lemma {:induction false} FromConfirmed(token: Token, n: nat, to: HState, e: seq<string>)
    ensures DemandsWarrant(token, CONFIRMED, n, to, e)
  {
    if to == FINDING {
      FindingDemands(Clean(e));
    }
    hide Clean, Meets, HasAny, Backed, CertifiedEvidence;
    match to {
      case FINDING => CertifiedBacked(e);
      case INVESTIGATING =>
        MeetsOne(Clean(e), ["repair:"]);
        AnyOfOne(e, "repair:");
      case PARKED =>
        MeetsOne(Clean(e), ["economics:", "blocker:", "certification_failure:"]);
        AnyOfThree(e, "economics:", "blocker:", "certification_failure:");
      case CLOSED => Disproved(e);
      case CLOSED_DUPLICATE => Duplicated(e);
      case _ =>
    }
  }

  lemma {:induction false} FromParked(token: Token, n: nat, to: HState, e: seq<string>)
    ensures DemandsWarrant(token, PARKED, n, to, e)
  {
    hide Clean, Meets, HasAny, Backed;
    match to {
      case INVESTIGATING =>
        MeetsOne(Clean(e), ["unblocked:"]);
        AnyOfOne(e, "unblocked:");
      case CLOSED =>
        MeetsOne(Clean(e), ["permanent_blocker:", "scope:"]);
        AnyOfTwo(e, "permanent_blocker:", "scope:");
      case MERGED =>
        MeetsThree(Clean(e), ["parent:"], ["replacement:"], ["merge_rationale:"]);
        AnyOfOne(e, "parent:");
        AnyOfOne(e, "replacement:");
        AnyOfOne(e, "merge_rationale:");
      case _ =>
    }
  }

  lemma {:induction false} FromFinding(token: Token, n: nat, to: HState, e: seq<string>)
    ensures DemandsWarrant(token, FINDING, n, to, e)
  {
    hide Clean, Meets, HasAny, Backed;
    match to {
      case CLOSED =>
        MeetsOne(Clean(e), ["disproof:", "invalidating:", "scope:"]);
        AnyOfThree(e, "disproof:", "invalidating:", "scope:");
      case CLOSED_DUPLICATE => Duplicated(e);
      case MERGED =>
        MeetsTwo(Clean(e), ["replacement:"], ["preserved_evidence:"]);
        AnyOfOne(e, "replacement:");
        AnyOfOne(e, "preserved_evidence:");
      case _ =>
    }
  }

  lemma {:induction false} FromClosed(token: Token, from: HState, n: nat, to: HState, e: seq<string>)
    requires from in {CLOSED, CLOSED_DUPLICATE, MERGED}
    ensures (to in LegalTransitions(from) && Meets(Clean(e), Demands(from, to)) && ReopenOk(token, n, Clean(e))) <==>
            Warranted(token, from, n, to, e)
    ensures to in LegalTransitions(from) <==> IsReopen(from, to)
  {
    assert Meets(Clean(e), []);
    hide Clean, Meets, HasAny, Backed, Has;
    MeetsThree(Clean(e), ["human_reason:"], ["new_evidence:"], ["replacement:"]);
    AnyOfOne(e, "human_reason:");
    AnyOfOne(e, "new_evidence:");
    AnyOfOne(e, "replacement:");
    HasIsBacked(e, "reviewer2:");
  }

  lemma {:induction false} BackedIsSome(e: seq<string>, prefix: string)
    requires prefix != [] && Backed(e, prefix)
    ensures Clean(e) != []
  {
    hide Clean, Supports;
    HasIsBacked(e, prefix);
  }

  lemma {:induction false} WarrantedIsSome(token: Token, from: HState, n: nat, to: HState, e: seq<string>)
    requires Warranted(token, from, n, to, e)
    ensures Clean(e) != []
  {
    hide Clean, Backed;
    assert exists prefix :: prefix != [] && Backed(e, prefix) by {
      assert "task:" != [] && "assumption:" != [] && "budget:" != [] && "human_reason:" != [] && "disproof:" != [] && "scope:" != [];
      assert "not_actionable:" != [] && "duplicate_reason:" != [] && "impact:" != [] && "failure:" != [] && "blocker:" != [];
      assert "execution_l5:" != [] && "execution_l6:" != [] && "repair:" != [] && "economics:" != [] && "certification_failure:" != [];
      assert "unblocked:" != [] && "permanent_blocker:" != [] && "parent:" != [] && "invalidating:" != [] && "replacement:" != [];
    }
    var prefix :| prefix != [] && Backed(e, prefix);
    BackedIsSome(e, prefix);
  }

  /** A transition is accepted exactly when the driver is valid, the cause is not blank, and the move is
      one of the twenty-two there are with its evidence given; a reopening further needs a human
      override and, from the fourth on, a second reviewer. */
  lemma {:induction false} AcceptedMoves(token: Token, from: HState, reopenCount: nat, to: HState, cause: string, evidence: seq<string>)
    ensures TransitionOk(token, from, reopenCount, to, cause, evidence) <==>
            token.valid && !Blank(cause) && Warranted(token, from, reopenCount, to, evidence)
  {
    hide Clean, Strip, Blank, Meets, Demands, LegalTransitions, ReopenOk, Backed;
    StripTrims(cause);
    match from {
      case OPEN => FromOpen(token, reopenCount, to, evidence);
      case INVESTIGATING => FromInvestigating(token, reopenCount, to, evidence);
      case CONFIRMED => FromConfirmed(token, reopenCount, to, evidence);
      case PARKED => FromParked(token, reopenCount, to, evidence);
      case FINDING => FromFinding(token, reopenCount, to, evidence);
      case _ => FromClosed(token, from, reopenCount, to, evidence);
    }
    if Warranted(token, from, reopenCount, to, evidence) {
      WarrantedIsSome(token, from, reopenCount, to, evidence);
    }
  }

  /** An accepted move leads to its target, and counts as a reopening exactly from one of the three
      closed states; any other move changes nothing. */
  lemma {:induction false} MovesExactly(life: Life, m: Move)
    ensures var ok := m.token.valid && !Blank(m.cause) && Warranted(m.token, life.state, life.reopenCount, m.to, m.evidence);
            After(life, m) ==
            if !ok then life
            else if life.state in {CLOSED, CLOSED_DUPLICATE, MERGED} then Life(m.to, life.reopenCount + 1)
            else Life(m.to, life.reopenCount)
  {
    hide TransitionOk, Blank, Backed;
    AcceptedMoves(m.token, life.state, life.reopenCount, m.to, m.cause, m.evidence);
  }
}
