/** core/models.py `Hypothesis`, as far as `lifecycle.transition` and `Ladder.award` update it in place. */
module HypothesisObject {
  import opened Prelude
  import opened Lifecycle
  import opened Ladder
  import opened StoreData
  import opened StoreOps

  class Hypothesis {
    const id: string
    var state: HState
    var reopenCount: nat
    var rungs: Rungs
    var other: Doc

    constructor (id: string, other: Doc)
      ensures this.id == id && this.other == other
      ensures CurrentLife() == RunLife([]) && rungs == map[]
    {
      this.id, this.other := id, other;
      state, reopenCount, rungs := OPEN, 0, map[];
    }

    function Value(): Hyp
      reads this
    {
      Hyp(id, state, reopenCount, rungs, other)
    }

    function CurrentLife(): Life
      reads this
    {
      Life(state, reopenCount)
    }

    /** `transition`: takes effect exactly when it does not raise. */
    method Transition(m: Move) returns (ok: bool)
      modifies this`state, this`reopenCount
      ensures ok <==> Accepts(old(CurrentLife()), m)
      ensures CurrentLife() == After(old(CurrentLife()), m)
    {
      ok := TransitionOk(m.token, state, reopenCount, m.to, m.cause, m.evidence);
      if !ok {
        return;
      }
      var oldState := state;
      state := m.to;
      if IsReopen(oldState, m.to) {
        reopenCount := reopenCount + 1;
      }
    }

    /** `Ladder.award`: writes the level exactly when it returns true. */
    method Award(mac: Mac, token: Token, axis: Axis, level: Level, proof: Option<Proof>) returns (v: Verdict)
      modifies this`rungs
      ensures v == Outcome(mac, old(rungs), Attempt(token, state, axis, level, proof))
      ensures rungs == Climb(mac, old(rungs), Attempt(token, state, axis, level, proof))
    {
      v := ValidateAward(mac, token, Some(Subject(state, rungs)), axis, level, proof);
      if v.Awarded? {
        rungs := rungs[axis := level];
      }
    }
  }
}
