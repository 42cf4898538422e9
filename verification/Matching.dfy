/**
 verifier/derived.py and verifier/assertion_extract.py: when the control check, the event counts and
 the V06 check all accept, declared assertions and observed events match one to one.
 */
module Matching {
  import opened Prelude
  import opened Bags
  import opened StoreIds
  import opened Arena
  import opened Trace
  import opened Flow

  // ---------------------------------------------------------------- one assertion against one event

  /** Python's `str` on a number and on a declared value. */
  function Decimal(n: int): string {
    if n < 0 then "-" + Digits(-n) else Digits(n)
  }

  function StrOf(e: Expected): string {
    match e
    case Number(n) => Decimal(n)
    case Truth(on) => if on then "True" else "False"
    case Word(s) => s
  }

  /** The operator table, or nothing when the operator is unknown or a comparison raises: ordering a
      number and a text does, whichever operator was asked for. */
  function Relation(operator: string, observed: int, e: Expected): Option<bool> {
    if e.Word? then None
    else
      var expected := match e case Number(n) => n case Truth(on) => if on then 1 else 0;
      if operator == "eq" then Some(observed == expected)
      else if operator == "neq" then Some(observed != expected)
      else if operator == "gt" then Some(observed > expected)
      else if operator == "gte" then Some(observed >= expected)
      else if operator == "lt" then Some(observed < expected)
      else if operator == "lte" then Some(observed <= expected)
      else if operator == "holds" then Some(observed != 0)
      else if operator == "violated" then Some(observed == 0)
      else None
  }

  predicate Matches(a: Assertion, e: AssertionEvent) {
    && e.id == a.id && e.kind == a.kind && e.target == a.target
    && Decimal(e.expected) == StrOf(a.expected)
    && (a.actor.Some? ==> e.actor == a.actor)
    && (a.token.Some? ==> e.token == a.token)
    && a.observedRecord == "AssertionChecked"
    && e.ok && Relation(a.operator, e.observed, a.expected) == Some(true)
  }

  lemma {:induction false} DigitsAreDigits(n: nat)
    ensures forall i :: 0 <= i < |Digits(n)| ==> '0' <= Digits(n)[i] <= '9'
  {
    if n >= 10 {
      DigitsAreDigits(n / 10);
    }
  }

  lemma {:induction false} DecimalStart(n: int)
    ensures Decimal(n) != [] && (Decimal(n)[0] == '-' <==> n < 0)
    ensures Decimal(n)[0] == '-' || '0' <= Decimal(n)[0] <= '9'
  {
    hide Digits;
    DigitsAreDigits(if n < 0 then -n else n);
  }

  lemma {:induction false} DecimalIsInjective(m: int, n: int)
    requires Decimal(m) == Decimal(n)
    ensures m == n
  {
    hide Digits;
    DecimalStart(m);
    DecimalStart(n);
    var a, b := if m < 0 then -m else m, if n < 0 then -n else n;
    assert Digits(a) == Digits(b) by {
      if m < 0 {
        assert Decimal(m)[1..] == Digits(a) && Decimal(n)[1..] == Digits(b);
      }
    }
    DigitsSpell(a);
    DigitsSpell(b);
  }

  /** Only assertions that declare a number can match an event of the adapter, and then it is the
      event's number; a declared truth value or text never matches. */
  lemma {:induction false} OnlyNumbersMatch(a: Assertion, e: AssertionEvent)
    requires Matches(a, e)
    ensures a.expected == Number(e.expected)
  {
    hide Digits, Decimal;
    match a.expected
    case Number(n) => DecimalIsInjective(e.expected, n);
    case Truth(on) =>
      DecimalStart(e.expected);
      assert false;
    case Word(_) => assert false;
  }

  /** What an operator asks of the observed and the declared number. */
  predicate Stands(operator: string, observed: int, expected: int) {
    match operator
    case "eq" => observed == expected
    case "neq" => observed < expected || expected < observed
    case "gt" => expected < observed
    case "gte" => !(observed < expected)
    case "lt" => observed < expected
    case "lte" => !(expected < observed)
    case "holds" => observed < 0 || 0 < observed
    case "violated" => observed == 0
    case _ => false
  }

  /** An event matches exactly when it was recorded as a success, names what the assertion names,
      carries the declared number, and the observed number stands in the declared relation to it. */
  lemma {:induction false} MatchesExactly(a: Assertion, e: AssertionEvent)
    ensures Matches(a, e) <==>
            && e.ok && a.observedRecord == "AssertionChecked"
            && a.id == e.id && a.kind == e.kind && a.target == e.target
            && a.actor in {None, e.actor} && a.token in {None, e.token}
            && a.expected == Number(e.expected) && Stands(a.operator, e.observed, e.expected)
  {
    hide Digits, Decimal;
    if Matches(a, e) {
      OnlyNumbersMatch(a, e);
    }
  }

  // ---------------------------------------------------------------- the three checks

  function Required(assertions: seq<Assertion>): seq<Assertion> {
    if assertions == [] then []
    else Required(assertions[..|assertions| - 1]) + if assertions[|assertions| - 1].required then [assertions[|assertions| - 1]] else []
  }

  function Ids(assertions: seq<Assertion>): (ids: seq<string>)
    ensures |ids| == |assertions| && forall i :: 0 <= i < |ids| ==> ids[i] == assertions[i].id
  {
    seq(|assertions|, i requires 0 <= i < |assertions| => assertions[i].id)
  }

  /** The ids of the ControlObserved logs of a list of frames, reverted or not. */
  function ControlIds(logs: seq<LogRecord>): seq<string> {
    if logs == [] then []
    else
      var body := logs[|logs| - 1].body;
      ControlIds(logs[..|logs| - 1]) + if body.ControlObserved? then [body.id] else []
  }

  predicate Changed(logs: seq<LogRecord>) {
    exists k :: 0 <= k < |logs| && logs[k].body.ControlObserved? && logs[k].body.changed
  }

  function AsSet(ids: seq<string>): set<string> {
    set s | s in ids
  }

  /** What the control run showed, if `derive_control` accepted it. */
  datatype Control = Control(stateChanged: bool, assertionCount: nat)

  function DeriveControl(control: Summary, assertions: seq<Assertion>): Result<Control> {
    var logs := LogsOfFrames(control.frames);
    var requiredIds := AsSet(Ids(Required(assertions)));
    if |ControlIds(logs)| != |requiredIds| then Reject
    else if AsSet(ControlIds(logs)) != requiredIds then Reject
    else if exists k :: 0 <= k < |control.assertions| && control.assertions[k].id in requiredIds then Reject
    else Ok(Control(Changed(logs), |control.assertions|))
  }

  /** The event counts `derive_harness` checks. */
  predicate HarnessCounts(attack: Summary, control: Summary, assertions: seq<Assertion>) {
    && attack.assertions != []
    && |attack.assertions| == |Required(assertions)|
    && |ControlIds(LogsOfFrames(control.frames))| == |Required(assertions)|
  }

  /** The one event that matches, if there is exactly one. */
  method UniqueMatch(a: Assertion, events: seq<AssertionEvent>) returns (ok: bool)
    ensures ok <==> UniquelyObserved(a, events)
  {
    hide Matches;
    ok := false;
    ghost var at := 0;
    for k := 0 to |events|
      invariant ok ==> at < k && Matches(a, events[at])
      invariant ok ==> forall j :: 0 <= j < k && Matches(a, events[j]) ==> j == at
      invariant !ok ==> forall j :: 0 <= j < k ==> !Matches(a, events[j])
    {
      if Matches(a, events[k]) {
        if ok {
          assert Matches(a, events[at]) && Matches(a, events[k]) && at != k;
          return false;
        }
        ok := true;
        at := k;
      }
    }
  }

  ghost predicate UniquelyObserved(a: Assertion, events: seq<AssertionEvent>) {
    exists k :: 0 <= k < |events| && Matches(a, events[k]) && forall j :: 0 <= j < |events| && Matches(a, events[j]) ==> j == k
  }

  /** `check`, the V06 stage. */
  ghost predicate Passes(assertions: seq<Assertion>, events: seq<AssertionEvent>, control: Option<Control>) {
    && |events| == |Required(assertions)|
    && (forall i :: 0 <= i < |Required(assertions)| ==> UniquelyObserved(Required(assertions)[i], events))
    && control.Some? && !control.value.stateChanged
  }

  method Check(assertions: seq<Assertion>, events: seq<AssertionEvent>, control: Option<Control>) returns (ok: bool)
    ensures ok <==> Passes(assertions, events, control)
  {
    hide UniquelyObserved, Required;
    var required := Required(assertions);
    if |events| != |required| {
      return false;
    }
    for i := 0 to |required|
      invariant forall j :: 0 <= j < i ==> UniquelyObserved(required[j], events)
    {
      var once := UniqueMatch(required[i], events);
      if !once {
        return false;
      }
    }
    return control.Some? && !control.value.stateChanged;
  }

  // ---------------------------------------------------------------- counting

  lemma {:induction false} SetNoLarger(xs: seq<string>)
    ensures |AsSet(xs)| <= |xs|
  {
    if xs != [] {
      var init, last := xs[..|xs| - 1], xs[|xs| - 1];
      SetNoLarger(init);
      assert AsSet(xs) == AsSet(init) + {last};
    }
  }

  /** As many members as positions: no two positions agree. */
  lemma {:induction false} FullSetIsDistinct(xs: seq<string>)
    requires |AsSet(xs)| == |xs|
    ensures forall i, j :: 0 <= i < j < |xs| ==> xs[i] != xs[j]
  {
    if xs != [] {
      var init, last := xs[..|xs| - 1], xs[|xs| - 1];
      SetNoLarger(init);
      assert AsSet(xs) == AsSet(init) + {last};
      assert last !in AsSet(init);
      FullSetIsDistinct(init);
      forall i, j | 0 <= i < j < |xs|
        ensures xs[i] != xs[j]
      {
        assert init[i] in AsSet(init);
      }
    }
  }

  // ---------------------------------------------------------------- control events by position

  /** Log `k` of frame `f`, reverted or not, is the control event of the id. */
  predicate Reports(frames: seq<TraceFrame>, f: int, k: int, id: string) {
    && 0 <= f < |frames| && 0 <= k < |frames[f].logs|
    && frames[f].logs[k].body.ControlObserved? && frames[f].logs[k].body.id == id
  }

  predicate LogReports(logs: seq<LogRecord>, k: int, id: string) {
    0 <= k < |logs| && logs[k].body.ControlObserved? && logs[k].body.id == id
  }

  ghost predicate LogOnce(logs: seq<LogRecord>, id: string) {
    exists k :: LogReports(logs, k, id)
  }

  ghost predicate LogTwice(logs: seq<LogRecord>, id: string) {
    exists j, k :: LogReports(logs, j, id) && LogReports(logs, k, id) && j != k
  }

  ghost predicate Once(frames: seq<TraceFrame>, id: string) {
    exists f, k :: Reports(frames, f, k, id)
  }

  ghost predicate Twice(frames: seq<TraceFrame>, id: string) {
    exists f, k, g, l :: Reports(frames, f, k, id) && Reports(frames, g, l, id) && (f, k) != (g, l)
  }

  lemma {:induction false} LogStep(logs: seq<LogRecord>, id: string)
    requires logs != []
    ensures var init, here := logs[..|logs| - 1], LogReports(logs, |logs| - 1, id);
            && (LogOnce(logs, id) <==> LogOnce(init, id) || here)
            && (LogTwice(logs, id) <==> LogTwice(init, id) || (LogOnce(init, id) && here))
  {
    var init, last := logs[..|logs| - 1], |logs| - 1;
    assert forall k :: LogReports(init, k, id) ==> LogReports(logs, k, id) && k != last;
    assert forall k :: LogReports(logs, k, id) && k != last ==> LogReports(init, k, id);
  }

  /** How often an id occurs says at how many positions its event stands: none, one, or more. */
  lemma {:induction false} LogsCounted(logs: seq<LogRecord>, id: string)
    ensures var n := multiset(ControlIds(logs))[id];
            && (n >= 1 <==> LogOnce(logs, id))
            && (n >= 2 <==> LogTwice(logs, id))
  {
    if logs != [] {
      LogStep(logs, id);
      hide LogOnce, LogTwice;
      LogsCounted(logs[..|logs| - 1], id);
    }
  }

  lemma {:induction false} ControlIdsAppend(a: seq<LogRecord>, b: seq<LogRecord>)
    ensures ControlIds(a + b) == ControlIds(a) + ControlIds(b)
  {
    if b == [] {
      assert a + b == a;
    } else {
      assert (a + b)[..|a + b| - 1] == a + b[..|b| - 1];
      ControlIdsAppend(a, b[..|b| - 1]);
    }
  }

  lemma {:induction false} FramePositions(init: seq<TraceFrame>, frames: seq<TraceFrame>, id: string)
    requires frames != [] && init == frames[..|frames| - 1]
    ensures forall f, k :: Reports(frames, f, k, id) <==>
              Reports(init, f, k, id) || (f == |init| && LogReports(frames[f].logs, k, id))
    ensures forall f, k :: Reports(init, f, k, id) ==> f < |init|
  {
  }

  lemma {:induction false} FrameStep(frames: seq<TraceFrame>, id: string)
    requires frames != []
    ensures var init, logs := frames[..|frames| - 1], frames[|frames| - 1].logs;
            && (Once(frames, id) <==> Once(init, id) || LogOnce(logs, id))
            && (Twice(frames, id) ==> Twice(init, id) || LogTwice(logs, id) || (Once(init, id) && LogOnce(logs, id)))
            && (Twice(init, id) || LogTwice(logs, id) ==> Twice(frames, id))
            && (Once(init, id) && LogOnce(logs, id) ==> Twice(frames, id))
  {
    hide Reports, LogReports;
    var init, last, logs := frames[..|frames| - 1], |frames| - 1, frames[|frames| - 1].logs;
    FramePositions(init, frames, id);
    if f, k :| Reports(init, f, k, id) {
      assert Reports(frames, f, k, id);
    }
    if k :| LogReports(logs, k, id) {
      assert Reports(frames, last, k, id);
    }
    if Twice(init, id) {
      var f, k, g, l :| Reports(init, f, k, id) && Reports(init, g, l, id) && (f, k) != (g, l);
      assert Reports(frames, f, k, id) && Reports(frames, g, l, id);
    }
    if LogTwice(logs, id) {
      var k, l :| LogReports(logs, k, id) && LogReports(logs, l, id) && k != l;
      assert Reports(frames, last, k, id) && Reports(frames, last, l, id);
    }
    if Once(init, id) && LogOnce(logs, id) {
      var f, k :| Reports(init, f, k, id);
      var l :| LogReports(logs, l, id);
      assert Reports(frames, f, k, id) && Reports(frames, last, l, id);
    }
  }

  lemma {:induction false} FramesCounted(frames: seq<TraceFrame>, id: string)
    ensures var n := multiset(ControlIds(LogsOfFrames(frames)))[id];
            && (n >= 1 <==> Once(frames, id))
            && (n >= 2 <==> Twice(frames, id))
  {
    if frames == [] {
      NoControlIds();
    } else {
      hide ControlIds;
      var init, logs := frames[..|frames| - 1], frames[|frames| - 1].logs;
      FrameStep(frames, id);
      hide Once, Twice, LogOnce, LogTwice;
      FramesCounted(init, id);
      LogsCounted(logs, id);
      ControlIdsAppend(LogsOfFrames(init), logs);
    }
  }

  lemma {:induction false} NoControlIds()
    ensures ControlIds([]) == []
  {
  }

  lemma {:induction false} InLogsOfFrames(frames: seq<TraceFrame>, log: LogRecord)
    ensures log in LogsOfFrames(frames) <==> exists f :: 0 <= f < |frames| && log in frames[f].logs
  {
    if frames != [] {
      var init, last := frames[..|frames| - 1], frames[|frames| - 1];
      InLogsOfFrames(init, log);
      assert forall f :: 0 <= f < |init| ==> init[f] == frames[f];
      assert LogsOfFrames(frames) == LogsOfFrames(init) + last.logs;
    }
  }

  lemma {:induction false} ChangedInFrames(frames: seq<TraceFrame>)
    ensures Changed(LogsOfFrames(frames)) <==>
            exists f, k :: 0 <= f < |frames| && 0 <= k < |frames[f].logs| && frames[f].logs[k].body.ControlObserved?
                           && frames[f].logs[k].body.changed
  {
    hide LogsOfFrames;
    var logs := LogsOfFrames(frames);
    if Changed(logs) {
      var i :| 0 <= i < |logs| && logs[i].body.ControlObserved? && logs[i].body.changed;
      InLogsOfFrames(frames, logs[i]);
    }
    if f, k :| 0 <= f < |frames| && 0 <= k < |frames[f].logs| && frames[f].logs[k].body.ControlObserved?
               && frames[f].logs[k].body.changed {
      InLogsOfFrames(frames, frames[f].logs[k]);
    }
  }

  // ---------------------------------------------------------------- the theorems

  ghost predicate DistinctIds(required: seq<Assertion>) {
    forall i, j :: 0 <= i < j < |required| ==> required[i].id != required[j].id
  }

  /** `derive_control` compares with the set of required ids. An accepted control leaves the required
      ids pairwise distinct exactly when the count that `derive_harness` makes agrees as well. */
  lemma {:induction false} DistinctExactlyWhenCounted(control: Summary, assertions: seq<Assertion>)
    requires DeriveControl(control, assertions).Ok?
    ensures DistinctIds(Required(assertions)) <==> |ControlIds(LogsOfFrames(control.frames))| == |Required(assertions)|
  {
    hide Required, ControlIds, LogsOfFrames, Changed;
    var required, ids := Required(assertions), Ids(Required(assertions));
    if |AsSet(ids)| == |ids| {
      FullSetIsDistinct(ids);
      forall i, j | 0 <= i < j < |required|
        ensures required[i].id != required[j].id
      {
        assert ids[i] != ids[j];
      }
    }
    if DistinctIds(required) {
      DistinctSize(ids);
    }
  }

  const TWICE: Assertion := Assertion("a", "custom", "vault", "eq", Number(1), "AssertionChecked", None, None, true)

  /** A control run with a single ControlObserved event. */
  const ONE_CONTROL: Summary := Summary(
    [TraceFrame(0, "call", None, None, "witness", None, None, None, true,
                [LogRecord([], [], [], false, ControlObserved("a", false))])],
    [], [], [], 0, 0, None, None, None, None, 0)

  /** Two required assertions with one id and one control event: `derive_control` accepts, and the
      ids are not distinct. */
  lemma {:induction false} SharedIdIsAccepted()
    ensures DeriveControl(ONE_CONTROL, [TWICE, TWICE]).Ok?
    ensures !DistinctIds(Required([TWICE, TWICE]))
  {
    var frame := ONE_CONTROL.frames[0];
    assert ONE_CONTROL.frames[..0] == [] && frame.logs[..0] == [];
    assert LogsOfFrames(ONE_CONTROL.frames) == frame.logs;
    assert ControlIds(frame.logs) == ["a"];
    assert [TWICE, TWICE][..1] == [TWICE] && [TWICE][..0] == [];
    assert Required([TWICE]) == [TWICE];
    assert Required([TWICE, TWICE]) == [TWICE, TWICE];
    assert Ids([TWICE, TWICE]) == ["a", "a"];
    assert AsSet(["a", "a"]) == {"a"} && AsSet(["a"]) == {"a"};
  }

  /** The position of the event that matches. */
  ghost function EventOf(a: Assertion, events: seq<AssertionEvent>): (k: int)
    requires UniquelyObserved(a, events)
    ensures 0 <= k < |events| && Matches(a, events[k])
    ensures events[k].id == a.id
  {
    var k :| 0 <= k < |events| && Matches(a, events[k]) && forall j :: 0 <= j < |events| && Matches(a, events[j]) ==> j == k;
    k
  }

  ghost function EventsOf(required: seq<Assertion>, events: seq<AssertionEvent>): (at: seq<int>)
    requires forall i :: 0 <= i < |required| ==> UniquelyObserved(required[i], events)
    ensures |at| == |required|
    ensures forall i :: 0 <= i < |at| ==> at[i] == EventOf(required[i], events)
  {
    seq(|required|, i requires 0 <= i < |required| => EventOf(required[i], events))
  }

  // ---------------------------------------------------------------- required assertions by position

  /** The positions of the required assertions. */
  function RequiredAt(assertions: seq<Assertion>): (at: seq<int>)
    ensures |at| == |Required(assertions)|
    ensures forall j :: 0 <= j < |at| ==> 0 <= at[j] < |assertions| && assertions[at[j]].required && Required(assertions)[j] == assertions[at[j]]
  {
    if assertions == [] then []
    else
      var last := |assertions| - 1;
      RequiredAt(assertions[..last]) + if assertions[last].required then [last] else []
  }

  lemma {:induction false} RequiredAtIsComplete(assertions: seq<Assertion>)
    ensures forall i, j :: 0 <= i < j < |RequiredAt(assertions)| ==> RequiredAt(assertions)[i] < RequiredAt(assertions)[j]
    ensures forall i :: 0 <= i < |assertions| && assertions[i].required ==> i in RequiredAt(assertions)
  {
    hide Required;
    if assertions != [] {
      RequiredAtIsComplete(assertions[..|assertions| - 1]);
    }
  }

  ghost predicate RequiredId(assertions: seq<Assertion>, id: string) {
    exists i :: 0 <= i < |assertions| && assertions[i].required && assertions[i].id == id
  }

  lemma {:induction false} RequiredIds(assertions: seq<Assertion>, id: string)
    ensures id in AsSet(Ids(Required(assertions))) <==> RequiredId(assertions, id)
  {
    hide Required, RequiredAt;
    RequiredAtIsComplete(assertions);
    var at := RequiredAt(assertions);
    if RequiredId(assertions, id) {
      var i :| 0 <= i < |assertions| && assertions[i].required && assertions[i].id == id;
      var j :| 0 <= j < |at| && at[j] == i;
      assert Ids(Required(assertions))[j] == id;
    }
  }

  // ---------------------------------------------------------------- derive_control, exactly

  /** Exactly one log of the run, reverted or not, is the control event of the id. */
  ghost predicate ReportedOnce(frames: seq<TraceFrame>, id: string) {
    exists f, k :: Reports(frames, f, k, id) && forall g, l :: Reports(frames, g, l, id) ==> (g, l) == (f, k)
  }

  lemma {:induction false} ReportedOnceIsOnce(frames: seq<TraceFrame>, id: string)
    ensures ReportedOnce(frames, id) <==> multiset(ControlIds(LogsOfFrames(frames)))[id] == 1
  {
    hide Reports;
    FramesCounted(frames, id);
  }

  /** The control events are those of the required ids, one each, and the control run emitted none of
      the required assertions. */
  ghost predicate CleanControl(control: Summary, assertions: seq<Assertion>) {
    && (forall id :: RequiredId(assertions, id) ==> ReportedOnce(control.frames, id))
    && (forall f, k, id :: Reports(control.frames, f, k, id) ==> RequiredId(assertions, id))
    && (forall k :: 0 <= k < |control.assertions| ==> !RequiredId(assertions, control.assertions[k].id))
  }

  ghost predicate ReportsChange(frames: seq<TraceFrame>) {
    exists f, k :: 0 <= f < |frames| && 0 <= k < |frames[f].logs| && frames[f].logs[k].body.ControlObserved?
                   && frames[f].logs[k].body.changed
  }

  lemma {:induction false} CleanIsDistinct(control: Summary, assertions: seq<Assertion>)
    requires CleanControl(control, assertions)
    ensures var seen, ids := ControlIds(LogsOfFrames(control.frames)), Ids(Required(assertions));
            AsSet(seen) == AsSet(ids) && |seen| == |AsSet(ids)|
  {
    hide ControlIds, LogsOfFrames, Required, Reports, RequiredId;
    var seen, ids := ControlIds(LogsOfFrames(control.frames)), Ids(Required(assertions));
    forall id
      ensures id in AsSet(ids) <==> RequiredId(assertions, id)
      ensures multiset(seen)[id] == if id in AsSet(ids) then 1 else 0
    {
      RequiredIds(assertions, id);
      FramesCounted(control.frames, id);
      ReportedOnceIsOnce(control.frames, id);
    }
    CountsAreDistinct(seen);
    forall id
      ensures id in AsSet(seen) <==> id in AsSet(ids)
    {
      assert id in seen <==> multiset(seen)[id] > 0;
    }
    DistinctSize(seen);
  }

  lemma {:induction false} CountsAreDistinct<T>(xs: seq<T>)
    requires forall x :: x in xs ==> multiset(xs)[x] == 1
    ensures forall i, j :: 0 <= i < j < |xs| ==> xs[i] != xs[j]
  {
    forall i, j | 0 <= i < j < |xs|
      ensures xs[i] != xs[j]
    {
      assert xs == xs[..j] + [xs[j]] + xs[j + 1..];
      assert xs[..j][i] == xs[i];
      assert multiset(xs[..j] + [xs[j]])[xs[i]] == multiset(xs[..j])[xs[i]] + multiset([xs[j]])[xs[i]];
      assert multiset(xs)[xs[i]] == 1;
    }
  }

  lemma {:induction false} AcceptedControlIsClean(control: Summary, assertions: seq<Assertion>)
    requires var seen, ids := ControlIds(LogsOfFrames(control.frames)), Ids(Required(assertions));
             AsSet(seen) == AsSet(ids) && |seen| == |AsSet(ids)|
    ensures forall id :: RequiredId(assertions, id) ==> ReportedOnce(control.frames, id)
    ensures forall f, k, id :: Reports(control.frames, f, k, id) ==> RequiredId(assertions, id)
  {
    hide ControlIds, LogsOfFrames, Required, Reports, RequiredId;
    var seen, ids := ControlIds(LogsOfFrames(control.frames)), Ids(Required(assertions));
    FullSetIsDistinct(seen);
    forall id
      ensures RequiredId(assertions, id) ==> ReportedOnce(control.frames, id)
      ensures Once(control.frames, id) ==> RequiredId(assertions, id)
    {
      RequiredIds(assertions, id);
      DistinctCount(seen, id);
      assert id in seen <==> id in AsSet(seen);
      FramesCounted(control.frames, id);
      ReportedOnceIsOnce(control.frames, id);
    }
    forall f, k, id | Reports(control.frames, f, k, id)
      ensures RequiredId(assertions, id)
    {
      assert Once(control.frames, id);
    }
  }

  /** `derive_control` accepts exactly when the control is clean. It then reports a changed state
      exactly when some control event of the run, reverted or not, says so, and counts the run's
      assertion events. */
  lemma {:induction false} DeriveControlExactly(control: Summary, assertions: seq<Assertion>)
    ensures var d := DeriveControl(control, assertions);
            && (d.Ok? <==> CleanControl(control, assertions))
            && (d.Ok? ==> d.value.assertionCount == |control.assertions| && (d.value.stateChanged <==> ReportsChange(control.frames)))
  {
    hide ControlIds, LogsOfFrames, Required, Reports, RequiredId, ReportedOnce, Changed;
    ChangedInFrames(control.frames);
    var seen, ids := ControlIds(LogsOfFrames(control.frames)), Ids(Required(assertions));
    forall k | 0 <= k < |control.assertions|
      ensures RequiredId(assertions, control.assertions[k].id) <==> control.assertions[k].id in AsSet(ids)
    {
      RequiredIds(assertions, control.assertions[k].id);
    }
    if CleanControl(control, assertions) {
      CleanIsDistinct(control, assertions);
    }
    if AsSet(seen) == AsSet(ids) && |seen| == |AsSet(ids)| {
      AcceptedControlIsClean(control, assertions);
    }
  }

  // ---------------------------------------------------------------- the perfect matching

  /** The required assertion at `i` and the event match. */
  ghost predicate Pairs(assertions: seq<Assertion>, i: int, e: AssertionEvent) {
    0 <= i < |assertions| && assertions[i].required && Matches(assertions[i], e)
  }

  /** Exactly one required assertion matches the event. */
  ghost predicate Claimed(assertions: seq<Assertion>, e: AssertionEvent) {
    exists i :: Pairs(assertions, i, e) && forall j :: Pairs(assertions, j, e) ==> j == i
  }

  /** Required assertions and observed events match one to one, and there is at least one. */
  ghost predicate OneToOne(assertions: seq<Assertion>, events: seq<AssertionEvent>) {
    && events != []
    && (forall i :: 0 <= i < |assertions| && assertions[i].required ==> UniquelyObserved(assertions[i], events))
    && (forall k :: 0 <= k < |events| ==> Claimed(assertions, events[k]))
  }

  ghost predicate DistinctRequired(assertions: seq<Assertion>) {
    forall i, j :: 0 <= i < j < |assertions| && assertions[i].required && assertions[j].required ==> assertions[i].id != assertions[j].id
  }

  lemma {:induction false} DistinctByPosition(assertions: seq<Assertion>)
    ensures DistinctIds(Required(assertions)) <==> DistinctRequired(assertions)
  {
    hide Required, RequiredAt;
    RequiredAtIsComplete(assertions);
    var at, required := RequiredAt(assertions), Required(assertions);
    if DistinctIds(required) {
      forall i, j | 0 <= i < j < |assertions| && assertions[i].required && assertions[j].required
        ensures assertions[i].id != assertions[j].id
      {
        var p :| 0 <= p < |at| && at[p] == i;
        var q :| 0 <= q < |at| && at[q] == j;
        assert p < q;
        assert required[p].id != required[q].id;
      }
    }
  }

  /** Once the counts agree as well, the required ids are pairwise distinct, each has exactly one
      control event, no other id has one, and what is reported about the state is what those events say. */
  lemma {:induction false} ControlIsComplete(attack: Summary, control: Summary, assertions: seq<Assertion>)
    requires DeriveControl(control, assertions).Ok? && HarnessCounts(attack, control, assertions)
    ensures forall i, j :: 0 <= i < j < |assertions| && assertions[i].required && assertions[j].required ==> assertions[i].id != assertions[j].id
    ensures forall i :: 0 <= i < |assertions| && assertions[i].required ==> ReportedOnce(control.frames, assertions[i].id)
    ensures forall f, k, id :: Reports(control.frames, f, k, id) ==> RequiredId(assertions, id)
    ensures forall k :: 0 <= k < |control.assertions| ==> !RequiredId(assertions, control.assertions[k].id)
    ensures var d := DeriveControl(control, assertions).value;
            d.assertionCount == |control.assertions| && (d.stateChanged <==> ReportsChange(control.frames))
  {
    hide DeriveControl, Required, ControlIds, LogsOfFrames, DistinctIds, Reports, ReportedOnce, ReportsChange;
    DeriveControlExactly(control, assertions);
    DistinctExactlyWhenCounted(control, assertions);
    DistinctByPosition(assertions);
    forall i | 0 <= i < |assertions| && assertions[i].required
      ensures ReportedOnce(control.frames, assertions[i].id)
    {
      assert RequiredId(assertions, assertions[i].id);
    }
  }

  lemma {:induction false} ObservedByPosition(assertions: seq<Assertion>, events: seq<AssertionEvent>)
    ensures (forall j :: 0 <= j < |Required(assertions)| ==> UniquelyObserved(Required(assertions)[j], events)) <==>
            (forall i :: 0 <= i < |assertions| && assertions[i].required ==> UniquelyObserved(assertions[i], events))
  {
    hide Required, RequiredAt, UniquelyObserved;
    RequiredAtIsComplete(assertions);
    var at, required := RequiredAt(assertions), Required(assertions);
    if forall j :: 0 <= j < |required| ==> UniquelyObserved(required[j], events) {
      forall i | 0 <= i < |assertions| && assertions[i].required
        ensures UniquelyObserved(assertions[i], events)
      {
        var p :| 0 <= p < |at| && at[p] == i;
        assert UniquelyObserved(required[p], events);
      }
    }
    forall j | 0 <= j < |required| && (forall i :: 0 <= i < |assertions| && assertions[i].required ==> UniquelyObserved(assertions[i], events))
      ensures UniquelyObserved(required[j], events)
    {
      assert assertions[at[j]].required;
    }
  }

  lemma {:induction false} MatchesById(a: Assertion, e: AssertionEvent)
    requires Matches(a, e)
    ensures e.id == a.id
  {
    hide Decimal, StrOf, Relation;
  }

  /** Distinct assertions that each have one event: there are as many events exactly when every event
      is some assertion's. */
  lemma {:induction false} EventsAreCounted(required: seq<Assertion>, events: seq<AssertionEvent>)
    requires DistinctIds(required)
    requires forall i :: 0 <= i < |required| ==> UniquelyObserved(required[i], events)
    ensures |events| == |required| <==> forall k :: 0 <= k < |events| ==> k in EventsOf(required, events)
  {
    hide UniquelyObserved, Matches;
    var at := EventsOf(required, events);
    forall i, j | 0 <= i < j < |at|
      ensures at[i] != at[j]
    {
      assert events[at[i]].id == required[i].id && events[at[j]].id == required[j].id;
    }
    if |events| == |required| {
      forall k | 0 <= k < |events|
        ensures k in at
      {
        assert Range(|events|)[k] == k;
        AllBelow(at, |events|, k);
      }
    }
    if forall k :: 0 <= k < |events| ==> k in at {
      DistinctSize(at);
      DistinctSize(Range(|events|));
      forall x
        ensures x in at <==> x in Range(|events|)
      {
        if 0 <= x < |events| {
          assert Range(|events|)[x] == x;
        }
      }
      assert (set x | x in at) == (set x | x in Range(|events|));
    }
  }

  lemma {:induction false} ClaimedIsAnEventOf(assertions: seq<Assertion>, events: seq<AssertionEvent>, k: nat)
    requires DistinctRequired(assertions) && k < |events|
    requires forall i :: 0 <= i < |Required(assertions)| ==> UniquelyObserved(Required(assertions)[i], events)
    ensures Claimed(assertions, events[k]) <==> k in EventsOf(Required(assertions), events)
  {
    hide Matches, Required, RequiredAt, UniquelyObserved;
    RequiredAtIsComplete(assertions);
    var at, required := RequiredAt(assertions), Required(assertions);
    forall i, j | Pairs(assertions, i, events[k]) && Pairs(assertions, j, events[k])
      ensures i == j
    {
      MatchesById(assertions[i], events[k]);
      MatchesById(assertions[j], events[k]);
    }
    if i :| Pairs(assertions, i, events[k]) {
      var p :| 0 <= p < |at| && at[p] == i;
      OnlyEvent(required[p], events, k);
      assert EventsOf(required, events)[p] == k;
    }
    if k in EventsOf(required, events) {
      var p :| 0 <= p < |required| && EventsOf(required, events)[p] == k;
      assert Pairs(assertions, at[p], events[k]);
    }
  }

  lemma {:induction false} OnlyEvent(a: Assertion, events: seq<AssertionEvent>, k: nat)
    requires k < |events| && UniquelyObserved(a, events) && Matches(a, events[k])
    ensures EventOf(a, events) == k
  {
    hide Matches;
  }

  /** `derive_control`, the event counts and the V06 check accept together exactly when required
      assertions, which have distinct ids, and observed events match one to one, and the control run is
      clean and reports no change. */
  lemma {:induction false} PerfectMatching(attack: Summary, control: Summary, assertions: seq<Assertion>)
    ensures var d := DeriveControl(control, assertions);
            (d.Ok? && HarnessCounts(attack, control, assertions) && Passes(assertions, attack.assertions, Some(d.value))) <==>
            && OneToOne(assertions, attack.assertions) && DistinctRequired(assertions)
            && CleanControl(control, assertions) && !ReportsChange(control.frames)
  {
    DeriveControlExactly(control, assertions);
    hide DeriveControl, Required, UniquelyObserved, Claimed, CleanControl, ReportsChange, ControlIds, LogsOfFrames, DistinctIds, DistinctRequired;
    var required, events := Required(assertions), attack.assertions;
    if CleanControl(control, assertions) {
      DistinctExactlyWhenCounted(control, assertions);
      DistinctByPosition(assertions);
      ObservedByPosition(assertions, events);
      if DistinctRequired(assertions) && (forall i :: 0 <= i < |required| ==> UniquelyObserved(required[i], events)) {
        EventsAreCounted(required, events);
        forall k | 0 <= k < |events|
          ensures Claimed(assertions, events[k]) <==> k in EventsOf(required, events)
        {
          ClaimedIsAnEventOf(assertions, events, k);
        }
      }
    }
  }
}
