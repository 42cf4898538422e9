# l0vi0x: the evidence core, modelled and proved

l0vi0x runs a candidate exploit as a Foundry test, turns the resulting call trace into evidence, and keeps
hypotheses, their evidence levels and the tasks about them in an event-first store. These modules model the
parts on which a finding's credibility rests and prove what they promise. `dafny verify dfyconfig.toml` checks
everything.

**The trace chain** (`Arena`, `ArenaWalk`, `ArenaLoop`, `ArenaConvert`, `Adapter`, `ArenaFacts`, `ArenaGraph`,
`ArenaAcceptance`, `ArenaLogs`, `NodesExact`, `AdapterExact`, `Trace`, `TraceEvents`, `TraceChain`, `SummaryLogs`,
`EventsAsMade`, `Cheatcodes`). An arena is an untrusted flat list of nodes with
parent and child indices and an ordering of calls and logs per node. `ArenaWalk.Run` is the recursive reading of
such an arena; `ArenaConvert.ConvertArena` is the program's loop, with heap frames attached to their parents
before they are filled in, an explicit stack, a visited set and consumed sets, and is proved to be that reading.
`ArenaAcceptance` characterises acceptance on the arena's own graph, and `NodesExact` and `AdapterExact` on the raw
fields of its nodes and on whole runs. `ArenaLogs`, `TraceChain` and `SummaryLogs` show that nothing in an accepted
arena escapes the summary and nothing is added: frames, logs, gas, cheatcode calls, transfers, assertion events.
`Events` shows that events are read as contracts emit them; `EventsAsMade` and `Cheatcodes` follow an emitted event
and a made cheatcode call from the node to the summary, the clocks and the policy's verdict.

**The ABI decoder** (`Abi`). The canonical head/tail encoding of the Solidity Contract ABI Specification,
section "Formal Specification of the Encoding", is written out; the decoder is proved to invert it and to accept
exactly what spells values in that form.

**The store** (`StoreData`, `StoreOps`, `StoreRuns`, `StoreHistory`, `StoreRebuild`, `StoreReadBack`, `StoreCommits`,
`StoreIds`, `Store`, and the tasks in `TaskLedger`, `TaskProgress` and `Tasks`). The log is a sequence, the tables are one map from table and key to row, the
triggers are guards on statements, and `submit` commits or restores. `StoreData` proves what the triggers keep
under arbitrary transactions; `StoreOps` states what each method submits, and the later modules what whole runs
of those methods keep when reads are stale and calls are refused. `StoreCommits` says exactly when each method
commits and gives the whole database it then leaves. `Store` and `Tasks` hold the objects whose
methods change this state in place, proved against those functions.

**The state machines on top** (`Lifecycle`, `LifecycleExact`, `Ladder`, `LadderAwards`, `Hypothesis`): legal
transitions with the evidence they demand, and the award of evidence levels, over whole runs; and, for one call,
exactly which transitions are accepted and exactly which awards are won.

**Evidence arithmetic** (`Flow`, `Matching`, `Economics`, `EconomicsOrder`, `EconomicsExact`): transfer flow against a ledger,
the matching of declared assertions and observed events, and profit and price sensitivity in exact arithmetic.

`Prelude` and `Bags` hold what several modules share.

## What the proofs brought out

* An assertion whose declared value is a text or a truth value can never match an event of the adapter, even
  where the text spells the same number: the operator table compares every operator before one is chosen, and
  ordering a number and a text raises (`Matching.OnlyNumbersMatch`).
* A bare `production:not_applicable`, the form the error message of the transition names, does not count: text
  must follow the prefix. With everything else in place that is the whole condition
  (`Lifecycle.ProductionDecides`, and `Lifecycle.BareWaiverIsRefused` for the refused list).
* `rebuild_hypothesis_from_events` is not always what `get` returns. At every moment of every run it is exactly
  if, since the row was last written, no bare event has logged a snapshot of the hypothesis and the body carries
  lens, protocol type and prior, or the last such snapshot restates what `get` returns
  (`StoreRebuild.RebuildIsExact`). The next write repairs it (`StoreRebuild.EachCallMovesRebuild`), and there is
  a two-call run that ends with it wrong (`StoreRebuild.RebuildCanBeWrong`).
* The measured net result can depend on the iteration order of the set of token keys. It does not exactly if the
  input is refused in every order, or all keys that share a lower-case name carry changes of the same worth
  (`EconomicsOrder.OrdersAgreeExactly`); lower-case keys are such a case, and `EconomicsOrder.CaseCollisionMatters`
  is an input that is not.
* `derive_control` compares counts with a set of ids: it accepts two required assertions of one id with a single
  control event (`Matching.SharedIdIsAccepted`). The ids of an accepted control are distinct exactly if the count
  in `derive_harness` agrees too (`Matching.DistinctExactlyWhenCounted`).

## Model

| member | source | states |
|---|---|---|
| Abi.ToBytesOfBigEndian | src/l0vi0x/chain/cheatcode_abi.py:117-118 | writing out the number a word denotes gives the word back: no two words share a number |
| Abi.SignedOfSignedToBytes | src/l0vi0x/chain/cheatcode_abi.py:117-118 | a signed number within range is read back from its two's-complement bytes |
| Abi.StaticRoundTrip | src/l0vi0x/chain/cheatcode_abi.py:121-148 | every address, bool, uintN, intN and bytesN value is read back from its canonical word |
| Abi.StaticCanonical | src/l0vi0x/chain/cheatcode_abi.py:121-148 | a word is accepted only if it is the canonical encoding of what it decodes to |
| Abi.StaticBodiesAgree | src/l0vi0x/chain/cheatcode_abi.py:161-172 | two accepted all-static bodies with equal values agree on every head byte |
| Abi.DecodePayload | src/l0vi0x/chain/cheatcode_abi.py:151-158 | an accepted dynamic argument is the bytes within the data that its offset and length words delimit |
| Abi.PayloadAcceptedExactly | src/l0vi0x/chain/cheatcode_abi.py:151-158 | a dynamic argument is accepted if and only if its length word and its bytes lie within the data |
| Abi.DecodeAbiArguments | src/l0vi0x/chain/cheatcode_abi.py:161-172 | the loop accepts exactly when every argument decodes on its own, and returns them in order |
| Abi.DecodesExactly | src/l0vi0x/chain/cheatcode_abi.py:161-172 | data decode to given values if and only if every head word spells its value: static ones canonically, texts and byte strings by offset, length and bytes (also lines 121-158) |
| Abi.DecodeInvertsEncode | src/l0vi0x/chain/cheatcode_abi.py:151-172 | decoding the canonical head/tail encoding returns the values, whatever bytes follow |
| Abi.CheatcodeRoundTrip | src/l0vi0x/chain/cheatcode_abi.py:175-192 | a canonically encoded call with a known selector is recognised with its name and arguments |
| Events.AssertionAsEmitted | src/l0vi0x/chain/foundry_trace.py:328-345 | an AssertionChecked event emitted in canonical ABI form is read as emitted, argument by argument |
| Events.ControlAsEmitted | src/l0vi0x/chain/foundry_trace.py:358-365 | a ControlObserved event is read as emitted |
| Events.ContextAsEmitted | src/l0vi0x/chain/foundry_trace.py:348-355 | an AssertionContext event is read as emitted |
| Events.EconomicAsEmitted | src/l0vi0x/chain/foundry_trace.py:368-388 | an EconomicSnapshot event is read as emitted, all eight arguments in place |
| Events.TransferAsEmitted | src/l0vi0x/chain/foundry_trace.py:391-404 | an ERC-20 Transfer log is read back as the transfer it encodes |
| Events.TextIsLabel | src/l0vi0x/chain/foundry_trace.py:320-325 | an identifier that holds a printable text before its zero bytes is labelled with that text |
| Events.HexIsLabel | src/l0vi0x/chain/foundry_trace.py:320-325 | every other identifier is labelled with its bytes in hex |
| Events.LabelsDiffer | src/l0vi0x/chain/foundry_trace.py:320-325 | two identifiers never share a label, whether read as text or as hex |
| ArenaConvert.IndexNodes | src/l0vi0x/chain/foundry_trace.py:178-183 | indexing refuses exactly the arenas with a missing or repeated index |
| ArenaLoop.Traversal.EmitLog | src/l0vi0x/chain/foundry_trace.py:258-269 | a log step adds the record and its transfer to the frame on top and nothing else |
| ArenaLoop.Traversal.EnterChild | src/l0vi0x/chain/foundry_trace.py:245-257 | a call step attaches the opened child to its parent's frame before the child is filled in |
| ArenaLoop.Traversal.CloseTop | src/l0vi0x/chain/foundry_trace.py:239-242 | an exhausted ordering completes the frame, which is then its parent's last finished child |
| ArenaConvert.FollowCall | src/l0vi0x/chain/foundry_trace.py:245-257 | the loop's call step keeps the meaning of the whole stack, or rejects exactly when the recursive reading does |
| ArenaConvert.FollowLog | src/l0vi0x/chain/foundry_trace.py:258-269 | the loop's log step keeps the meaning of the whole stack, or rejects exactly when the recursive reading does |
| ArenaConvert.FollowEnd | src/l0vi0x/chain/foundry_trace.py:239-286 | the loop's closing step keeps the meaning of the whole stack, or rejects when calls or logs were not consumed |
| ArenaConvert.Follow | src/l0vi0x/chain/foundry_trace.py:235-270 | the stack loop ends on every finite arena and computes the recursive reading from an opened root |
| ArenaConvert.ConvertArena | src/l0vi0x/chain/foundry_trace.py:177-274 | the loop accepts what the recursive reading accepts, builds exactly its tree, and grows the derived logs by that tree's logs in execution order |
| ArenaFacts.RunMirrors | src/l0vi0x/chain/foundry_trace.py:190-270 | a completed walk built frames that mirror their nodes' orderings, and visited each index once |
| ArenaFacts.ConvertMirrors | src/l0vi0x/chain/foundry_trace.py:177-286 | an accepted arena's tree has children and logs in ordering order, all of them, and every node exactly once |
| ArenaAcceptance.AcceptedIsReachedOnce | src/l0vi0x/chain/foundry_trace.py:191-273 | in an accepted arena every node is reached from the root by exactly one path of calls |
| ArenaAcceptance.RunAccepts | src/l0vi0x/chain/foundry_trace.py:236-270 | from a node whose unvisited region is reached once and is well formed, the walk does not reject |
| ArenaAcceptance.AcceptedExactly | src/l0vi0x/chain/foundry_trace.py:177-286 | an arena is accepted if and only if its nodes are well formed and each is reached exactly once from the only root |
| NodesExact.OpensExactly | src/l0vi0x/chain/foundry_trace.py:190-232 | a node opens if and only if its call fields are present and, for a cheatcode call, its data decodes; its frame carries exactly those fields |
| NodesExact.NodeOkExactly | src/l0vi0x/chain/foundry_trace.py:236-286 | in raw fields: a node is well formed if and only if it opens, every ordering entry is a step or names a position, each child and each log position is named once, children point back and logs are readable (also lines 289-318) |
| NodesExact.AcceptedArenas | src/l0vi0x/chain/foundry_trace.py:177-286 | an arena is accepted if and only if indices are unique, one node has no parent, every node is well formed in its raw fields, and each lies on exactly one call path from that root |
| ArenaLogs.RevertedExact | src/l0vi0x/chain/foundry_trace.py:230-264 | a log is marked reverted if and only if its node or an ancestor failed (also lines 258-268) |
| ArenaLogs.TransfersExact | src/l0vi0x/chain/foundry_trace.py:391-404 | as a multiset, the transfers are exactly the ERC-20-shaped ones of nodes whose parent chain succeeded (also lines 315-317) |
| ArenaLogs.LogsExact | src/l0vi0x/chain/foundry_trace.py:268-286 | as a multiset, the derived logs are exactly all logs of all nodes |
| ArenaLogs.AssertionsExact | src/l0vi0x/chain/foundry_trace.py:303-305 | the unreverted AssertionChecked logs are exactly those of nodes whose parent chain succeeded |
| Adapter.ReadArenas | src/l0vi0x/chain/foundry_trace.py:133-151 | the trace entries become one arena per kind; unknown, repeated, empty or missing ones reject |
| Adapter.AdaptTraces | src/l0vi0x/chain/foundry_trace.py:91-98 | the frames are the three arenas' trees in order, accepted only if Forge's own logs equal the derived ones (also lines 407-423) |
| AdapterExact.AdaptsExactly | src/l0vi0x/chain/foundry_trace.py:91-98 | a run is adapted if and only if there is one good arena per kind, one is the execution, each converts in its phase, and Forge's log list is absent or equal to the derived one; the trees come in the order deployment, setup, execution (also lines 133-151, 407-423) |
| TraceChain.NormalizeFrame | src/l0vi0x/chain/foundry_trace.py:465-494 | the record read off a built frame is the normalized tree |
| Trace.FlattenRecords | src/l0vi0x/chain/trace.py:315-331 | the visit lists every record before its children |
| TraceChain.FlattenTree | src/l0vi0x/chain/trace.py:315-331 | flattening a normalized tree lists the tree's frames in pre-order |
| Trace.ParseTrace | src/l0vi0x/chain/trace.py:113-248 | the loop accepts exactly the acceptable record lists and then returns their summary |
| Trace.GatherAssertions | src/l0vi0x/chain/trace.py:223-233 | a frame's assertion events, each with the last context of its id |
| TraceEvents.EventsByPosition | src/l0vi0x/chain/trace.py:223-233 | the summary's assertion events are those of the unreverted assertion logs of successful frames, one each and in order, with the frame's depth, caller and emitter and its last context for the id |
| Trace.ClockExact | src/l0vi0x/chain/trace.py:197-214 | warps (rolls) are accepted exactly when their values never go backwards from a known start; the clock ends at the last |
| Trace.LimitsHoldThroughout | src/l0vi0x/chain/trace.py:265-271 | with the limits enforced every timestamp and block ever set is within initial and initial plus limit, and the sum is final minus initial |
| Trace.LimitsExactly | src/l0vi0x/chain/trace.py:265-271 | the limits are accepted if and only if they are not negative and every setting of both clocks is within initial and initial plus limit |
| Trace.EnforcePolicy | src/l0vi0x/chain/trace.py:274-312 | the policy loop accepts exactly when every cheatcode call is allowed |
| Cheatcodes.DeniedExactly | src/l0vi0x/chain/trace.py:274-312 | a call is denied if and only if one of five listed reasons applies to its category, name, arguments, phase and class |
| TraceChain.DeriveSummary | src/l0vi0x/chain/foundry_trace.py:91-98 | adapt, normalize, flatten and parse in a row: the summary of all frames of all arenas in pre-order |
| TraceChain.CheatcodesExact | src/l0vi0x/chain/trace.py:191-196 | the summary's cheatcode calls are, in pre-order, the frames addressed to the cheatcode address, and as a multiset exactly what the arenas' nodes to that address spell out: name and decoded arguments from the data, the catalog's category, the arena's phase |
| TraceChain.EveryCheatcodeNodeJudged | src/l0vi0x/chain/trace.py:283-312 | an accepted policy check has judged and allowed every such node of all three arenas |
| Cheatcodes.CallAsMade | src/l0vi0x/chain/foundry_trace.py:219-229 | a node that calls a known cheatcode with canonically encoded values is in the summary with that name, exactly those values, its category, depth and phase, and a warp or roll value is a setting of the clock (also src/l0vi0x/chain/trace.py lines 191-214) |
| Cheatcodes.ClocksFollowCalls | src/l0vi0x/chain/trace.py:197-214 | the values of the summary's own warp (roll) calls never go backwards from the known start, and the final time (block) is the last of them |
| Cheatcodes.ForkCallJudged | src/l0vi0x/chain/trace.py:292-308 | a node's createSelectFork call is allowed if and only if it is the gate alias at the pinned block in the setup of a deployed fork with its category granted |
| TraceChain.SummaryTransfersExact | src/l0vi0x/chain/trace.py:216-221 | end to end, the summary's transfers are exactly those of nodes whose parent chain succeeded |
| TraceChain.SummaryAssertionsExact | src/l0vi0x/chain/trace.py:223-233 | end to end, the summary's assertion events are exactly the AssertionChecked logs of such nodes |
| SummaryLogs.SummaryFramesExact | src/l0vi0x/chain/foundry_trace.py:190-232 | end to end, the summary's frames are exactly the nodes' calls, each with its fields, its arena's phase and the records of its own logs |
| SummaryLogs.SummaryLogsExact | src/l0vi0x/chain/foundry_trace.py:289-318 | end to end, the log records in the summary are exactly the nodes' logs with the events they spell out, flagged if and only if the node or an ancestor failed |
| SummaryLogs.SummaryGasExact | src/l0vi0x/chain/trace.py:187-189 | the summary's gas is the sum over the execution arena's nodes at depth 0 |
| SummaryLogs.PlacedTransfersExact | src/l0vi0x/chain/trace.py:216-221 | the summary's transfers with depth and phase are exactly those shown by logs of nodes whose parent chain succeeded |
| EventsAsMade.ControlAsMade | src/l0vi0x/chain/foundry_trace.py:358-365 | a canonical ControlObserved event of a node, reverted or not, is in the summary's frames with its id and flag |
| EventsAsMade.AssertionAsMade | src/l0vi0x/chain/foundry_trace.py:328-345 | a canonical AssertionChecked event of a node whose parent chain succeeded is an assertion event of the summary with its id and five values |
| EventsAsMade.TransferAsMade | src/l0vi0x/chain/foundry_trace.py:391-404 | an ERC-20 transfer logged by a node whose parent chain succeeded is a transfer of the summary |
| Lifecycle.FindingAcceptedExactly | src/l0vi0x/core/lifecycle.py:102-110 | a step from CONFIRMED to FINDING is accepted if and only if token and cause are valid and the cleaned evidence is complete |
| LifecycleExact.HasIsBacked | src/l0vi0x/core/lifecycle.py:31-36 | cleaned evidence has a prefix if and only if some item as given, its surrounding blanks aside, is the prefix followed by more than blanks |
| LifecycleExact.AcceptedMoves | src/l0vi0x/core/lifecycle.py:48-135 | a transition is accepted if and only if token and cause are valid and it is one of the twenty-two moves with exactly the listed evidence, a reopening under an override, from the fourth on with a second reviewer |
| LifecycleExact.MovesExactly | src/l0vi0x/core/lifecycle.py:138-151 | an accepted move leads to its target and counts as a reopening exactly from the three closed states; any other attempt changes nothing |
| Lifecycle.ProductionDecides | src/l0vi0x/core/lifecycle.py:35-40 | with all else in place, accepted if and only if some cleaned item is a production prefix with text after it (also lines 102-110) |
| Lifecycle.BareWaiverIsRefused | src/l0vi0x/core/lifecycle.py:102-110 | complete evidence but for a bare production:not_applicable is refused, and accepted once text follows |
| Lifecycle.RunCoherent | src/l0vi0x/core/lifecycle.py:138-151 | over every run from OPEN each step was accepted, starts where the one before ended, and knew the reopens so far |
| Lifecycle.FindingIsEarned | src/l0vi0x/core/lifecycle.py:87-110 | each entry to FINDING directly follows INVESTIGATING to CONFIRMED, both with their full evidence |
| Lifecycle.ReopensAreCounted | src/l0vi0x/core/lifecycle.py:24-28 | the reopen count is the number of human-override reopens, and from the fourth on each has second-reviewer evidence (also lines 68-75, 149-150) |
| HypothesisObject.Hypothesis.Transition | src/l0vi0x/core/lifecycle.py:138-151 | the object changes exactly when the transition is accepted, and then as the run function says |
| HypothesisObject.Hypothesis.Award | src/l0vi0x/core/ladder.py:112-117 | the object's ladder changes exactly when the award is won, and then by that one level; which awards are won is LadderAwards.VerdictExactly |
| LadderAwards.VerdictExactly | src/l0vi0x/core/ladder.py:65-109 | an attempt is awarded if and only if driver, level and proof are valid, with a certificate issued for exactly the named values from level 6 on and the cross check at level 7 only, and the axis may take the level; it raises if and only if driver or level are invalid or a valid proof meets a ladder that may not take it |
| LadderAwards.WonExactly | src/l0vi0x/core/ladder.py:112-117 | the same condition for an attempt on a hypothesis in a run |
| LadderAwards.TopIsReachable | src/l0vi0x/core/ladder.py:47-117 | from the empty ladder, for any MAC and key, nine awards with issued certificates reach adjudication 8 |
| Ladder.LevelsNeverFall | src/l0vi0x/core/ladder.py:96-117 | between any two moments of a run no axis falls, and levels and "not applicable" never replace one another |
| Ladder.EveryRungEarned | src/l0vi0x/core/ladder.py:47-110 | whoever stands at the end of a path of prerequisites was awarded every rung on it, in order |
| Ladder.PrerequisitesStand | src/l0vi0x/core/ladder.py:47-109 | a rung's prerequisites hold for as long as the rung is held |
| Ladder.ExecutionSixIsEarned | src/l0vi0x/core/ladder.py:50 | execution 6 implies awards of execution 3, 4, 5, 6 in that order |
| Ladder.AdjudicationIsEarned | src/l0vi0x/core/ladder.py:47-54 | adjudication 8 implies both award chains in order, and that production 7, economics 7 and execution 6 still stand |
| Ladder.AwardsAreEvidenced | src/l0vi0x/core/ladder.py:65-74 | every award was made by a valid driver on a proof of exactly that level with all required evidence |
| Ladder.HighAwardsAreBacked | src/l0vi0x/core/ladder.py:76-84 | every award at level 6 or above rests on a certificate that its issuer would have issued for exactly the named evidence |
| StoreIds.FormatIsInjective | src/l0vi0x/core/store.py:271-283 | distinct prefix and number give distinct identifiers despite the three-digit padding |
| StoreData.ScrubTwice | src/l0vi0x/core/redaction.py:32-41 | redacting a payload twice is redacting it once, at every depth |
| StoreData.ScrubInside | src/l0vi0x/core/redaction.py:32-41 | at every depth a redacted payload has the redacted text for a text, a container of the same size or fields for a container, and the same value otherwise |
| StoreData.GuardsHold | src/l0vi0x/core/store.py:97-168 | under arbitrary transactions every row matches the event at its last_event_id, which only increases, and the log only grows (also lines 41-47) |
| StoreData.AllOrNothing | src/l0vi0x/core/store.py:256-265 | a transaction with a refused statement leaves neither event nor row nor counter |
| StoreOps.WriteOutcome | src/l0vi0x/core/store.py:256-307 | an event and its row are committed together after the trigger compared them, or nothing is |
| StoreRuns.RowsPersist | src/l0vi0x/core/store.py:154-156 | a row once read is still there at every later moment of a run, so stale reads name existing rows (also lines 495-503) |
| StoreRuns.TablesAreReplay | src/l0vi0x/core/store.py:309-493 | at every moment of every run with stale reads, refused calls and bare events the tables equal the replay of the last row snapshots (also lines 516-529, 542-552, 607-636) |
| StoreRuns.HypothesisWrite | src/l0vi0x/core/store.py:328-350 | every committed hypothesis write logs a snapshot that describes the row it leaves (also lines 180-188, 318-350, 516-552) |
| StoreHistory.StatesNeverDiverge | src/l0vi0x/core/store.py:97-123 | state column, body state and the linked snapshot's state are one and the same under every interleaving (also lines 331-350, 505-555) |
| StoreHistory.HistoryIsLegalWalk | src/l0vi0x/core/store.py:505-533 | each hypothesis's logged transitions are a legal walk from OPEN with matching from and to, ending at its state, and the walk only grows (also lines 113-123) |
| StoreHistory.EachChangeIsOneHop | src/l0vi0x/core/store.py:505-533 | a call that changes the state column logs exactly one transition, from the state before to the state after; any other call logs none (also lines 113-123) |
| StoreRebuild.RebuildIsExact | src/l0vi0x/core/store.py:557-574 | at every moment of every run the rebuild is the body, and is what get returns, exactly under the stated condition on bare snapshots since the last write and on the three keys (also lines 638-652) |
| StoreRebuild.QuietRebuildAgrees | src/l0vi0x/core/store.py:557-574 | without bare snapshots the rebuild is the body, and equals get if and only if the body carries lens, protocol type and prior |
| StoreRebuild.EachCallMovesRebuild | src/l0vi0x/core/store.py:557-571 | a write of the row makes the rebuild the body again, a bare snapshot takes it over, and every other call leaves it (also lines 287-307) |
| StoreRebuild.RebuildCanBeWrong | src/l0vi0x/core/store.py:557-571 | after a creation and one bare event with an empty snapshot the rebuild is neither the body nor what get returns |
| StoreReadBack.OneRowAtMost | src/l0vi0x/core/store.py:309-555 | an operation leaves every row but its own as it was (also lines 607-636) |
| StoreReadBack.CreateReadsBack | src/l0vi0x/core/store.py:309-326 | a committed creation reads back as the redacted payload with its id, in state OPEN |
| StoreReadBack.TransitionReadsBack | src/l0vi0x/core/store.py:505-533 | a committed transition was legal and reads back with the state and reopen count the lifecycle prescribes |
| StoreReadBack.AwardReadsBack | src/l0vi0x/core/store.py:535-555 | a committed award was won and reads back with the ladder one rung further |
| StoreReadBack.SaveReadsBack | src/l0vi0x/core/store.py:353-493 | a committed save of another entity reads back as the redacted payload with its id |
| StoreReadBack.EndReadsBack | src/l0vi0x/core/store.py:615-636 | a committed finish or block leaves the new status, time and result, and every other column as it was |
| StoreCommits.RunsAreSane | src/l0vi0x/core/store.py:256-265 | at every moment of every run rows are linked, sit under their keys, and no two tasks share a key: the standing conditions of the commit theorems |
| StoreCommits.CreateCommits | src/l0vi0x/core/store.py:309-326 | a creation commits if and only if the id is free, the payload opens the hypothesis, redaction leaves the stored texts alone and the constraints permit the row; the whole new database otherwise unchanged |
| StoreCommits.SaveHypothesisCommits | src/l0vi0x/core/store.py:328-351 | a save on a known hypothesis commits if and only if its conditions hold, and then stores, field by field, the payload over the body that was read |
| StoreCommits.SaveHypothesisReadsBack | src/l0vi0x/core/store.py:343-351 | after a committed save each stored field but id and state is the redacted payload field if the payload has it, cause and evidence apart, and else the old body's; id and state are the row's and the columns follow |
| StoreCommits.SaveOfUnknownCreates | src/l0vi0x/core/store.py:328-335 | a save on an unknown hypothesis is its creation |
| StoreCommits.SaveCommits | src/l0vi0x/core/store.py:353-493 | a save of any other entity, insert or update, commits if and only if the mandatory fields are there, the key is free or kept, redaction leaves the row alone and the constraints permit it |
| StoreCommits.SavedRowReads | src/l0vi0x/core/store.py:382-493 | column by column, the row such a save writes: the redacted payload field, or the column's default where the payload omits it |
| StoreCommits.TransitionCommits | src/l0vi0x/core/store.py:505-533 | a transition commits if and only if the lifecycle accepts it, the row is in the state of the caller's object, and redaction and constraints allow the row; the third reopening also logs its threshold event |
| StoreCommits.AwardCommits | src/l0vi0x/core/store.py:535-555 | an award commits if and only if it is won, the stored body and the row are in the caller's state, the object's detail fields are the row's, and redaction and constraints allow the row |
| StoreCommits.DispatchCommits | src/l0vi0x/core/store.py:607-613 | a dispatch commits if and only if the id is free, no task holds the key, redaction leaves the row's texts alone and the constraints permit it (also lines 149-168) |
| StoreCommits.EndCommits | src/l0vi0x/core/store.py:615-636 | a finish or block commits if and only if the task is there, redaction leaves the new row alone and the constraints permit it |
| StoreCommits.RecordCommits | src/l0vi0x/core/store.py:287-307 | a bare event is appended, redacted, if and only if its kind is listed and an entity_saved event says insert or update |
| StoreCommits.NextIdCommits | src/l0vi0x/core/store.py:271-285 | an identifier is drawn if and only if the prefix has one to eight letters and digits between its blanks; its counter, one at first, moves on by one |
| StoreObject.Store.Execute | src/l0vi0x/core/store.py:97-168 | one statement changes log, tables or counters in place exactly as the guarded statement does |
| StoreObject.Store.Submit | src/l0vi0x/core/store.py:256-265 | statements run one by one; the first refusal restores everything |
| StoreObject.Store.RecordEvent | src/l0vi0x/core/store.py:287-307 | a bare event is appended if its kind is known |
| StoreObject.Store.CreateHypothesis | src/l0vi0x/core/store.py:309-326 | the new contents are those of a creation, and the log grows exactly when it succeeds |
| StoreObject.Store.SaveHypothesis | src/l0vi0x/core/store.py:328-351 | the new contents are those of a save with the given, possibly stale, existing row, which StoreCommits.SaveHypothesisCommits spells out field by field |
| StoreObject.Store.SaveEntity | src/l0vi0x/core/store.py:353-493 | the new contents are those of a generic save, insert or update |
| StoreObject.Store.TransitionHypothesis | src/l0vi0x/core/store.py:505-533 | the contents follow, and the caller's object changes only if the transaction commits |
| StoreObject.Store.AwardLadder | src/l0vi0x/core/store.py:535-555 | the contents follow, and the caller's ladder changes only if the transaction commits |
| StoreObject.Store.NextId | src/l0vi0x/core/store.py:271-285 | the counter of the normalized prefix advances and its old value is formatted |
| StoreObject.Store.DispatchTask | src/l0vi0x/core/store.py:607-613 | the new contents are those of a dispatch, which StoreCommits.DispatchCommits spells out, and the log grows exactly when it succeeds |
| StoreObject.Store.EndTask | src/l0vi0x/core/store.py:615-636 | the new contents are those of finishing or blocking a task |
| StoreObject.Store.RebuildHypothesis | src/l0vi0x/core/store.py:557-571 | the pass over the log returns the last logged snapshot |
| TaskLedger.TaskWrite | src/l0vi0x/core/store.py:607-636 | every task request keeps keys unique and redacted, loses no task and changes no task's key (also lines 75, 403-404) |
| TaskLedger.BeginIsIdempotent | src/l0vi0x/core/tasks.py:18-43 | under any interleaving a key has at most one task, and every begin of it that returned, returned that task |
| TaskProgress.BeginEnds | src/l0vi0x/core/tasks.py:18-32 | at any moment of any interleaving, a begin left to itself ends within four steps: with the task of its key if there is one, however far it had got; if there is none, with a new task if and only if its dispatch is still to come and is admitted |
| TaskProgress.BeginAlone | src/l0vi0x/core/tasks.py:18-32 | at any moment of any interleaving, an idle thread that begins a key and is left alone ends with the key's task, else with the next task if and only if its dispatch is admitted, else by raising; a blank key does nothing |
| TaskProgress.FailEnds | src/l0vi0x/core/tasks.py:37-40 | a fail left to itself after its read ends and saves the row it read back as failed if and only if that save is admitted; nothing else changes |
| TaskProgress.FailedColumns | src/l0vi0x/core/tasks.py:37-40 | a task saved back as failed has the new status, time and result and the key it had |
| TaskLedger.IdsNeverRepeat | src/l0vi0x/core/store.py:271-285 | no identifier is issued twice, across all prefixes and threads |
| TasksObject.Ledger.Find | src/l0vi0x/core/store.py:576-589 | the task of a key, or certainty that there is none |
| TasksObject.Ledger.Begin | src/l0vi0x/core/tasks.py:18-32 | returns a task of the stripped key and writes nothing if there was one; for an unused key it returns a new task if and only if the dispatch of the next id is admitted |
| TasksObject.Ledger.Finish | src/l0vi0x/core/tasks.py:34-35 | the store's contents are those of finishing the task |
| TasksObject.Ledger.Fail | src/l0vi0x/core/tasks.py:37-40 | an unknown task raises and changes nothing; a known one is saved back as failed |
| TasksObject.Ledger.BlockHuman | src/l0vi0x/core/tasks.py:42-43 | the store's contents are those of blocking the task |
| Flow.NetIsBalanceChange | src/l0vi0x/verifier/derived.py:250-252 | incoming minus outgoing is the balance change from any ledger, and self-transfers cancel |
| Flow.NetIgnoresOrder | src/l0vi0x/verifier/derived.py:250-252 | the net flow does not depend on the order of the transfers |
| Flow.FlowsSumToZero | src/l0vi0x/verifier/derived.py:250-252 | over all accounts the net flows of a token cancel |
| Flow.FlowOf | src/l0vi0x/verifier/derived.py:250-251 | the two sums over the summary's transfers give the net flow |
| Flow.CheckFlows | src/l0vi0x/verifier/derived.py:245-253 | accepts if and only if the balance delta of every required balance_delta assertion with actor and token is the actor's true change of balance from every ledger |
| Flow.DeltaIsTrueOfTheArenas | src/l0vi0x/verifier/derived.py:245-253 | an accepted delta is true of all transfers of successful arena nodes, setup included, in any order |
| Matching.OnlyNumbersMatch | src/l0vi0x/verifier/assertion_extract.py:9-39 | a matching assertion declares the event's number; declared texts and truth values never match |
| Matching.MatchesExactly | src/l0vi0x/verifier/assertion_extract.py:9-39 | an event matches if and only if it succeeded, names what the assertion names, carries the declared number, and the observed number stands in the declared relation to it |
| Matching.UniqueMatch | src/l0vi0x/verifier/assertion_extract.py:47-49 | decides whether exactly one event matches |
| Matching.Check | src/l0vi0x/verifier/assertion_extract.py:42-54 | the V06 loop passes exactly when the counts agree, each required assertion has exactly one event, and the control is clean |
| Matching.DistinctExactlyWhenCounted | src/l0vi0x/verifier/derived.py:107-122 | the required ids of an accepted control are distinct if and only if the control count equals the number of required assertions (also lines 242-244) |
| Matching.DeriveControlExactly | src/l0vi0x/verifier/derived.py:107-129 | derive_control accepts if and only if the control logs of all frames, reverted or not, are those of the required ids, one each, and no required assertion was emitted; it reports a change if and only if one of those logs does, and the number of assertion events |
| Matching.SharedIdIsAccepted | src/l0vi0x/verifier/derived.py:107-122 | derive_control accepts two required assertions of one id with one control event |
| Matching.ControlIsComplete | src/l0vi0x/verifier/derived.py:107-129 | with the counts agreeing, required ids are distinct, each has exactly one ControlObserved log and no other id has one, no required assertion was emitted, and the reported change is what those logs say (also lines 172-174, 242-244) |
| Matching.PerfectMatching | src/l0vi0x/verifier/assertion_extract.py:42-54 | the three checks accept together if and only if required assertions, at least one and with distinct ids, and observed events match one to one, and the control run is clean and reports no change |
| Economics.NetScales | src/l0vi0x/chain/econ.py:42-113 | recomputed from scaled prices the net result is exactly the scaled one, or rejected alike |
| Economics.CollectDeltas | src/l0vi0x/chain/econ.py:48-49 | the dictionary of changes, filled key by key under lower-case names |
| Economics.ValueTokens | src/l0vi0x/chain/econ.py:61-72 | the token loop's value, flags and sources, or a rejection on clashing decimals |
| Economics.MeasureBase | src/l0vi0x/chain/econ.py:42-89 | accepts exactly the measurable inputs without clashing decimals, and reports net result, parts, capital, flags and sources |
| EconomicsExact.ChangesExactly | src/l0vi0x/chain/econ.py:48-49 | the changes have one entry per lower-case name, the change of the last key of that name, and no other |
| EconomicsExact.NetExactly | src/l0vi0x/chain/econ.py:42-75 | refused if and only if a figure is negative or a changed token's decimals clash; a result exists if and only if something changed is priced, and is the worth of the native and the priced changes less the gas (also src/l0vi0x/chain/prices.py lines 24-33) |
| EconomicsExact.ReportsExactly | src/l0vi0x/chain/econ.py:50-89 | exactly which flags, price sources, changes and capital a report carries |
| Economics.SensitivityValues | src/l0vi0x/chain/prices.py:37-45 | the labelled multiples of a base value |
| Economics.Measure | src/l0vi0x/chain/econ.py:92-125 | the independently recomputed scenarios agree label by label with the scaled base result, and the base report is passed through |
| Economics.ProfitIsBracketed | src/l0vi0x/chain/econ.py:98-117 | a net result is positive if and only if it lies strictly between the minus and the plus scenario |
| Economics.ScenarioIsScaled | src/l0vi0x/chain/econ.py:105-124 | a scenario's reported prices and net result are the base ones times its multiplier, asset by asset |
| EconomicsOrder.LastOneCounts | src/l0vi0x/chain/econ.py:48-49 | of two keys with one lower-case name the last one counts: their orders agree if and only if the changes are of the same worth |
| EconomicsOrder.RefusedInEveryOrder | src/l0vi0x/chain/econ.py:43-46 | an input is refused in one order if and only if it is in every order: bad measurements or clashing decimals (also lines 63-66) |
| EconomicsOrder.OrdersAgreeExactly | src/l0vi0x/chain/econ.py:48-75 | the net result is the same in every order if and only if the input is refused anyway or colliding keys carry changes of the same worth |
| EconomicsOrder.OrderIsIrrelevant | src/l0vi0x/chain/econ.py:48-75 | without two keys of one lower-case name, in particular with lower-case keys, the order is irrelevant |
| EconomicsOrder.CaseCollisionMatters | src/l0vi0x/chain/econ.py:48-49 | two keys that differ in case and carry changes of different worth: the order shows |

## Left out

Everything below is outside the model, or simplified in it.

- Hex text is modelled as the bytes it denotes; blanks that Python accepts inside hex text, and letter case, do
  not appear. Texts that are not hex are absent values, which the program rejects as well.
- Python values that make an operation raise `TypeError` count as rejections; JSON `true` as a call or log
  position counts as the position 1, as in Python.
- Keccak, SHA-256, HMAC, JSON text, UTF-8 decoding and the redaction patterns are functions about which only
  this is assumed, where it is needed: dumped JSON reads back, and redacting twice is redacting once.
- ABI array types: the decoder records only that they are present, so they have no round trip.
- Selection of the suite, the test and its status, and the envelope's schema and source fields.
- `TraceFrame.success`: normalization drops it, so revert properties are stated on the logs' flag. Frame depth
  is not validated by the program: the summary's gas is that of whatever nodes claim depth 0.
- Address comparison in the flow and matching checks is on bytes; declared addresses that are not address text
  match nothing in the model.
- Text that is not ASCII: stripping, upper-casing and `isalnum` follow Python on ASCII only.
- Driver tokens: a token is valid or not, and carries a human override or not.
- Ladder levels given as numeric text, and names of axes that do not exist.
- Timestamps, `updated_at` included, are whatever the caller's document holds.
- SQLite column affinity, CHECK, NOT NULL and foreign-key constraints are one arbitrary predicate on the tables
  and the new row; only the primary keys and the unique task key are spelled out.
- Statements the store never issues: deletion of hypotheses, which no trigger forbids, and updates that change a
  row's key.
- The list of admitted event kinds is not spelled out: a kind is one the store writes, another listed one, or
  an unlisted one, which is refused.
- JSON numbers are decimal, and equal only in the same representation.
- Payload fields of events that no trigger and no rebuild reads (cause, evidence, axis, task kind, counts).
- Pydantic validation of hypothesis objects, and `Store.save` as a way around the ladder: ladder and reopen
  properties are stated over runs of awards and transitions.
- Other readers: `query_tasks`, `events`, `table_names`, and the tables without events (`llm_calls`, `quotas`,
  `assumption_deps`).
- TaskLedger.BeginIsIdempotent: other transactions may do anything in between except write task rows or id
  counters outside the modelled calls.
- `derive_harness` beyond its counts and flows: addresses, CREATE2, source and runtime hashes, coverage of
  declared actors and tokens.
- Economics in floating point: arithmetic is exact, and prices are valid by construction.
- Economics.Measure: its base measurements all visit the token set in one order, as equal sets built the same
  way in one process do; what other orders would change is the subject of `EconomicsOrder`.
- Python's recursion limit: the program rejects a trace whose frames nest too deep to normalize, and can fail on
  one too deep to flatten. The model has no such limit.
- Process, container, RPC and file handling, schema generation, budgets, and the order of the V01 to V09 stages.
