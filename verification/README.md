# Verification of the Antigravity read path

This project models the native-forwarder read path for Antigravity (agy) and
proves what it is there for: turning repeated, overlapping, out-of-date
snapshots of a conversation into an exactly-once event stream, on top of a
delivery layer whose server does no de-duplication. Verify with
`dafny verify dfyconfig.toml` (Dafny 4.11).

The code that changes things step by step is modelled as classes and loops
(`Reader.ReaderState`, `InteractionGates.GateKeeper`,
`CallIds.ToolCallIdAllocator`, `DeadLetterStore.DeadLetters`,
`SessionRotation.Supervisor`, the retry, replay, framing, search and bridge
loops). Each method is tied to a function of its inputs or of the old state,
and the theorems are about those functions over whole runs. Transport, clock,
agy's answers and the human's verdicts are arbitrary functions or lists, so
every theorem holds for all of them.

| file | what it covers |
|---|---|
| `Reader`, `StepKeys`, `Steps`, `CallIds` | the reader engine, its mapper and the fallback call-id allocator |
| `ExactlyOnce`, `StepPosts`, `TurnStatus`, `TextDeltas`, `ToolCards` | what every run of the reader posts, and what each step posts by the fields agy sends |
| `InteractionGates`, `InteractionBridge`, `ElicitationPost` | hand-over of WAITING steps, the elicit-and-deliver loop, the re-post loop |
| `RotationDetection`, `SessionRotation`, `SessionReceipts` | `/clear` detection, the outer loop, and what sessions receive over it |
| `PostDelivery`, `ForwarderHealth`, `ItemDelivery`, `SessionDelivery` | the bounded retry loop, the failure slot, and the reader's posts through them, per run and over the outer loop |
| `DeadLetterText`, `DeadLetterReplay`, `DeadLetterSafety`, `DeadLetterStore`, `DeadLetterRestarts`, `DeadLetterLife`, `RankedFates` | dead-letter files, replay passes, what survives restarts, and the whole life of a directory |
| `ConnectStream`, `PaneSearch` | Connect framing and the process-tree search |
| `Wrappers`, `Sequences`, `Json`, `PyText` | options, lists, parsed JSON, Python strings |

## Results worth reading first

- `ExactlyOnce.EachKeyCommitsOnce`: for any mix of stream and poll, everything
  posted besides deltas, and every tracker behind it, equals one pass over the
  first settled sighting of each step key.
- `ItemDelivery.ItemsCommittedAtMostOnce`: through the retry loop and any honest
  transport, each of those conversation items is committed at most once.
- `SessionDelivery.ItemsCommittedOncePerSession`: over all visits, adoptions and
  rotations, to each session at most once, unless a failed rotation left the
  session bound to that conversation.
- `DeadLetterLife.ItemsCommittedOnceOverLife`: over any life of a bridge
  directory, with forwards that fail or succeed, appends that rotate or fail, and
  starts that replay the text of the files, all the POSTs of one conversation
  item, live and replayed, commit it at most once.
- `DeadLetterRestarts.ItemsCommittedOnceAcrossRestarts`: the same for restarts
  alone, from any files whose lines survive.
- `DeadLetterReplay.PassConserves`: a replay pass leaves in each file exactly
  that file's records less the delivered ones.
- `SessionReceipts.NextVisitRepeatsExactlyAfterFailure`: over the outer loop the
  next visit can repeat what a session received exactly when a failed rotation
  left the present binding in force.
- `InteractionBridge.SurfacedIndicesIncreaseExactly`: when the indices a bridge
  surfaces strictly increase, as a condition on the second reads.
- `StepPosts.FinishedResultIsPosted` and `ToolCards.NoStrandedCard`: a result
  sighted DONE or ERROR is posted in every run, whatever it was sighted as before.
- `DeadLetterSafety.RejectedIsNeverPostedAgain`: a record that the server refused
  for good, or an item whose response was lost, is in no later pass POSTed again.
- `RotationDetection.DetectsOnFields` and `InteractionGates.HandedOverExactly`:
  which cascade takes over, and which gate is handed over when, by the fields agy
  sends.
- `ConnectStream.DecodeStream` and `FirstOtherFrameEnds`: however the bytes are
  cut into chunks, the frames and the ending are those of one parse of the whole
  string, and that parse is given by the bits of the flags and the fields of the
  payloads.
- `InteractionGates.EveryInterleavingSound` and `DeferredGatesDrain`: one
  bridge at a time under any interleaving, and k deferred gates drain in k rounds.
- `TextDeltas.SpelledExactlyWhenGrowing`: deltas spell the latest snapshot
  after every snapshot if and only if each snapshot extends the one before.
- `PaneSearch.AgyPidInPaneSubtree`: a nearest agy process within 32 edges, and
  none only if there is none.

## Where the code and its own documentation part

The model follows the code.

- A text that shrinks and grows back is forwarded again
  (omnicraft/antigravity_native_reader.py:1593-1605), although the comment says
  the overlap is never re-emitted: `TextDeltas.ShrinkAndRegrowRepeats`; the
  exact condition is `TextDeltas.SpelledExactlyWhenGrowing`.
- A first empty `thinking` snapshot uses up the `started` marker
  (omnicraft/antigravity_native_reader.py:1646-1666), although the comment says
  it does not: `TextDeltas.StartedExactly`.
- A rotation whose bridge-state write fails raises out of the reader loop
  (omnicraft/antigravity_native_reader.py:2572-2578 is outside the `try`),
  although the description promises `None` for a failing state write:
  `SessionRotation.RotatesExactly`.
- The pinned delivery branch checks no kind
  (omnicraft/antigravity_native_interactions.py:295-301):
  `InteractionBridge.DeliveryKindMatches` has the exact condition and
  `InteractionBridge.KindIsNotChecked` an instance.
- Retries of the bridge are not recorded by the reader, so the re-scan after the
  bridge can hand such a gate over again under the same elicitation id:
  `InteractionGates.RetriedGateIsHandedOverAgainExactly` says when. Within one
  bridge run an id can be requested twice as well
  (`InteractionBridge.SurfacedIndicesMayRepeat`), exactly when a place is surfaced
  twice (`InteractionBridge.IdsRepeatExactly`); the surfaced indices increase
  under the condition of `InteractionBridge.SurfacedIndicesIncreaseExactly`.
- After a failed rotation, which leaves bridge state and session as they were
  (`SessionRotation.VisitRebinds`), the loop re-enters with fresh trackers
  (omnicraft/antigravity_native_reader.py:2752-2756), so the on-connect snapshot
  is posted to that session again, although a failed rotation is described as
  keeping the old binding served:
  `SessionReceipts.NextVisitRepeatsExactlyAfterFailure`.
- A cascade is adopted in place when the visit that ends has committed nothing,
  which is meant for a binding that never took a turn
  (omnicraft/antigravity_native_reader.py:2722-2743). The count is per visit, so
  the session adopted into may have been in use:
  `SessionReceipts.AdoptsIntoUsedSessionExactly` says exactly when. Another
  conversation is then mirrored into a session that already holds one.
- A trailer or data frame whose bytes are not UTF-8 raises `UnicodeDecodeError`,
  which is not a `JSONDecodeError`, so such a trailer is not a clean end and such
  a frame not a malformed one: `ConnectStream.FirstOtherFrameEnds`.
- Only conversation items are protected against a second commit, in one retry
  call (`PostDelivery.ProtectedExactly`) and in replay
  (`DeadLetterSafety.SafeExactlyForItems`); the code relies on other events
  being idempotent.
- A dead-letter line that is a bare JSON string is read as its content and
  rewritten as raw text, so it may be lost (`DeadLetterText.BareStringIsLost`),
  split at its line breaks, or turn into a record
  (`DeadLetterText.BareStringComesAlive`); `DeadLetterText.RewriteExactly` says
  exactly when a list survives.
- The test for assistant text makes no difference to when a turn closes:
  `TurnStatus.TurnClosesExactly`.

## Model

| member | source | states |
|---|---|---|
| `Reader.ReaderState.constructor` | omnicraft/antigravity_native_reader.py:1139-1153 | a reader run starts with nothing seen, no open turn, zero totals and no gates |
| `Reader.ReaderState.OpenTurn` | omnicraft/antigravity_native_reader.py:1694-1696 | a running edge is posted when a user turn finds no open turn |
| `Reader.ReaderState.CloseTurn` | omnicraft/antigravity_native_reader.py:1701-1710 | a closing step of an open turn posts failed for an ERROR planner and idle otherwise, and closes it |
| `Reader.ReaderState.EmitStep` | omnicraft/antigravity_native_reader.py:1669-1710 | opening edge, mapped items, closing edge, in that order; the turn flag and the allocator advance accordingly |
| `Reader.ReaderState.EnsureCatalog` | omnicraft/antigravity_native_reader.py:2128-2151 | the catalog is fetched once per run and the same one is returned afterwards |
| `Reader.ReaderState.MaybeEmitModelChange` | omnicraft/antigravity_native_reader.py:2083-2125 | a model change is posted and becomes the baseline when the turn's model differs from it |
| `Reader.ReaderState.MaybeEmitSessionUsage` | omnicraft/antigravity_native_reader.py:2005-2080 | per-call counts are added to the totals and the new totals are posted |
| `Reader.ReaderState.EmitCommitted` | omnicraft/antigravity_native_reader.py:1366-1388 | a step not yet recorded posts its items and edges, then its model change, then its usage |
| `Reader.ReaderState.ProcessCommittedStep` | omnicraft/antigravity_native_reader.py:1331-1410 | a recorded key commits nothing; a settled key is recorded; the gates see every sighting |
| `Reader.ReaderState.EmitPartialReasoningDelta` | omnicraft/antigravity_native_reader.py:1608-1666 | the growth of the thinking text past the forwarded prefix, marked as started when the index had no prefix; the prefix becomes the snapshot |
| `Reader.ReaderState.EmitPartialDelta` | omnicraft/antigravity_native_reader.py:1556-1605 | the growth of the response text past the forwarded prefix; the prefix becomes the snapshot |
| `Reader.ReaderState.ProcessStreamStep` | omnicraft/antigravity_native_reader.py:1436-1501 | a generating planner only streams, reasoning first; any other step commits and retires both prefixes of its index |
| `ExactlyOnce.UnsettledCommitsNothing` | omnicraft/antigravity_native_reader.py:1347-1355 | re-emitting a step that is not settled changes no tracker and posts nothing |
| `ExactlyOnce.CommitShape` | omnicraft/antigravity_native_reader.py:1669-1710 | a commit is an opening edge, items, a closing edge, then telemetry |
| `ExactlyOnce.SeeAdds` | omnicraft/antigravity_native_reader.py:1365-1390 | one sighting on either path adds, deltas aside, its whole commit if it settles a new key and nothing otherwise |
| `ExactlyOnce.EachKeyCommitsOnce` | omnicraft/antigravity_native_reader.py:1365-1390 | for every sequence of sightings the non-delta events, the turn flag, the allocator, the totals and the recorded keys are those of one pass over the first settled sighting of each key |
| `ExactlyOnce.FirstSettledKeys` | omnicraft/antigravity_native_reader.py:1365-1390 | that pass takes settled, sighted steps with pairwise distinct keys and misses no settled key |
| `ExactlyOnce.SameFirstsSameEvents` | omnicraft/antigravity_native_reader.py:861-865 | the path a step arrives on, repetition and unsettled sightings make no difference to what is posted |
| `ExactlyOnce.ReplayAddsNothing` | omnicraft/antigravity_native_reader.py:1076-1083 | from any state, a replay or a fallback that settles no new key posts no item, edge or telemetry |
| `ExactlyOnce.MirrorTotals` | omnicraft/antigravity_native_reader.py:2013-2022 | in one pass, the totals are the sums over the steps and the last report carries them |
| `ExactlyOnce.TotalsCountEachStepOnce` | omnicraft/antigravity_native_reader.py:2005-2080 | in any run the token totals are the sums over distinct completed planner steps, and the last usage posted is those sums |
| `ExactlyOnce.ModelChangesExactly` | omnicraft/antigravity_native_reader.py:2083-2125 | a model change is posted exactly when a user turn names another model than the last one named |
| `StepPosts.UnfinishedLeavesNoTrace` | omnicraft/antigravity_native_reader.py:1347-1355 | a sighting of a step that is no user turn and whose status is neither DONE nor ERROR changes nothing on the committed path |
| `StepPosts.RecordedExactly` | omnicraft/antigravity_native_reader.py:1365-1367 | what a sighting keeps from being committed again is the same step by trajectory, index and, without an index, mark, once it is a user turn, DONE or ERROR |
| `StepPosts.SameKeyExactly` | omnicraft/antigravity_native_reader.py:496-519 | two steps have one key exactly when trajectory and index agree and, without an index, the first non-empty of executionId and createdAt does |
| `StepPosts.UserTurnSays` | omnicraft/antigravity_native_steps.py:600-627 | a user turn posts its response verbatim, or else its non-empty items a line each, unless that is blank |
| `StepPosts.PlannerSays` | omnicraft/antigravity_native_steps.py:876-1000 | a DONE planner step posts the moderated text, or else the raw one, ahead of its calls, and nothing else |
| `StepPosts.FailedPlannerSays` | omnicraft/antigravity_native_steps.py:658-694 | an ERROR planner step posts one message naming the failure, with the detail agy gives in `error` or else `errorMessage` |
| `StepPosts.ResultSays` | omnicraft/antigravity_native_steps.py:827-873 | a DONE or ERROR result posts one output: the field of its kind of tool, or else the empty text when DONE and a notice naming the tool when ERROR, under agy's id or else the allocator's match |
| `StepPosts.NothingElseSpeaks` | omnicraft/antigravity_native_steps.py:876-1020 | every other step posts no item and leaves the allocator alone |
| `StepPosts.ModelAnnounced` | omnicraft/antigravity_native_reader.py:2083-2125 | the plan's model or else the requested one becomes the baseline, and is announced under its catalog name exactly when it was not the baseline |
| `StepPosts.UsageReported` | omnicraft/antigravity_native_reader.py:2005-2080 | a DONE planner step that reports any positive count or a model adds its positive counts and reports the new totals, under the model's catalog name; no other step does |
| `StepPosts.FinishedStepIsPosted` | omnicraft/antigravity_native_reader.py:1347-1355 | in any run, a finished step's items are posted whatever statuses it was sighted in before, if its finished sightings agree |
| `StepPosts.FinishedResultIsPosted` | omnicraft/antigravity_native_reader.py:1347-1355 | in any run, the output of a result sighted DONE or ERROR is posted under agy's id, as agy sent it or else the placeholder |
| `StepPosts.FinishedTextIsPosted` | omnicraft/antigravity_native_reader.py:1347-1355 | in any run, the text of a planner step sighted DONE is posted |
| `TurnStatus.TurnClosesExactly` | omnicraft/antigravity_native_reader.py:535-607 | a turn closes exactly on an ERROR planner or a DONE planner that dispatches no tool, whatever its text |
| `TurnStatus.ActiveWhileOpen` | omnicraft/antigravity_native_reader.py:1694-1710 | the turn flag is set exactly while a user turn has been followed by no closing step |
| `TurnStatus.EdgeOfEachStep` | omnicraft/antigravity_native_reader.py:1694-1710 | which edge each distinct step posts: running, failed exactly for an ERROR planner of an open turn, idle for any other close of one, else none |
| `TurnStatus.StatusFollowsTurns` | omnicraft/antigravity_native_reader.py:1684-1710 | over any run edges alternate starting with running, and the flag is set exactly when the last edge is running |
| `TextDeltas.SeeTracks` | omnicraft/antigravity_native_reader.py:1475-1501 | a sighting that does not retire the index spells exactly the growth of its snapshot past what was forwarded, for text and for thinking alike |
| `TextDeltas.CommitResets` | omnicraft/antigravity_native_reader.py:1494-1501 | a commit on the stream posts no delta and forgets what was forwarded for its index |
| `TextDeltas.StretchSpells` | omnicraft/antigravity_native_reader.py:1582-1666 | over any stretch without a commit of the index, from any state and whatever is interleaved, the deltas are the growth of each snapshot past the one before |
| `TextDeltas.SpelledExactlyWhenGrowing` | omnicraft/antigravity_native_reader.py:1565-1571 | forwarded text plus deltas equals the snapshot after every snapshot if and only if each snapshot extends the one before |
| `TextDeltas.GrowingStretch` | omnicraft/antigravity_native_reader.py:1565-1571 | over a growing stretch what was forwarded at its start plus the deltas added is the latest snapshot |
| `TextDeltas.MessageIsWhatWasSpelled` | omnicraft/antigravity_native_reader.py:1251-1257 | the message committed for a planner step whose snapshots grew to its text is exactly what its deltas spelled |
| `TextDeltas.ShrinkAndRegrowRepeats` | omnicraft/antigravity_native_reader.py:1593-1605 | three frames in which a text shrinks and regrows forward its end twice |
| `TextDeltas.DeltasAreNotEmpty` | omnicraft/antigravity_native_reader.py:1593-1604 | no posted delta is empty |
| `TextDeltas.StartedExactly` | omnicraft/antigravity_native_reader.py:1646-1666 | between commits at most one reasoning delta is marked started, and one is exactly when the first thinking snapshot is not empty |
| `Steps.FunctionCallEvents` | omnicraft/antigravity_native_steps.py:697-773 | the loop gives the events and the allocator of the reference mapping of a list of calls |
| `Steps.FunctionCallOutputEvent` | omnicraft/antigravity_native_steps.py:776-807 | the output carries agy's id when there is one and otherwise the allocator's match |
| `Steps.MapStepToEvents` | omnicraft/antigravity_native_steps.py:876-1082 | the branches by type and status give the reference mapping |
| `Steps.CallsShownInOrder` | omnicraft/antigravity_native_steps.py:697-773 | one event for each well-formed call and none for any other, in order, with its name, its arguments less the display ones and its agy id |
| `Steps.MapStepIds` | omnicraft/antigravity_native_steps.py:1046-1079 | with agy ids, what a step opens and closes depends on the step alone: a terminal result closes exactly its own call, with or without an extractor |
| `ToolCards.OneOutputPerResult` | omnicraft/antigravity_native_steps.py:1046-1079 | an id is output once for each distinct result step that closes it |
| `ToolCards.NoStrandedCard` | omnicraft/antigravity_native_steps.py:1046-1079 | in any run with agy ids the calls are those of the distinct settled steps in order, and a call whose result has been sighted DONE or ERROR has an output |
| `ToolCards.FallbackPairsInOrder` | omnicraft/antigravity_native_steps.py:116-143 | in any run without agy ids no id is reused, and the n-th output has the n-th call's id for every n exactly when no result settles ahead of its call |
| `CallIds.ToolCallIdAllocator.ClaimCallId` | omnicraft/antigravity_native_steps.py:121-130 | the next call name, remembered as pending |
| `CallIds.ToolCallIdAllocator.MatchOutputId` | omnicraft/antigravity_native_steps.py:132-143 | the oldest pending call, else the next orphan name |
| `CallIds.CallNamesDiffer` | omnicraft/antigravity_native_steps.py:121-143 | call names and orphan names never collide within a conversation |
| `CallIds.AllocatorPairsFifo` | omnicraft/antigravity_native_steps.py:89-143 | over any uses: no duplicate ids, and outputs are the oldest calls in order exactly when results never get ahead |
| `CallIds.OrphansExactly` | omnicraft/antigravity_native_steps.py:132-143 | an orphan id is minted exactly when a result gets ahead of the calls |
| `InteractionGates.GateKeeper.MaybeHandleInteraction` | omnicraft/antigravity_native_reader.py:1770-1838 | a WAITING key not yet handed over starts a bridge when none is unfinished |
| `InteractionGates.GateKeeper.MaybeWithdrawInteraction` | omnicraft/antigravity_native_reader.py:1897-1948 | a surfaced key whose step is seen no longer pending is withdrawn and forgotten |
| `InteractionGates.GateKeeper.ClearSlot` | omnicraft/antigravity_native_reader.py:1807-1834 | a finished task clears the slot only if it still owns it, and schedules a re-scan unless it was cancelled |
| `InteractionGates.GateKeeper.ResurfacePendingInteraction` | omnicraft/antigravity_native_reader.py:1841-1894 | the first of three reads that succeeds is swept, and none means giving up |
| `InteractionGates.ActSound` | omnicraft/antigravity_native_reader.py:1770-1838 | each atomic step keeps: a running bridge owns the slot, keys are handed over once, and are surfaced or withdrawn but not both |
| `InteractionGates.EveryInterleavingSound` | omnicraft/antigravity_native_reader.py:1770-1838 | so does every interleaving of frames, completions, late callbacks and re-scans |
| `InteractionGates.PendingExactly` | omnicraft/antigravity_native_steps.py:323-386 | an interaction is pending exactly on a WAITING step with a trajectory and an ask or permission block, which it carries with the step's place |
| `InteractionGates.AnsweredIsNotHandedOver` | omnicraft/antigravity_native_steps.py:327-350 | a step that is not WAITING hands nothing over, even if it still carries a request, and what was surfaced of it is withdrawn |
| `InteractionGates.HandedOverExactly` | omnicraft/antigravity_native_reader.py:1726-1804 | a sighting hands its key over exactly when agy waits on it, it was never handed over and no bridge runs; the bridge starts with the kind and block of the request |
| `InteractionGates.SweepHandsOnlyWaiting` | omnicraft/antigravity_native_reader.py:1841-1893 | a re-scan hands over only steps that agy waits on |
| `InteractionGates.OneBridgeAtATime` | omnicraft/antigravity_native_reader.py:1747-1756 | at most one bridge is unfinished |
| `InteractionGates.WithdrawnOnlyWhenSeenDone` | omnicraft/antigravity_native_reader.py:1939-1948 | a withdrawal is posted only for a handed-over key, on a sighting of its step that is not pending |
| `InteractionGates.SweepHandsOne` | omnicraft/antigravity_native_reader.py:1887-1894 | a sweep with the slot free hands over exactly the first undone step, or nothing if there is none |
| `InteractionGates.RoundHandsOne` | omnicraft/antigravity_native_reader.py:1807-1893 | a completion, its callback and a re-scan of a stable snapshot hand over exactly one more gate while any is left |
| `InteractionGates.DeferredGatesDrain` | omnicraft/antigravity_native_reader.py:1807-1893 | k deferred gates are all handed over after k rounds |
| `InteractionGates.RoundsHand` | omnicraft/antigravity_native_reader.py:1807-1893 | those rounds hand over exactly the keys that were undone, each under the elicitation id of its own place, and disturb no gate surfaced before |
| `InteractionGates.OneRescanPerEnding` | omnicraft/antigravity_native_reader.py:1807-1838 | over any interleaving, every bridge that ends without being cancelled brings exactly one re-scan |
| `InteractionGates.RescanReadsFirst` | omnicraft/antigravity_native_reader.py:1841-1893 | a re-scan sweeps the first of three reads that succeeds, and nothing when none does |
| `InteractionGates.RetriedGateIsHandedOverAgainExactly` | omnicraft/antigravity_native_reader.py:1807-1893 | the re-scans after a bridge request the id of one of its rounds again exactly when the snapshot shows a step waiting at that round's place whose key was never handed over |
| `InteractionGates.NoDeferredGateForgotten` | omnicraft/antigravity_native_reader.py:1747-1756 | unless a bridge is cancelled, a re-scan gives up or its read is too old to show a gate still deferred, a deferred gate always has a bridge, a callback or a re-scan ahead of it |
| `InteractionBridge.FreshestWaiting` | omnicraft/antigravity_native_interactions.py:234-272 | the WAITING interaction of the kind with the highest index above the bound, the first on a tie; none exactly when none waits |
| `InteractionBridge.WaitingStepAt` | omnicraft/antigravity_native_interactions.py:275-301 | the first WAITING interaction at exactly that place, whatever its kind; none exactly when none waits there |
| `InteractionBridge.PlayRound` | omnicraft/antigravity_native_interactions.py:360-471 | one round: surface, await, re-read, deliver to the surfaced step or the freshest of its kind, look for a retry |
| `InteractionBridge.BridgeInteraction` | omnicraft/antigravity_native_interactions.py:304-478 | rounds chained by retries, at most max_retries of them, each one as a round should be |
| `InteractionBridge.DeliveriesAnswerTheSurfacedGate` | omnicraft/antigravity_native_interactions.py:381-436 | a delivery carries its own round's verdict and goes to a step WAITING in the latest read, the surfaced one whenever it still waits |
| `InteractionBridge.StartsWithItsGate` | omnicraft/antigravity_native_interactions.py:360-365 | a run surfaces the gate it was started for first, and nothing exactly when no attempt is allowed |
| `InteractionBridge.DeliveredExactly` | omnicraft/antigravity_native_interactions.py:365-420 | a verdict is delivered exactly when there is one, the read succeeds and something waits at the surfaced place or of its kind |
| `InteractionBridge.GoesOnExactly` | omnicraft/antigravity_native_interactions.py:435-478 | another round follows exactly when the step was not registered, attempts remain and a higher gate of the kind waits in the second read |
| `InteractionBridge.AtMostOneSuccess` | omnicraft/antigravity_native_interactions.py:425-452 | a delivery that is not refused as unregistered ends the run, so at most one succeeds |
| `InteractionBridge.RetryExceedsFailure` | omnicraft/antigravity_native_interactions.py:452-471 | a retry follows a refused delivery, is of the same kind and has a higher index than the step that refused |
| `InteractionBridge.SurfacedIndicesIncreaseExactly` | omnicraft/antigravity_native_interactions.py:452-471 | over a run the surfaced indices strictly increase exactly when every second read that led on shows a gate of the kind above the surfaced one |
| `InteractionBridge.NextIsHigherExactly` | omnicraft/antigravity_native_interactions.py:452-471 | the same for one retry |
| `InteractionBridge.IdsRepeatExactly` | omnicraft/antigravity_native_interactions.py:170-195 | two rounds request one elicitation id exactly when they surface the same place, so never while the indices increase |
| `InteractionBridge.RetryWasRead` | omnicraft/antigravity_native_interactions.py:452-471 | a retried gate waits in the second read of the round before |
| `InteractionBridge.SurfacedIndicesIncrease` | omnicraft/antigravity_native_interactions.py:403-471 | they increase in particular if no first read shows the freshest gate of the kind below the surfaced one |
| `InteractionBridge.SurfacedIndicesMayRepeat` | omnicraft/antigravity_native_interactions.py:403-471 | otherwise the same id can be requested twice in one run |
| `InteractionBridge.DeliveryKindMatches` | omnicraft/antigravity_native_interactions.py:295-301 | a delivery is of its step's own kind exactly when the surfaced place kept its kind |
| `InteractionBridge.KindIsNotChecked` | omnicraft/antigravity_native_interactions.py:295-301 | a gate that turned from question to permission at its place is answered as a question |
| `ElicitationPost.PostAgyElicitationRequest` | omnicraft/antigravity_native_reader.py:2181-2250 | posts go on exactly while they fail and the budget covers the next sleep; a returned status is below 500; at most 2884 sleeps |
| `ElicitationPost.SleepsAreBounded` | omnicraft/antigravity_native_reader.py:2220-2250 | if sleeps take at least their length, 2884 is the most that fit in 86405 s |
| `ElicitationPost.ExhaustedExactly` | omnicraft/antigravity_native_reader.py:2181-2270 | the loop gives up exactly when the next sleep, of 1, 2, 4, 8, 16 and then 30 seconds, would end 86405 seconds after the start or later |
| `ElicitationPost.BoundIsMet` | omnicraft/antigravity_native_reader.py:2220-2250 | against a server that refuses at once the loop gives up after exactly 2884 sleeps |
| `RotationDetection.DetectRotatedCascade` | omnicraft/antigravity_native_reader.py:409-480 | the loop with a best so far computes the reference choice |
| `RotationDetection.RotatesToTheNewest` | omnicraft/antigravity_native_reader.py:447-480 | the answer is a root cascade of maximal activity strictly newer than the bound one; none exactly when the bound one is unlisted or no root cascade is newer |
| `RotationDetection.DetectsOnFields` | omnicraft/antigravity_native_reader.py:394-480 | by the two timestamps: the answer is a root cascade used later than the bound one than which no other was used later; used means the user's last turn or, without one, the last modification |
| `RotationDetection.ModificationDoesNotMatter` | omnicraft/antigravity_native_reader.py:394-406 | when a cascade with a user turn was last modified never changes the answer |
| `RotationDetection.NewestTurnDecides` | omnicraft/antigravity_native_reader.py:394-480 | where every cascade has a user turn, the newest turn among other root cascades decides, strictly newer than the bound one's |
| `RotationDetection.BestIsFirstMaximum` | omnicraft/antigravity_native_reader.py:454-467 | among candidates the first of maximal activity is taken |
| `RotationDetection.OrderMattersOnlyOnTies` | omnicraft/antigravity_native_reader.py:454-467 | another order of the summaries detects a rotation just the same, to a cascade just as recently active |
| `RotationDetection.RebindingSettles` | omnicraft/antigravity_native_reader.py:435-438 | rebound to the answer, the same summaries call for no further rotation |
| `RotationDetection.ChainIncreases` | omnicraft/antigravity_native_reader.py:447-480 | if activities never decrease, the chosen activities strictly increase along a chain of rotations |
| `RotationDetection.WatchForRotation` | omnicraft/antigravity_native_reader.py:744-829 | the first tick whose answer is not to be skipped is signalled, once |
| `RotationDetection.SignalsExactly` | omnicraft/antigravity_native_reader.py:788-829 | a signal was detected and never failed before; without one every tick detected nothing or a failed cascade |
| `SessionRotation.Supervisor.RotateSessionForCascade` | omnicraft/antigravity_native_reader.py:2459-2612 | fetch, create, bind, transfer, write, release up to the first failure; bridge state changes only on success |
| `SessionRotation.Supervisor.RunReaderWithBridge` | omnicraft/antigravity_native_reader.py:2706-2757 | the loop over visits: end, adopt in place, rotate, or skip a cascade that failed |
| `SessionRotation.WritesAfterTransfer` | omnicraft/antigravity_native_reader.py:2516-2578 | bridge state is written only for the session just created, bound to the runner if there is one, and given the terminal |
| `SessionRotation.CallsFollowThePlan` | omnicraft/antigravity_native_reader.py:2493-2612 | once a session is made, the new session is bound, given the old one's terminal and written to bridge state, and the old one is released, in this order as far as the first failure |
| `SessionRotation.NothingIsBoundWithoutASession` | omnicraft/antigravity_native_reader.py:2493-2532 | before that it stops at the first request that fails or names no agent or session |
| `SessionRotation.VisitCalls` | omnicraft/antigravity_native_reader.py:2709-2757 | a visit without a signal calls for nothing, one that committed nothing has the current session adopt the cascade, any other rotates the current session onto it |
| `SessionRotation.BridgeNamesTheSession` | omnicraft/antigravity_native_reader.py:2709-2757 | at every head of the loop, and wherever it stops, bridge state names the current session |
| `SessionRotation.FailuresAreDistinct` | omnicraft/antigravity_native_reader.py:2706-2756 | every failure strictly grows the skip set and names a listed cascade that never failed before |
| `SessionRotation.FailuresAreBounded` | omnicraft/antigravity_native_reader.py:2706-2757 | a run has no more failed rotations than distinct cascades |
| `SessionRotation.RebindingIsQuiet` | omnicraft/antigravity_native_reader.py:435-438 | after a visit that rebinds, the same summaries signal nothing |
| `SessionReceipts.ReceivedOnceUnlessRotationFails` | omnicraft/antigravity_native_reader.py:2709-2757 | over the whole loop a session receives a settled key of a conversation twice only if a failed rotation left it bound to that conversation, and nothing twice while no rotation fails |
| `SessionReceipts.NextVisitRepeatsExactlyAfterFailure` | omnicraft/antigravity_native_reader.py:2752-2756 | at any head of the loop, whatever is sighted next is received without repetition exactly when nothing was repeated so far and no failed rotation has left the present binding in force |
| `SessionReceipts.SitKeeps` | omnicraft/antigravity_native_reader.py:2709-2757 | at a head of the loop the current session has received something of a conversation exactly if a failed rotation left it bound to that conversation |
| `SessionReceipts.AdoptsIntoUsedSessionExactly` | omnicraft/antigravity_native_reader.py:2722-2743 | what is adopted in place goes to the same session and another cascade; that session has already received something exactly when a failed rotation has left it bound to some conversation |
| `SessionDelivery.DeliveryHolds` | omnicraft/antigravity_native_reader.py:629-656 | every item that arrives is one that the first settled sighting of its key commits, at the place of that key and number |
| `SessionDelivery.ItemsCommittedOncePerSession` | omnicraft/antigravity_native_reader.py:2709-2757 | over any number of visits and any honest transport each item of a settled key is committed to a session at most once, unless a failed rotation left the session bound to that conversation |
| `PostDelivery.ClassifierExact` | omnicraft/_native_post_delivery.py:135-162 | the classifier answers yes exactly for the errors behind which a commit may hide |
| `PostDelivery.RetriedExactly` | omnicraft/_native_post_delivery.py:253-299 | another attempt follows exactly while attempts remain, after an error status to retry or an error that is no item's or proves that nothing was sent |
| `PostDelivery.ItemCommittedAtMostOnce` | omnicraft/_native_post_delivery.py:253-299 | whatever the transport, a call commits an item at most once, and exactly when its last attempt does |
| `PostDelivery.ProtectedExactly` | omnicraft/_native_post_delivery.py:228-233 | a kind of event is committed at most once by every call exactly when it is an item or there is a single attempt |
| `PostDelivery.CallLengthUnique` | omnicraft/_native_post_delivery.py:253-299 | the outcomes determine how many attempts a call makes |
| `ItemDelivery.PostAll` | omnicraft/antigravity_native_reader.py:629-656 | the events of a run are posted one call each, in order |
| `ItemDelivery.EventType` | omnicraft/antigravity_native_steps.py:740-805 | exactly the items are posted as conversation items, which the retry loop protects |
| `ItemDelivery.ItemsCommittedAtMostOnce` | omnicraft/antigravity_native_reader.py:629-656 | for any sightings and any honest transport the items that reach the retry loop are those of the first settled sighting of each key, in order, each committed at most once |
| `PostDelivery.PostSessionEventWithRetry` | omnicraft/_native_post_delivery.py:213-299 | posts never exceed the limit and stop where they must; the response is the last attempt's; the health slot is filled by exhausted transport failures and emptied by any response |
| `ForwarderHealth.HealthSlot.RecordPostFailure` | omnicraft/_native_forwarder_health.py:34-49 | the slot holds the latest failure |
| `ForwarderHealth.HealthSlot.NotePostSuccess` | omnicraft/_native_forwarder_health.py:52-66 | the slot is empty |
| `ForwarderHealth.HealthSlot.RecentPostFailure` | omnicraft/_native_forwarder_health.py:69-86 | a failure is reported exactly when one is held and is recent enough |
| `DeadLetterText.ReadDeadLetterEntries` | omnicraft/_native_post_delivery.py:378-398 | blank lines are skipped, lines that parse are values, all others are kept verbatim |
| `DeadLetterText.RewriteDeadLetterEntries` | omnicraft/_native_post_delivery.py:401-421 | one line per entry, and no file for no entries |
| `DeadLetterText.RewriteRoundTrip` | omnicraft/_native_post_delivery.py:378-421 | a list of entries that each survive alone is read back as it was written |
| `DeadLetterText.RewriteExactly` | omnicraft/_native_post_delivery.py:378-421 | a list of entries reads back as it was written exactly when every string in it is one line, not blank, and parses to itself if it parses |
| `DeadLetterText.StableExactly` | omnicraft/_native_post_delivery.py:378-421 | so does one entry, whatever string it is: a string with a line break never survives |
| `DeadLetterText.NoBareStringsSurvive` | omnicraft/_native_post_delivery.py:378-421 | everything read from a file without bare JSON strings survives a rewrite, raw lines included |
| `DeadLetterText.BareStringComesAlive` | omnicraft/_native_post_delivery.py:378-421 | a bare JSON string that holds the text of a record becomes that record when rewritten |
| `DeadLetterText.BareStringIsLost` | omnicraft/_native_post_delivery.py:378-421 | a line holding an empty JSON string is lost by a rewrite |
| `DeadLetterReplay.ReclassifyDecides` | omnicraft/_native_post_delivery.py:529-540 | only the two classification fields change, and a record that failed again stays replayable exactly when the failure was unambiguous and not permanent |
| `DeadLetterReplay.PassIs` | omnicraft/_native_post_delivery.py:500-556 | attempts are a prefix of the replayable records, backup first; each file keeps its own survivors, an unchanged one its list; attempted plus deferred is replayable; every attempt is within the cap and before the deadline, and a pass stops short only where the next attempt would exceed the cap or reads the clock past the deadline |
| `DeadLetterReplay.AttemptsAreSettled` | omnicraft/_native_post_delivery.py:512-520 | the records, the clock and the outcomes settle how many records a pass attempts, delivers and defers |
| `DeadLetterReplay.PassConserves` | omnicraft/_native_post_delivery.py:500-556 | a pass leaves in each file, in order, exactly that file's records not delivered, changed at most in their classification and only if attempted |
| `DeadLetterSafety.StillReplayableUncommitted` | omnicraft/_native_post_delivery.py:354-375 | an attempt of an item that leaves it replayable has committed nothing |
| `DeadLetterSafety.SafeExactlyForItems` | omnicraft/_native_post_delivery.py:328-375 | that holds of every honest outcome exactly for conversation items |
| `DeadLetterSafety.PostsOnlyWhatMayBeReplayed` | omnicraft/_native_post_delivery.py:328-375 | field by field which records a pass POSTs: without a cap or deadline all of them, and never another |
| `DeadLetterSafety.AttemptDecides` | omnicraft/_native_post_delivery.py:529-540 | by status or error: a record is gone exactly when the server accepted it, and otherwise kept and replayable exactly if the status is one to retry, or the attempt broke off and it is no item or nothing was sent |
| `DeadLetterSafety.LeftSayingSo` | omnicraft/_native_post_delivery.py:529-540 | a record whose attempt failed is left as it is if it already says so, as Python compares, and otherwise gets exactly the flag and the status of the attempt |
| `DeadLetterSafety.RejectedIsNeverPostedAgain` | omnicraft/codex_native_forwarder.py:6116-6125 | a record refused with a permanent status, or an item whose response was lost, is in no later pass POSTed again |
| `DeadLetterSafety.PassKeepsSafe` | omnicraft/_native_post_delivery.py:500-542 | a completed pass keeps every replayable item uncommitted and no item committed twice |
| `DeadLetterSafety.NoItemCommittedTwice` | omnicraft/_native_post_delivery.py:500-542 | so does any number of completed passes against an adversarial transport |
| `DeadLetterSafety.FailedForGood` | omnicraft/_native_post_delivery.py:529-540 | an item that failed ambiguously or with a permanent status is kept and no longer replayable |
| `DeadLetterSafety.FrozenForever` | omnicraft/_native_post_delivery.py:505-510 | a record that is not replayable stays as it is and is never re-posted, in any later pass |
| `DeadLetterSafety.OtherEventsMayBeCommittedTwice` | omnicraft/_native_post_delivery.py:500-542 | another event whose response was lost is committed again by the next pass |
| `DeadLetterStore.ReplayableDrop` | omnicraft/_native_post_delivery.py:328-375 | a record just appended can be replayed exactly when it was routed, unambiguous and not permanently rejected |
| `DeadLetterStore.DeadLetters.AppendDeadLetter` | omnicraft/_native_post_delivery.py:88-123 | whatever the files hold, an append rotates at the cap and adds one line, and a fault adds nothing and never raises; appends alone keep the two files a window on everything appended |
| `DeadLetterStore.DeadLetters.Rotate` | omnicraft/_native_post_delivery.py:92-104 | at the cap the current file becomes the backup and the old backup is dropped |
| `DeadLetterStore.DeadLetters.Retention` | omnicraft/_native_post_delivery.py:88-116 | the pair reads as a suffix of all records appended, everything or at least the cap, each file under the cap plus its longest line |
| `DeadLetterStore.DeadLetters.ReplayDeadLetters` | omnicraft/_native_post_delivery.py:424-556 | both files are read, drained and rewritten only if changed; the records POSTed and the deliveries counted are those of the pass over what they read as |
| `DeadLetterStore.DrainEntries` | omnicraft/_native_post_delivery.py:503-540 | the loop over one file computes the reference drain |
| `DeadLetterStore.NextStartReadsRetained` | omnicraft/_native_post_delivery.py:541-542 | the next start reads of a file what the pass retained exactly when the file was left alone or everything in it survives |
| `DeadLetterRestarts.PassIgnoresIds` | omnicraft/_native_post_delivery.py:500-542 | what a pass POSTs, counts and leaves depends on the entries alone, so records can be followed by identity |
| `DeadLetterRestarts.RestartsHold` | omnicraft/_native_post_delivery.py:424-556 | after any number of completed restarts the files read as the records that the passes leave |
| `DeadLetterRestarts.LogAccountsForCommits` | omnicraft/_native_post_delivery.py:500-542 | the server's count of a record is what it was plus the commits of the POSTs the restarts made of it |
| `DeadLetterRestarts.LogSends` | omnicraft/_native_post_delivery.py:500-542 | every POST of every restart sends a record the files held at the start, up to its classification |
| `DeadLetterRestarts.ItemsCommittedOnceAcrossRestarts` | omnicraft/_native_post_delivery.py:354-375 | over all restarts the POSTs of one conversation item come to at most one commit together with what the server had, and the files read as the records of a world that stays safe |
| `DeadLetterLife.FailedForwardUncommitted` | omnicraft/codex_native_forwarder.py:6192-6214 | a call commits an item at most once, and a call whose record can be replayed has not committed it |
| `DeadLetterLife.FailedForwardReplayableExactly` | omnicraft/codex_native_forwarder.py:6192-6214 | the record of a failed call can be replayed exactly when it is routed and the last attempt drew a status to retry, or broke off and it is no item or nothing was sent |
| `DeadLetterLife.FailedForwardIsRecorded` | omnicraft/codex_native_forwarder.py:6192-6214 | after a failed call of a durable event its record is the last in the current file unless the append failed; any other call leaves the files alone |
| `DeadLetterLife.AppendHolds` | omnicraft/_native_post_delivery.py:88-115 | after an append the files read as the records they held, less the backup if they rotated, and the appended one |
| `DeadLetterLife.ReplayedLog` | omnicraft/codex_native_forwarder.py:6101-6140 | what a start POSTs from the text of the files is of earlier forwards, and accounts for what the server commits |
| `DeadLetterLife.LifeSound` | omnicraft/codex_native_forwarder.py:6164-6215 | forwards and starts in any order keep the files, the POSTs made and the server's counts in step, and no item committed twice |
| `DeadLetterLife.ItemsCommittedOnceOverLife` | omnicraft/codex_native_forwarder.py:6164-6215 | over any life of a directory every POST, live or replayed, sends the session, type and payload of one of the forwards, all POSTs of one conversation item commit it at most once, and an item that can still be replayed is uncommitted |
| `ConnectStream.DecodeStream` | omnicraft/antigravity_native_rpc.py:936-977 | for every cut into chunks, the frames and the ending equal one parse of the whole byte string |
| `ConnectStream.CutFrames` | omnicraft/antigravity_native_rpc.py:939-977 | the inner loop takes every whole frame in the buffer until one ends the stream |
| `ConnectStream.ParseExtends` | omnicraft/antigravity_native_rpc.py:936-977 | later bytes never change what earlier bytes gave |
| `ConnectStream.ChunksYieldPrefixes` | omnicraft/antigravity_native_rpc.py:936-977 | after each chunk the frames so far are a prefix of all frames, and an ending is final |
| `ConnectStream.EnvelopesRoundTrip` | omnicraft/antigravity_native_rpc.py:812-826 | decoding a concatenation of encoded envelopes gives the payloads back in order and consumes every byte |
| `ConnectStream.DataFramesYield` | omnicraft/antigravity_native_rpc.py:939-977 | data frames give, in order, the object under `update` or else the whole payload, and nothing for a payload that is no object |
| `ConnectStream.FirstOtherFrameEnds` | omnicraft/antigravity_native_rpc.py:829-969 | after any data frames the first other frame ends the stream: an odd flag as compressed, a payload that does not parse as malformed or undecodable, a trailer as an error exactly when its `error` is present and not empty, null, zero or false |
| `ConnectStream.CutOffFrameIsLeft` | omnicraft/antigravity_native_rpc.py:939-946 | a frame that is cut off stays in the buffer |
| `ConnectStream.PackRoundTrip` | omnicraft/antigravity_native_rpc.py:812-826 | the four length bytes decode to the length they encode |
| `PaneSearch.AgyPidInPaneSubtree` | omnicraft/antigravity_native_rpc.py:1185-1224 | a nearest agy process within 32 edges of the pane, on any process graph; none exactly when none is that near |
| `PaneSearch.WithinIsWalk` | omnicraft/antigravity_native_rpc.py:1202-1224 | being within a number of edges is the existence of a walk that short |
| `PaneSearch.FoundAt` | omnicraft/antigravity_native_rpc.py:1216-1221 | a process met on the next level is as near as any |
| `PaneSearch.Exhausted` | omnicraft/antigravity_native_rpc.py:1211-1213 | an empty frontier means no further edge reaches anything new |

## Left out

- `_merge_is_multi_select`, the payload builders and the TUI key sequences of the interaction bridge: what is delivered is the verdict with the surfaced spec.
- Event payload shapes (message, response and item ids, agent names): events carry what the proofs speak of, and ids built from a step index are that index.
- HTTP, TLS, `asyncio` scheduling and cancellation: outcomes are arbitrary and every modelled action lies between two `await`s; a reader body cancelled in the middle of a step is discarded with its state.
- `get_steps` or `request_elicitation` raising inside a bridge: a read that raises ends the run, as an unhandled exception ends the `asyncio` one.
- JSON printing and parsing: a codec of which the round trip of values is assumed, and that a string literal is two characters longer than its content at least; JSON floats and a list or dict as a record's `http_status`, which raises `TypeError`, are not represented.
- The SHA-256 digest of elicitation ids: taken to be injective, so an id is its three inputs.
- A crash between a replay pass and its rewrite, and two writers of one dead-letter directory: the replay theorems are about completed passes.
- Reading or deleting files failing in replay, and other exceptions of the forwarder's re-post: a pass that raises is not a completed pass.
- Senders other than the Codex forwarder that append dead letters: for records of theirs the classification they start with is a premise of `DeadLetterSafety.NoItemCommittedTwice`.
- Discovery of cascade and port, `tmux`, `lsof`, `pgrep` and `/proc`: the process graph is one fixed function during a search, and bridge state holds a real cascade id.
- Timestamps of cascades are numbers on one time line; parsing them is not modelled.
- Step keys are not unique in general, since steps of one execution without an index share a key: theorems are about keys.
- The audit module, `interrupt_turn`, launch helpers and UI start-up: dormant, constant or plumbing.
- DeadLetterStore.DeadLetters.AppendDeadLetter: a write that breaks off inside a line is not among its faults; the next line would be joined to the torn one and both kept as one raw line.
- Steps.MapStepToEvents: response and message ids and the agent name of a payload are not represented.
- ElicitationPost.PostAgyElicitationRequest: times are exact reals, not floats, since every backoff is a small whole number.
- The steps that the bridge reads and those that a re-scan reads are independent in `InteractionGates.RetriedGateIsHandedOverAgainExactly`: which of them agy shows is agy's affair.
