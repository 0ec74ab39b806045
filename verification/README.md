# Verified models of the harness runtime

This project models the stateful core of the harness runtime in Dafny and proves what its protocols
keep over whole runs, crashes included. Every SHA-256 is an ideal digest (a free datatype constructor,
hence injective and never cyclic); every atomic file replacement or append is one durable step.

| file | what it models |
|---|---|
| `PendingQueues`, `DeliveryRuns`, `DeliveryAdapter` | the GitHub control adapter: two bounded ledgers, in-memory queues, a remote channel, and every run of their durable steps with a restart after any of them |
| `OfficeContracts`, `OfficeStore`, `OfficeWorkflow`, `OfficeHistory` | the AI Office journal with its digest chain, the snapshot file beside it, the workflow coordinator driven through them, the histories its runs can have, and the report built from a finished run |
| `Qualification`, `QualificationAgreement`, `GateDecisions`, `InvalidationCascade` | Full MCP evidence, gates, what a decision means in terms of the records, the two computations of staleness, and where invalidation skips a gate |
| `LinePatch` | line edits, the splice loop, and compare-and-swap writes |
| `McpCalls`, `McpRuntime` | the Full MCP call pipeline: replay guard, effect journal, event log, create-once results |
| `ReportIndex` | the LLM report printer and the index parser |
| `CodexTurn` | the Codex app-server client loop (JSON-RPC 2.0, sections 4 and 5) |
| `CapabilityLifecycle`, `CapabilityDependencies`, `CapabilityStore` | capability lifecycle records, what acquiring and releasing do to them, and the directory that holds them |
| `Mprf` | provider registry, lifecycle facts and the router snapshot |
| `ContextAssembly` | the precedence fold over context sources |
| `Common`, `Text`, `Order` | results, Python's `strip`/`splitlines`/`join`, string order and `sorted` |

Protocols are step machines: `Legal(run)` says which sequences of durable steps can happen and
`Exec(run)` what they lead to, and the results are about every legal run. The classes carry a ghost
record of the run they perform (or, in `OfficeStore`, the disks they leave between writes), so those
results apply to the objects. `None`, `Err` and `false` stand for the exceptions of the source.

Where a property does not hold of the code as one would state it, a lemma gives the inputs on which it
fails and another the condition under which it holds, as an if-and-only-if over all inputs:

- a committed office transition loads again iff no text it saves holds a raw line separator, because the
  journal is written without ASCII escapes and read back with `splitlines` (`CommittedLoads`,
  `LineSeparatorStrandsRun`); a rejected store is repaired only when it has no file at all
  (`RejectionIsFinal`, `EmptyDiskInitializes`);
- the exact ack of a handed-out control is kept iff no two remembered deliveries differ in the message id
  alone (`ExactCustodyIffUnambiguous`, `RearmedMessageLosesControl`), and the pending ledger cuts a
  delivery off iff it exceeds its limit (`CutOffExactly`, `LimitBreaksCustody`);
- receive returns the first deliverable comments iff no unencodable comment is met before them
  (`ReceivedExactly`, `SurrogateHidesDeliverable`);
- a request is dispatched once over all restarts iff its operation changes state and every instance binds
  it to the same identity (`OnceEverExactly`, `DispatchedTwice`);
- acquired dependency ids are stored in string order iff stripping keeps the order of the ids as given
  (`AcquiredSortedExactly`, `PaddedIdIsOutOfOrder`), and releasing an id by the text it was acquired with
  lets it go iff that text is not padded (`ReleaseUndoesAcquireExactly`);
- every word of the transition table is the history of some office run iff the run's identity, plan and baseline
  hold no raw line separator (`EveryHistoryHappens`, `EffectNeedsCleanTexts`);
- the capability directory is a dictionary iff no stored id spells the digested file name of another
  (`StoreRefinesDictionary`, `TwinOverwrites`), and a put disturbs another contract exactly as
  `PutDisturbsExactly` says (`LegacyFileIsOverwritten`);
- invalidation reaches every later gate exactly under the condition of `CascadeExactly`
  (`GatesFourAndFiveSkipped`), and patched text is re-read as the computed lines exactly under that of
  `RereadExactly`;
- the tool calls of a turn are all answered iff none reuses an id of the client's
  (`ToolCallsAnsweredExactly`, `ClashingToolCallUnanswered`);
- the index of a printed report gives back its fields exactly when they are as `RoundTripExactly` says
  (`EmptySummaryReadsUnknown`), and a heading line inside a field lets it speak for another one
  (`HeadingItemTakesPurpose`);
- context assembly succeeds exactly under the condition of `AssemblesExactly`: the requirement digests are
  distinct and the order of sources meets the condition of `SucceedsExactly`; every order of sources does
  under that of `EveryOrderSucceedsExactly`, some order under that of `SomeOrderSucceedsExactly`, and all
  orders that do give the same result (`OrderDoesNotMatter`).

## Model

| member | source | states |
|---|---|---|
| `DeliveryRuns.PublishBalance` | runtime/operator_transport/github_control_adapter.py:389-406 | over every run, remote publishes for a delivery = interruptions between post and ack + acks later lost + one if its ack is on file or its publish is open; with no lost ack, at most one more than the interruptions; all posts of the run, those without a pending delivery included, are accounted for |
| `DeliveryRuns.HandedOutStaysPending` | runtime/operator_transport/github_control_adapter.py:494-507 | in every reachable state a handed-out control is on the pending ledger, or its source and content were acknowledged, or it was retired, or the ledger limit cut it off, the last never within the limit; the ack is the exact one when no two remembered deliveries differ in the message id alone |
| `DeliveryRuns.ExactCustodyIffUnambiguous` | runtime/operator_transport/github_control_adapter.py:284-331 | exact custody over all runs that remember only given deliveries holds iff no two of them differ in the message id alone |
| `DeliveryRuns.RearmedMessageLosesControl` | runtime/operator_transport/github_control_adapter.py:484-493 | re-arming a digest under another message id, publishing it and receiving the comment again loses the handed-out control |
| `DeliveryRuns.OwnMessagesAreUnambiguous` | runtime/operator_transport/github_control_adapter.py:310-322 | deliveries whose message id is the one their content carries, as receive makes them, never differ in it alone |
| `DeliveryRuns.RestartRebuilds` | runtime/operator_transport/github_control_adapter.py:134-249 | in every reachable state both load functions accept their ledger with every entry check, acks keep one entry per source, and a restart rebuilds the queues exactly when the limit cut nothing off |
| `DeliveryRuns.CutOffExactly` | runtime/operator_transport/github_control_adapter.py:227-249 | a run cut some delivery off iff one of its saved pending ledgers exceeded the limit |
| `DeliveryRuns.LimitBreaksCustody` | runtime/operator_transport/github_control_adapter.py:248-249 | past the limit a handed-out control is lost by a crash |
| `DeliveryRuns.AckLostOnlyByReplacementOrEviction` | runtime/operator_transport/github_control_adapter.py:200-205 | an ack leaves the ledger only when another is committed for the same source or into a full ledger |
| `DeliveryRuns.WithAckKeeps` | runtime/operator_transport/github_control_adapter.py:395-405 | the new ack is kept, replaces the entry of its source, and the ledger stays bounded |
| `PendingQueues.RebuildFlatten` | runtime/operator_transport/github_control_adapter.py:107-110 | replaying the flushed entries gives back the same insertion-ordered queues |
| `PendingQueues.BoundedLedger` | runtime/operator_transport/github_control_adapter.py:227-249 | a bounded ledger replays to itself, and to the original queues exactly when nothing was cut |
| `PendingQueues.EnqueueAdds` | runtime/operator_transport/github_control_adapter.py:319-322 | remembering adds exactly that fingerprint, behind the others of its message, and keeps the map well formed |
| `PendingQueues.DiscardRemoves` | runtime/operator_transport/github_control_adapter.py:324-331 | discarding removes exactly that fingerprint and drops emptied queues |
| `PendingQueues.DiscardLeavesOthers` | runtime/operator_transport/github_control_adapter.py:324-331 | the other deliveries of the message stay in their order and every other queue is untouched |
| `PendingQueues.DiscardHead` | runtime/operator_transport/github_control_adapter.py:324-331 | discarding the head brings the next delivery to the front |
| `DeliveryAdapter.GitHubControlAdapter.constructor` | runtime/operator_transport/github_control_adapter.py:107-110 | a restarted adapter holds the queues rebuilt from the pending ledger |
| `DeliveryAdapter.GitHubControlAdapter.RememberPending` | runtime/operator_transport/github_control_adapter.py:310-322 | a new fingerprint is queued and saved, a known one changes nothing |
| `DeliveryAdapter.GitHubControlAdapter.ReconcileAcked` | runtime/operator_transport/github_control_adapter.py:324-331 | cleanup of an acknowledged fingerprint, saved |
| `DeliveryAdapter.GitHubControlAdapter.PrepareRecoveryDelivery` | runtime/operator_transport/github_control_adapter.py:284-308 | its two errors, and re-arming of the exact fingerprint |
| `DeliveryAdapter.GitHubControlAdapter.RetireExplicitly` | runtime/operator_transport/github_control_adapter.py:360-387 | its two errors, and removal without an ack |
| `DeliveryAdapter.GitHubControlAdapter.PersistSuccessfulPublish` | runtime/operator_transport/github_control_adapter.py:389-406 | the ack is committed first, then the pending entry is removed |
| `DeliveryAdapter.GitHubControlAdapter.PublishProjection` | runtime/operator_transport/github_control_adapter.py:537-567 | for every outcome the exact steps and state left behind: an error before the post changes nothing, a projection without a pending delivery is posted and nothing else, an acknowledged head is only cleaned up, otherwise post, ack, cleanup in that order |
| `DeliveryAdapter.GitHubControlAdapter.ScanComments` | runtime/operator_transport/github_control_adapter.py:425-509 | the loop collects the deliverable envelopes and first rejection of the comments it scanned, stops at the first comment that cannot be encoded or that completes the limit, and leaves the queues of that scan |
| `DeliveryAdapter.GitHubControlAdapter.ReceiveControls` | runtime/operator_transport/github_control_adapter.py:408-514 | the outcome for every comment list, raising payloads included, and the comments scanned; every tracked control handed out is durable first |
| `DeliveryAdapter.VerdictExactly` | runtime/operator_transport/github_control_adapter.py:425-509 | for every comment: handed out iff it is a control body within the size limit from a listed actor with an id above the start, a timestamp and an object of the asked kind, and no ack has its source and digest; each field of its envelope; each rejection reason, suppression and raise as an iff |
| `DeliveryAdapter.FirstPassing` | runtime/operator_transport/github_control_adapter.py:408-514 | receive hands out the envelopes of the first passing comments in order, and otherwise the reason of the first rejected comment, in terms of the comments alone |
| `DeliveryAdapter.LedgerAfterScan` | runtime/operator_transport/github_control_adapter.py:484-507 | after a scan a delivery is queued iff it was queued before or handed out with its own message id, and no acknowledged comment of its source and content was met |
| `DeliveryAdapter.DecimalInjective` | runtime/operator_transport/github_control_adapter.py:461 | different comment ids give different source ids |
| `DeliveryAdapter.ReceivedExactly` | runtime/operator_transport/github_control_adapter.py:408-514 | that outcome is the first min(limit, poll_limit) deliverable comments in order, or the first rejection when there is none, iff no unencodable comment is met before enough are collected; otherwise the call raises |
| `DeliveryAdapter.SurrogateHidesDeliverable` | runtime/operator_transport/github_control_adapter.py:484 | a lone surrogate in a later payload makes the call raise although a comment was deliverable |
| `DeliveryAdapter.EditedCommentDeliveredAgain` | runtime/operator_transport/github_control_adapter.py:484-493 | in every reachable state an ack for other content of the same comment does not suppress it, and the exact content is suppressed |
| `OfficeContracts.MakeSnapshotAgain` | runtime/ai_office/contracts.py:77-94 | constructing a constructed snapshot changes nothing |
| `OfficeContracts.MakeTransitionAgain` | runtime/ai_office/contracts.py:136-148 | the same for transitions |
| `OfficeContracts.SnapshotExactly` | runtime/ai_office/contracts.py:77-94 | when the snapshot constructor accepts, field by field |
| `OfficeContracts.TransitionExactly` | runtime/ai_office/contracts.py:136-148 | when the transition constructor accepts |
| `OfficeStore.ChainCommits` | runtime/ai_office/state_store.py:126-158 | accepted journals with equal final record digests are equal record for record |
| `OfficeStore.AcceptedIsConnected` | runtime/ai_office/state_store.py:144-158 | an accepted journal is a connected path of states with consecutive revisions from 0 |
| `OfficeStore.LoadAgreesWithJournal` | runtime/ai_office/state_store.py:160-169 | where load succeeds, revision = journal length and the snapshot is the last journalled one |
| `OfficeStore.AcceptedExactly` | runtime/ai_office/state_store.py:109-159 | the reader accepts a journal iff every line is a sealed record of this run, numbered by its place and linked to the line before |
| `OfficeStore.LoadExactly` | runtime/ai_office/state_store.py:160-169 | load succeeds iff such a journal stands beside the sealed snapshot of its last line, or an empty one beside an initial snapshot |
| `OfficeStore.AdvanceExactly` | runtime/ai_office/state_store.py:171-200 | when a transition gets as far as writing, and the whole record it writes |
| `OfficeStore.InitializeExactly` | runtime/ai_office/state_store.py:77-95 | when initialize gets as far as writing, and the whole snapshot it writes |
| `OfficeStore.RecordIsOneLineExactly` | runtime/ai_office/state_store.py:115-123 | a record is written as one line iff none of its texts holds U+0085, U+2028 or U+2029 |
| `OfficeStore.CommittedLoads` | runtime/ai_office/state_store.py:109-208 | after the last write the planned snapshot loads iff no text the transition saves holds a raw line separator (and an initial snapshot can be encoded); otherwise nothing loads |
| `OfficeStore.LineSeparatorStrandsRun` | runtime/ai_office/state_store.py:115-208 | a reason with U+2028 inside is accepted, both files are written, and nothing loads |
| `OfficeStore.BetweenWritesRejects` | runtime/ai_office/state_store.py:201-207 | between the two writes, or with a record torn in any of its pieces, nothing loads |
| `OfficeStore.CrashOutcomes` | runtime/ai_office/state_store.py:77-95 | every crash point leaves the old state, the new state when the command commits, or a rejecting store |
| `OfficeStore.RejectionIsFinal` | runtime/ai_office/state_store.py:160-214 | once some file exists and load rejects, no sequence of commands and crashes changes the disk again |
| `OfficeStore.EmptyDiskInitializes` | runtime/ai_office/state_store.py:77-95 | the one repairable rejecting disk is the empty one, only by initialize, and only when its texts can be encoded |
| `OfficeStore.AIOfficeStateStore.ReadJournalFile` | runtime/ai_office/state_store.py:109-159 | the reading loop computes the journal's final cursor or rejects |
| `OfficeStore.AIOfficeStateStore.LoadCurrent` | runtime/ai_office/state_store.py:160-169 | load's result |
| `OfficeStore.AIOfficeStateStore.InitializeRun` | runtime/ai_office/state_store.py:77-95 | refuses an existing identity; journal first, snapshot second; then it loads; a snapshot that cannot be encoded leaves the journal behind |
| `OfficeStore.AIOfficeStateStore.AdvanceTo` | runtime/ai_office/state_store.py:171-214 | journal append, then snapshot replace, then the reloaded snapshot iff the record stayed one line; an error before that writes nothing |
| `OfficeWorkflow.PlanFixedRefsGrow` | runtime/ai_office/workflow.py:141-164 | over every coordinator run with crashes, plan and baseline never change, refs only grow without duplicates, the table's stage never falls |
| `OfficeWorkflow.HandoffAtMostOnce` | runtime/ai_office/workflow.py:148-152 | the Full Plan handoff takes effect at most once and is the only call that carries an assignment ref |
| `OfficeWorkflow.ClosingCall` | runtime/ai_office/workflow.py:153-161 | a completed run has one gate call whose completion is the only one on record |
| `OfficeWorkflow.ReportAcceptsExactlyClosing` | runtime/ai_office/reporting.py:116-156 | for a completed run the report builder accepts exactly the closing completion and rejects every other or none |
| `OfficeHistory.TableExactly` | runtime/ai_office/workflow.py:13-23 | the transition table accepts exactly the words that `LeadsTo` spells out, state by state |
| `OfficeHistory.HistoryLeadsToState` | runtime/ai_office/workflow.py:141-164 | over every run with crashes, the events that took effect form a word leading to the state on record, and the revision counts them |
| `OfficeHistory.EveryHistoryHappens` | runtime/ai_office/workflow.py:141-171 | every such word is the history of some run whose repeated texts hold no line separator |
| `OfficeHistory.EffectNeedsCleanTexts` | runtime/ai_office/state_store.py:115-208 | with a line separator in identity, plan or baseline no call ever takes effect |
| `OfficeHistory.ApprovalIsFinal` | runtime/ai_office/workflow.py:17 | after an effective APPROVAL_REQUIRED every later loading snapshot is the same one, in WAITING_APPROVAL |
| `OfficeHistory.CompleteWasCleared` | runtime/ai_office/workflow.py:13-23 | a completed run had GOVERNANCE_READY and later EXECUTION_ACCEPTED take effect, and no APPROVAL_REQUIRED |
| `OfficeHistory.RecoveryIsReviewed` | runtime/ai_office/workflow.py:20-21 | recovery is entered from execution by RECOVERY_REQUIRED and left for REVIEW_PENDING only, by RECOVERY_REVIEWED |
| `OfficeHistory.RefsExactly` | runtime/ai_office/workflow.py:147-163 | the refs on record are exactly those of the handoff's assignment and of the gate call's completion |
| `OfficeHistory.ReportedRefs` | runtime/ai_office/workflow.py:165-171 | the reported run names the assignment of the effective handoff and the fan-in of the effective gate call, each only once it was given |
| `OfficeHistory.NothingPending` | runtime/ai_office/workflow.py:164 | a coordinator run never has a pending approval or manual action on record, not even while it waits for approval |
| `OfficeWorkflow.WorkflowCoordinator.Transition` | runtime/ai_office/workflow.py:141-171 | one call is one step of a run and reports the committed snapshot; an error leaves the store alone, or nothing loading when a text with a line separator was written |
| `Qualification.ScanResults` | runtime/full_mcp/qualification.py:455-461 | the results whose sources meet the changed paths |
| `Qualification.ScanEvidence` | runtime/full_mcp/qualification.py:462-466 | the evidence that uses a stale result |
| `Qualification.ComputeInvalidation` | runtime/full_mcp/qualification.py:451-481 | the incremental invalidation |
| `Qualification.InvalidGatesExactly` | runtime/full_mcp/qualification.py:467-475 | the listed gates are exactly the invalidated ones, in gate order |
| `QualificationAgreement.TouchedIsStale` | runtime/full_mcp/qualification.py:162-176 | a result that was fresh is rejected now exactly when a changed path touches it |
| `QualificationAgreement.EvidenceStaleExactly` | runtime/full_mcp/qualification.py:214-239 | evidence that was fresh is rejected now exactly when it uses a stale result |
| `QualificationAgreement.StaleSetsExact` | runtime/full_mcp/qualification.py:451-466 | the incremental stale sets are what the from-scratch tests reject |
| `QualificationAgreement.InvalidationMonotone` | runtime/full_mcp/qualification.py:451-481 | more changed paths never invalidate less |
| `GateDecisions.AnswersExactly` | runtime/full_mcp/qualification.py:370-448 | a gate is decided, and nothing raises, iff the records it validates are sealed and bound, the needed ids are indexed, and no freshness scan meets a broken result before a failing ref |
| `GateDecisions.DecisionExactly` | runtime/full_mcp/qualification.py:388-424 | GO iff every needed id is selected, passing and fresh, every earlier gate GO, every needed official name passed, no finding a blocker or major, no unauthorized change and no remediation pending; CONDITIONAL_GO and NO_GO as iffs in the same terms |
| `GateDecisions.PoliciesExactly` | runtime/full_mcp/qualification.py:16-28 | the needed evidence, official names and prerequisites of each gate |
| `GateDecisions.RecordExactly` | runtime/full_mcp/qualification.py:425-446 | every field of the sealed gate record |
| `GateDecisions.GoDigestCommits` | runtime/full_mcp/qualification.py:425-447 | two decisions with one GO digest have the same gate, index, review and official results, and for every needed id the same evidence and results |
| `GateDecisions.EvaluateGate` | runtime/full_mcp/qualification.py:370-448 | the flag-clearing loops answer iff the records are in order, and decide as `DecisionExactly` says |
| `QualificationAgreement.NotListedStaysGo` | runtime/full_mcp/qualification.py:451-481 | a GO gate that is not listed evaluates to the same GO record on every file state that differs only on the changed paths |
| `QualificationAgreement.ListedIffNoLongerGo` | runtime/full_mcp/qualification.py:370-481 | with exact changed paths and agreeing evidence maps, a GO gate is listed iff evaluating it again is no longer GO |
| `InvalidationCascade.CascadeExactly` | runtime/full_mcp/qualification.py:451-481 | for six recorded GO gates, every gate behind a listed one is listed iff the stale evidence misses gates 3 and 4 or reaches both gate 4 and gate 5 |
| `InvalidationCascade.GatesFourAndFiveSkipped` | runtime/full_mcp/qualification.py:16-23 | six evaluated GO gates and one changed file that only EVD-001 rests on: exactly gates 1, 2, 3 and 6 are listed |
| `LinePatch.AcceptedExactly` | runtime/full_mcp/filesystem_service.py:127-137 | the edit check accepts exactly ascending, disjoint, in-range edits |
| `LinePatch.FirstErrorExactly` | runtime/full_mcp/filesystem_service.py:127-137 | which error a refused edit list gives: that of its first edit that is no range, or that overlaps or exceeds the file |
| `LinePatch.CheckEdits` | runtime/full_mcp/filesystem_service.py:127-137 | the checking loop returns the first error |
| `LinePatch.SpliceEdits` | runtime/full_mcp/filesystem_service.py:138-144 | the splice loop |
| `LinePatch.SpliceIsSequential` | runtime/full_mcp/filesystem_service.py:138-144 | the single pass equals applying the edits one at a time from last to first |
| `LinePatch.LineCountConserved` | runtime/full_mcp/filesystem_service.py:138-148 | new line count = old − changed + replacement lines |
| `LinePatch.UneditedLinesKept` | runtime/full_mcp/filesystem_service.py:140-144 | every unedited line is kept, at its place plus the growth before it |
| `LinePatch.UneditedOrderKept` | runtime/full_mcp/filesystem_service.py:140-144 | unedited lines keep their order |
| `LinePatch.RereadExactly` | runtime/full_mcp/filesystem_service.py:145-146 | re-splitting the written text gives the computed lines iff a kept newline ends some line, or none is kept and the last line is not empty |
| `LinePatch.WriteIsCompareAndSwap` | runtime/full_mcp/filesystem_service.py:63-93 | a permitted write replaces an existing file iff the caller named its content and creates a missing one iff the caller named no content, with or without expecting absence; each refusal as an iff, the path policy included |
| `LinePatch.PatchedExactly` | runtime/full_mcp/filesystem_service.py:119-146 | a patch is accepted iff the base hash names a UTF-8 file and the edits are accepted; its text is the sequential form, ending in a newline iff asked for or kept |
| `LinePatch.FilesystemService.Write` | runtime/full_mcp/filesystem_service.py:63-106 | its errors in order, or exactly one file replaced |
| `LinePatch.FilesystemService.Patch` | runtime/full_mcp/filesystem_service.py:108-151 | its errors in order, or the spliced text written against the base hash |
| `McpCalls.OncePerInstance` | runtime/full_mcp/authorization.py:124-136 | one runtime instance dispatches each request id at most once |
| `McpCalls.EffectOnceEver` | runtime/orchestrator/tool_authorization.py:402-465 | each effect identity is dispatched at most once over all restarts and contexts, and only behind its intent |
| `McpCalls.OnceEverExactly` | runtime/full_mcp/runtime.py:325-341 | a request id is dispatched at most once over all restarts iff the operation changes state and every instance binds it to one identity, or none has a contract for it |
| `McpCalls.DispatchedTwice` | runtime/full_mcp/runtime.py:455-471 | otherwise a restart between dispatch and seal dispatches it again |
| `McpCalls.EventsCountUp` | runtime/full_mcp/observability.py:68-89 | the events of each id are numbered exactly 1 to n |
| `McpCalls.SealedForGood` | runtime/full_mcp/observability.py:91-121 | a result file never changes and its id is never dispatched again, restarts included |
| `McpRuntime.FullMCPRuntime.constructor` | runtime/full_mcp/runtime.py:611-651 | a new instance starts with an empty guard over the durable state |
| `McpRuntime.FullMCPRuntime.NextSequence` | runtime/full_mcp/observability.py:78-84 | the max-scan gives one more than the largest number of that id |
| `McpRuntime.FullMCPRuntime.SealResult` | runtime/full_mcp/observability.py:103-110 | only a missing result file is created |
| `McpRuntime.FullMCPRuntime.FinishCall` | runtime/full_mcp/runtime.py:530-608 | event, then result, and the response for each way recording can go |
| `McpRuntime.FullMCPRuntime.RunService` | runtime/full_mcp/runtime.py:465-471 | one dispatch, and a receipt for a completed state change |
| `McpRuntime.FullMCPRuntime.RunConsumed` | runtime/full_mcp/runtime.py:461-471 | preflight, intent, dispatch: what is dispatched and how it ends |
| `McpRuntime.FullMCPRuntime.Admit` | runtime/full_mcp/runtime.py:443-460 | a request is admitted iff its metadata is readable and bound, operation, arguments, contract and authorization are in order, and its id has neither a result nor a place in the guard; otherwise the first error in that order |
| `McpRuntime.FullMCPRuntime.Call` | runtime/full_mcp/runtime.py:436-505 | when the service is dispatched, and the whole durable effect and response of a call |
| `McpRuntime.AnswerExactly` | runtime/full_mcp/runtime.py:436-608 | for every request: COMPLETED iff every check passed, the service ran without error and the ending was recorded; FAILED iff the code is one of the eleven run-time codes, BLOCKED for the other twenty-one; which error each failing check gives |
| `ReportIndex.CollectSections` | runtime/ai_office/report_index.py:10-15 | the section loop |
| `ReportIndex.RenderIsJoined` | runtime/ai_office/report_renderers.py:27-40 | a printed report is its lines joined with a final newline |
| `ReportIndex.CollectRecovers` | runtime/ai_office/report_index.py:10-15 | the parser files every printed section under its heading and goes on behind them, whatever follows |
| `ReportIndex.RoundTripExactly` | runtime/ai_office/report_index.py:10-24 | for every report whose headings can be told from its contents, line breaks in any field included, the index has its type, target, date, status, purpose, read-when line and whole summary iff the indexed fields are single trimmed lines, the purpose is trimmed without empty lines or foreign breaks, and there is a summary of non-empty items |
| `ReportIndex.IndexRecoversReport` | runtime/ai_office/report_renderers.py:27-40 | for single-line fields, iff they are tidy and there is a summary |
| `ReportIndex.PurposeExactly` | runtime/ai_office/report_index.py:22 | a purpose is given back unchanged iff it is trimmed and has no empty line and no break but newlines |
| `ReportIndex.HeadingItemTakesPurpose` | runtime/ai_office/report_index.py:10-15 | a summary item with a heading line inside replaces the purpose by the text behind it |
| `ReportIndex.RepeatedPurposeRecovers` | runtime/ai_office/report_index.py:10-24 | a later field that repeats the purpose under its heading leaves the index as it was |
| `ReportIndex.EmptySummaryReadsUnknown` | runtime/ai_office/report_renderers.py:6-7 | an empty summary is read back as the fact "Unknown", in every report whose headings can be told from its contents |
| `CodexTurn.RunTurn` | runtime/orchestrator/codex_dynamic_transport.py:312-399 | the message loop |
| `CodexTurn.RequestIdsCountUp` | runtime/orchestrator/codex_dynamic_transport.py:306-310 | client request ids are 1, 2, 3, ... and no pending request is consumed twice |
| `CodexTurn.ToolCallsAnsweredExactly` | runtime/orchestrator/codex_dynamic_transport.py:366-394 | over every inbound sequence, the tool calls taken are answered exactly once each in order, except a crashing one, iff none clashes with an id of the client's |
| `CodexTurn.ClashingToolCallUnanswered` | runtime/orchestrator/codex_dynamic_transport.py:336-353 | a tool call stays unanswered iff its id is taken as a response |
| `CodexTurn.TextIdsNeverClash` | runtime/orchestrator/codex_dynamic_transport.py:349-353 | server ids that are no numbers never clash |
| `CodexTurn.ErrorReplyIsLast` | runtime/orchestrator/codex_dynamic_transport.py:380-393 | an error reply is the last thing sent and ends the turn as BROKER_BLOCKED |
| `CodexTurn.TurnEndsExactly` | runtime/orchestrator/codex_dynamic_transport.py:312-399 | over every inbound sequence the turn ends as COMPLETED, FAILED, BROKER_BLOCKED, with an error or with the crash signal iff the first input that ends it does so, in terms of messages sent and responses taken |
| `CodexTurn.TurnRunsExactly` | runtime/orchestrator/codex_dynamic_transport.py:312-399 | the turn runs on exactly as long as no input ends it |
| `CodexTurn.StepSendsExactly` | runtime/orchestrator/codex_dynamic_transport.py:336-394 | what is sent on each input, and which thread and turn are then known |
| `CodexTurn.TableHolds` | runtime/orchestrator/codex_dynamic_transport.py:347-365 | over every inbound sequence the pending table holds exactly the requests sent whose response was not taken |
| `CapabilityLifecycle.RetiredHasNoDependencies` | runtime/orchestrator/capability_lifecycle.py:205-206 | over every run, RETIRED implies no dependencies |
| `CapabilityLifecycle.DrainIsOneWay` | runtime/orchestrator/capability_lifecycle_store.py:117-146 | once assignment is disabled it stays so, dependencies only shrink, at most three transitions remain |
| `CapabilityLifecycle.ThreeMovesAreReached` | runtime/orchestrator/capability_lifecycle.py:31-35 | three is attained |
| `CapabilityLifecycle.PerformKeeps` | runtime/orchestrator/capability_lifecycle.py:197-219 | what every store operation keeps: the contract, normalised ids, no dependencies on entering RETIRED, and once disabled only fewer dependencies and states left |
| `CapabilityDependencies.AcquireExactly` | runtime/orchestrator/capability_lifecycle_store.py:117-125 | for every record: when acquiring succeeds, and that it leaves exactly the old ids and the new one, stripped, each once, with all other fields kept |
| `CapabilityDependencies.AcquiredSortedExactly` | runtime/orchestrator/capability_lifecycle_store.py:122 | the stored ids are in string order iff stripping keeps the order of the ids as given |
| `CapabilityDependencies.PaddedIdIsOutOfOrder` | runtime/orchestrator/capability_lifecycle_store.py:122 | a padded id is sorted before it is stripped and stored out of order |
| `CapabilityDependencies.ReleaseExactly` | runtime/orchestrator/capability_lifecycle_store.py:127-133 | for every record: when releasing succeeds, and that it leaves exactly the other ids, with all other fields kept |
| `CapabilityDependencies.DroppingKeepsOrder` | runtime/orchestrator/capability_lifecycle_store.py:130 | the other ids keep their order |
| `CapabilityDependencies.ReleaseUndoesAcquireExactly` | runtime/orchestrator/capability_lifecycle_store.py:117-133 | releasing by the text an id was acquired with lets it go iff that text is not padded |
| `CapabilityDependencies.TransitionExactly` | runtime/orchestrator/capability_lifecycle.py:197-219 | when a lifecycle transition succeeds, by the states its target is entered from, and the whole record it makes |
| `CapabilityDependencies.HeldUntilReleased` | runtime/orchestrator/capability_lifecycle.py:205-206 | from a successful acquire until the id is released, over every run, it is among the dependencies and no move to RETIRED succeeds |
| `CapabilityDependencies.SafeTextExactly` | runtime/orchestrator/capability_lifecycle.py:36-49 | which texts are identifiers |
| `CapabilityStore.SharedNameExactly` | runtime/orchestrator/capability_lifecycle_store.py:21-34 | two ids with different digest prefixes share a file name iff one spells the digested name of the other |
| `CapabilityStore.DigestedNameIsLegalId` | runtime/orchestrator/capability_lifecycle_store.py:21-34 | every legal id with an unsafe character has such a twin that is itself a legal, storable id |
| `CapabilityStore.NamesExactly` | runtime/orchestrator/capability_lifecycle_store.py:21-41 | the canonical and the legacy file name of every id, and when there is none |
| `CapabilityStore.PutGoesExactly` | runtime/orchestrator/capability_lifecycle_store.py:74-95 | in any directory, put is accepted iff the record is sealed under an id of 1 to 180 characters, and writes the legacy file iff that holds this contract and no canonical file exists |
| `CapabilityStore.FetchExactly` | runtime/orchestrator/capability_lifecycle_store.py:52-115 | in any directory, what get finds, misses and refuses |
| `CapabilityStore.PutIsCanonical` | runtime/orchestrator/capability_lifecycle_store.py:74-95 | put writes the contract's own canonical file and nothing else |
| `CapabilityStore.FetchIsOwn` | runtime/orchestrator/capability_lifecycle_store.py:97-115 | get finds a record iff the canonical file holds the asked contract, and returns that record |
| `CapabilityStore.PutIsReadBack` | runtime/orchestrator/capability_lifecycle_store.py:87-115 | put is read back, whatever files are there |
| `CapabilityStore.PutDisturbsExactly` | runtime/orchestrator/capability_lifecycle_store.py:74-115 | in any directory, put changes what get returns for another contract iff it goes to their shared canonical name, or the other has no canonical file and put goes to its legacy name |
| `CapabilityStore.LegacyOverwrittenExactly` | runtime/orchestrator/capability_lifecycle_store.py:74-115 | with different canonical names, iff the other has no canonical file and put goes to its legacy name |
| `CapabilityStore.BuiltIsPlaced` | runtime/orchestrator/capability_lifecycle_store.py:87-95 | every directory built from an empty one has each file at its own canonical name |
| `CapabilityStore.DictionaryIffNamesApart` | runtime/orchestrator/capability_lifecycle_store.py:52-146 | over every run of puts and updates from an empty directory, the files behave like a dictionary keyed by contract id iff no two stored ids share a file name |
| `CapabilityStore.StoreRefinesDictionary` | runtime/orchestrator/capability_lifecycle_store.py:21-146 | the same iff no stored id spells the digested name of another, given digest prefixes that tell the stored ids apart |
| `CapabilityStore.TwinOverwrites` | runtime/orchestrator/capability_lifecycle_store.py:87-115 | storing the twin of a digested id makes the first one unreadable |
| `CapabilityStore.NoRetiredDependencies` | runtime/orchestrator/capability_lifecycle_store.py:117-146 | over every run of puts and updates of many contracts, no lookup returns a retired record with dependencies |
| `CapabilityStore.StoreDrainIsOneWay` | runtime/orchestrator/capability_lifecycle_store.py:117-146 | a contract found disabled stays found and disabled in every later directory, its dependencies only shrink, at most three transitions happen |
| `CapabilityStore.StoreHoldsUntilReleased` | runtime/orchestrator/capability_lifecycle_store.py:117-133 | an acquire the directory took is held in every later directory until it is released, and no stored move to RETIRED changes anything |
| `CapabilityStore.CanonicalFileWins` | runtime/orchestrator/capability_lifecycle_store.py:148-165 | in any directory the listing keeps a contract's canonical file, else its first file in name order |
| `CapabilityStore.ListingIsLookups` | runtime/orchestrator/capability_lifecycle_store.py:148-165 | in a built directory the listing is exactly the results of get, one for each file, in the order of the sorted file names |
| `CapabilityStore.LegacyFileIsOverwritten` | runtime/orchestrator/capability_lifecycle_store.py:37-41 | a file under a legacy name is not protected |
| `CapabilityStore.CapabilityLifecycleStore.PutRecord` | runtime/orchestrator/capability_lifecycle_store.py:87-95 | put's new directory |
| `CapabilityStore.CapabilityLifecycleStore.Update` | runtime/orchestrator/capability_lifecycle_store.py:117-146 | acquire, release and drain read, change and write back one record; acquire adds exactly the stripped id, release leaves exactly the others |
| `CapabilityStore.CapabilityLifecycleStore.ListRecords` | runtime/orchestrator/capability_lifecycle_store.py:148-165 | the listing loop over the sorted names, or an error for an invalid record |
| `Mprf.CheckAdmissions` | runtime/mprf/registry.py:56-71 | the loop accepts exactly distinct admissions of known models that are not future, with one current per provider; that a model is named is checked by the admission record and assumed of a valid registry |
| `Mprf.AdvanceReplacesOne` | runtime/mprf/lifecycle.py:140-164 | a transition raises the version pair of its identity, leaves all others unchanged, keeps identities distinct and sorted |
| `Mprf.AdvanceExactly` | runtime/mprf/lifecycle.py:140-156 | a transition is accepted iff it is a first fact with version 1, the next version, or version 1 under a newer registry |
| `Mprf.EvaluatesExactly` | runtime/mprf/lifecycle.py:84-115 | eligible iff bound to the expected versions with health, quota and rate good and every capability present; each reason as an iff |
| `Mprf.FactExactly` | runtime/mprf/registry.py:77-103 | for every registry and query each reason as an iff on the registry's contents; the first current admission gives model and id |
| `Mprf.QueryExactly` | runtime/mprf/runtime.py:40-58 | the lifecycle query is eligible iff the admission is and a good fact of the admitted model is bound to the current registry version |
| `Mprf.VersionsNeverFall` | runtime/mprf/lifecycle.py:140-164 | over every run of transitions no version pair falls |
| `Mprf.FactFollowsCurrent` | runtime/mprf/registry.py:77-103 | eligibility follows the provider's one current admission |
| `Mprf.ExportRouterSnapshot` | runtime/mprf/runtime.py:60-98 | the export loop's two dictionaries |
| `Mprf.ExportAgreesWithQuery` | runtime/mprf/runtime.py:40-98 | exported eligibility = the query without a model = the query for some model, which is the exported one, bound to the current registry version |
| `ContextAssembly.BindSources` | runtime/ai_office/context_assembly.py:93-106 | the fold over sources |
| `ContextAssembly.BoundKeys` | runtime/ai_office/context_assembly.py:93-106 | each key keeps a source of minimum rank with which every source of that rank agrees |
| `ContextAssembly.AssembleSelects` | runtime/ai_office/context_assembly.py:86-118 | the selection has one such source per key, sorted |
| `ContextAssembly.SelectsBestOfEachKey` | runtime/ai_office/context_assembly.py:11-17 | the items are exactly the first source of the best tier of each key, listed by tier (user decision, approved plan, repository, state, assumption) and by key within a tier |
| `ContextAssembly.OrderDoesNotMatter` | runtime/ai_office/context_assembly.py:86-118 | two orders of the same requirements and sources that both succeed give the same requirement digests and the same keys, tiers and digests in the same order |
| `ContextAssembly.SucceedsExactly` | runtime/ai_office/context_assembly.py:93-106 | an order is bound iff each source agrees with the earlier ones of its key and tier or an earlier one of its key outranks it |
| `ContextAssembly.AssemblesExactly` | runtime/ai_office/context_assembly.py:64-118 | for every list of requirements and sources, when assembly succeeds and when it raises which error, a requirement digest given twice included |
| `ContextAssembly.EveryOrderSucceedsExactly` | runtime/ai_office/context_assembly.py:93-106 | every order succeeds iff no two sources of one key and tier differ in digest |
| `ContextAssembly.SomeOrderSucceedsExactly` | runtime/ai_office/context_assembly.py:93-106 | some order succeeds iff the leading sources of each key agree, and then the order by rank does |
| `ContextAssembly.SuccessDependsOnOrder` | runtime/ai_office/context_assembly.py:103-104 | one order succeeds where another raises |

## Left out

- Real file I/O, locks, symlink and permission checks, JSON encoding, regular expressions, clocks and durations; malformed JSON appears only as a line, file or payload that the reader rejects.
- HTTP, GitHub REST, git, subprocess and MCP server clients; what they answer is a parameter.
- The adapter without a configured ledger path keeps nothing durable and is not modelled.
- A ledger write that fails while the process lives on: a failed write is modelled as the process ending there, so the in-memory queues never run ahead of the pending file.
- DeliveryAdapter.GitHubControlAdapter.constructor: covers ledgers written by the adapter itself, not hand-edited ones.
- McpRuntime.FullMCPRuntime.constructor: covers durable state written by the runtime itself.
- Qualification records: field presence, hex formats and git SHA shapes are one flag per record and sorted reference lists are sets; the build helpers and the official-exit, hand-off and manifest records are not modelled, since no freshness or gate decision reads them.
- OfficeWorkflow.ReportAcceptsExactlyClosing: sorted reference tuples of the report are sets, and the KPI and status digests are not modelled.
- OfficeWorkflow.WorkflowCoordinator.Transition: office, department and schedule identifiers of the returned run are not modelled.
- CapabilityStore.CapabilityLifecycleStore.Update: starts from a directory built by the store itself; per-contract locks are not modelled.
- CapabilityStore.CapabilityLifecycleStore.PutRecord: a record assembled by hand around `create` with ids that `get` would refuse to read back is not modelled as unreadable.
- CapabilityStore.SharedNameExactly: the digest prefix is any function into twenty hexadecimal digits; non-ASCII letters, which stored ids never contain, count as unsafe characters.
- CodexTurn.RunTurn: a send that fails is not modelled.
- Strings hold Unicode scalar values; a lone surrogate appears only where it makes the encoder raise, as a flag or payload case of the delivery adapter and of the office commands.
- ReportIndex.RoundTripExactly: a heading line inside a field is outside the if-and-only-if; `HeadingItemTakesPurpose` and `RepeatedPurposeRecovers` show that the round trip can go either way there.
- LinePatch.FilesystemService.Write: parent-directory checks are part of the policy flag.
- `is_report_relevant`, the human report, `search`, `metadata`, `classify_delivery_pending` and `has_durable_ack` without a binding: branch-level claims only.
- Recovery, governance, foundry, approval and binding validators, agents and GUI: finite tables and equality checklists.
