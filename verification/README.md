# Verification model of the transaction service

A Dafny model of the parts of the VC-API transaction service that keep state across requests, with proofs of what
every run of them guarantees. `dafny verify dfyconfig.toml` checks the whole project.

## What is modelled

**The asynchronous Open Badges pass** is the core. A POST stores the synchronous results with a queued verify task; a
FIFO drainer runs workers that load the exchange, mark it running, verify and merge credential by credential and commit;
polling GETs run sweeps that retry or give up on a lapsed deadline. Workers and sweeps hold snapshots across awaits and meet
only at a compare-and-swap keyed on `attemptId`.

- `VerificationResults` - the result record and the merges of the worker, as loops, functions and their algebra.
- `VerifyTasks`, `TransactionManagers`, `VerifyTaskQueues`, `VerifyTaskWorkers`, `VerifyTaskSweeps` - the lifecycle of a verify
  task, the store with its compare-and-swap, the queue, and the uninterrupted run of one worker and of one sweep.
- `Protocol` - the step machine: each step is the code one worker or sweep runs between two awaits, so a list of steps is
  an interleaving of any number of them, with crashes, eviction and a clock. `ProtocolInvariant` proves its inductive invariant,
  `ProtocolSafety` what follows for every run, `ProtocolDeadlines` that attempts last their time,
  `ProtocolSettling` how exchanges settle, `ProtocolFinality` when they stay as they are, `ProtocolRefinement` that the pass equals the inline pass, `ProtocolProcess` that a process with the FIFO queue is a
  serial run of the machine, `ProtocolRuns` that the machine and the methods are the same code, `ProtocolReverts` that
  neither outcome is final.
- `VerifyWorkflow`, `ClaimsMatching`, `VerifyPost` - the synchronous half: claims, issuers, outcome, the POST, and its
  link to the protocol.

**The single-use state machines**: `Oid4vci` (OpenID for Verifiable Credential Issuance 1.0, sections 4.1, 6, 7, 8, next to
the VC-API claim flow) and `Oid4vp` (OpenID for Verifiable Presentations 1.0, section 8.2, next to the VC-API verify
flow). `Oid4vpRaces` runs the presentation requests between the steps of workers and sweeps.

**Two self-contained pieces**: `ProblemDetails` (the traversal of nested union errors) and `HttpCache` (the caching GET
service, with overlapping gets). `Joining`, `Decimal` and `Wrappers` are helpers.

Time is an integer of milliseconds. UUIDs, codes, tokens and nonces come from counters, so a new one is always unused. Answers of
the verifier, of DID authentication, of signing and of the network are parameters or steps that may be anything, failures
included.

## Where the code differs from its comments

- `gave-up` and `complete` are called terminal, but `markGaveUp` keeps the attempt id and sweeps write a record built
  from their own snapshot. `SettledIsFinalIff` gives the exact condition under which a settled exchange is final,
  `CompleteCanRevert` a run in which a completed exchange becomes active again, and `GaveUpCanRevert` one in which an exchange that
  gave up is marked running and then settled, even completed, by its last worker.
- Re-merging the same checks is not idempotent: `RemergeIdempotentIff` says exactly when it is.
- The worker settles on one flag while the POST loops over the credentials: `PassDecisionIff` says exactly when the two
  agree. Under the guarantee of `docs/verification-payload.md:116-118`, that fatal failures flip the flag, and if accepted
  presentations have accepted credentials only, they always do (`GuaranteedDecision`); the inputs of `OneFlagCanMissRegistryFailure`, on which they do not, lie outside it.
- `verify-task.ts:15` says that a sweep may bump a failed task; `sweepIfTimedOut` sweeps only queued and running ones. So
  one throw leaves the exchange active for good (`OneThrowStrands`), polls settle an active exchange exactly if it is
  not failed (`PollsSettleIff`), and a failed exchange changes again exactly if a worker or sweep of its attempt is still
  out or a duplicate queue entry reruns it (`RestingIsFinalIff`).
- `docs/oid4vp-1.0-verifier.md:158-160` calls the correlation token single-use. Workers and sweeps write whole records from
  their snapshots, so one that loaded the record before can bring the old binding back: `BindingKeptIff` says exactly when,
  `SingleUseUnlessRaced` that single use holds otherwise, and `TwoResponsesAccepted` gives runs on which it does not.
- Neither claims nor issuer validation influence the outcome of an exchange (`ClaimsDoNotDecide`).
- `docs/oid4vci-pre-authorized-flow.md:172-174` says that all three lifetimes are clamped to the exchange's; only the code's
  is (`LifetimesBounded`).
- Joined claim keys are ambiguous when a path segment contains a dot: `TwoPassExactly` says what the matcher decides on
  every input, `TwoPassIsDirect` when that is the direct check, and `TwoClaimsAgreeIff` that every collision of two paths is told
  wrong on some credential.
- Label letters do not stop at `z`: labels stay distinct until they wrap around at 65536 sibling unions
  (`UnionLabelsDifferIff`).

## Model

| member | source | states |
|---|---|---|
| ProtocolRefinement.SucceededIsInlinePass | src/lib/verify-task/verify-task-worker.ts:65-148 | In every interleaving with one drainer, a verifier that depends on the credential alone and no give-up, a stored `succeeded` carries exactly the inline Open Badges pass over the posted results: each recorded credential merged once with its own verdict, whatever retries, stale runs, crashes and overwrites came before |
| ProtocolRefinement.SucceededAfterGiveUp | src/lib/verify-task/sweep-verify-task.ts:102-125 | With give-ups allowed, the only other stored success is the pass over the timed-out results, and it is `invalid` |
| ProtocolSafety.CompleteIsEarned | src/lib/verify-task/verify-task-worker.ts:132-147 | Any number of workers and sweeps: a stored `complete` is verified, its base was, every verdict merged on any way to its results was true, and no timeout check was added |
| ProtocolSafety.StoredResults | src/lib/verify-task/sweep-verify-task.ts:82-125 | In every reachable state an active exchange has exactly the posted results, a settled state follows the flag, and at most one timeout check follows the posted presentation checks |
| ProtocolSafety.AttemptIdentity | src/lib/verify-task/verify-task.ts:57-104 | Whatever shares an attempt id, in the store or in a snapshot, agrees on attempt, cap, deadline and indices |
| ProtocolSafety.RacingSweepsAgree | src/lib/verify-task/sweep-verify-task.ts:74-77 | Two sweeps racing over one attempt never split between retry and give-up |
| ProtocolSafety.NoResurrection | src/lib/verify-task/verify-task.ts:57-72 | An attempt id once replaced never returns to the store, over every continuation |
| ProtocolSafety.WritesAreKeyed | src/transactionManager.ts:99-121 | Every change of the stored record, eviction aside, is made by an actor that captured the stored attempt id |
| ProtocolSafety.OlderAttemptsAreInert | src/transactionManager.ts:85-88 | After a committed retry, every remaining step of an older run or sweep leaves the store unchanged, at any later time |
| ProtocolSafety.OnlyRetryActivates | src/lib/verify-task/sweep-verify-task.ts:82-100 | The only step that makes a settled exchange active is a retry committed under the stored attempt id |
| ProtocolSafety.GaveUpIsNeverActiveAgain | src/lib/verify-task/sweep-verify-task.ts:102-125 | An exchange that gave up is never active again, even when a late worker commits over it |
| ProtocolSafety.Conservation | src/lib/verify-task/sweep-verify-task.ts:74-100 | Attempt is one plus committed retries and within the cap; enqueues are at most one per attempt, runs at most one per enqueue, verifier calls, thrown ones included, at most cap times indices |
| ProtocolDeadlines.AttemptsLastTheirTime | src/lib/verify-task/sweep-verify-task.ts:71-77 | Over every run an attempt is replaced only at or past its deadline, deadlines of attempts are at least `deadlineMs` apart, and an exchange gives up or shows a timeout only at or past the deadline of its last attempt |
| ProtocolFinality.SettledIsFinalIff | src/lib/verify-task/verify-task-worker.ts:76-147 | A settled exchange stays as it is in every continuation without eviction if and only if no outstanding worker or sweep that took its snapshot under the stored attempt id can still write something else; a worker that made its last call and merged what is stored cannot |
| ProtocolFinality.RestingIsFinalIff | src/lib/verify-task/verify-task-worker.ts:76-147 | The same for succeeded, given-up and failed exchanges alike: a failed one stays as it is if and only if, besides, no queue entry is left or still to be made |
| ProtocolFinality.OneThrowStrands | src/lib/verify-task/sweep-verify-task.ts:68 | One throw by the first worker leaves the exchange active and failed, and no continuation ever changes it |
| ProtocolSettling.SweepsExhaustAttempts | src/lib/verify-task/sweep-verify-task.ts:58-125 | If no worker finishes, an active exchange settles exactly at the (cap minus attempt plus one)th effective sweep, as `invalid`, with the posted results plus one timeout check |
| ProtocolSettling.PollingGivesUp | src/lib/verify-task/sweep-verify-task.ts:58-125 | Polls alone, one per lapsed deadline, are enough to settle a queued or running exchange as given up |
| ProtocolSettling.PollsSettleIff | src/lib/verify-task/sweep-verify-task.ts:65-78 | Some number of polls settles an active exchange whose task is not terminal if and only if that task is not failed |
| ProtocolRuns.WorkerScheduleIsMethod | src/lib/verify-task/verify-task-worker.ts:65-148 | The worker's steps, uninterrupted, leave exactly the record `ProcessVerifyTask` promises and touch nothing else |
| ProtocolRuns.SweepScheduleIsMethod | src/lib/verify-task/sweep-verify-task.ts:58-125 | The sweep's steps, uninterrupted, leave the record and the queue entry `SweepIfTimedOut` promises |
| ProtocolReverts.CompleteCanRevert | src/lib/verify-task/sweep-verify-task.ts:89-94 | Whenever retries are allowed and the pass verifies, some run completes the exchange and an earlier sweep snapshot makes it active again |
| ProtocolReverts.GaveUpCanRevert | src/lib/verify-task/verify-task.ts:100-104 | For every number of attempts and every verifier, some run gives up, is then marked running while `invalid`, and is then settled by the pass of its last worker, as `complete` whenever that pass verifies |
| ProtocolProcess.ProcessIsSerialRun | src/lib/verify-task/enqueue-verify-task.ts:65-81 | Whatever a process does with its queue, other exchanges and crashes included, its world is that of a run of the machine with one worker at a time |
| ProtocolProcess.HandOversRun | src/lib/verify-task/enqueue-verify-task.ts:65-81 | Every hand-over of the exchange starts a run, when no other is under way: runs are at most enqueues by the queue alone |
| ProtocolProcess.EveryEnqueueRuns | src/lib/verify-task/enqueue-verify-task.ts:56-81 | Unless the process crashes no enqueue is forgotten: once nothing waits runs equal enqueues, and while something waits a drainer is there |
| ProtocolProcess.ProcessSucceedsInline | src/lib/verify-task/verify-task-worker.ts:65-148 | The inline-pass refinement with nothing assumed of the drainer |
| ProtocolInvariant.NextInv | src/lib/verify-task/verify-task-worker.ts:65-148 | Every step of worker, sweep, queue, clock, crash or eviction keeps the invariant |
| ProtocolInvariant.ReachableInv | src/workflows/verifyWorkflow.ts:786-821 | Every world reachable from the POST satisfies the invariant |
| VerifyPost.PostStartsProtocol | src/workflows/verifyWorkflow.ts:715-743 | A record with a queued pass that the POST stores is a valid start of the protocol over the synchronous results, with distinct indices inside them |
| VerifyPost.AsyncDecisionIsSyncDecision | src/workflows/verifyWorkflow.ts:352-383 | End to end, a success without give-up is stored in the state the synchronous loop chooses for the merged results and the exchange's own trusted issuers if and only if one flag is enough for what was posted and answered |
| VerificationResults.MergeSummaries | src/lib/verify-task/verify-task-worker.ts:153-165 | The loop with its `seen` set computes the left-to-right union by id, existing entries as a prefix |
| VerificationResults.SummaryUnionIds | src/lib/verify-task/verify-task-worker.ts:152-165 | No suite id is lost and none invented |
| VerificationResults.SummaryUnionUnique | src/lib/verify-task/verify-task-worker.ts:152-165 | Ids stay unique, whatever repeats the incoming list has |
| VerificationResults.SummaryUnionAssociative | src/lib/verify-task/verify-task-worker.ts:153-165 | Merging summaries is associative |
| VerificationResults.SummaryUnionIdempotent | src/lib/verify-task/verify-task-worker.ts:153-165 | Merging the same summaries twice changes nothing |
| VerificationResults.SummaryUnionLookup | src/lib/verify-task/verify-task-worker.ts:231-232 | A reader finds the existing summary for an id, else the first incoming one |
| VerificationResults.MergeResultsParts | src/lib/verify-task/verify-task-worker.ts:170-187 | After a merge the registry checks are exactly the incoming ones and the others the existing ones followed by those with new ids |
| VerificationResults.MergedChecks | src/lib/verify-task/verify-task-worker.ts:170-187 | Check by check: which old and which incoming checks are there after a merge |
| VerificationResults.RemergeSettles | src/lib/verify-task/verify-task-worker.ts:175-187 | Re-merging the same list gives a permutation that is a fixed point from then on |
| VerificationResults.RemergeIdempotentIff | src/lib/verify-task/verify-task-worker.ts:175-187 | A re-merge is the same list if and only if the incoming list has no registry check or no new other check |
| VerificationResults.RemergeCanReorder | src/lib/verify-task/verify-task-worker.ts:186 | The first re-merge can differ from the first merge |
| VerificationResults.MergesCommute | src/lib/verify-task/verify-task-worker.ts:243-291 | Merges at different credentials commute |
| VerificationResults.MergeKeepsOverallImpliesEach | src/lib/verify-task/verify-task-worker.ts:275-290 | One merge keeps "overall verified implies every credential verified" |
| VerificationResults.ApplyMergesVerdict | src/lib/verify-task/verify-task-worker.ts:237-290 | After any merges in any order the flag is the base flag AND every verdict, and presentation-level fields are untouched |
| VerificationResults.ApplyMergesKeepsOverallImpliesEach | src/lib/verify-task/verify-task-worker.ts:275-290 | Any sequence of merges keeps "overall verified implies every credential verified" |
| VerificationResults.FoldIsPass | src/lib/verify-task/verify-task-worker.ts:103-121 | The loop over distinct indices merges each recorded credential exactly once, leaves the rest alone and ANDs the verdicts, independent of order |
| VerificationResults.PassOfCredential | src/lib/verify-task/verify-task-worker.ts:275-290 | After the pass a recorded, present credential is verified exactly if it was and its own answer is; its credential is the posted one and its checks and summaries take in that answer; any other entry is untouched |
| VerificationResults.MergesOfCredential | src/lib/verify-task/verify-task-worker.ts:275-290 | After any merges a credential is verified exactly if it was and every verdict merged into it was true |
| VerificationResults.NormalizedCheck | src/lib/verify-task/verify-task-worker.ts:266-273 | A check keeps outcome and fatality; its id is its own, or suite and check where it is missing or empty |
| VerificationResults.PassUnique | src/lib/verify-task/verify-task-worker.ts:103-121 | At most one result fits the description of the pass |
| VerificationResults.FoldKeepsOverallImpliesEach | src/lib/verify-task/verify-task-worker.ts:103-132 | The whole pass keeps "overall verified implies every credential verified" |
| TransactionManagers.CasRecord | src/transactionManager.ts:93-132 | The swap commits the update of the current record exactly when its attempt id is the expected one, and otherwise changes nothing |
| TransactionManagers.AttemptIdIff | src/transactionManager.ts:123-132 | Only a verify exchange with a task has an attempt id |
| TransactionManagers.TransactionManager.GetExchangeData | src/transactionManager.ts:24-33 | A record is found exactly under its id and workflow |
| TransactionManagers.TransactionManager.SaveExchange | src/transactionManager.ts:51-58 | The plain save overwrites one record |
| TransactionManagers.TransactionManager.SaveExchangeWithCAS | src/transactionManager.ts:99-121 | The save on the store is the swap on one record; no other record moves, and nothing moves unless it commits |
| VerifyTaskQueues.QueueIsSound | src/lib/verify-task/enqueue-verify-task.ts:35-81 | In every interleaving of enqueues, drain turns, processor failures and resets: one live drainer of the current generation, no lost wakeup, ids processed then ids waiting are the ids enqueued in order |
| VerifyTaskQueues.NothingIsLost | src/lib/verify-task/enqueue-verify-task.ts:56-81 | Over every list of steps, ids handed over followed by ids waiting are the ids the steps enqueued since the last reset, in order |
| VerifyTaskQueues.HandsOverOldest | src/lib/verify-task/enqueue-verify-task.ts:68-80 | A turn hands over exactly the oldest id, or ends the drainer |
| VerifyTaskQueues.OneProcessorCall | src/lib/verify-task/enqueue-verify-task.ts:56-81 | Without a reset at most one processor call is in flight |
| VerifyTaskQueues.DrainerEmptiesQueue | src/lib/verify-task/enqueue-verify-task.ts:65-81 | Left alone, the live drainer hands over every waiting id and then stops running |
| VerifyTaskQueues.VerifyTaskQueue.EnqueueVerifyTask | src/lib/verify-task/enqueue-verify-task.ts:56-63 | Pushes the id behind the others in any case, schedules a drainer exactly if none runs, and leaves the queue running |
| VerifyTaskQueues.VerifyTaskQueue.DrainTurn | src/lib/verify-task/enqueue-verify-task.ts:68-79 | One turn of the loop hands over the oldest id, or ends the drainer |
| VerifyTaskQueues.VerifyTaskQueue.Drain | src/lib/verify-task/enqueue-verify-task.ts:65-68 | A drainer armed before a reset does nothing |
| VerifyTaskQueues.VerifyTaskQueue.ProcessorSettled | src/lib/verify-task/enqueue-verify-task.ts:70-79 | Fulfilled or rejected, the processor's end is the same next turn |
| VerifyTaskQueues.VerifyTaskQueue.ResetVerifyTaskQueue | src/lib/verify-task/enqueue-verify-task.ts:100-105 | Drops waiting ids and outdates every outstanding drainer |
| VerifyTaskWorkers.ProcessVerifyTask | src/lib/verify-task/verify-task-worker.ts:65-148 | Outcome and stored record of an uninterrupted run, for each of not found, no task, terminal, missing results, registries or a call throwing, and success |
| VerifyTaskWorkers.SuccessSettles | src/lib/verify-task/verify-task-worker.ts:132-147 | A successful run stores `complete` exactly if the posted flag and every answer were true, else `invalid`, and each credential with its own verdict |
| VerifyTaskWorkers.FailureKeepsResults | src/lib/verify-task/verify-task-worker.ts:189-207 | A run fails exactly if results are missing or resolving the registries or a call throws; it keeps state and results and stores the reason |
| VerifyTaskWorkers.FirstThrowDecides | src/lib/verify-task/verify-task-worker.ts:103-124 | The pass ends with the message of the first call that throws |
| VerifyTaskWorkers.CommitFailure | src/lib/verify-task/verify-task-worker.ts:189-207 | A failure is swapped in over the current record, or lost to a newer attempt |
| VerifyTaskWorkers.RunPassIsFold | src/lib/verify-task/verify-task-worker.ts:103-121 | If no call throws, the pass is the plain fold |
| VerifyTaskWorkers.RunPassErrorStays | src/lib/verify-task/verify-task-worker.ts:103-130 | The first throw decides: later credentials are not verified |
| VerifyTaskSweeps.SweepIfTimedOut | src/lib/verify-task/sweep-verify-task.ts:58-125 | Before the deadline, or on an exchange that is not active, nothing changes; then healthy, retry and give-up, each with the stored record, the queue and the returned exchange, won or lost |
| VerifyTaskSweeps.SweepDecisions | src/lib/verify-task/sweep-verify-task.ts:63-125 | When a sweep acts, and every field of the retry or give-up it would write |
| VerifyTaskSweeps.AppendAllResult | src/lib/verify-task/sweep-verify-task.ts:188-210 | The flag drops, the check joins the end of the presentation checks, and nothing else changes; a missing result gets an empty shell |
| ClaimsMatching.ExtractCredentialClaims | src/workflows/verifyWorkflow.ts:190-218 | The nested loops compute the extracted map |
| ClaimsMatching.MatchClaimsAgainstRequirements | src/workflows/verifyWorkflow.ts:223-255 | Matched exactly when every claim is found under its key with an allowed value; the missing keys in order |
| ClaimsMatching.ExtractedLookup | src/workflows/verifyWorkflow.ts:196-215 | A key holds the value of the last claim with that key that resolves |
| Joining.JoinInjective | src/workflows/verifyWorkflow.ts:212 | A nonempty list whose parts are aligned, as those without separators are, can be read back from its join |
| ClaimsMatching.NoDotsIsFaithful | src/workflows/verifyWorkflow.ts:212-232 | Without dots in segments, different nonempty paths have different keys |
| ClaimsMatching.TwoPassIsDirect | src/workflows/verifyWorkflow.ts:190-255 | With faithful keys, extract-then-match reports matched exactly when each claim on its own resolves to an allowed value |
| ClaimsMatching.TwoPassExactly | src/workflows/verifyWorkflow.ts:190-255 | On every input: each claim is decided by the last resolving claim that shares its key |
| ClaimsMatching.OneClaimMatchesIff | src/workflows/verifyWorkflow.ts:202-247 | A claim on one value matches exactly if its path is there and it asks for no value or for the text of that one |
| ClaimsMatching.TwoClaimsAgreeIff | src/workflows/verifyWorkflow.ts:212-233 | For any two claims and their allowed values, the two passes are the direct check on every credential if and only if different nonempty paths have different keys |
| ClaimsMatching.MatchedThroughOtherKey | src/workflows/verifyWorkflow.ts:232-233 | For any colliding paths, a claim is reported matched through the other claim's key |
| ClaimsMatching.SatisfiedButNotMatched | src/workflows/verifyWorkflow.ts:240-247 | For any colliding paths, where the second claim allows a value the first does not, a satisfying credential is reported not to match |
| ClaimsMatching.DottedPathsCollide | src/workflows/verifyWorkflow.ts:212-233 | A dot in a segment makes such a collision |
| VerifyWorkflow.ValidateTrustedIssuers | src/workflows/verifyWorkflow.ts:298-340 | Issuer found exactly if listed; registry matched exactly if some successful registry check counts |
| VerifyWorkflow.DetermineExchangeOutcome | src/workflows/verifyWorkflow.ts:352-383 | `complete` exactly if verified, every credential verified and, with trusted issuers, no fatal registry failure |
| VerifyWorkflow.WorkerDecisionIff | src/lib/verify-task/verify-task-worker.ts:132 | The worker's one flag decides as the synchronous loop would if and only if the flag is down, or every credential is verified and, with trusted issuers, none has a fatal registry failure |
| VerifyWorkflow.PassDecisionIff | src/lib/verify-task/verify-task-worker.ts:103-132 | The same for the whole pass, with the condition read off the posted results, the verifier's answers and the settings |
| VerifyWorkflow.PassDecision | src/lib/verify-task/verify-task-worker.ts:103-132 | With no trusted issuers, and accepted presentations of accepted credentials only, the pass decides as the loop would |
| VerifyWorkflow.GuaranteedDecision | src/workflows/verifyWorkflow.ts:345-383 | With a library whose fatal failures flip the flag, and accepted presentations of accepted credentials only, the pass decides as the loop would for every list of trusted issuers |
| VerifyWorkflow.OneFlagCanMissRegistryFailure | src/lib/verify-task/verify-task-worker.ts:132 | With a trusted issuer, a true verdict beside a fatal registry failure completes what the loop calls invalid |
| VerifyWorkflow.MatchPresented | src/workflows/verifyWorkflow.ts:426-446 | The matched credentials are the order-preserving subsequence of the matching ones, with their claims overwritten in order |
| VerifyWorkflow.MatchedAreSatisfying | src/workflows/verifyWorkflow.ts:426-458 | With faithful keys that is the subsequence satisfying every claim directly |
| VerifyWorkflow.ValidateIssuers | src/workflows/verifyWorkflow.ts:466-497 | Valid exactly if every present credential has a trusted issuer or a counting registry match |
| VerifyWorkflow.ApplyVerificationResults | src/workflows/verifyWorkflow.ts:393-539 | The stored result and state, fully determined by the verifier's answer and the settings |
| VerifyWorkflow.StoredAnswer | src/workflows/verifyWorkflow.ts:285-383 | The stored flags, credentials, summaries and checks are those the verifier returned, and the state is `complete` exactly if presentation and credentials were accepted and, with trusted issuers, no registry check failed fatally |
| VerifyWorkflow.StoredReports | src/workflows/verifyWorkflow.ts:422-497 | When issuers and claims are reported, and what is reported of them |
| VerifyWorkflow.AllExtractedLookup | src/workflows/verifyWorkflow.ts:430-446 | A reported claim has the value of the last matching credential that has one |
| VerifyWorkflow.PresentConcat | src/workflows/verifyWorkflow.ts:461-463 | Present credentials are collected in order |
| VerifyWorkflow.IssuerIff | src/workflows/verifyWorkflow.ts:304-308 | Exactly which strings are the issuer of a credential |
| VerifyWorkflow.RegistryMatchCases | src/workflows/verifyWorkflow.ts:311-337 | Which registry checks count for which trusted registries |
| VerifyWorkflow.SyncResultUnique | src/workflows/verifyWorkflow.ts:512-524 | At most one result fits the specification of the stored one |
| VerifyWorkflow.ClaimsDoNotDecide | src/workflows/verifyWorkflow.ts:500-504 | Changing the claims or registries asked for changes neither state, flag nor credential results |
| VerifyWorkflow.IdentifyOpenBadgesCredentialIndices | src/workflows/verifyWorkflow.ts:762-772 | Exactly the Open Badges positions, increasing |
| VerifyWorkflow.WithSyncResultsAndQueuedVerifyTask | src/workflows/verifyWorkflow.ts:786-821 | The finalized exchange with `active` and a queued first attempt in place of its state |
| VerifyWorkflow.QueuedFirstAttempt | src/lib/verify-task/verify-task.ts:35-46 | The queued task is the first attempt, with the id, indices, cap and full deadline it was given |
| VerifyWorkflow.ParticipateInVerifyExchange | src/workflows/verifyWorkflow.ts:668-744 | What a POST stores and enqueues; nothing if the verifier throws |
| Oid4vci.OneCredential | src/workflows/claimWorkflow.ts:230-243 | Over every sequence of requests of both flows at most one credential is issued, and the exchange is `complete` with exactly it |
| Oid4vci.CompleteIsFinal | src/exchanges.ts:196-224 | A completed claim exchange never changes its state or credential |
| Oid4vci.CodesAreSingleUse | src/oid4vci/token-handler.ts:67-88 | Each code is redeemed at most once, only offered ones are, and tokens issued equal codes redeemed |
| Oid4vci.OnlyLatestTokenValidates | src/oid4vci/state.ts:145-202 | A token is accepted exactly if it is the latest issued, less than ten minutes ago |
| Oid4vci.OnlyLatestCodeIsRedeemed | src/oid4vci/token-handler.ts:46-88 | A token request is granted exactly if its code is the latest offered, was not redeemed, and was offered less than its clamped lifetime ago |
| Oid4vci.UsedNonceMeansComplete | src/oid4vci/credential-handler.ts:139-212 | A nonce is stored as used only together with the credential |
| Oid4vci.RefusalStoresNothing | src/oid4vci/credential-handler.ts:95-194 | A refused or redirected request of either flow leaves the stored exchange, nonce included, unchanged |
| Oid4vci.CredentialIssuedIff | src/oid4vci/credential-handler.ts:95-194 | Over every run, a credential request issues exactly if none was issued before, its token is the latest, under ten minutes old, its proof answers the latest nonce, under five minutes old, and the request itself convinces |
| Oid4vci.CredentialRefusals | src/oid4vci/credential-handler.ts:95-173 | Which guard refuses a credential request, with which status and error |
| Oid4vci.VcApiIssuesIff | src/workflows/claimWorkflow.ts:84-145 | The exact condition under which the VC-API flow issues, and what it then stores |
| Oid4vci.TokenRefusals | src/oid4vci/token-handler.ts:50-75 | Which guard refuses a token request, with which error |
| Oid4vci.CodeOpensOnceWithinLifetime | src/oid4vci/state.ts:43-138 | Mint then redeem: a code opens by itself alone, before its lifetime ends, once; until then offers repeat it |
| Oid4vci.TokenAndNonceOpenWithinLifetime | src/oid4vci/state.ts:145-278 | Mint then validate: the same for tokens, and for nonces once |
| Oid4vci.LifetimesBounded | src/hono.ts:391-397 | Code lifetimes are clamped to the exchange's; tokens and nonces outlive it exactly when less than ten, or five, minutes are left |
| Oid4vci.CodeLifetime | src/hono.ts:391-396 | The lifetime of a code, second by second |
| Oid4vci.ClaimStore.HandleCredentialRequest | src/oid4vci/credential-handler.ts:82-219 | The handler over the store is the issuing step of the machine and saves exactly when it issues |
| Oid4vci.ClaimStore.SignClaimCredentialFromHolderDid | src/workflows/claimWorkflow.ts:161-246 | The only completing write: state and credential together, or nothing; a missing holder is refused |
| Oid4vci.ClaimStore.ParticipateWithEmptyBody | src/exchanges.ts:157-204 | An empty body activates a pending exchange and is refused on a completed one |
| Oid4vci.ClaimStore.ParticipateInClaimExchange | src/workflows/claimWorkflow.ts:73-145 | The VC-API step of the machine; saves exactly when it issues |
| Oid4vp.StateNeverChanges | src/oid4vp/state.ts:45-64 | Once minted the correlation token is the same in every later stored record |
| Oid4vp.OneResponse | src/oid4vp/state.ts:75-109 | At most one token is minted and one response accepted, and a record that says received has results |
| Oid4vp.LaterResponsesRefused | src/oid4vp/state.ts:87-93 | After an accepted response every later one is refused and changes nothing |
| Oid4vp.PostIsPipeline | src/workflows/verifyWorkflow.ts:715-743 | Whatever the verify POST stores, it moves only state, results and the queued pass |
| Oid4vp.HandleOid4vpResponse | src/oid4vp/response-handler.ts:96-174 | Accepted exactly if well formed, correlated, unused, bound to the audience and the pipeline does not throw; then it stores and enqueues what the POST would; a rejected response stores and enqueues nothing, and no other record moves |
| Oid4vp.AcceptableIff | src/oid4vp/response-handler.ts:53-140 | A response is acceptable exactly if it is well formed, correlated, the first, and some proof names this client as its domain or among its domains |
| Oid4vp.RequestsTouch | src/oid4vp/state.ts:45-64 | What a request fetch, an empty body and a VC-API presentation may change |
| Oid4vpRaces.BindingKeptIff | src/lib/verify-task/verify-task-worker.ts:133-146 | The stored binding survives every continuation of workers and sweeps if and only if none of them holds, under the stored attempt id, a snapshot with another binding that it can still commit |
| Oid4vpRaces.SingleUseUnlessRaced | src/oid4vp/state.ts:45-109 | Over every interleaving of requests, workers and sweeps in which each save of a new binding leaves no such snapshot, one token is minted, one response accepted, and the record says so |
| Oid4vpRaces.TwoResponsesAccepted | src/oid4vp/response-handler.ts:116-121 | Otherwise the same response can be accepted twice: for every exchange and posted Open Badges credential with a failing verdict, a run that does |
| ProblemDetails.TraverseIssues | src/lib/errors/problem-details.ts:73-123 | The loops with their counter produce the description of the preorder of visited issues, labels included |
| ProblemDetails.TraverseBranches | src/lib/errors/problem-details.ts:97-107 | The same for the branches of one union |
| ProblemDetails.ZodProblemDetails | src/lib/errors/problem-details.ts:58-63 | The whole output for every issue tree |
| ProblemDetails.LabelSnoc | src/lib/errors/problem-details.ts:84-86 | The label built by appending segments is the label of the extended trail |
| ProblemDetails.LabelLengths | src/lib/errors/problem-details.ts:97-107 | Union labels have one, three or five segments: the traversal recurses only from depths 0 and 2 |
| ProblemDetails.NothingReachableIsLeftOut | src/lib/errors/problem-details.ts:82-107 | Every issue of the list, and every issue under a visited union whose label has one or three segments, is visited |
| ProblemDetails.PreorderDistinct | src/lib/errors/problem-details.ts:80-87 | No two unions share a trail |
| ProblemDetails.LabelIff | src/lib/errors/problem-details.ts:125-134 | Two labels are the same exactly if their trails agree up to the wrap-around of letters |
| ProblemDetails.SegmentTexts | src/lib/errors/problem-details.ts:125-134 | Capitals at the top, numbers for branches, small letters below |
| ProblemDetails.FormatPathName | src/lib/errors/problem-details.ts:176-182 | A path reads from left to right, names joined by dots |
| ProblemDetails.FormatPathIndex | src/lib/errors/problem-details.ts:176-182 | An index stands in brackets right behind what it indexes |
| ProblemDetails.LeafTexts | src/lib/errors/problem-details.ts:110-118 | Title and text of a leaf, for every combination of label, prefix and path |
| ProblemDetails.UnionTexts | src/lib/errors/problem-details.ts:89-95 | Title and text of a union, for every combination of prefix and path |
| ProblemDetails.UnionLabelsDifferIff | src/lib/errors/problem-details.ts:73-134 | No two union problems carry the same label if and only if no visited list has more than 65536 sibling unions |
| HttpCache.ReturnedBodiesAreFresh | src/lib/cached-http-get-service.ts:21-64 | In every run of overlapping gets, a body not fetched by its own get is that of an OK response to the same URL stored no longer than its lifetime ago |
| HttpCache.CacheKeyInjective | src/lib/cached-http-get-service.ts:12-14 | Different URLs have different keys |
| HttpCache.ParseCacheControlMaxAge | src/lib/cached-http-get-service.ts:74-82 | The lifetime is that of the first matching directive, if positive |
| HttpCache.MaxAgeRoundTrip | src/lib/cached-http-get-service.ts:74-82 | A written directive reads back as its seconds; zero as none |
| HttpCache.CutIsCaptured | src/lib/cached-http-get-service.ts:77 | A directive anywhere in the header, in any letter case and spacing, is captured with all its digits |
| HttpCache.CapturedIsCut | src/lib/cached-http-get-service.ts:77 | Nothing but such a directive is captured |
| HttpCache.FirstCutDecides | src/lib/cached-http-get-service.ts:74-82 | The first directive decides the lifetime |
| HttpCache.TtlCases | src/lib/cached-http-get-service.ts:8-53 | Five minutes without a positive directive, else its seconds |
| HttpCache.CachedHttpGetService.FromCache | src/lib/cached-http-get-service.ts:23-33 | A hit exactly if cached and unlapsed |
| HttpCache.CachedHttpGetService.FromNetwork | src/lib/cached-http-get-service.ts:35-61 | Only an OK response is cached, for its lifetime |
| HttpCache.CachedHttpGetService.Get | src/lib/cached-http-get-service.ts:23-62 | A hit returns the cached body and changes nothing; a miss returns the response, cached through its last millisecond and no longer; other URLs are untouched |

## Left out

- A second POST on one verify exchange interleaved with the asynchronous pass, as far as results are concerned: the
  protocol starts after the one POST. `Oid4vpRaces` admits such saves and follows attempt ids and the binding alone.
- Steps of other exchanges: they use other keys, so one record is followed.
- The window between read and write inside the compare-and-swap, failed writes, and Keyv, Redis and file internals: the swap
  is the single step its documentation describes; loss of a record is an `Evict` step that may happen at any time.
- The sweep decides and mints the next deadline from one clock reading, and deadlines are numbers, not ISO strings.
- `queuedAt`, `startedAt`, `lastError.at`, timing, `partial`, check messages, the compatibility log and the texts beside
  missing claim keys: nothing modelled depends on them.
- ClaimsMatching.TwoClaimsAgreeIff: lists of three or more claims, for which faithful keys are sufficient
  (`TwoPassIsDirect`) and the decision on each credential is exact (`TwoPassExactly`); further claims can rule out the
  credentials on which a colliding pair goes wrong.
- HttpCache.ParseCacheControlMaxAge: digits beyond the range of a double, which the code ignores; and header whitespace other than
  space, tab and no-break space, which a header cannot contain.
- ClaimsMatching.ExtractCredentialClaims: inherited properties (`in` also finds those of the prototype) and the key `__proto__`.
- VerifyWorkflow.ParticipateInVerifyExchange: building and validating the presentation, registries and the verifier are one answer that
  may also be a throw.
- Oid4vp.HandleOid4vpResponse: coercion of form bodies and the choice of the first presentation in the token are part of the body
  it is given.
- Oid4vci.ClaimStore.HandleCredentialRequest: schema parsing, the search for a challenge in a presentation, DID authentication, templates, status
  and signing are answers in the request.
- Two OID4VCI or OID4VP requests interleaved with each other: those paths load and save plainly, and each request is
  modelled as one step.
- The didAuth workflow, exchange creation and batches, protocols, deep links, metadata, presentation requests, tenants,
  routing, authentication, the user interface and configuration: single branches or plumbing.
