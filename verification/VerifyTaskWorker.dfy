/**
 One uninterrupted run of the asynchronous Open Badges worker
 (src/lib/verify-task/verify-task-worker.ts, lines 57-148 and 189-207).
 Runs interrupted by sweeps and other workers are the subject of module `Protocol`.
 */
module VerifyTaskWorkers {
  import opened Wrappers
  import opened VerificationResults
  import opened VerifyTasks
  import opened TransactionManagers

  /** What awaiting `verifyCredential` yields. */
  datatype Answer = Returned(ob: ObResult) | Threw(message: string)

  datatype WorkerOutcome =
    | NoTask | AlreadyTerminal | ExchangeNotFound | LostCas(status: CasStatus) | PassSucceeded | PassFailed

  datatype PassResult = Merged(result: VerificationResult) | WorkerError(message: string)

  const MISSING_RESULTS := "verifyTask present but variables.results.default is missing"

  /** The pass over the recorded indices up to the first throw. */
  function RunPass(verify: Json -> Answer, r: VerificationResult, indices: seq<nat>): PassResult {
    if indices == [] then Merged(r)
    else
      var before := RunPass(verify, r, indices[..|indices| - 1]);
      if before.WorkerError? then before
      else
        var i := indices[|indices| - 1];
        var credential := CredentialAt(before.result, i);
        if credential.None? then before
        else match verify(credential.value)
          case Returned(ob) => Merged(MergeOpenBadgesResultsAt(before.result, i, ob))
          case Threw(message) => WorkerError(message)
  }

  lemma {:induction false} RunPassErrorStays(verify: Json -> Answer, r: VerificationResult, indices: seq<nat>, n: nat)
    requires n <= |indices| && RunPass(verify, r, indices[..n]).WorkerError?
    ensures RunPass(verify, r, indices) == RunPass(verify, r, indices[..n])
  {
    if n == |indices| {
      assert indices[..n] == indices;
    } else {
      assert indices[..|indices| - 1][..n] == indices[..n];
      RunPassErrorStays(verify, r, indices[..|indices| - 1], n);
    }
  }

  /** A verifier that never throws makes the pass the plain fold. */
  lemma {:induction false} RunPassIsFold(verify: Json -> ObResult, r: VerificationResult, indices: seq<nat>)
    ensures RunPass(c => Returned(verify(c)), r, indices) == Merged(FoldOpenBadges(verify, r, indices))
  {
    if indices != [] {
      RunPassIsFold(verify, r, indices[..|indices| - 1]);
    }
  }

  /** The first call that throws decides the pass. */
  lemma {:induction false} FirstThrowDecides(verify: Json -> Answer, r: VerificationResult, indices: seq<nat>, n: nat,
                                             message: string)
    requires n < |indices|
    requires forall j :: 0 <= j < n && CredentialAt(r, indices[j]).Some? ==>
               verify(CredentialAt(r, indices[j]).value).Returned?
    requires CredentialAt(r, indices[n]).Some? && verify(CredentialAt(r, indices[n]).value) == Threw(message)
    ensures RunPass(verify, r, indices) == WorkerError(message)
  {
    NoThrowMerges(verify, r, indices, n);
    assert indices[..n + 1][..n] == indices[..n];
    RunPassErrorStays(verify, r, indices, n + 1);
  }

  /** Up to there every call returned, and no credential was taken away. */
  lemma {:induction false} NoThrowMerges(verify: Json -> Answer, r: VerificationResult, indices: seq<nat>, n: nat)
    requires n <= |indices|
    requires forall j :: 0 <= j < n && CredentialAt(r, indices[j]).Some? ==>
               verify(CredentialAt(r, indices[j]).value).Returned?
    ensures RunPass(verify, r, indices[..n]).Merged?
    ensures forall i :: CredentialAt(RunPass(verify, r, indices[..n]).result, i) == CredentialAt(r, i)
  {
    if n > 0 {
      NoThrowMerges(verify, r, indices, n - 1);
      assert indices[..n][..n - 1] == indices[..n - 1];
    }
  }

  predicate IsTerminal(status: TaskStatus) {
    status == Succeeded || status == GaveUp
  }

  function OutcomeState(verified: bool): ExchangeState {
    if verified then Complete else Invalid
  }

  /** The record a worker commits at the end of its pass, built from its own snapshot. */
  function Settle(snapshot: Exchange, task: VerifyTask, merged: VerificationResult): Exchange {
    snapshot.(state := OutcomeState(merged.verified), results := Some(merged), verifyTask := Some(MarkSucceeded(task)))
  }

  /**
   What a run that nobody interrupts leaves in the record it loaded; `setupError` is what resolving the registries
   threw.
   */
  function Processed(loaded: Exchange, task: VerifyTask, setupError: Option<string>,
                     verify: Json -> Answer): (Exchange, WorkerOutcome) {
    if loaded.results.None? then (WithVerifyTask(loaded, MarkFailed(task, MISSING_RESULTS)), PassFailed)
    else if setupError.Some? then (WithVerifyTask(loaded, MarkFailed(task, setupError.value)), PassFailed)
    else match RunPass(verify, loaded.results.value, task.openBadgesCredentialIndices)
      case Merged(r) => (Settle(loaded, task, r), PassSucceeded)
      case WorkerError(message) => (WithVerifyTask(loaded, MarkFailed(task, message)), PassFailed)
  }

  /** A run that ends in an error keeps state and results and says why it failed. */
  lemma FailureKeepsResults(loaded: Exchange, task: VerifyTask, setupError: Option<string>, verify: Json -> Answer)
    requires loaded.verifyTask == Some(task)
    ensures var (after, outcome) := Processed(loaded, task, setupError, verify);
            && (outcome == PassFailed || outcome == PassSucceeded)
            && (outcome == PassFailed <==>
                  || loaded.results.None? || setupError.Some?
                  || RunPass(verify, loaded.results.value, task.openBadgesCredentialIndices).WorkerError?)
            && (outcome == PassFailed ==>
                  && after.verifyTask.Some? && after.verifyTask.value.status == Failed
                  && after.verifyTask.value.lastError.Some?
                  && after == loaded.(verifyTask := after.verifyTask)
                  && after.verifyTask.value == task.(status := Failed, lastError := after.verifyTask.value.lastError)
                  && (loaded.results.Some? && setupError.Some? ==> after.verifyTask.value.lastError == setupError))
  {
    hide RunPass;
  }

  /**
   A run that succeeds leaves `complete` exactly if the posted flag and every answer were true, and each
   credential with its own verdict.
   */
  lemma SuccessSettles(loaded: Exchange, task: VerifyTask, verify: Json -> ObResult, k: nat)
    requires loaded.verifyTask == Some(task) && loaded.results.Some? && Distinct(task.openBadgesCredentialIndices)
    requires k < |loaded.results.value.credentialResults|
    ensures var (after, outcome) := Processed(loaded, task, None, (x: Json) => Returned(verify(x)));
            var before := loaded.results.value;
            && outcome == PassSucceeded && after.results.Some? && after.verifyTask == Some(task.(status := Succeeded))
            && after.settings == loaded.settings && after.oid4vp == loaded.oid4vp
               && after.workflowId == loaded.workflowId
            && (after.state == Complete <==> PassVerified(verify, before, task.openBadgesCredentialIndices))
            && (after.state == Invalid <==> !PassVerified(verify, before, task.openBadgesCredentialIndices))
            && (after.results.value.verified <==> after.state == Complete)
            && |after.results.value.credentialResults| == |before.credentialResults|
            && var cr := before.credentialResults[k];
               after.results.value.credentialResults[k].verified <==>
                 cr.verified && (k in task.openBadgesCredentialIndices && cr.verifiableCredential.Some? ==>
                                   verify(cr.verifiableCredential.value).verified)
  {
    hide RunPass, FoldOpenBadges, PassVerified, ChecksTakeIn, SummaryTakesIn, MergeCredential;
    RunPassIsFold(verify, loaded.results.value, task.openBadgesCredentialIndices);
    FoldIsPass(verify, loaded.results.value, task.openBadgesCredentialIndices);
    PassOfCredential(verify, loaded.results.value, task.openBadgesCredentialIndices, k);
  }

  method CommitFailure(manager: TransactionManager, exchangeId: string, task: VerifyTask, capturedAttemptId: AttemptId,
                       message: string)
    returns (outcome: WorkerOutcome)
    modifies manager
    ensures (manager.Record(exchangeId), outcome) ==
            var r := CasRecord(old(manager.Record(exchangeId)), capturedAttemptId,
                               current => WithVerifyTask(current, MarkFailed(task, message)));
            (r.0, if r.1 == Committed then PassFailed else LostCas(r.1))
    ensures forall id :: id != exchangeId ==> manager.Record(id) == old(manager.Record(id))
  {
    var status := manager.SaveExchangeWithCAS(exchangeId, capturedAttemptId,
                                              current => WithVerifyTask(current, MarkFailed(task, message)));
    outcome := if status == Committed then PassFailed else LostCas(status);
  }

  method ProcessVerifyTask(manager: TransactionManager, exchangeId: string, setupError: Option<string>,
                           verify: Json -> Answer)
    returns (outcome: WorkerOutcome)
    modifies manager
    ensures forall id :: id != exchangeId ==> manager.Record(id) == old(manager.Record(id))
    ensures var before := old(manager.Record(exchangeId));
            if before.None? || before.value.workflowId != Verify then
              outcome == ExchangeNotFound && manager.Record(exchangeId) == before
            else if before.value.verifyTask.None? then
              outcome == NoTask && manager.Record(exchangeId) == before
            else if IsTerminal(before.value.verifyTask.value.status) then
              outcome == AlreadyTerminal && manager.Record(exchangeId) == before
            else
              var (after, result) := Processed(before.value, before.value.verifyTask.value, setupError, verify);
              outcome == result && manager.Record(exchangeId) == Some(after)
  {
    var loaded := manager.GetExchangeData(exchangeId, Verify);
    if loaded.None? {
      return ExchangeNotFound;
    }
    var exchange := loaded.value;
    if exchange.verifyTask.None? {
      return NoTask;
    }
    var task := exchange.verifyTask.value;
    if task.status == Succeeded || task.status == GaveUp {
      return AlreadyTerminal;
    }
    var capturedAttemptId := task.attemptId;
    var _ := manager.SaveExchangeWithCAS(exchangeId, capturedAttemptId,
                                         current => WithVerifyTask(current, MarkRunning(task)));
    if exchange.results.None? {
      outcome := CommitFailure(manager, exchangeId, task, capturedAttemptId, MISSING_RESULTS);
      return;
    }
    var merged := exchange.results.value;
    var workerError: Option<string> := setupError;
    var indices := task.openBadgesCredentialIndices;
    var n := 0;
    while n < |indices| && workerError.None?
      invariant 0 <= n <= |indices|
      invariant setupError.Some? ==> workerError == setupError
      invariant setupError.None? ==> RunPass(verify, exchange.results.value, indices[..n]) ==
                                     if workerError.None? then Merged(merged) else WorkerError(workerError.value)
    {
      var i := indices[n];
      assert indices[..n + 1][..n] == indices[..n];
      n := n + 1;
      var credential := CredentialAt(merged, i);
      if credential.Some? {
        match verify(credential.value)
        case Returned(ob) => merged := MergeOpenBadgesResultsAt(merged, i, ob);
        case Threw(message) => workerError := Some(message);
      }
    }
    if workerError.Some? {
      if setupError.None? {
        RunPassErrorStays(verify, exchange.results.value, indices, n);
      }
      outcome := CommitFailure(manager, exchangeId, task, capturedAttemptId, workerError.value);
      return;
    }
    assert indices[..n] == indices;
    var settled := Settle(exchange, task, merged);
    var status := manager.SaveExchangeWithCAS(exchangeId, capturedAttemptId, _ => settled);
    outcome := if status == Committed then PassSucceeded else LostCas(status);
  }
}
