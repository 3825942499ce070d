/**
 The verify exchange record and the lifecycle of its asynchronous task
 (src/app.d.ts, lines 398-460; src/lib/verify-task/verify-task.ts).
 */
module VerifyTasks {
  import opened Wrappers
  import opened VerificationResults

  /** Attempt ids are fresh UUIDs in the source; here they come from a counter, so a new id is unused. */
  type AttemptId = nat

  datatype TaskStatus = Queued | Running | Succeeded | Failed | GaveUp

  datatype VerifyTask = VerifyTask(
    attemptId: AttemptId,
    deadlineAt: nat,
    attempt: nat,
    maxAttempts: nat,
    openBadgesCredentialIndices: seq<nat>,
    status: TaskStatus,
    lastError: Option<string>)

  datatype WorkflowId = DidAuth | Claim | Verify | Healthz

  datatype ExchangeState = Pending | Active | Complete | Invalid

  /** `values` is empty both when absent and when the list is empty: the matcher treats them alike. */
  datatype DcqlClaim = DcqlClaim(path: seq<string>, values: seq<string>)

  /** What the exchange was created with; no later step changes it. */
  datatype Settings = Settings(
    trustedIssuers: seq<string>,
    trustedRegistries: seq<string>,
    vprClaims: seq<DcqlClaim>)

  /** The correlation token is random in the source; here it is drawn from a counter. */
  datatype Oid4vpState = Oid4vpState(state: nat, responseReceived: bool)

  datatype Exchange = Exchange(
    workflowId: WorkflowId,
    state: ExchangeState,
    settings: Settings,
    oid4vp: Option<Oid4vpState>,
    results: Option<VerificationResult>,
    verifyTask: Option<VerifyTask>)

  function NewVerifyTask(freshId: AttemptId, now: nat, indices: seq<nat>, deadlineMs: nat,
                         maxAttempts: nat): VerifyTask {
    VerifyTask(freshId, now + deadlineMs, 1, maxAttempts, indices, Queued, None)
  }

  function BumpAttempt(task: VerifyTask, freshId: AttemptId, now: nat, deadlineMs: nat): VerifyTask {
    task.(attemptId := freshId, deadlineAt := now + deadlineMs, attempt := task.attempt + 1,
    status := Queued, lastError := None)
  }

  function MarkRunning(task: VerifyTask): VerifyTask {
    task.(status := Running)
  }

  function MarkSucceeded(task: VerifyTask): VerifyTask {
    task.(status := Succeeded)
  }

  function MarkFailed(task: VerifyTask, message: string): VerifyTask {
    task.(status := Failed, lastError := Some(message))
  }

  function MarkGaveUp(task: VerifyTask): VerifyTask {
    task.(status := GaveUp)
  }

  function WithVerifyTask(exchange: Exchange, task: VerifyTask): Exchange {
    exchange.(verifyTask := Some(task))
  }
}
