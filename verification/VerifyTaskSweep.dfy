/**
 The sweep a polling GET runs over a lapsed attempt
 (src/lib/verify-task/sweep-verify-task.ts).
 */
module VerifyTaskSweeps {
  import opened Wrappers
  import opened VerificationResults
  import opened VerifyTasks
  import opened TransactionManagers
  import opened VerifyTaskQueues

  const TIMEOUT_CHECK := CheckResult("pipeline.timeout", Failure, true)

  /** `appendAllResult`: the flag drops and one check joins the presentation; a missing result gets a shell. */
  function AppendAllResult(results: Option<VerificationResult>, check: CheckResult): (r: VerificationResult)
    ensures !r.verified
    ensures r.presentationResults == (if results.Some? then results.value.presentationResults else []) + [check]
    ensures results.Some? ==> r == results.value.(verified := false, presentationResults := r.presentationResults)
    ensures results.None? ==> r.credentialResults == [] && r.matchedCredentials == [] && r.summary == []
                              && r.claimsValidation.None? && r.issuerValidation.None?
  {
    match results
    case None => VerificationResult(false, [check], [], [], [], None, None)
    case Some(d) => d.(verified := false, presentationResults := d.presentationResults + [check])
  }

  datatype SweepDecision = Healthy | Retry(next: Exchange) | TimedOut(next: Exchange)

  function RetryRecord(e: Exchange, task: VerifyTask, now: nat, deadlineMs: nat, freshId: AttemptId): Exchange {
    WithVerifyTask(e, BumpAttempt(task, freshId, now, deadlineMs))
  }

  function GiveUpRecord(e: Exchange, task: VerifyTask): Exchange {
    e.(state := Invalid, verifyTask := Some(MarkGaveUp(task)),
    results := Some(AppendAllResult(e.results, TIMEOUT_CHECK)))
  }

  predicate Sweepable(e: Exchange) {
    && e.workflowId == Verify
    && e.state == Active
    && e.verifyTask.Some?
    && (e.verifyTask.value.status == Queued || e.verifyTask.value.status == Running)
  }

  /** The decision `sweepIfTimedOut` takes from its snapshot and the clock alone. */
  function DecideSweep(e: Exchange, now: nat, deadlineMs: nat, freshId: AttemptId): SweepDecision {
    if !Sweepable(e) || e.verifyTask.value.deadlineAt > now then Healthy
    else
      var task := e.verifyTask.value;
      if task.attempt < task.maxAttempts then Retry(RetryRecord(e, task, now, deadlineMs, freshId))
      else TimedOut(GiveUpRecord(e, task))
  }

  /**
   When a sweep acts, and what it would write, field by field: only on an active verify exchange whose queued or
   running attempt has reached its deadline. A retry has a new id, a new full deadline and the next number, and is the
   same exchange otherwise; a give-up is invalid, unverified, and has one failed fatal check more.
   */
  lemma SweepDecisions(e: Exchange, now: nat, deadlineMs: nat, freshId: AttemptId)
    ensures DecideSweep(e, now, deadlineMs, freshId).Healthy? <==>
            || e.workflowId != Verify || e.state != Active || e.verifyTask.None?
            || e.verifyTask.value.status in {Succeeded, Failed, GaveUp}
            || now < e.verifyTask.value.deadlineAt
    ensures DecideSweep(e, now, deadlineMs, freshId).Retry? ==>
              var task, next := e.verifyTask.value, DecideSweep(e, now, deadlineMs, freshId).next;
              && task.attempt < task.maxAttempts
              && next.workflowId == Verify && next.state == Active && next.settings == e.settings
              && next.oid4vp == e.oid4vp && next.results == e.results && next.verifyTask.Some?
              && var bumped := next.verifyTask.value;
                 && bumped.attemptId == freshId && bumped.attempt == task.attempt + 1
                 && bumped.deadlineAt == now + deadlineMs && bumped.maxAttempts == task.maxAttempts
                 && bumped.openBadgesCredentialIndices == task.openBadgesCredentialIndices
                 && bumped.status == Queued && bumped.lastError == None
    ensures DecideSweep(e, now, deadlineMs, freshId).TimedOut? ==>
              var task, next := e.verifyTask.value, DecideSweep(e, now, deadlineMs, freshId).next;
              && task.attempt >= task.maxAttempts
              && next.workflowId == Verify && next.state == Invalid && next.settings == e.settings
              && next.oid4vp == e.oid4vp && next.verifyTask == Some(task.(status := GaveUp))
              && next.results.Some? && !next.results.value.verified
              && next.results.value.presentationResults ==
                   (if e.results.Some? then e.results.value.presentationResults else [])
                   + [CheckResult("pipeline.timeout", Failure, true)]
              && (e.results.Some? ==> next.results.value.credentialResults == e.results.value.credentialResults)
  {
  }

  /** One uninterrupted sweep over `exchange`, a snapshot read earlier. */
  method SweepIfTimedOut(manager: TransactionManager, queue: VerifyTaskQueue, exchangeId: string, exchange: Exchange,
                         now: nat, deadlineMs: nat, freshId: AttemptId)
    returns (r: Option<Exchange>)
    modifies manager, queue
    ensures forall id :: id != exchangeId ==> manager.Record(id) == old(manager.Record(id))
    ensures exchange.verifyTask.Some? && now < exchange.verifyTask.value.deadlineAt ==>
              r == Some(exchange) && manager.keyv == old(manager.keyv) && queue.queue == old(queue.queue)
    ensures exchange.state != Active || exchange.verifyTask.None? ==>
              r == Some(exchange) && manager.keyv == old(manager.keyv) && queue.queue == old(queue.queue)
    ensures var before := old(manager.Record(exchangeId));
            match DecideSweep(exchange, now, deadlineMs, freshId)
            case Healthy =>
              r == Some(exchange) && manager.Record(exchangeId) == before && queue.View() == old(queue.View())
            case Retry(next) =>
              if before.Some? && ReadVerifyTaskAttemptId(before.value) == Some(exchange.verifyTask.value.attemptId) then
                r == Some(next) && manager.Record(exchangeId) == Some(next)
                && queue.View() == Enqueue(old(queue.View()), exchangeId)
              else
                r == (if before.Some? && before.value.workflowId == Verify then before else None)
                && manager.Record(exchangeId) == before && queue.View() == old(queue.View())
            case TimedOut(next) =>
              queue.View() == old(queue.View()) &&
              if before.Some? && ReadVerifyTaskAttemptId(before.value) == Some(exchange.verifyTask.value.attemptId) then
                r == Some(next) && manager.Record(exchangeId) == Some(next)
              else
                r == (if before.Some? && before.value.workflowId == Verify then before else None)
                && manager.Record(exchangeId) == before
  {
    if exchange.workflowId != Verify || exchange.state != Active || exchange.verifyTask.None? {
      return Some(exchange);
    }
    var task := exchange.verifyTask.value;
    if task.status != Queued && task.status != Running {
      return Some(exchange);
    }
    if task.deadlineAt > now {
      return Some(exchange);
    }
    if task.attempt < task.maxAttempts {
      var next := RetryRecord(exchange, task, now, deadlineMs, freshId);
      var status := manager.SaveExchangeWithCAS(exchangeId, task.attemptId, _ => next);
      if status == Committed {
        queue.EnqueueVerifyTask(exchangeId);
        return Some(next);
      }
      r := manager.GetExchangeData(exchangeId, Verify);
    } else {
      var next := GiveUpRecord(exchange, task);
      var status := manager.SaveExchangeWithCAS(exchangeId, task.attemptId, _ => next);
      if status == Committed {
        return Some(next);
      }
      r := manager.GetExchangeData(exchangeId, Verify);
    }
  }
}
