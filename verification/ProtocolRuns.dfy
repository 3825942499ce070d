/**
 The step machine and the methods describe the same code: run without interruption, the steps of
 one worker or one sweep leave what `ProcessVerifyTask` or `SweepIfTimedOut` promises.
 */
module ProtocolRuns {
  import opened Wrappers
  import opened VerificationResults
  import opened VerifyTasks
  import opened VerifyTaskWorkers
  import opened VerifyTaskSweeps
  import opened Protocol

  const NO_ANSWER := ObResult(false, [], [])

  /** The loop steps of worker `w` under a given verifier, up to the first throw. */
  function PassSteps(verify: Json -> Answer, r: VerificationResult, indices: seq<nat>, w: nat): seq<Step> {
    if indices == [] then []
    else
      var init := indices[..|indices| - 1];
      var before := RunPass(verify, r, init);
      var steps := PassSteps(verify, r, init, w);
      if before.WorkerError? then steps
      else
        var credential := CredentialAt(before.result, indices[|indices| - 1]);
        if credential.None? then steps + [WorkerVerify(w, NO_ANSWER)]
        else match verify(credential.value)
          case Returned(ob) => steps + [WorkerVerify(w, ob)]
          case Threw(message) => steps + [WorkerThrow(w, message)]
  }

  function AfterPass(snapshot: Exchange, result: PassResult, next: nat): Worker {
    match result
    case Merged(r) => Verifying(snapshot, r, next)
    case WorkerError(message) => Failing(snapshot, message)
  }

  /** World `s` with worker `w` replaced and the call counts possibly moved on. */
  ghost predicate OnlyWorker(s: World, t: World, w: nat, worker: Worker) {
    t == s.(calls := t.calls, workers := s.workers[w := worker])
  }

  lemma VerifyEffect(c: Config, s: World, t: World, w: nat, ob: ObResult, v: Worker)
    requires v.Verifying? && OnlyWorker(s, t, w, v) && v.next < |IndicesOf(v.snapshot)|
    ensures var credential := CredentialAt(v.merged, IndicesOf(v.snapshot)[v.next]);
            OnlyWorker(s, Next(c, t, WorkerVerify(w, ob)), w,
                       if credential.None? then v.(next := v.next + 1)
                       else v.(next := v.next + 1,
                               merged := MergeOpenBadgesResultsAt(v.merged, IndicesOf(v.snapshot)[v.next], ob)))
  {
    hide MergeOpenBadgesResultsAt, CredentialAt;
    var after := Next(c, t, WorkerVerify(w, ob)).workers[w];
    assert s.workers[w := v][w := after] == s.workers[w := after];
  }

  lemma ThrowEffect(c: Config, s: World, t: World, w: nat, message: string, v: Worker)
    requires v.Verifying? && OnlyWorker(s, t, w, v)
    requires v.next < |IndicesOf(v.snapshot)| && CredentialAt(v.merged, IndicesOf(v.snapshot)[v.next]).Some?
    ensures OnlyWorker(s, Next(c, t, WorkerThrow(w, message)), w, Failing(v.snapshot, message))
  {
    hide CredentialAt;
    var after := Failing(v.snapshot, message);
    assert s.workers[w := v][w := after] == s.workers[w := after];
  }

  lemma SetupThrowEffect(c: Config, s: World, w: nat, message: string)
    requires w in s.workers && s.workers[w].Verifying? && s.workers[w].next == 0
    ensures OnlyWorker(s, Run(c, s, [WorkerSetupThrow(w, message)]), w, Failing(s.workers[w].snapshot, message))
  {
    hide Run;
    OneStep(c, s, WorkerSetupThrow(w, message));
  }

  lemma {:induction false} PassRun(c: Config, s: World, verify: Json -> Answer, w: nat, n: nat)
    requires w in s.workers && s.workers[w].Verifying? && s.workers[w].next == 0
    requires n <= |IndicesOf(s.workers[w].snapshot)|
    ensures var v := s.workers[w];
            var indices := IndicesOf(v.snapshot)[..n];
            OnlyWorker(s, Run(c, s, PassSteps(verify, v.merged, indices, w)), w,
                       AfterPass(v.snapshot, RunPass(verify, v.merged, indices), n))
  {
    hide Next, OnlyWorker, MergeOpenBadgesResultsAt, CredentialAt, IndicesOf, Run;
    var v := s.workers[w];
    var all := IndicesOf(v.snapshot);
    if n > 0 {
      var indices, init := all[..n], all[..n - 1];
      assert indices[..|indices| - 1] == init && indices[|indices| - 1] == all[n - 1];
      PassRun(c, s, verify, w, n - 1);
      var steps := PassSteps(verify, v.merged, init, w);
      var t := Run(c, s, steps);
      var before := RunPass(verify, v.merged, init);
      if before.Merged? {
        var credential := CredentialAt(before.result, all[n - 1]);
        var at := Verifying(v.snapshot, before.result, n - 1);
        if credential.None? {
          VerifyEffect(c, s, t, w, NO_ANSWER, at);
          RunSnoc(c, s, steps, WorkerVerify(w, NO_ANSWER));
        } else {
          match verify(credential.value)
          case Returned(ob) =>
            VerifyEffect(c, s, t, w, ob, at);
            RunSnoc(c, s, steps, WorkerVerify(w, ob));
          case Threw(message) =>
            ThrowEffect(c, s, t, w, message, at);
            RunSnoc(c, s, steps, WorkerThrow(w, message));
        }
      }
    } else {
      Untouched(s, w);
      RunNothing(c, s);
    }
  }

  lemma Untouched(s: World, w: nat)
    requires w in s.workers
    ensures OnlyWorker(s, s, w, s.workers[w])
  {
    assert s.workers[w := s.workers[w]] == s.workers;
  }

  /** What the worker does between its mark and its commit. */
  function PassSchedule(setupError: Option<string>, verify: Json -> Answer, e: Exchange, w: nat): seq<Step>
    requires e.verifyTask.Some?
  {
    if e.results.None? then []
    else if setupError.Some? then [WorkerSetupThrow(w, setupError.value)]
    else PassSteps(verify, e.results.value, e.verifyTask.value.openBadgesCredentialIndices, w)
  }

  function WorkerSchedule(setupError: Option<string>, verify: Json -> Answer, e: Exchange, w: nat): seq<Step>
    requires e.verifyTask.Some?
  {
    [WorkerLoad, WorkerMark(w)] + PassSchedule(setupError, verify, e, w) + [WorkerCommit(w)]
  }

  /** The worker right before its commit. */
  function Passed(setupError: Option<string>, verify: Json -> Answer, e: Exchange): Worker {
    if e.results.None? then Failing(e, MISSING_RESULTS)
    else if setupError.Some? then Failing(e, setupError.value)
    else AfterPass(e, RunPass(verify, e.results.value, IndicesOf(e)), |IndicesOf(e)|)
  }

  lemma PassEffect(c: Config, s: World, setupError: Option<string>, verify: Json -> Answer, e: Exchange, w: nat)
    requires e.verifyTask.Some? && w in s.workers
    requires s.workers[w] == if e.results.None? then Failing(e, MISSING_RESULTS) else Verifying(e, e.results.value, 0)
    ensures OnlyWorker(s, Run(c, s, PassSchedule(setupError, verify, e, w)), w, Passed(setupError, verify, e))
  {
    hide Next, Run, RunPass, PassSteps;
    if e.results.None? {
      RunNothing(c, s);
      Untouched(s, w);
    } else if setupError.Some? {
      SetupThrowEffect(c, s, w, setupError.value);
    } else {
      PassRun(c, s, verify, w, |IndicesOf(e)|);
      assert IndicesOf(e)[..|IndicesOf(e)|] == IndicesOf(e);
    }
  }

  /** A worker nobody interrupts leaves the record `ProcessVerifyTask` promises, and touches nothing else. */
  lemma WorkerScheduleIsMethod(c: Config, s: World, setupError: Option<string>, verify: Json -> Answer)
    requires s.store.Some? && s.store.value.workflowId == Verify && s.store.value.verifyTask.Some?
    requires !IsTerminal(s.store.value.verifyTask.value.status)
    requires |s.calls| < |s.enqueues| && |s.calls| !in s.workers
    ensures var e := s.store.value;
            var t := Run(c, s, WorkerSchedule(setupError, verify, e, |s.calls|));
            t == s.(calls := t.calls, store := Some(Processed(e, e.verifyTask.value, setupError, verify).0))
  {
    hide Next, Run, RunPass, PassSchedule, Processed, Passed;
    var e, w := s.store.value, |s.calls|;
    var pass := PassSchedule(setupError, verify, e, w);
    var start := [WorkerLoad, WorkerMark(w)];
    var s2 := Run(c, s, start);
    StartEffect(c, s);
    PassEffect(c, s2, setupError, verify, e, w);
    var s3 := Run(c, s2, pass);
    RunConcat(c, s, start, pass);
    RunSnoc(c, s, start + pass, WorkerCommit(w));
    CommitEffect(c, s, s3, setupError, verify, e);
  }

  lemma RunNothing(c: Config, s: World)
    ensures Run(c, s, []) == s
  {
  }

  /** After loading and marking: the record is `running` and worker `|calls|` holds the snapshot. */
  lemma StartEffect(c: Config, s: World)
    requires s.store.Some? && s.store.value.workflowId == Verify && s.store.value.verifyTask.Some?
    requires !IsTerminal(s.store.value.verifyTask.value.status)
    requires |s.calls| < |s.enqueues| && |s.calls| !in s.workers
    ensures var e, w := s.store.value, |s.calls|;
            Run(c, s, [WorkerLoad, WorkerMark(w)]) ==
            s.(store := Some(WithVerifyTask(e, MarkRunning(e.verifyTask.value))), calls := s.calls + [0],
            workers := s.workers[w := if e.results.None? then Failing(e, MISSING_RESULTS)
                                      else Verifying(e, e.results.value, 0)])
  {
    hide Run;
    var w := |s.calls|;
    TwoSteps(c, s, WorkerLoad, WorkerMark(w));
    var s1 := Next(c, s, WorkerLoad);
    assert s1 == s.(calls := s.calls + [0], workers := s.workers[w := Loaded(s.store.value)]);
    var after := Next(c, s1, WorkerMark(w)).workers[w];
    assert s.workers[w := Loaded(s.store.value)][w := after] == s.workers[w := after];
  }

  lemma CommitEffect(c: Config, s: World, t: World, setupError: Option<string>, verify: Json -> Answer, e: Exchange)
    requires s.store == Some(e) && e.workflowId == Verify && e.verifyTask.Some? && |s.calls| !in s.workers
    requires t == s.(store := Some(WithVerifyTask(e, MarkRunning(e.verifyTask.value))), calls := t.calls,
                  workers := s.workers[|s.calls| := Passed(setupError, verify, e)])
    ensures Next(c, t, WorkerCommit(|s.calls|)) ==
            s.(calls := t.calls, store := Some(Processed(e, e.verifyTask.value, setupError, verify).0))
  {
    hide RunPass;
    assert s.workers[|s.calls| := Passed(setupError, verify, e)] - {|s.calls|} == s.workers;
  }

  /** The record and the queue entries after a sweep that took this decision. */
  ghost predicate SweepEffect(s: World, t: World, decision: SweepDecision) {
    match decision
    case Healthy => t.store == s.store && t.enqueues == s.enqueues
    case Retry(next) =>
      next.verifyTask.Some? && t.store == Some(next) && t.enqueues == s.enqueues + [next.verifyTask.value.attempt]
    case TimedOut(next) => t.store == Some(next) && t.enqueues == s.enqueues
  }

  /** Likewise for a sweep: the record and the enqueue of `SweepIfTimedOut`. */
  lemma SweepScheduleIsMethod(c: Config, s: World, k: nat)
    requires s.store.Some? && s.store.value.workflowId == Verify && k !in s.sweeps
    ensures var t := Run(c, s, [SweepRead(k), SweepDecide(k)] + [SweepCommit(k), SweepEnqueue(k)]);
            && t.sweeps == s.sweeps && t.workers == s.workers
            && SweepEffect(s, t, DecideSweep(s.store.value, s.clock, c.deadlineMs, s.nextId))
  {
    hide Run, Next, SweepEffect, DecideSweep;
    RunConcat(c, s, [SweepRead(k), SweepDecide(k)], [SweepCommit(k), SweepEnqueue(k)]);
    TwoSteps(c, s, SweepRead(k), SweepDecide(k));
    var s2 := Run(c, s, [SweepRead(k), SweepDecide(k)]);
    TwoSteps(c, s2, SweepCommit(k), SweepEnqueue(k));
    SweepStartEffect(c, s, k);
    SweepEndEffect(c, s, s2, k, DecideSweep(s.store.value, s.clock, c.deadlineMs, s.nextId));
  }

  /** What sweep `k` holds after its decision. */
  ghost predicate Holding(s: World, t: World, k: nat, decision: SweepDecision)
    requires s.store.Some?
  {
    t == s.(nextId := t.nextId, sweeps :=
      match decision
      case Healthy => s.sweeps
      case Retry(next) => s.sweeps[k := Retrying(CapturedId(s.store.value), next)]
      case TimedOut(next) => s.sweeps[k := GivingUp(CapturedId(s.store.value), next)])
  }

  lemma SweepStartEffect(c: Config, s: World, k: nat)
    requires s.store.Some? && s.store.value.workflowId == Verify && k !in s.sweeps
    ensures Holding(s, Next(c, Next(c, s, SweepRead(k)), SweepDecide(k)), k,
                    DecideSweep(s.store.value, s.clock, c.deadlineMs, s.nextId))
  {
    hide DecideSweep;
    var read := s.sweeps[k := Read(s.store.value)];
    assert Next(c, s, SweepRead(k)) == s.(sweeps := read);
    assert read - {k} == s.sweeps;
    var decided := Next(c, Next(c, s, SweepRead(k)), SweepDecide(k)).sweeps;
    if k in decided {
      assert read[k := decided[k]] == s.sweeps[k := decided[k]];
    }
  }

  lemma SweepEndEffect(c: Config, s: World, t: World, k: nat, decision: SweepDecision)
    requires s.store.Some? && s.store.value.workflowId == Verify && k !in s.sweeps && Holding(s, t, k, decision)
    requires decision == DecideSweep(s.store.value, s.clock, c.deadlineMs, s.nextId)
    ensures var u := Next(c, Next(c, t, SweepCommit(k)), SweepEnqueue(k));
            u.sweeps == s.sweeps && u.workers == s.workers && SweepEffect(s, u, decision)
  {
    match decision
    case Healthy =>
    case Retry(next) =>
      var held := s.sweeps[k := Retrying(CapturedId(s.store.value), next)];
      assert held[k := MustEnqueue(next.verifyTask.value.attempt)] - {k} == s.sweeps;
    case TimedOut(next) =>
      assert s.sweeps[k := GivingUp(CapturedId(s.store.value), next)] - {k} == s.sweeps;
  }
}
