/** Neither `complete` nor `gave-up` is final: for each, a run that leaves it. */
module ProtocolReverts {
  import opened Wrappers
  import opened VerificationResults
  import opened VerifyTasks
  import opened TransactionManagers
  import opened VerifyTaskWorkers
  import opened VerifyTaskSweeps
  import opened Protocol
  import opened ProtocolSettling
  import opened ProtocolRuns

  // ----- a completed exchange ----------------------------------------------

  /** The whole worker's schedule for a verifier that answers every call. */
  function Answering(verify: Json -> ObResult, e: Exchange, w: nat): seq<Step>
    requires e.verifyTask.Some?
  {
    WorkerSchedule(None, (x: Json) => Returned(verify(x)), e, w)
  }

  /** A worker nobody interrupts, over a record with the posted results, settles it by the inline pass. */
  lemma AnsweringSettles(c: Config, s: World, verify: Json -> ObResult)
    requires s.store.Some? && s.store.value.workflowId == Verify && s.store.value.verifyTask.Some?
             && s.store.value.results.Some?
    requires !IsTerminal(s.store.value.verifyTask.value.status)
    requires |s.calls| < |s.enqueues| && |s.calls| !in s.workers
    ensures var e := s.store.value;
            var t := Run(c, s, Answering(verify, e, |s.calls|));
            && t == s.(calls := t.calls, store := t.store)
            && t.store == Some(Settle(e, e.verifyTask.value,
                                      FoldOpenBadges(verify, e.results.value,
                                                     e.verifyTask.value.openBadgesCredentialIndices)))
  {
    hide Run, Next, WorkerSchedule, RunPass, FoldOpenBadges;
    var e := s.store.value;
    WorkerScheduleIsMethod(c, s, None, (x: Json) => Returned(verify(x)));
    SamePass(verify, e.results.value, e.verifyTask.value.openBadgesCredentialIndices);
  }

  /** A sweep reads the posted record after its deadline, and then the worker completes the exchange. */
  lemma ReachComplete(c: Config, verify: Json -> ObResult)
    requires ValidConfig(c)
    requires FoldOpenBadges(verify, Base(c), Task(c).openBadgesCredentialIndices).verified
    ensures var s := Run(c, Init(c),
                         [PostEnqueue, Tick(Task(c).deadlineAt), SweepRead(0)] + Answering(verify, c.posted, 0));
            && s.store.Some? && s.store.value.state == Complete
            && ReadVerifyTaskAttemptId(s.store.value) == Some(0)
            && s.sweeps == map[0 := Read(c.posted)] && s.clock == Task(c).deadlineAt
  {
    hide FoldOpenBadges, Answering, Run;
    var d := Task(c).deadlineAt;
    StartRun(c, d);
    AnsweringSettles(c, Run(c, Init(c), [PostEnqueue, Tick(d), SweepRead(0)]), verify);
    RunConcat(c, Init(c), [PostEnqueue, Tick(d), SweepRead(0)], Answering(verify, c.posted, 0));
  }

  /** The stale sweep goes on and makes the exchange active. */
  lemma StaleRetry(c: Config, s: World)
    requires ValidConfig(c) && Task(c).maxAttempts >= 2
    requires s.store.Some? && ReadVerifyTaskAttemptId(s.store.value) == Some(0)
    requires s.sweeps == map[0 := Read(c.posted)] && s.clock >= Task(c).deadlineAt
    ensures var t := Run(c, s, [SweepDecide(0), SweepCommit(0)]); t.store.Some? && t.store.value.state == Active
  {
    hide Run;
    TwoSteps(c, s, SweepDecide(0), SweepCommit(0));
    assert Next(c, s, SweepDecide(0)).sweeps[0].Retrying?;
  }

  /**
   `complete` is not a final state of the protocol: whenever retries are allowed and the pass
   verifies, some run completes the exchange and a sweep that read it earlier makes it active again.
   */
  lemma CompleteCanRevert(c: Config, verify: Json -> ObResult)
    requires ValidConfig(c) && Task(c).maxAttempts >= 2
    requires FoldOpenBadges(verify, Base(c), Task(c).openBadgesCredentialIndices).verified
    ensures exists steps: seq<Step>, more: seq<Step> ::
              && Run(c, Init(c), steps).store.Some? && Run(c, Init(c), steps).store.value.state == Complete
              && Run(c, Init(c), steps + more).store.Some? && Run(c, Init(c), steps + more).store.value.state == Active
  {
    hide FoldOpenBadges, Run, Next, Answering;
    ReachComplete(c, verify);
    var steps := [PostEnqueue, Tick(Task(c).deadlineAt), SweepRead(0)] + Answering(verify, c.posted, 0);
    var more := [SweepDecide(0), SweepCommit(0)];
    StaleRetry(c, Run(c, Init(c), steps));
    RunConcat(c, Init(c), steps, more);
    assert Run(c, Init(c), steps).store.value.state == Complete;
    assert Run(c, Init(c), steps + more).store.value.state == Active;
  }

  lemma SamePass(verify: Json -> ObResult, r: VerificationResult, indices: seq<nat>)
    ensures RunPass((x: Json) => Returned(verify(x)), r, indices) == Merged(FoldOpenBadges(verify, r, indices))
  {
    RunPassIsFold(verify, r, indices);
  }

  lemma StartRun(c: Config, d: nat)
    requires ValidConfig(c)
    ensures Run(c, Init(c), [PostEnqueue, Tick(d), SweepRead(0)]) ==
            Next(c, Next(c, Next(c, Init(c), PostEnqueue), Tick(d)), SweepRead(0))
  {
    hide Next;
    var s := Init(c);
    assert [PostEnqueue, Tick(d), SweepRead(0)] == [PostEnqueue, Tick(d)] + [SweepRead(0)];
    RunSnoc(c, s, [PostEnqueue, Tick(d)], SweepRead(0));
    TwoSteps(c, s, PostEnqueue, Tick(d));
  }

  // ----- an exchange that gave up ------------------------------------------

  /** Attempt `n` is queued with the posted results, its enqueue is waiting and nobody is at work. */
  ghost predicate Parked(c: Config, s: World, n: nat)
    requires c.posted.verifyTask.Some?
  {
    && s.store.Some? && Sweepable(s.store.value)
    && s.store.value.results == c.posted.results
    && s.store.value.verifyTask.value.attempt == n
    && s.store.value.verifyTask.value.maxAttempts == Task(c).maxAttempts
    && s.store.value.verifyTask.value.openBadgesCredentialIndices == Task(c).openBadgesCredentialIndices
    && s.sweeps == map[] && s.workers == map[] && s.calls == [] && s.enqueues != []
  }

  lemma {:induction false} ReachAttempt(c: Config, n: nat)
    requires ValidConfig(c) && 1 <= n <= Task(c).maxAttempts
    ensures exists steps: seq<Step> :: Parked(c, Run(c, Init(c), steps), n)
  {
    if n == 1 {
      OneStep(c, Init(c), PostEnqueue);
      assert Parked(c, Run(c, Init(c), [PostEnqueue]), 1);
    } else {
      hide Run, Poll;
      ReachAttempt(c, n - 1);
      var steps :| Parked(c, Run(c, Init(c), steps), n - 1);
      var s := Run(c, Init(c), steps);
      PollEffect(c, s, 0);
      PollIsRun(c, s);
      RunConcat(c, Init(c), steps, PollSteps(0, PollTime(s)));
      assert Parked(c, Run(c, Init(c), steps + PollSteps(0, PollTime(s))), n);
    }
  }

  lemma PollIsRun(c: Config, s: World)
    ensures Poll(c, s, 0) == Run(c, s, PollSteps(0, PollTime(s)))
  {
  }

  /** A worker loads the last attempt; then a poll gives up. */
  lemma LoadThenGiveUp(c: Config, s: World)
    requires ValidConfig(c) && Parked(c, s, Task(c).maxAttempts)
    ensures var e := s.store.value;
            var t := Run(c, s, [WorkerLoad] + PollSteps(0, PollTime(s)));
            && t.store == Some(GiveUpRecord(e, e.verifyTask.value))
            && t.workers == map[0 := Loaded(e)]
  {
    hide Run, Poll, GiveUpRecord;
    OneStep(c, s, WorkerLoad);
    var s1 := Next(c, s, WorkerLoad);
    PollEffect(c, s1, 0);
    PollIsRun(c, s1);
    RunConcat(c, s, [WorkerLoad], PollSteps(0, PollTime(s)));
  }

  /** The worker marks its attempt running over the give-up. */
  lemma MarkOverGiveUp(c: Config, s: World, e: Exchange)
    requires e.workflowId == Verify && e.verifyTask.Some? && e.results.Some?
    requires s.store == Some(GiveUpRecord(e, e.verifyTask.value)) && s.workers == map[0 := Loaded(e)]
    ensures var t := Run(c, s, [WorkerMark(0)]);
            && t.store == Some(WithVerifyTask(GiveUpRecord(e, e.verifyTask.value), MarkRunning(e.verifyTask.value)))
            && t.workers == map[0 := Verifying(e, e.results.value, 0)]
  {
    hide Run;
    OneStep(c, s, WorkerMark(0));
  }

  /** And commits its pass. */
  lemma CommitOverGiveUp(c: Config, s: World, e: Exchange, verify: Json -> ObResult)
    requires e.workflowId == Verify && e.verifyTask.Some? && e.results.Some?
    requires s.store == Some(WithVerifyTask(GiveUpRecord(e, e.verifyTask.value), MarkRunning(e.verifyTask.value)))
    requires s.workers == map[0 := Verifying(e, e.results.value, 0)]
    ensures var t := Run(c, s, PassSchedule(None, (x: Json) => Returned(verify(x)), e, 0) + [WorkerCommit(0)]);
            t.store == Some(Settle(e, e.verifyTask.value,
                                   FoldOpenBadges(verify, e.results.value,
                                                  e.verifyTask.value.openBadgesCredentialIndices)))
  {
    hide Run, PassSchedule, RunPass, FoldOpenBadges;
    var answer := (x: Json) => Returned(verify(x));
    var pass := PassSchedule(None, answer, e, 0);
    PassEffect(c, s, None, answer, e, 0);
    SamePass(verify, e.results.value, e.verifyTask.value.openBadgesCredentialIndices);
    RunSnoc(c, s, pass, WorkerCommit(0));
  }

  ghost predicate Stores(s: World, state: ExchangeState, status: TaskStatus) {
    s.store.Some? && s.store.value.state == state && s.store.value.verifyTask.Some?
    && s.store.value.verifyTask.value.status == status
  }

  /**
   `gave-up` is not a final state either, for any number of attempts and any verifier: some run gives up, then marks
   the exchange running while it stays `invalid`, and then commits the pass over the posted results, which completes
   the exchange whenever that pass verifies.
   */
  lemma GaveUpCanRevert(c: Config, verify: Json -> ObResult)
    requires ValidConfig(c)
    ensures exists a: seq<Step>, b: seq<Step>, d: seq<Step> ::
              var pass := FoldOpenBadges(verify, Base(c), Task(c).openBadgesCredentialIndices);
              && Stores(Run(c, Init(c), a), Invalid, GaveUp)
              && Stores(Run(c, Init(c), a + b), Invalid, Running)
              && Stores(Run(c, Init(c), a + b + d), OutcomeState(pass.verified), Succeeded)
              && Run(c, Init(c), a + b + d).store.value.results == Some(pass)
  {
    hide FoldOpenBadges, Run, Next, PassSchedule;
    ReachAttempt(c, Task(c).maxAttempts);
    var steps :| Parked(c, Run(c, Init(c), steps), Task(c).maxAttempts);
    var s := Run(c, Init(c), steps);
    var e := s.store.value;
    var poll := [WorkerLoad] + PollSteps(0, PollTime(s));
    var a, b := steps + poll, [WorkerMark(0)];
    var d := PassSchedule(None, (x: Json) => Returned(verify(x)), e, 0) + [WorkerCommit(0)];
    LoadThenGiveUp(c, s);
    RunConcat(c, Init(c), steps, poll);
    MarkOverGiveUp(c, Run(c, Init(c), a), e);
    RunConcat(c, Init(c), a, b);
    CommitOverGiveUp(c, Run(c, Init(c), a + b), e, verify);
    RunConcat(c, Init(c), a + b, d);
    assert Stores(Run(c, Init(c), a), Invalid, GaveUp);
    assert Stores(Run(c, Init(c), a + b), Invalid, Running);
    assert Run(c, Init(c), a + b + d).store.value.results.value ==
             FoldOpenBadges(verify, Base(c), Task(c).openBadgesCredentialIndices);
  }
}
