/** How an exchange settles. */
module ProtocolSettling {
  import opened Wrappers
  import opened VerifyTasks
  import opened TransactionManagers
  import opened VerifyTaskWorkers
  import opened VerifyTaskSweeps
  import opened Protocol
  import opened ProtocolInvariant

  // ----- sweeps use the attempts up ---------------------------------------

  /** Sweeps still needed to settle: the attempts left plus the give-up. */
  function Rank(store: Option<Exchange>): nat {
    if store.None? || store.value.state != Active || store.value.verifyTask.None? then 0
    else
      var task := store.value.verifyTask.value;
      if task.attempt <= task.maxAttempts then task.maxAttempts - task.attempt + 1 else 0
  }

  /** The step commits a sweep's write over a record that is still active. */
  predicate IsEffectiveSweep(s: World, step: Step) {
    && step.SweepCommit? && step.k in s.sweeps
    && (s.sweeps[step.k].Retrying? || s.sweeps[step.k].GivingUp?)
    && Matches(s.store, s.sweeps[step.k].expected)
    && s.store.value.state == Active
  }

  function EffectiveSweeps(c: Config, s: World, steps: seq<Step>): nat {
    if steps == [] then 0
    else
      var init, last := steps[..|steps| - 1], steps[|steps| - 1];
      EffectiveSweeps(c, s, init) + if IsEffectiveSweep(Run(c, s, init), last) then 1 else 0
  }

  /** No worker finishes its pass, and the record is not evicted. */
  predicate Unfinished(s: World, step: Step) {
    !step.Evict? && !(step.WorkerCommit? && step.w in s.workers && s.workers[step.w].Verifying?)
  }

  predicate NoWorkerFinishes(c: Config, s: World, steps: seq<Step>) {
    steps == [] || (
      var init, last := steps[..|steps| - 1], steps[|steps| - 1];
      NoWorkerFinishes(c, s, init) && Unfinished(Run(c, s, init), last))
  }

  /** As long as no worker finishes, a settled record is the one the give-up wrote. */
  ghost predicate OnlyTimedOut(c: Config, s: World)
    requires ValidConfig(c)
  {
    && s.store.Some?
    && (s.store.value.state != Active ==>
          && s.store.value.state == Invalid
          && s.store.value.results == Some(Origin(Base(c), true))
          && |s.log| == Task(c).maxAttempts)
  }

  lemma SweepCommitRank(c: Config, s: World, k: nat)
    requires ValidConfig(c) && Inv(c, s) && OnlyTimedOut(c, s)
    ensures var t := DoSweepCommit(s, k);
            && OnlyTimedOut(c, t)
            && Rank(s.store) == Rank(t.store) + if IsEffectiveSweep(s, SweepCommit(k)) then 1 else 0
  {
    hide Derived, WorkersOk, CountsOk, Compatible;
    if k in s.sweeps {
      assert SweepOk(c, s, s.sweeps[k]);
      match s.sweeps[k]
      case Retrying(expected, next) =>
        if Matches(s.store, expected) { RetryIsNext(c, s, expected, next); }
      case GivingUp(expected, next) =>
        if Matches(s.store, expected) { SameAttempt(c, s.log, s.nextId, s.store.value, next); }
      case _ =>
    }
  }

  lemma WorkerMarkRank(c: Config, s: World, w: nat)
    requires ValidConfig(c) && Inv(c, s) && OnlyTimedOut(c, s)
    ensures OnlyTimedOut(c, DoWorkerMark(s, w)) && Rank(DoWorkerMark(s, w).store) == Rank(s.store)
  {
    hide Derived, SweepsOk, CountsOk;
    if w in s.workers && s.workers[w].Loaded? && Matches(s.store, CapturedId(s.workers[w].snapshot)) {
      assert WorkerOk(c, s.log, s.calls[w], s.workers[w]);
      SameAttempt(c, s.log, s.nextId, s.store.value, s.workers[w].snapshot);
    }
  }

  lemma WorkerFailRank(c: Config, s: World, w: nat)
    requires ValidConfig(c) && Inv(c, s) && OnlyTimedOut(c, s)
    requires w in s.workers ==> !s.workers[w].Verifying?
    ensures OnlyTimedOut(c, DoWorkerCommit(s, w)) && Rank(DoWorkerCommit(s, w).store) == Rank(s.store)
  {
    hide Derived, SweepsOk, CountsOk;
    if w in s.workers && s.workers[w].Failing? && Matches(s.store, CapturedId(s.workers[w].snapshot)) {
      assert WorkerOk(c, s.log, s.calls[w], s.workers[w]);
      SameAttempt(c, s.log, s.nextId, s.store.value, s.workers[w].snapshot);
    }
  }

  lemma RankStep(c: Config, s: World, step: Step)
    requires ValidConfig(c) && Inv(c, s) && OnlyTimedOut(c, s) && Unfinished(s, step)
    ensures OnlyTimedOut(c, Next(c, s, step))
    ensures Rank(s.store) == Rank(Next(c, s, step).store) + if IsEffectiveSweep(s, step) then 1 else 0
  {
    hide Inv, DecideSweep, CasRecord;
    match step
    case WorkerMark(w) => WorkerMarkRank(c, s, w);
    case WorkerCommit(w) => WorkerFailRank(c, s, w);
    case SweepCommit(k) => SweepCommitRank(c, s, k);
    case _ =>
  }

  lemma {:induction false} RankRun(c: Config, s: World, steps: seq<Step>)
    requires ValidConfig(c) && Inv(c, s) && OnlyTimedOut(c, s) && NoWorkerFinishes(c, s, steps)
    ensures OnlyTimedOut(c, Run(c, s, steps))
    ensures Rank(s.store) == Rank(Run(c, s, steps).store) + EffectiveSweeps(c, s, steps)
  {
    hide Inv, Next, IsEffectiveSweep, Rank, OnlyTimedOut, Unfinished;
    if steps != [] {
      var init := steps[..|steps| - 1];
      RankRun(c, s, init);
      RunInv(c, s, init);
      RankStep(c, Run(c, s, init), steps[|steps| - 1]);
    }
  }

  /**
   From an active exchange whose workers never finish, the exchange settles exactly when
   `maxAttempts - attempt + 1` sweeps have committed over it, never earlier and never later; then it is `invalid`
   and its results are the base results, unverified, with one timeout check appended.
   */
  lemma SweepsExhaustAttempts(c: Config, before: seq<Step>, after: seq<Step>)
    requires ValidConfig(c)
    requires var s := Run(c, Init(c), before);
             && s.store.Some? && s.store.value.state == Active
             && NoWorkerFinishes(c, s, after)
    ensures var s := Run(c, Init(c), before);
            var t := Run(c, Init(c), before + after);
            var n := EffectiveSweeps(c, s, after);
            && n <= Task(c).maxAttempts - |s.log| + 1
            && t.store.Some?
            && (t.store.value.state != Active <==> n == Task(c).maxAttempts - |s.log| + 1)
            && (t.store.value.state != Active ==>
                  && t.store.value.state == Invalid
                  && t.store.value.results.Some?
                  && !t.store.value.results.value.verified
                  && t.store.value.results.value.presentationResults == Base(c).presentationResults + [TIMEOUT_CHECK]
                  && t.store.value.results.value.credentialResults == Base(c).credentialResults)
  {
    hide Next, WorkersOk, SweepsOk, CountsOk, Derived;
    ReachableInv(c, before);
    ReachableInv(c, before + after);
    RunConcat(c, Init(c), before, after);
    RankRun(c, Run(c, Init(c), before), after);
  }

  // ----- polling is enough -------------------------------------------------

  /** A poll after the deadline: one whole sweep `k` with nothing in between. */
  function PollSteps(k: nat, ms: nat): seq<Step> {
    [Tick(ms), SweepRead(k), SweepDecide(k)] + [SweepCommit(k), SweepEnqueue(k)]
  }

  /** Long enough to pass the stored deadline. */
  function PollTime(s: World): nat {
    if s.store.Some? && s.store.value.verifyTask.Some? then s.store.value.verifyTask.value.deadlineAt else 0
  }

  function Poll(c: Config, s: World, k: nat): World {
    Run(c, s, PollSteps(k, PollTime(s)))
  }

  function Polls(c: Config, s: World, k: nat, n: nat): World
    decreases n
  {
    if n == 0 then s else Polls(c, Poll(c, s, k), k, n - 1)
  }

  /** Up to its decision the poll only holds what it will write. */
  lemma PollDecides(c: Config, s: World, k: nat)
    requires k !in s.sweeps && s.store.Some? && Sweepable(s.store.value)
    ensures var e := s.store.value;
            var task := e.verifyTask.value;
            var t := Run(c, s, [Tick(PollTime(s)), SweepRead(k), SweepDecide(k)]);
            && t.clock >= task.deadlineAt
            && t == s.(clock := t.clock, nextId := t.nextId, sweeps := s.sweeps[k :=
                         if task.attempt < task.maxAttempts
                         then Retrying(task.attemptId, RetryRecord(e, task, t.clock, c.deadlineMs, s.nextId))
                         else GivingUp(task.attemptId, GiveUpRecord(e, task))])
  {
    hide Run, RetryRecord, GiveUpRecord;
    var e := s.store.value;
    ThreeSteps(c, s, Tick(PollTime(s)), SweepRead(k), SweepDecide(k));
    var s2 := Next(c, Next(c, s, Tick(PollTime(s))), SweepRead(k));
    assert s2.sweeps == s.sweeps[k := Read(e)];
    var decided := Next(c, s2, SweepDecide(k)).sweeps[k];
    assert s.sweeps[k := Read(e)][k := decided] == s.sweeps[k := decided];
  }

  /** Then it writes it, and enqueues a retry. */
  lemma PollWrites(c: Config, s: World, k: nat, held: map<nat, Sweep>, w: Sweep)
    requires k !in held && s.sweeps == held[k := w] && s.store.Some?
    requires w.Retrying? || w.GivingUp?
    requires ReadVerifyTaskAttemptId(s.store.value) == Some(w.expected)
    requires w.Retrying? ==> w.next.verifyTask.Some?
    ensures var t := Run(c, s, [SweepCommit(k), SweepEnqueue(k)]);
            && t == s.(store := Some(w.next), sweeps := held, log := t.log, enqueues := t.enqueues)
            && s.enqueues <= t.enqueues
  {
    hide Run;
    TwoSteps(c, s, SweepCommit(k), SweepEnqueue(k));
    assert s.sweeps - {k} == held;
    if w.Retrying? {
      assert held[k := w][k := MustEnqueue(w.next.verifyTask.value.attempt)] - {k} == held;
    }
  }

  lemma PollEffect(c: Config, s: World, k: nat)
    requires k !in s.sweeps && s.store.Some? && Sweepable(s.store.value)
    ensures var e := s.store.value;
            var task := e.verifyTask.value;
            var t := Poll(c, s, k);
            && t.sweeps == s.sweeps && t.workers == s.workers && t.calls == s.calls && s.enqueues <= t.enqueues
            && t.store == Some(if task.attempt < task.maxAttempts
                               then RetryRecord(e, task, t.clock, c.deadlineMs, s.nextId)
                               else GiveUpRecord(e, task))
  {
    hide Run, Next;
    var start := [Tick(PollTime(s)), SweepRead(k), SweepDecide(k)];
    PollDecides(c, s, k);
    var s3 := Run(c, s, start);
    PollWrites(c, s3, k, s.sweeps, s3.sweeps[k]);
    RunConcat(c, s, start, [SweepCommit(k), SweepEnqueue(k)]);
  }

  /** Polls alone, one per lapsed deadline, settle any queued or running exchange as given up. */
  lemma {:induction false} PollingGivesUp(c: Config, s: World, k: nat)
    requires ValidConfig(c) && k !in s.sweeps
    requires s.store.Some? && Sweepable(s.store.value)
    requires s.store.value.verifyTask.value.attempt <= s.store.value.verifyTask.value.maxAttempts
    ensures var t := Polls(c, s, k, Rank(s.store));
            && t.store.Some?
            && t.store.value.state == Invalid
            && t.store.value.verifyTask.Some? && t.store.value.verifyTask.value.status == GaveUp
            && t.store.value.results == Some(AppendAllResult(s.store.value.results, TIMEOUT_CHECK))
    decreases Rank(s.store)
  {
    hide Poll, AppendAllResult;
    PollEffect(c, s, k);
    var t := Poll(c, s, k);
    if s.store.value.verifyTask.value.attempt < s.store.value.verifyTask.value.maxAttempts {
      PollingGivesUp(c, t, k);
    } else {
      assert Polls(c, s, k, 1) == Polls(c, t, k, 0);
    }
  }

  /** A poll finds nothing to do on a record that is not queued or running. */
  lemma PollIdles(c: Config, s: World, k: nat)
    requires k !in s.sweeps && s.store.Some? && !Sweepable(s.store.value)
    ensures Poll(c, s, k).store == s.store && Poll(c, s, k).sweeps == s.sweeps
  {
    hide Run;
    var start := [Tick(PollTime(s)), SweepRead(k), SweepDecide(k)];
    ThreeSteps(c, s, Tick(PollTime(s)), SweepRead(k), SweepDecide(k));
    var s3 := Run(c, s, start);
    assert s3.sweeps == s.sweeps && s3.store == s.store;
    TwoSteps(c, s3, SweepCommit(k), SweepEnqueue(k));
    RunConcat(c, s, start, [SweepCommit(k), SweepEnqueue(k)]);
  }

  lemma {:induction false} PollsIdle(c: Config, s: World, k: nat, n: nat)
    requires k !in s.sweeps && s.store.Some? && !Sweepable(s.store.value)
    ensures Polls(c, s, k, n).store == s.store
    decreases n
  {
    hide Poll;
    if n > 0 {
      PollIdles(c, s, k);
      PollsIdle(c, Poll(c, s, k), k, n - 1);
    }
  }

  /**
   Polls settle an active exchange with attempts left, of whatever status is not terminal, exactly if it is not
   `failed`.
   */
  lemma PollsSettleIff(c: Config, s: World, k: nat)
    requires ValidConfig(c) && k !in s.sweeps
    requires s.store.Some? && s.store.value.workflowId == Verify && s.store.value.state == Active
             && s.store.value.verifyTask.Some?
    requires !IsTerminal(s.store.value.verifyTask.value.status)
    requires s.store.value.verifyTask.value.attempt <= s.store.value.verifyTask.value.maxAttempts
    ensures (exists n :: Polls(c, s, k, n).store.Some? && Polls(c, s, k, n).store.value.state != Active)
            <==> s.store.value.verifyTask.value.status != Failed
  {
    hide Polls, AppendAllResult;
    if s.store.value.verifyTask.value.status == Failed {
      forall n ensures Polls(c, s, k, n).store == s.store {
        PollsIdle(c, s, k, n);
      }
    } else {
      PollingGivesUp(c, s, k);
      assert Polls(c, s, k, Rank(s.store)).store.value.state == Invalid;
    }
  }
}
