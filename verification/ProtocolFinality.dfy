/** When an exchange nobody is bound to work on stays as it is. */
module ProtocolFinality {
  import opened Wrappers
  import opened VerificationResults
  import opened VerifyTasks
  import opened TransactionManagers
  import opened VerifyTaskWorkers
  import opened VerifyTaskSweeps
  import opened Protocol
  import opened ProtocolInvariant
  import opened ProtocolSafety

  /** Stored with a task nobody is bound to work on: `succeeded`, `gave-up` or `failed`. */
  ghost predicate Resting(s: World) {
    && s.store.Some? && s.store.value.workflowId == Verify && s.store.value.verifyTask.Some?
    && (IsTerminal(s.store.value.verifyTask.value.status) || s.store.value.verifyTask.value.status == Failed)
  }

  ghost predicate Settled(s: World) {
    Resting(s) && s.store.value.state != Active && IsTerminal(s.store.value.verifyTask.value.status)
  }

  /** The sweep still holds a write, under the stored attempt id, of something other than the stored record. */
  ghost predicate SweepThreatens(e: Exchange, w: Sweep) {
    match w
    case Read(old') =>
      && Sweepable(old') && CapturedId(old') == CapturedId(e)
      && (old'.verifyTask.value.attempt < old'.verifyTask.value.maxAttempts
          || GiveUpRecord(old', old'.verifyTask.value) != e)
    case Retrying(expected, _) => expected == CapturedId(e)
    case GivingUp(expected, next) => expected == CapturedId(e) && next != e
    case MustEnqueue(_) => false
  }

  /** Some call of the worker may still throw: resolving the registries before the loop, or a verifier call in it. */
  ghost predicate CanThrow(w: Worker)
    requires w.Verifying?
  {
    var indices := IndicesOf(w.snapshot);
    w.next == 0 || exists j :: w.next <= j < |indices| && CredentialAt(w.merged, indices[j]).Some?
  }

  /**
   The worker, with its snapshot under the stored attempt id, can still write something other than the stored record:
   its running mark, a failure or merged results that are not the stored ones.
   */
  ghost predicate WorkerThreatens(e: Exchange, w: Worker) {
    && CapturedId(w.snapshot) == CapturedId(e)
    && (w.Loaded? || (w.Verifying? && CanThrow(w)) || CommitStored(Some(e), w) != Some(e))
  }

  /** A failed task is not terminal: a queue entry no run has used, or one still to be made, would run it again. */
  ghost predicate WillRerun(s: World)
    requires s.store.Some? && s.store.value.verifyTask.Some?
  {
    && s.store.value.verifyTask.value.status == Failed
    && (|s.calls| < |s.enqueues| || s.postMustEnqueue || exists k :: k in s.sweeps && s.sweeps[k].MustEnqueue?)
  }

  /** Someone outstanding took a snapshot under the stored attempt id and can still write another record. */
  ghost predicate Threatened(s: World)
    requires s.store.Some?
  {
    || (exists w :: w in s.workers && WorkerThreatens(s.store.value, s.workers[w]))
    || (exists k :: k in s.sweeps && SweepThreatens(s.store.value, s.sweeps[k]))
  }

  ghost predicate Frozen(s: World, e: Exchange) {
    s.store == Some(e) && Resting(s) && !Threatened(s) && !WillRerun(s)
  }

  /** A turn of the loop does not take a harmless worker's credentials or results away. */
  lemma HarmlessTurn(s: World, e: Exchange, w: nat, ob: ObResult)
    requires w in s.workers && s.workers[w].Verifying?
    requires CapturedId(s.workers[w].snapshot) == CapturedId(e) && !WorkerThreatens(e, s.workers[w])
    ensures var t := DoWorkerVerify(s, w, ob);
            t.workers[w].snapshot == s.workers[w].snapshot && !WorkerThreatens(e, t.workers[w])
  {
    hide CredentialAt, MergeOpenBadgesResultsAt;
    var v := s.workers[w];
    if v.next < |IndicesOf(v.snapshot)| {
      assert CredentialAt(v.merged, IndicesOf(v.snapshot)[v.next]).None?;
    }
  }

  lemma FrozenWorkerWrite(c: Config, s: World, e: Exchange, step: Step)
    requires Frozen(s, e)
    requires step.WorkerMark? || step.WorkerCommit?
    ensures Next(c, s, step).store == Some(e)
  {
    hide DecideSweep, MergeOpenBadgesResultsAt, CredentialAt, SweepThreatens;
    WritesAreKeyed(c, s, step);
    if step.w in s.workers {
      assert !WorkerThreatens(e, s.workers[step.w]);
    }
  }

  /** The worker keys, snapshots and harmlessness after a worker's step. */
  lemma FrozenWorkers(c: Config, s: World, e: Exchange, step: Step, w: nat)
    requires Frozen(s, e)
    requires step.WorkerLoad? || step.WorkerMark? || step.WorkerVerify? || step.WorkerSetupThrow? || step.WorkerThrow?
             || step.WorkerCommit? || step.WorkerDie?
    requires w in Next(c, s, step).workers
    ensures !WorkerThreatens(e, Next(c, s, step).workers[w])
  {
    hide DecideSweep, MergeOpenBadgesResultsAt, CredentialAt, SweepThreatens, CasRecord, CommitStored, MarkStored;
    assert w in s.workers;
    assert !WorkerThreatens(e, s.workers[w]);
    if CapturedId(s.workers[w].snapshot) == CapturedId(e) {
      match step
      case WorkerVerify(v, ob) => if v == w && s.workers[w].Verifying? { HarmlessTurn(s, e, w, ob); }
      case _ =>
    }
  }

  lemma FrozenWorkerStep(c: Config, s: World, e: Exchange, step: Step)
    requires Frozen(s, e)
    requires step.WorkerLoad? || step.WorkerMark? || step.WorkerVerify? || step.WorkerSetupThrow? || step.WorkerThrow?
             || step.WorkerCommit? || step.WorkerDie?
    ensures Frozen(Next(c, s, step), e)
  {
    hide DecideSweep, MergeOpenBadgesResultsAt, CredentialAt, SweepThreatens, WorkerThreatens;
    hide CasRecord, CommitStored, MarkStored, Sweepable;
    var t := Next(c, s, step);
    if step.WorkerMark? || step.WorkerCommit? {
      FrozenWorkerWrite(c, s, e, step);
    }
    assert t.sweeps == s.sweeps && t.store == s.store;
    forall w | w in t.workers ensures !WorkerThreatens(e, t.workers[w]) {
      FrozenWorkers(c, s, e, step, w);
    }
  }

  /** Replacing or dropping one sweep by a harmless one. */
  lemma FrozenSweepFrame(s: World, t: World, e: Exchange, k: nat)
    requires Frozen(s, e) && e.verifyTask.Some? && t.store == s.store && t.workers == s.workers
    requires forall j :: j in t.sweeps && j != k ==> j in s.sweeps && t.sweeps[j] == s.sweeps[j]
    requires k in t.sweeps ==>
               !SweepThreatens(e, t.sweeps[k])
               && (t.sweeps[k].MustEnqueue? ==> k in s.sweeps && s.sweeps[k].MustEnqueue?)
    requires t.calls == s.calls && t.postMustEnqueue == s.postMustEnqueue
    requires t.enqueues == s.enqueues || IsTerminal(e.verifyTask.value.status)
    ensures Frozen(t, e)
  {
    hide SweepThreatens, WorkerThreatens, Sweepable;
  }

  lemma FrozenRead(s: World, e: Exchange, k: nat)
    requires Frozen(s, e)
    ensures Frozen(DoSweepRead(s, k), e)
  {
    hide WorkerThreatens;
    if k !in s.sweeps {
      assert !SweepThreatens(e, Read(e));
      FrozenSweepFrame(s, DoSweepRead(s, k), e, k);
    }
  }

  lemma FrozenDecide(c: Config, s: World, e: Exchange, k: nat)
    requires Frozen(s, e)
    ensures Frozen(DoSweepDecide(c, s, k), e)
  {
    hide WorkerThreatens, RetryRecord, GiveUpRecord;
    if k in s.sweeps {
      assert !SweepThreatens(e, s.sweeps[k]);
      FrozenSweepFrame(s, DoSweepDecide(c, s, k), e, k);
    }
  }

  lemma FrozenSweepCommit(s: World, e: Exchange, k: nat)
    requires Frozen(s, e)
    ensures Frozen(DoSweepCommit(s, k), e)
  {
    hide WorkerThreatens, Sweepable;
    if k in s.sweeps {
      assert !SweepThreatens(e, s.sweeps[k]);
      FrozenSweepFrame(s, DoSweepCommit(s, k), e, k);
    }
  }

  lemma {:induction false} FrozenRun(c: Config, s: World, e: Exchange, after: seq<Step>)
    requires Frozen(s, e) && Evict !in after
    ensures Frozen(Run(c, s, after), e)
  {
    hide Frozen, Next;
    if after != [] {
      var init, last := after[..|after| - 1], after[|after| - 1];
      assert last in after && forall x :: x in init ==> x in after;
      FrozenRun(c, s, e, init);
      FrozenStep(c, Run(c, s, init), e, last);
    }
  }

  lemma FrozenStep(c: Config, s: World, e: Exchange, step: Step)
    requires Frozen(s, e) && step != Evict
    ensures Frozen(Next(c, s, step), e)
  {
    hide SweepThreatens, WorkerThreatens, DoSweepRead, DoSweepDecide, DoSweepCommit, DoWorkerLoad, DoWorkerMark;
    hide DoWorkerVerify, DoWorkerSetupThrow, DoWorkerThrow, DoWorkerCommit;
    match step
    case Tick(ms) =>
    case PostEnqueue =>
    case WorkerLoad => FrozenWorkerStep(c, s, e, step);
    case WorkerMark(_) => FrozenWorkerStep(c, s, e, step);
    case WorkerVerify(_, _) => FrozenWorkerStep(c, s, e, step);
    case WorkerSetupThrow(_, _) => FrozenWorkerStep(c, s, e, step);
    case WorkerThrow(_, _) => FrozenWorkerStep(c, s, e, step);
    case WorkerCommit(_) => FrozenWorkerStep(c, s, e, step);
    case WorkerDie(_) => FrozenWorkerStep(c, s, e, step);
    case SweepRead(k) => FrozenRead(s, e, k);
    case SweepDecide(k) => FrozenDecide(c, s, e, k);
    case SweepCommit(k) => FrozenSweepCommit(s, e, k);
    case SweepEnqueue(k) => FrozenSweepFrame(s, Next(c, s, step), e, k);
    case SweepDie(k) => FrozenSweepFrame(s, Next(c, s, step), e, k);
  }

  /** A message other than the stored one. */
  function NewMessage(e: Exchange): string {
    if e.verifyTask.Some? && e.verifyTask.value.lastError == Some("") then "x" else ""
  }

  /** From here on the worker does nothing but fail. */
  function FailSteps(w: nat, message: string): seq<Step> {
    [WorkerSetupThrow(w, message), WorkerThrow(w, message), WorkerCommit(w)]
  }

  /** A worker that can fail with a new message changes a resting record. */
  lemma FailingCanChange(c: Config, s: World, w: nat)
    requires Resting(s) && w in s.workers && s.workers[w].snapshot.verifyTask.Some?
    requires CapturedId(s.workers[w].snapshot) == CapturedId(s.store.value)
    requires s.workers[w] == Failing(s.workers[w].snapshot, NewMessage(s.store.value))
             || (s.workers[w].Verifying? && s.workers[w].next == 0)
    ensures Run(c, s, FailSteps(w, NewMessage(s.store.value))).store != s.store
  {
    hide DecideSweep, MergeOpenBadgesResultsAt, CredentialAt, DoSweepCommit, DoSweepDecide, Run;
    var message := NewMessage(s.store.value);
    var s1 := Next(c, s, WorkerSetupThrow(w, message));
    var s2 := Next(c, s1, WorkerThrow(w, message));
    assert s2.workers[w] == Failing(s.workers[w].snapshot, message) && s2.store == s.store;
    var s3 := Next(c, s2, WorkerCommit(w));
    ThreeSteps(c, s, WorkerSetupThrow(w, message), WorkerThrow(w, message), WorkerCommit(w));
    assert s3.store.value.verifyTask.value.status == Failed;
    assert s3.store.value.verifyTask.value.lastError == Some(message);
  }

  lemma LoadedCanChange(c: Config, s: World, w: nat)
    requires Resting(s) && w in s.workers && s.workers[w].Loaded? && s.workers[w].snapshot.verifyTask.Some?
    requires CapturedId(s.workers[w].snapshot) == CapturedId(s.store.value)
    ensures Run(c, s, [WorkerMark(w)]).store != s.store
  {
    hide DecideSweep, DoSweepCommit, DoSweepDecide;
    OneStep(c, s, WorkerMark(w));
    assert Next(c, s, WorkerMark(w)).store.value.verifyTask.value.status == Running;
  }

  /** A worker in its loop can run on to any later turn, and there throw. */
  lemma {:induction false} VerifyingCanChange(c: Config, s: World, w: nat, j: nat)
    requires s.store.Some? && Resting(s) && w in s.workers && s.workers[w].Verifying?
             && s.workers[w].snapshot.verifyTask.Some?
    requires CapturedId(s.workers[w].snapshot) == CapturedId(s.store.value)
    requires s.workers[w].next <= j < |IndicesOf(s.workers[w].snapshot)|
    requires CredentialAt(s.workers[w].merged, IndicesOf(s.workers[w].snapshot)[j]).Some?
    ensures exists after: seq<Step> :: Evict !in after && Run(c, s, after).store != s.store
    decreases j - s.workers[w].next
  {
    hide DecideSweep, DoSweepCommit, DoSweepDecide, Run, Resting;
    var v := s.workers[w];
    if v.next == j {
      var message := NewMessage(s.store.value);
      var s1 := Next(c, s, WorkerThrow(w, message));
      RestingFrame(s, s1);
      FailingCanChange(c, s1, w);
      RunFrom(c, s, WorkerThrow(w, message), FailSteps(w, message));
    } else {
      var ob := ObResult(true, [], []);
      var step := WorkerVerify(w, ob);
      var s1 := Next(c, s, step);
      assert s1.workers[w].next == v.next + 1;
      assert CredentialAt(s1.workers[w].merged, IndicesOf(v.snapshot)[j]).Some? by {
        MergeKeepsCredentials(v.merged, IndicesOf(v.snapshot)[v.next], ob, IndicesOf(v.snapshot)[j]);
      }
      RestingFrame(s, s1);
      VerifyingCanChange(c, s1, w, j);
      var after :| Evict !in after && Run(c, s1, after).store != s1.store;
      RunFrom(c, s, step, after);
    }
  }

  lemma RestingFrame(s: World, t: World)
    requires Resting(s) && t.store == s.store
    ensures Resting(t)
  {
  }

  lemma MergeKeepsCredentials(r: VerificationResult, i: nat, ob: ObResult, k: nat)
    ensures CredentialAt(MergeOpenBadgesResultsAt(r, i, ob), k) == CredentialAt(r, k)
  {
  }

  lemma RunFrom(c: Config, s: World, step: Step, after: seq<Step>)
    requires step != Evict && Evict !in after && Run(c, Next(c, s, step), after).store != s.store
    ensures exists longer: seq<Step> :: Evict !in longer && Run(c, s, longer).store != s.store
  {
    hide Next, Run;
    OneStep(c, s, step);
    RunConcat(c, s, [step], after);
    assert Evict !in [step] + after;
  }

  /** A worker that has merged something else can finish its loop and commit it. */
  lemma {:induction false} MergedCanChange(c: Config, s: World, w: nat)
    requires Resting(s) && w in s.workers && s.workers[w].Verifying? && !CanThrow(s.workers[w])
    requires CommitStored(s.store, s.workers[w]) != s.store
    ensures exists after: seq<Step> :: Evict !in after && Run(c, s, after).store != s.store
    decreases |IndicesOf(s.workers[w].snapshot)| - s.workers[w].next
  {
    hide DecideSweep, DoSweepCommit, DoSweepDecide, Run, Resting, CredentialAt, MergeOpenBadgesResultsAt, CasRecord;
    var v := s.workers[w];
    var indices := IndicesOf(v.snapshot);
    if v.next >= |indices| {
      OneStep(c, s, WorkerCommit(w));
      assert Evict !in [WorkerCommit(w)];
    } else {
      var step := WorkerVerify(w, ObResult(true, [], []));
      var s1 := Next(c, s, step);
      assert CredentialAt(v.merged, indices[v.next]).None?;
      assert s1.workers[w] == v.(next := v.next + 1) && s1.store == s.store;
      RestingFrame(s, s1);
      MergedCanChange(c, s1, w);
      var after :| Evict !in after && Run(c, s1, after).store != s1.store;
      RunFrom(c, s, step, after);
    }
  }

  lemma CommitCanChange(c: Config, s: World, w: nat)
    requires w in s.workers && s.workers[w].Failing? && CommitStored(s.store, s.workers[w]) != s.store
    ensures Run(c, s, [WorkerCommit(w)]).store != s.store
  {
    hide CommitStored, Run;
    OneStep(c, s, WorkerCommit(w));
  }

  lemma WorkerCanChange(c: Config, s: World, w: nat)
    requires Resting(s) && w in s.workers && s.workers[w].snapshot.verifyTask.Some?
    requires s.store.Some? && WorkerThreatens(s.store.value, s.workers[w])
    ensures exists after: seq<Step> :: Evict !in after && Run(c, s, after).store != s.store
  {
    hide Next, Run, Resting, CommitStored;
    match s.workers[w]
    case Loaded(_) =>
      LoadedCanChange(c, s, w);
      assert Evict !in [WorkerMark(w)];
    case Failing(_, _) =>
      CommitCanChange(c, s, w);
      assert Evict !in [WorkerCommit(w)];
    case Verifying(_, _, next) =>
      if next == 0 {
        FailingCanChange(c, s, w);
        assert Evict !in FailSteps(w, NewMessage(s.store.value));
      } else if CanThrow(s.workers[w]) {
        var indices := IndicesOf(s.workers[w].snapshot);
        var j :| next <= j < |indices| && CredentialAt(s.workers[w].merged, indices[j]).Some?;
        VerifyingCanChange(c, s, w, j);
      } else {
        MergedCanChange(c, s, w);
      }
  }

  lemma SweepCanChange(c: Config, s: World, k: nat)
    requires Resting(s) && k in s.sweeps && SweepThreatens(s.store.value, s.sweeps[k])
    requires s.sweeps[k].Retrying? ==>
               s.sweeps[k].next.verifyTask.Some? && s.sweeps[k].next.verifyTask.value.status == Queued
    ensures exists ms :: Run(c, s, [Tick(ms), SweepDecide(k), SweepCommit(k)]).store != s.store
  {
    hide MergeOpenBadgesResultsAt, CredentialAt, DoWorkerCommit, DoWorkerMark, DoWorkerVerify, DoWorkerLoad;
    var ms := if s.sweeps[k].Read? then s.sweeps[k].snapshot.verifyTask.value.deadlineAt else 0;
    ThreeSteps(c, s, Tick(ms), SweepDecide(k), SweepCommit(k));
    var s1 := Next(c, s, Tick(ms));
    var s2 := Next(c, s1, SweepDecide(k));
    assert s2.store == s.store;
    assert s2.sweeps[k].Retrying? || s2.sweeps[k].GivingUp?;
    assert Matches(s2.store, s2.sweeps[k].expected);
    assert s2.sweeps[k].next != s.store.value;
    assert Next(c, s2, SweepCommit(k)).store == Some(s2.sweeps[k].next);
    assert Run(c, s, [Tick(ms), SweepDecide(k), SweepCommit(k)]).store != s.store;
  }

  /** Loading the failed record and marking it running changes it. */
  lemma RerunChanges(c: Config, s: World)
    requires Resting(s) && s.store.value.verifyTask.value.status == Failed && |s.calls| < |s.enqueues|
    ensures Run(c, s, [WorkerLoad, WorkerMark(|s.calls|)]).store != s.store
  {
    hide DecideSweep, DoSweepCommit, DoSweepDecide, Run;
    var w := |s.calls|;
    TwoSteps(c, s, WorkerLoad, WorkerMark(w));
    var s1 := Next(c, s, WorkerLoad);
    assert s1.workers[w] == Loaded(s.store.value);
    assert Next(c, s1, WorkerMark(w)).store.value.verifyTask.value.status == Running;
  }

  lemma RerunCanAct(c: Config, s: World)
    requires Resting(s) && WillRerun(s)
    requires |s.calls| <= |s.enqueues|
    ensures exists after: seq<Step> :: Evict !in after && Run(c, s, after).store != s.store
  {
    hide Run, Resting;
    var rerun := [WorkerLoad, WorkerMark(|s.calls|)];
    assert Evict !in rerun;
    if |s.calls| < |s.enqueues| {
      RerunChanges(c, s);
    } else if s.postMustEnqueue {
      var s1 := Next(c, s, PostEnqueue);
      RestingFrame(s, s1);
      RerunChanges(c, s1);
      RunFrom(c, s, PostEnqueue, rerun);
    } else {
      var k :| k in s.sweeps && s.sweeps[k].MustEnqueue?;
      var s1 := Next(c, s, SweepEnqueue(k));
      RestingFrame(s, s1);
      RerunChanges(c, s1);
      RunFrom(c, s, SweepEnqueue(k), rerun);
    }
  }

  /**
   A succeeded, given-up or failed exchange stays as it is, against every continuation short of eviction, exactly when
   no outstanding worker or sweep that took its snapshot under the stored attempt id can still write something else,
   and, if it failed, no queue entry is left to run it again. None of the three is final by itself.
   */
  lemma RestingIsFinalIff(c: Config, steps: seq<Step>)
    requires ValidConfig(c) && Resting(Run(c, Init(c), steps))
    ensures var s := Run(c, Init(c), steps);
            (forall after: seq<Step> :: Evict !in after ==> Run(c, s, after).store == s.store)
            <==> !Threatened(s) && !WillRerun(s)
  {
    hide Next, Run, BodyOk, LogOk, SweepThreatens, WorkerThreatens, WorkersOk, SweepsOk;
    ReachableInv(c, steps);
    var s := Run(c, Init(c), steps);
    if !Threatened(s) && !WillRerun(s) {
      forall after: seq<Step> | Evict !in after ensures Run(c, s, after).store == s.store {
        FrozenRun(c, s, s.store.value, after);
      }
    } else if WillRerun(s) {
      RerunCanAct(c, s);
    } else {
      ThreatCanAct(c, s);
    }
  }

  /** For a settled exchange that is: no such worker or sweep. Neither `succeeded` nor `gave-up` is final by itself. */
  lemma SettledIsFinalIff(c: Config, steps: seq<Step>)
    requires ValidConfig(c) && Settled(Run(c, Init(c), steps))
    ensures var s := Run(c, Init(c), steps);
            (forall after: seq<Step> :: Evict !in after ==> Run(c, s, after).store == s.store) <==> !Threatened(s)
  {
    hide Run, Threatened;
    RestingIsFinalIff(c, steps);
  }

  lemma ThreatCanAct(c: Config, s: World)
    requires ValidConfig(c) && Inv(c, s) && Resting(s) && Threatened(s)
    ensures exists after: seq<Step> :: Evict !in after && Run(c, s, after).store != s.store
  {
    hide Next, Run, SweepThreatens, WorkerThreatens, Inv;
    if w :| w in s.workers && WorkerThreatens(s.store.value, s.workers[w]) {
      WorkerSnapshotHasTask(c, s, w);
      WorkerCanChange(c, s, w);
    } else {
      var k :| k in s.sweeps && SweepThreatens(s.store.value, s.sweeps[k]);
      RetryIsQueued(c, s, k);
      SweepCanChange(c, s, k);
      var ms :| Run(c, s, [Tick(ms), SweepDecide(k), SweepCommit(k)]).store != s.store;
    }
  }

  lemma WorkerSnapshotHasTask(c: Config, s: World, w: nat)
    requires ValidConfig(c) && Inv(c, s) && w in s.workers
    ensures s.workers[w].snapshot.verifyTask.Some?
  {
    hide SweepsOk, CountsOk, LogOk, Derived;
    assert WorkerOk(c, s.log, s.calls[w], s.workers[w]);
  }

  lemma RetryIsQueued(c: Config, s: World, k: nat)
    requires ValidConfig(c) && Inv(c, s) && k in s.sweeps
    ensures s.sweeps[k].Retrying? ==>
              s.sweeps[k].next.verifyTask.Some? && s.sweeps[k].next.verifyTask.value.status == Queued
  {
    hide WorkersOk, CountsOk, LogOk, Derived, Compatible;
    assert SweepOk(c, s, s.sweeps[k]);
  }

  // ----- a failed exchange -------------------------------------------------

  /** The first worker throws and nobody else is there. */
  function ThrowSteps(message: string): seq<Step> {
    [PostEnqueue, WorkerLoad, WorkerMark(0)] + [WorkerSetupThrow(0, message), WorkerCommit(0)]
  }

  lemma ThrowReaches(c: Config, message: string)
    requires ValidConfig(c)
    ensures Run(c, Init(c), ThrowSteps(message)) ==
            Init(c).(store := Some(WithVerifyTask(c.posted, MarkFailed(Task(c), message))),
            postMustEnqueue := false, enqueues := [1], calls := [0])
  {
    hide Run;
    var start, end := [PostEnqueue, WorkerLoad, WorkerMark(0)], [WorkerSetupThrow(0, message), WorkerCommit(0)];
    ThreeSteps(c, Init(c), PostEnqueue, WorkerLoad, WorkerMark(0));
    var s3 := Run(c, Init(c), start);
    assert s3.workers == map[0 := Verifying(c.posted, Base(c), 0)];
    TwoSteps(c, s3, WorkerSetupThrow(0, message), WorkerCommit(0));
    RunConcat(c, Init(c), start, end);
    assert map[0 := Failing(c.posted, message)] - {0} == map[];
  }

  /** One throw leaves the exchange `active` and `failed` for good: no poll and no other step ever changes it again. */
  lemma OneThrowStrands(c: Config, message: string, after: seq<Step>)
    requires ValidConfig(c) && Evict !in after
    ensures var e := WithVerifyTask(c.posted, MarkFailed(Task(c), message));
            && e.state == Active && e.verifyTask.value.status == Failed
            && Run(c, Init(c), ThrowSteps(message)).store == Some(e)
            && Run(c, Init(c), ThrowSteps(message) + after).store == Some(e)
  {
    hide Run, ThrowSteps;
    ThrowReaches(c, message);
    var s := Run(c, Init(c), ThrowSteps(message));
    FrozenRun(c, s, s.store.value, after);
    RunConcat(c, Init(c), ThrowSteps(message), after);
  }
}
