/** Attempts last their time: nothing is retried or given up before its deadline. */
module ProtocolDeadlines {
  import opened Wrappers
  import opened VerificationResults
  import opened VerifyTasks
  import opened VerifyTaskSweeps
  import opened Protocol
  import opened ProtocolInvariant

  ghost predicate IsTimedOut(c: Config, e: Exchange)
    requires ValidConfig(c)
  {
    e.results.Some? && e.results.value.presentationResults ==
                       Base(c).presentationResults + [CheckResult("pipeline.timeout", Failure, true)]
  }

  /** A record that gave up, or shows a timeout, is past the deadline of its attempt. */
  ghost predicate LateOk(c: Config, clock: nat, e: Exchange)
    requires ValidConfig(c)
  {
    e.verifyTask.Some? && (e.verifyTask.value.status == GaveUp || IsTimedOut(c, e)) ==>
      e.verifyTask.value.deadlineAt <= clock
  }

  /** Each attempt but the last reached its deadline, and the next got a whole new one from then. */
  ghost predicate LogLasts(c: Config, s: World) {
    && (forall i :: 0 <= i < |s.log| - 1 ==> s.log[i].deadlineAt <= s.clock)
    && (forall i :: 1 <= i < |s.log| ==> s.log[i].deadlineAt <= s.clock + c.deadlineMs)
    && (forall i, j :: 0 <= i < j < |s.log| ==> s.log[i].deadlineAt + c.deadlineMs <= s.log[j].deadlineAt)
  }

  ghost predicate SweepLasts(c: Config, s: World, w: Sweep)
    requires ValidConfig(c)
  {
    match w
    case Read(e) => LateOk(c, s.clock, e)
    case Retrying(_, next) =>
      next.verifyTask.Some? && 2 <= next.verifyTask.value.attempt <= |s.log| + 1 ==>
        var d := s.log[next.verifyTask.value.attempt - 2].deadlineAt;
        d <= s.clock && d + c.deadlineMs <= next.verifyTask.value.deadlineAt <= s.clock + c.deadlineMs
    case GivingUp(_, next) => next.verifyTask.Some? ==> next.verifyTask.value.deadlineAt <= s.clock
    case MustEnqueue(_) => true
  }

  /** A worker never changes the checks of the presentation. */
  ghost predicate WorkerLasts(c: Config, clock: nat, w: Worker)
    requires ValidConfig(c)
  {
    && LateOk(c, clock, w.snapshot)
    && (w.Verifying? && w.snapshot.results.Some? ==>
          w.merged.presentationResults == w.snapshot.results.value.presentationResults)
  }

  ghost predicate Lasts(c: Config, s: World)
    requires ValidConfig(c)
  {
    && LogLasts(c, s)
    && (s.store.Some? ==> LateOk(c, s.clock, s.store.value))
    && (forall w :: w in s.workers ==> WorkerLasts(c, s.clock, s.workers[w]))
    && (forall k :: k in s.sweeps ==> SweepLasts(c, s, s.sweeps[k]))
  }

  // ----- steps -------------------------------------------------------------

  lemma LogFrame(c: Config, s: World, t: World)
    requires LogLasts(c, s) && t.log == s.log && s.clock <= t.clock
    ensures LogLasts(c, t)
  {
  }

  lemma TickLasts(c: Config, s: World, ms: nat)
    requires ValidConfig(c) && Lasts(c, s)
    ensures Lasts(c, s.(clock := s.clock + ms))
  {
    hide LogLasts;
    var t := s.(clock := s.clock + ms);
    LogFrame(c, s, t);
    forall w | w in t.workers ensures WorkerLasts(c, t.clock, t.workers[w]) {
      assert WorkerLasts(c, s.clock, s.workers[w]);
    }
    forall k | k in t.sweeps ensures SweepLasts(c, t, t.sweeps[k]) {
      assert SweepLasts(c, s, s.sweeps[k]);
    }
  }

  /** One worker moves, and possibly writes. */
  lemma WorkerFrame(c: Config, s: World, t: World, w: nat)
    requires ValidConfig(c) && Lasts(c, s)
    requires t == s.(store := t.store, workers := t.workers, calls := t.calls)
    requires t.store.Some? ==> LateOk(c, s.clock, t.store.value)
    requires forall v :: v in t.workers && v != w ==> v in s.workers && t.workers[v] == s.workers[v]
    requires w in t.workers ==> WorkerLasts(c, s.clock, t.workers[w])
    ensures Lasts(c, t)
  {
    hide LateOk, WorkerLasts, LogLasts;
    LogFrame(c, s, t);
    forall v | v in t.workers ensures WorkerLasts(c, t.clock, t.workers[v]) {
      if v != w { assert WorkerLasts(c, s.clock, s.workers[v]); }
    }
    forall k | k in t.sweeps ensures SweepLasts(c, t, t.sweeps[k]) {
      assert SweepLasts(c, s, s.sweeps[k]);
    }
  }

  lemma MarkLasts(c: Config, s: World, w: nat)
    requires ValidConfig(c) && Inv(c, s) && Lasts(c, s)
    ensures Lasts(c, DoWorkerMark(s, w))
  {
    hide Inv, Lasts;
    if w in s.workers && s.workers[w].Loaded? {
      HeldWorker(c, s, w);
      var snapshot := s.workers[w].snapshot;
      if Matches(s.store, CapturedId(snapshot)) { SameDeadline(c, s, snapshot); }
      WorkerFrame(c, s, DoWorkerMark(s, w), w);
    }
  }

  /** What is known of a worker's snapshot and of the record. */
  lemma HeldWorker(c: Config, s: World, w: nat)
    requires ValidConfig(c) && Inv(c, s) && Lasts(c, s) && w in s.workers
    ensures RecordOk(c, s.log, s.workers[w].snapshot) && WorkerLasts(c, s.clock, s.workers[w])
    ensures s.workers[w].snapshot.verifyTask.Some? && s.workers[w].snapshot.results.Some?
    ensures s.workers[w].snapshot.verifyTask.value.status != GaveUp
    ensures s.store.Some? ==> LateOk(c, s.clock, s.store.value)
  {
    hide SweepsOk, CountsOk, LogOk, Derived, InLog;
    assert WorkerOk(c, s.log, s.calls[w], s.workers[w]);
  }

  lemma SameDeadline(c: Config, s: World, e: Exchange)
    requires ValidConfig(c) && Inv(c, s) && RecordOk(c, s.log, e) && Matches(s.store, CapturedId(e))
    ensures s.store.value.verifyTask.Some? && e.verifyTask.Some?
    ensures s.store.value.verifyTask.value.deadlineAt == e.verifyTask.value.deadlineAt
  {
    hide SweepsOk, CountsOk, WorkersOk, Derived;
    SameAttempt(c, s.log, s.nextId, s.store.value, e);
  }

  lemma MergeKeepsPresentation(r: VerificationResult, i: nat, ob: ObResult)
    ensures MergeOpenBadgesResultsAt(r, i, ob).presentationResults == r.presentationResults
  {
  }

  lemma TurnLasts(c: Config, s: World, w: nat, ob: ObResult)
    requires ValidConfig(c) && Lasts(c, s)
    ensures Lasts(c, DoWorkerVerify(s, w, ob))
  {
    hide MergeOpenBadgesResultsAt, CredentialAt, LateOk, LogLasts, SweepLasts;
    if w in s.workers && s.workers[w].Verifying? {
      var v := s.workers[w];
      assert WorkerLasts(c, s.clock, v);
      if v.next < |IndicesOf(v.snapshot)| {
        MergeKeepsPresentation(v.merged, IndicesOf(v.snapshot)[v.next], ob);
      }
      WorkerFrame(c, s, DoWorkerVerify(s, w, ob), w);
    }
  }

  lemma CommitLasts(c: Config, s: World, w: nat)
    requires ValidConfig(c) && Inv(c, s) && Lasts(c, s)
    ensures Lasts(c, DoWorkerCommit(s, w))
  {
    hide Inv, Lasts, RecordOk;
    if w in s.workers {
      HeldWorker(c, s, w);
      var snapshot := s.workers[w].snapshot;
      if Matches(s.store, CapturedId(snapshot)) { SameDeadline(c, s, snapshot); }
      if ReadyToCommit(s.workers[w]) { WorkerFrame(c, s, DoWorkerCommit(s, w), w); }
    }
  }

  /** One sweep moves without writing. */
  lemma SweepFrame(c: Config, s: World, t: World, k: nat)
    requires ValidConfig(c) && Lasts(c, s)
    requires t == s.(sweeps := t.sweeps, nextId := t.nextId, enqueues := t.enqueues,
                     postMustEnqueue := t.postMustEnqueue)
    requires forall j :: j in t.sweeps && j != k ==> j in s.sweeps && t.sweeps[j] == s.sweeps[j]
    requires k in t.sweeps ==> SweepLasts(c, s, t.sweeps[k])
    ensures Lasts(c, t)
  {
    hide LateOk, LogLasts;
    LogFrame(c, s, t);
    forall j | j in t.sweeps ensures SweepLasts(c, t, t.sweeps[j]) {
      if j != k { assert SweepLasts(c, s, s.sweeps[j]); }
    }
  }

  lemma DecideLasts(c: Config, s: World, k: nat)
    requires ValidConfig(c) && Inv(c, s) && Lasts(c, s)
    ensures Lasts(c, DoSweepDecide(c, s, k))
  {
    hide Inv, Lasts, LateOk;
    if k in s.sweeps && s.sweeps[k].Read? {
      HeldRead(c, s, k);
      SweepDecisions(s.sweeps[k].snapshot, s.clock, c.deadlineMs, s.nextId);
      SweepFrame(c, s, DoSweepDecide(c, s, k), k);
    }
  }

  lemma HeldRead(c: Config, s: World, k: nat)
    requires ValidConfig(c) && Inv(c, s) && k in s.sweeps && s.sweeps[k].Read?
    ensures InLog(s.log, s.sweeps[k].snapshot)
  {
    hide WorkersOk, CountsOk, LogOk, Derived;
    assert SweepOk(c, s, s.sweeps[k]);
  }

  /** The attempts after a retry: the old ones and one whose deadline is far enough behind the last. */
  lemma LogGrows(c: Config, s: World, t: World, a: Attempt)
    requires LogLasts(c, s) && |s.log| > 0 && t.clock == s.clock && t.log == s.log + [a]
    requires s.log[|s.log| - 1].deadlineAt <= s.clock
    requires s.log[|s.log| - 1].deadlineAt + c.deadlineMs <= a.deadlineAt <= s.clock + c.deadlineMs
    ensures LogLasts(c, t)
  {
    forall i, j | 0 <= i < j < |t.log| ensures t.log[i].deadlineAt + c.deadlineMs <= t.log[j].deadlineAt {
      if j == |s.log| && i < |s.log| - 1 {
        assert s.log[i].deadlineAt + c.deadlineMs <= s.log[|s.log| - 1].deadlineAt;
      }
    }
  }

  /** What a pending retry holds, once its attempt is known to be the next. */
  lemma RetryHeld(c: Config, s: World, k: nat)
    requires ValidConfig(c) && Inv(c, s) && Lasts(c, s)
    requires k in s.sweeps && s.sweeps[k].Retrying? && Matches(s.store, s.sweeps[k].expected)
    ensures var next := s.sweeps[k].next;
            && next.verifyTask.Some? && next.verifyTask.value.status == Queued && |s.log| > 0
            && next.results == Some(Base(c))
            && var d := s.log[|s.log| - 1].deadlineAt;
               && d <= s.clock
               && d + c.deadlineMs <= next.verifyTask.value.deadlineAt <= s.clock + c.deadlineMs
  {
    hide WorkersOk, CountsOk, Derived, Compatible, WorkerLasts, LateOk, LogLasts;
    assert SweepOk(c, s, s.sweeps[k]) && SweepLasts(c, s, s.sweeps[k]);
    RetryIsNext(c, s, s.sweeps[k].expected, s.sweeps[k].next);
  }

  /** Pending retries speak of attempts there were before. */
  lemma SweepStaysLasting(c: Config, s: World, t: World, w: Sweep)
    requires ValidConfig(c) && SweepOk(c, s, w) && SweepLasts(c, s, w) && s.log <= t.log && t.clock == s.clock
    ensures SweepLasts(c, t, w)
  {
    hide BodyOk, Derived, LateOk, GiveUpOk, RecordOk;
  }

  lemma RetryCommitLasts(c: Config, s: World, k: nat)
    requires ValidConfig(c) && Inv(c, s) && Lasts(c, s)
    requires k in s.sweeps && s.sweeps[k].Retrying? && Matches(s.store, s.sweeps[k].expected)
    ensures Lasts(c, DoSweepCommit(s, k))
  {
    hide WorkersOk, CountsOk, LogOk, StoreOk, SweepOk, SweepLasts, Compatible, WorkerLasts, LogLasts;
    var t := DoSweepCommit(s, k);
    var next := s.sweeps[k].next;
    RetryHeld(c, s, k);
    LogGrows(c, s, t, Attempt(next.verifyTask.value.attemptId, next.verifyTask.value.deadlineAt));
    forall j | j in t.sweeps ensures SweepLasts(c, t, t.sweeps[j]) {
      if j != k {
        SweepStaysLasting(c, s, t, s.sweeps[j]);
      } else {
        EnqueueLasts(c, t, t.sweeps[j]);
      }
    }
    NotTimedOut(c, next);
  }

  lemma EnqueueLasts(c: Config, t: World, w: Sweep)
    requires ValidConfig(c) && w.MustEnqueue?
    ensures SweepLasts(c, t, w)
  {
  }

  lemma NotTimedOut(c: Config, e: Exchange)
    requires ValidConfig(c) && e.results == Some(Base(c))
    ensures !IsTimedOut(c, e)
  {
    assert |Base(c).presentationResults + [CheckResult("pipeline.timeout", Failure, true)]| ==
             |Base(c).presentationResults| + 1;
  }

  lemma GiveUpCommitLasts(c: Config, s: World, k: nat)
    requires ValidConfig(c) && Inv(c, s) && Lasts(c, s)
    requires k in s.sweeps && s.sweeps[k].GivingUp?
    ensures Lasts(c, DoSweepCommit(s, k))
  {
    hide Inv, LogLasts, WorkerLasts;
    var t := DoSweepCommit(s, k);
    assert SweepLasts(c, s, s.sweeps[k]);
    SweepFrame(c, s, s.(sweeps := t.sweeps), k);
    forall j | j in t.sweeps ensures SweepLasts(c, t, t.sweeps[j]) {
      assert SweepLasts(c, s, s.sweeps[j]);
    }
    LogFrame(c, s, t);
  }

  lemma NextLasts(c: Config, s: World, step: Step)
    requires ValidConfig(c) && Inv(c, s) && Lasts(c, s)
    ensures Lasts(c, Next(c, s, step))
  {
    hide Inv, DoWorkerMark, DoWorkerVerify, DoWorkerCommit, DoSweepDecide, LateOk, LogLasts;
    var t := Next(c, s, step);
    match step
    case Tick(ms) => TickLasts(c, s, ms);
    case PostEnqueue => SweepFrame(c, s, t, 0);
    case WorkerLoad => WorkerFrame(c, s, t, |s.calls|);
    case WorkerMark(w) => MarkLasts(c, s, w);
    case WorkerVerify(w, ob) => TurnLasts(c, s, w, ob);
    case WorkerSetupThrow(w, _) => WorkerFrame(c, s, t, w);
    case WorkerThrow(w, _) => WorkerFrame(c, s, t, w);
    case WorkerCommit(w) => CommitLasts(c, s, w);
    case WorkerDie(w) => WorkerFrame(c, s, t, w);
    case SweepRead(k) => SweepFrame(c, s, t, k);
    case SweepDecide(k) => DecideLasts(c, s, k);
    case SweepCommit(k) => CommitOrLose(c, s, k);
    case SweepEnqueue(k) => SweepFrame(c, s, t, k);
    case SweepDie(k) => SweepFrame(c, s, t, k);
    case Evict => WorkerFrame(c, s, t, |s.calls|);
  }

  lemma CommitOrLose(c: Config, s: World, k: nat)
    requires ValidConfig(c) && Inv(c, s) && Lasts(c, s)
    ensures Lasts(c, DoSweepCommit(s, k))
  {
    hide Inv, Lasts;
    if k in s.sweeps {
      match s.sweeps[k]
      case Retrying(expected, _) =>
        if Matches(s.store, expected) { RetryCommitLasts(c, s, k); } else { SweepFrame(c, s, DoSweepCommit(s, k), k); }
      case GivingUp(_, _) => GiveUpCommitLasts(c, s, k);
      case _ =>
    }
  }

  lemma {:induction false} RunLasts(c: Config, steps: seq<Step>)
    requires ValidConfig(c)
    ensures Lasts(c, Run(c, Init(c), steps))
  {
    hide Inv, Next;
    if steps == [] {
      NotTimedOut(c, c.posted);
    } else {
      var init := steps[..|steps| - 1];
      RunLasts(c, init);
      ReachableInv(c, init);
      NextLasts(c, Run(c, Init(c), init), steps[|steps| - 1]);
    }
  }

  /**
   Over every run: an attempt is replaced only at a clock at or past its deadline, and its successor gets a whole
   new deadline from then, so deadlines are at least `deadlineMs` apart; and an exchange gives up, or shows a timeout,
   only at a clock at or past the deadline of its last attempt.
   */
  lemma AttemptsLastTheirTime(c: Config, steps: seq<Step>)
    requires ValidConfig(c)
    ensures var s := Run(c, Init(c), steps);
            && (forall i :: 0 <= i < |s.log| - 1 ==> s.log[i].deadlineAt <= s.clock)
            && (forall i :: 1 <= i < |s.log| ==> s.log[i].deadlineAt <= s.clock + c.deadlineMs)
            && (forall i, j :: 0 <= i < j < |s.log| ==> s.log[i].deadlineAt + c.deadlineMs <= s.log[j].deadlineAt)
            && (s.store.Some? ==>
                  var e := s.store.value;
                  && e.results.Some? && e.verifyTask.Some?
                  && (e.verifyTask.value.status == GaveUp ==> e.verifyTask.value.deadlineAt <= s.clock)
                  && (e.results.value.presentationResults ==
                        Base(c).presentationResults + [CheckResult("pipeline.timeout", Failure, true)] ==>
                        e.verifyTask.value.deadlineAt <= s.clock))
  {
    hide Run, WorkersOk, SweepsOk, CountsOk, LogOk, Derived, WorkerLasts, SweepLasts;
    RunLasts(c, steps);
    ReachableInv(c, steps);
  }
}
