/**
 The asynchronous pass computes what running it inline over the posted results would compute.
 One drainer (`VerifyTaskQueues.OneProcessorCall`) and a verifier that is a function of the credential; any
 number of sweeps, retries, stale runs, throws and crashes.
 */
module ProtocolRefinement {
  import opened Wrappers
  import opened VerificationResults
  import opened VerifyTasks
  import opened VerifyTaskWorkers
  import opened VerifyTaskSweeps
  import opened Protocol
  import opened ProtocolInvariant

  /** A worker starts only when none is running, and the verifier answers by the credential alone. */
  predicate SerialStep(verify: Json -> ObResult, s: World, step: Step) {
    && (step.WorkerLoad? ==> s.workers == map[])
    && (step.WorkerVerify? && step.w in s.workers && s.workers[step.w].Verifying? ==>
          var v := s.workers[step.w];
          v.next < |IndicesOf(v.snapshot)| && CredentialAt(v.merged, IndicesOf(v.snapshot)[v.next]).Some? ==>
            step.ob == verify(CredentialAt(v.merged, IndicesOf(v.snapshot)[v.next]).value))
  }

  predicate SerialRun(c: Config, verify: Json -> ObResult, s: World, steps: seq<Step>) {
    steps == [] || (
      var init, last := steps[..|steps| - 1], steps[|steps| - 1];
      SerialRun(c, verify, s, init) && SerialStep(verify, Run(c, s, init), last))
  }

  predicate CommitsGiveUp(s: World, step: Step) {
    step.SweepCommit? && step.k in s.sweeps && s.sweeps[step.k].GivingUp? && Matches(s.store, s.sweeps[step.k].expected)
  }

  /** Give-ups committed along the run. */
  function GiveUps(c: Config, s: World, steps: seq<Step>): nat {
    if steps == [] then 0
    else
      var init, last := steps[..|steps| - 1], steps[|steps| - 1];
      GiveUps(c, s, init) + if CommitsGiveUp(Run(c, s, init), last) then 1 else 0
  }

  function Indices(c: Config): seq<nat>
    requires c.posted.verifyTask.Some?
  {
    c.posted.verifyTask.value.openBadgesCredentialIndices
  }

  /** The inline pass over the base results, or over the base results with the timeout check. */
  ghost function Inline(c: Config, verify: Json -> ObResult, timedOut: bool): VerificationResult
    requires ValidConfig(c)
  {
    FoldOpenBadges(verify, Origin(Base(c), timedOut), Indices(c))
  }

  /** A stored or captured record: before success its results are untouched, after it they are the inline pass. */
  ghost predicate RecordRefines(c: Config, verify: Json -> ObResult, gaveUp: bool, e: Exchange)
    requires ValidConfig(c)
  {
    && e.results.Some? && e.verifyTask.Some?
    && exists timedOut :: (timedOut ==> gaveUp) &&
                          e.results.value == if e.verifyTask.value.status == Succeeded then Inline(c, verify, timedOut)
                                             else Origin(Base(c), timedOut)
  }

  ghost predicate WorkerRefines(c: Config, verify: Json -> ObResult, s: World, gaveUp: bool, w: Worker)
    requires ValidConfig(c)
  {
    && RecordRefines(c, verify, gaveUp, w.snapshot)
    && w.snapshot.verifyTask.value.status != Succeeded
    && (w.Verifying? ==>
          && w.next <= |Indices(c)|
          && w.merged == FoldOpenBadges(verify, w.snapshot.results.value, Indices(c)[..w.next]))
    && (Matches(s.store, CapturedId(w.snapshot)) ==>
          s.store.value.verifyTask.Some? && s.store.value.verifyTask.value.status != Succeeded)
  }

  ghost predicate Refines(c: Config, verify: Json -> ObResult, s: World, gaveUp: bool)
    requires ValidConfig(c)
  {
    && (s.store.Some? ==> RecordRefines(c, verify, gaveUp, s.store.value))
    && (forall v, w :: v in s.workers && w in s.workers ==> v == w)
    && (forall w :: w in s.workers ==> WorkerRefines(c, verify, s, gaveUp, s.workers[w]))
  }

  lemma MarkRefines(c: Config, verify: Json -> ObResult, s: World, gaveUp: bool, w: nat)
    requires ValidConfig(c) && Inv(c, s) && Refines(c, verify, s, gaveUp)
    ensures Refines(c, verify, DoWorkerMark(s, w), gaveUp)
  {
    hide SweepsOk, CountsOk, Derived, FoldOpenBadges, Origin;
    if w in s.workers && s.workers[w].Loaded? {
      assert WorkerOk(c, s.log, s.calls[w], s.workers[w]);
      assert WorkerRefines(c, verify, s, gaveUp, s.workers[w]);
      var snapshot := s.workers[w].snapshot;
      assert FoldOpenBadges(verify, snapshot.results.value, Indices(c)[..0]) == snapshot.results.value by {
        FoldNothing(verify, snapshot.results.value, Indices(c)[..0]);
      }
      var t := DoWorkerMark(s, w);
      if Matches(s.store, CapturedId(snapshot)) {
        assert t.store.value.results == s.store.value.results;
      }
    }
  }

  lemma FoldNothing(verify: Json -> ObResult, r: VerificationResult, indices: seq<nat>)
    requires indices == []
    ensures FoldOpenBadges(verify, r, indices) == r
  {
  }

  lemma VerifyRefines(c: Config, verify: Json -> ObResult, s: World, gaveUp: bool, w: nat, ob: ObResult)
    requires ValidConfig(c) && Inv(c, s) && Refines(c, verify, s, gaveUp) && SerialStep(verify, s, WorkerVerify(w, ob))
    ensures Refines(c, verify, DoWorkerVerify(s, w, ob), gaveUp)
  {
    hide SweepsOk, CountsOk, Derived, FoldOpenBadges, Origin, RecordRefines, MergeOpenBadgesResultsAt, CredentialAt;
    if w in s.workers && s.workers[w].Verifying? {
      var v := s.workers[w];
      assert WorkerOk(c, s.log, s.calls[w], v);
      assert WorkerRefines(c, verify, s, gaveUp, v);
      if v.next < |Indices(c)| {
        FoldSnoc(verify, v.snapshot.results.value, Indices(c), v.next);
        var t := DoWorkerVerify(s, w, ob);
        assert WorkerRefines(c, verify, t, gaveUp, t.workers[w]);
      }
    }
  }

  lemma CommitRefines(c: Config, verify: Json -> ObResult, s: World, gaveUp: bool, w: nat)
    requires ValidConfig(c) && Inv(c, s) && Refines(c, verify, s, gaveUp)
    ensures Refines(c, verify, DoWorkerCommit(s, w), gaveUp)
  {
    hide SweepsOk, CountsOk, Derived, FoldOpenBadges, Origin;
    if w in s.workers && ReadyToCommit(s.workers[w]) {
      var v := s.workers[w];
      assert WorkerOk(c, s.log, s.calls[w], v);
      assert WorkerRefines(c, verify, s, gaveUp, v);
      var t := DoWorkerCommit(s, w);
      assert t.workers == map[];
      if Matches(s.store, CapturedId(v.snapshot)) {
        if v.Verifying? {
          assert Indices(c)[..v.next] == Indices(c);
        }
        assert RecordRefines(c, verify, gaveUp, t.store.value);
      }
    }
  }

  lemma LoadRefines(c: Config, verify: Json -> ObResult, s: World, gaveUp: bool)
    requires ValidConfig(c) && Inv(c, s) && Refines(c, verify, s, gaveUp) && s.workers == map[]
    ensures Refines(c, verify, DoWorkerLoad(s), gaveUp)
  {
    hide SweepsOk, CountsOk, Derived, FoldOpenBadges, Origin, RecordRefines, LogOk;
  }

  /** What a sweep writes, if it writes: untouched results, with the timeout check only if it gives up. */
  lemma SweepWrites(c: Config, s: World, k: nat)
    requires ValidConfig(c) && Inv(c, s)
    ensures var t := DoSweepCommit(s, k);
            t.store != s.store ==>
              && t.store.Some? && t.store.value.verifyTask.Some?
              && t.store.value.verifyTask.value.status != Succeeded
              && t.store.value.results == Some(Origin(Base(c), CommitsGiveUp(s, SweepCommit(k))))
    ensures DoSweepCommit(s, k).workers == s.workers
  {
    hide WorkersOk, CountsOk, Compatible, LogOk, StoreOk, RecordOk, BodyOk;
    if k in s.sweeps {
      assert SweepOk(c, s, s.sweeps[k]);
      HeldForCommit(c, s, s.sweeps[k]);
    }
  }

  lemma HeldForCommit(c: Config, s: World, w: Sweep)
    requires ValidConfig(c) && SweepOk(c, s, w)
    ensures w.Retrying? || w.GivingUp? ==>
              && w.next.verifyTask.Some? && w.next.verifyTask.value.status != Succeeded
              && w.next.results == Some(Origin(Base(c), w.GivingUp?))
  {
    hide Derived;
  }

  lemma SweepCommitRefines(c: Config, verify: Json -> ObResult, s: World, gaveUp: bool, k: nat)
    requires ValidConfig(c) && Inv(c, s) && Refines(c, verify, s, gaveUp)
    ensures Refines(c, verify, DoSweepCommit(s, k), gaveUp || CommitsGiveUp(s, SweepCommit(k)))
  {
    hide Inv, FoldOpenBadges, Origin, CommitsGiveUp, DoSweepCommit;
    SweepWrites(c, s, k);
    var t := DoSweepCommit(s, k);
    var gaveUp' := gaveUp || CommitsGiveUp(s, SweepCommit(k));
    forall w | w in t.workers ensures WorkerRefines(c, verify, t, gaveUp', t.workers[w]) {
      assert WorkerRefines(c, verify, s, gaveUp, s.workers[w]);
    }
  }

  /** A step that writes nothing and keeps the snapshots of all workers but failing ones. */
  lemma FrameRefines(c: Config, verify: Json -> ObResult, s: World, t: World, gaveUp: bool)
    requires ValidConfig(c) && Refines(c, verify, s, gaveUp)
    requires t.store == s.store || t.store.None?
    requires forall w :: w in t.workers ==> w in s.workers && (t.workers[w] == s.workers[w]
                                                               || (t.workers[w].Failing?
                                                                   && t.workers[w].snapshot == s.workers[w].snapshot))
    ensures Refines(c, verify, t, gaveUp)
  {
    hide FoldOpenBadges, RecordRefines;
    forall w | w in t.workers ensures WorkerRefines(c, verify, t, gaveUp, t.workers[w]) {
      assert WorkerRefines(c, verify, s, gaveUp, s.workers[w]);
    }
  }

  lemma NextRefines(c: Config, verify: Json -> ObResult, s: World, gaveUp: bool, step: Step)
    requires ValidConfig(c) && Inv(c, s) && Refines(c, verify, s, gaveUp) && SerialStep(verify, s, step)
    ensures Refines(c, verify, Next(c, s, step), gaveUp || CommitsGiveUp(s, step))
  {
    hide Inv, ValidConfig, Refines, DecideSweep, DoWorkerLoad, DoWorkerMark, DoWorkerVerify, DoWorkerCommit;
    hide DoSweepCommit;
    match step
    case WorkerLoad => LoadRefines(c, verify, s, gaveUp);
    case WorkerMark(w) => MarkRefines(c, verify, s, gaveUp, w);
    case WorkerVerify(w, ob) => VerifyRefines(c, verify, s, gaveUp, w, ob);
    case WorkerCommit(w) => CommitRefines(c, verify, s, gaveUp, w);
    case SweepCommit(k) => SweepCommitRefines(c, verify, s, gaveUp, k);
    case _ => FrameRefines(c, verify, s, Next(c, s, step), gaveUp);
  }

  lemma {:induction false} RunRefines(c: Config, verify: Json -> ObResult, steps: seq<Step>)
    requires ValidConfig(c) && SerialRun(c, verify, Init(c), steps)
    ensures Refines(c, verify, Run(c, Init(c), steps), GiveUps(c, Init(c), steps) > 0)
  {
    hide Inv, Next, SerialStep, CommitsGiveUp;
    if steps == [] {
      assert Base(c) == Origin(Base(c), false);
    } else {
      var init := steps[..|steps| - 1];
      RunRefines(c, verify, init);
      ReachableInv(c, init);
      NextRefines(c, verify, Run(c, Init(c), init), GiveUps(c, Init(c), init) > 0, steps[|steps| - 1]);
    }
  }

  /**
   With no give-up, a stored `succeeded` carries exactly the Open Badges pass over the posted
   results: every recorded credential merged once with its own verdict, none lost, none doubled, however
   many retries, stale runs and overwrites came before; and the state is the one that pass decides.
   */
  lemma SucceededIsInlinePass(c: Config, verify: Json -> ObResult, steps: seq<Step>)
    requires ValidConfig(c) && SerialRun(c, verify, Init(c), steps) && GiveUps(c, Init(c), steps) == 0
    requires var s := Run(c, Init(c), steps);
             s.store.Some? && s.store.value.verifyTask.Some? && s.store.value.verifyTask.value.status == Succeeded
    ensures var e := Run(c, Init(c), steps).store.value;
            && e.results.Some?
            && IsOpenBadgesPass(verify, Base(c), Indices(c), e.results.value)
            && e.state == OutcomeState(e.results.value.verified)
  {
    hide Next, WorkersOk, SweepsOk, CountsOk, Derived, IsOpenBadgesPass;
    RunRefines(c, verify, steps);
    ReachableInv(c, steps);
    FoldIsPass(verify, Base(c), Indices(c));
  }

  /** With give-ups, the only other possibility is the pass over the timed-out results, which is `invalid`. */
  lemma SucceededAfterGiveUp(c: Config, verify: Json -> ObResult, steps: seq<Step>)
    requires ValidConfig(c) && SerialRun(c, verify, Init(c), steps)
    requires var s := Run(c, Init(c), steps);
             s.store.Some? && s.store.value.verifyTask.Some? && s.store.value.verifyTask.value.status == Succeeded
    ensures var e := Run(c, Init(c), steps).store.value;
            && e.results.Some?
            && e.state == OutcomeState(e.results.value.verified)
            && (|| IsOpenBadgesPass(verify, Base(c), Indices(c), e.results.value)
                || (&& IsOpenBadgesPass(verify, AppendAllResult(Some(Base(c)), TIMEOUT_CHECK), Indices(c),
                                        e.results.value)
                    && e.state == Invalid))
  {
    hide Next, WorkersOk, SweepsOk, CountsOk, Derived;
    RunRefines(c, verify, steps);
    ReachableInv(c, steps);
    FoldIsPass(verify, Origin(Base(c), false), Indices(c));
    FoldIsPass(verify, Origin(Base(c), true), Indices(c));
  }
}
