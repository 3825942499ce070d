/** What holds in every world, and over every continuation, of every interleaving. */
module ProtocolSafety {
  import opened Wrappers
  import opened VerificationResults
  import opened VerifyTasks
  import opened TransactionManagers
  import opened VerifyTaskWorkers
  import opened VerifyTaskSweeps
  import opened Protocol
  import opened ProtocolInvariant

  // ----- what a stored outcome means --------------------------------------

  /**
   `complete` is earned: however the stored results came about from the base results, no timeout
   check was added, the base was verified and every verdict merged into them was true.
   */
  lemma CompleteIsEarned(c: Config, steps: seq<Step>)
    requires ValidConfig(c)
    ensures var s := Run(c, Init(c), steps);
            s.store.Some? && s.store.value.state == Complete ==>
              var r := s.store.value.results;
              && r.Some? && r.value.verified && Base(c).verified
              && Derived(Base(c), r.value)
              && r.value.presentationResults == Base(c).presentationResults
              && forall timedOut, ms: seq<Merge> :: IsDerivation(Base(c), timedOut, ms, r.value) ==>
                                          !timedOut && forall k :: 0 <= k < |ms| ==> ms[k].ob.verified
  {
    ReachableInv(c, steps);
    var s := Run(c, Init(c), steps);
    if s.store.Some? && s.store.value.state == Complete {
      var r := s.store.value.results.value;
      forall timedOut, ms: seq<Merge> | IsDerivation(Base(c), timedOut, ms, r)
        ensures !timedOut && forall k :: 0 <= k < |ms| ==> ms[k].ob.verified
        ensures r.presentationResults == Base(c).presentationResults && Base(c).verified
      {
        ApplyMergesVerdict(Origin(Base(c), timedOut), ms);
      }
      var timedOut, ms :| IsDerivation(Base(c), timedOut, ms, r);
    }
  }

  /**
   Until the exchange settles its results are the base results; a settled state follows the flag; and
   the stored presentation checks are the base ones with at most one timeout check behind them.
   */
  lemma StoredResults(c: Config, steps: seq<Step>)
    requires ValidConfig(c)
    ensures var s := Run(c, Init(c), steps);
            s.store.Some? ==>
              var e := s.store.value;
              && e.results.Some?
              && (e.state == Active ==> e.results.value == Base(c))
              && (e.state != Active ==> e.state == OutcomeState(e.results.value.verified))
              && (|| e.results.value.presentationResults == Base(c).presentationResults
                  || e.results.value.presentationResults == Base(c).presentationResults + [TIMEOUT_CHECK])
  {
    ReachableInv(c, steps);
    var s := Run(c, Init(c), steps);
    if s.store.Some? {
      var r := s.store.value.results.value;
      var timedOut, ms :| IsDerivation(Base(c), timedOut, ms, r);
      ApplyMergesVerdict(Origin(Base(c), timedOut), ms);
    }
  }

  // ----- attempts ----------------------------------------------------------

  /** `e` is the stored record, or a snapshot or give-up record some worker or sweep holds. */
  ghost predicate Holds(s: World, e: Exchange) {
    || s.store == Some(e)
    || (exists w :: w in s.workers && s.workers[w].snapshot == e)
    || (exists k :: k in s.sweeps && (s.sweeps[k] == Read(e) || (s.sweeps[k].GivingUp? && s.sweeps[k].next == e)))
  }

  lemma HeldIsOk(c: Config, s: World, e: Exchange)
    requires ValidConfig(c) && Inv(c, s) && Holds(s, e)
    ensures RecordOk(c, s.log, e)
  {
    if w :| w in s.workers && s.workers[w].snapshot == e {
      assert WorkerOk(c, s.log, s.calls[w], s.workers[w]);
    } else if k :| k in s.sweeps && (s.sweeps[k] == Read(e) || (s.sweeps[k].GivingUp? && s.sweeps[k].next == e)) {
      assert SweepOk(c, s, s.sweeps[k]);
    }
  }

  /** The attempt id determines the attempt: everything held under one id agrees about it. */
  lemma AttemptIdentity(c: Config, steps: seq<Step>, a: Exchange, b: Exchange)
    requires ValidConfig(c)
    requires Holds(Run(c, Init(c), steps), a) && Holds(Run(c, Init(c), steps), b) && CapturedId(a) == CapturedId(b)
    ensures a.verifyTask.Some? && b.verifyTask.Some?
    ensures a.verifyTask.value.attempt == b.verifyTask.value.attempt
    ensures a.verifyTask.value.maxAttempts == b.verifyTask.value.maxAttempts
    ensures a.verifyTask.value.deadlineAt == b.verifyTask.value.deadlineAt
    ensures a.verifyTask.value.openBadgesCredentialIndices == b.verifyTask.value.openBadgesCredentialIndices
  {
    ReachableInv(c, steps);
    var s := Run(c, Init(c), steps);
    HeldIsOk(c, s, a);
    HeldIsOk(c, s, b);
    SameAttempt(c, s.log, s.nextId, a, b);
  }

  /** Racing sweeps of one attempt never split between retrying and giving up. */
  lemma RacingSweepsAgree(c: Config, steps: seq<Step>, j: nat, k: nat)
    requires ValidConfig(c)
    requires var s := Run(c, Init(c), steps);
             && j in s.sweeps && k in s.sweeps
             && s.sweeps[j].Retrying? && s.sweeps[k].GivingUp?
    ensures var s := Run(c, Init(c), steps); s.sweeps[j].expected != s.sweeps[k].expected
  {
    ReachableInv(c, steps);
    var s := Run(c, Init(c), steps);
    assert SweepOk(c, s, s.sweeps[j]) && SweepOk(c, s, s.sweeps[k]);
    var i := s.sweeps[j].next.verifyTask.value.attempt - 2;
    var i' := s.sweeps[k].next.verifyTask.value.attempt - 1;
    assert i != i' && s.log[i].id != s.log[i'].id;
  }

  // ----- the log only grows ------------------------------------------------

  lemma NextLog(c: Config, s: World, step: Step)
    ensures s.log <= Next(c, s, step).log
  {
    hide DecideSweep, CasRecord, CommitStored, MarkStored, MergeOpenBadgesResultsAt, CredentialAt;
  }

  lemma {:induction false} RunLog(c: Config, s: World, steps: seq<Step>)
    ensures s.log <= Run(c, s, steps).log
  {
    if steps != [] {
      RunLog(c, s, steps[..|steps| - 1]);
      NextLog(c, Run(c, s, steps[..|steps| - 1]), steps[|steps| - 1]);
    }
  }

  /** An attempt id that was replaced never returns to the store. */
  lemma NoResurrection(c: Config, before: seq<Step>, after: seq<Step>, i: nat)
    requires ValidConfig(c)
    requires i + 1 < |Run(c, Init(c), before).log|
    ensures var old' := Run(c, Init(c), before);
            var s := Run(c, Init(c), before + after);
            s.store.Some? ==> CapturedId(s.store.value) != old'.log[i].id
  {
    ReachableInv(c, before);
    ReachableInv(c, before + after);
    var s := Run(c, Init(c), before + after);
    RunConcat(c, Init(c), before, after);
    RunLog(c, Run(c, Init(c), before), after);
    if s.store.Some? {
      assert s.log[i].id != s.log[|s.log| - 1].id;
    }
  }

  /** The attempt id the actor of a step captured, if it captured one and still has a write to make. */
  function ActorId(s: World, step: Step): Option<AttemptId> {
    match step
    case WorkerMark(w) => if w in s.workers then Some(CapturedId(s.workers[w].snapshot)) else None
    case WorkerVerify(w, _) => if w in s.workers then Some(CapturedId(s.workers[w].snapshot)) else None
    case WorkerSetupThrow(w, _) => if w in s.workers then Some(CapturedId(s.workers[w].snapshot)) else None
    case WorkerThrow(w, _) => if w in s.workers then Some(CapturedId(s.workers[w].snapshot)) else None
    case WorkerCommit(w) => if w in s.workers then Some(CapturedId(s.workers[w].snapshot)) else None
    case SweepDecide(k) => if k in s.sweeps && s.sweeps[k].Read? then Some(CapturedId(s.sweeps[k].snapshot)) else None
    case SweepCommit(k) =>
      if k in s.sweeps && (s.sweeps[k].Retrying? || s.sweeps[k].GivingUp?) then Some(s.sweeps[k].expected) else None
    case _ => None
  }

  /** Every write is a compare-and-swap by an actor holding the stored attempt id; only eviction is not. */
  lemma WritesAreKeyed(c: Config, s: World, step: Step)
    requires !step.Evict?
    ensures Next(c, s, step).store == s.store || (ActorId(s, step).Some? && Matches(s.store, ActorId(s, step).value))
  {
    hide DecideSweep, MergeOpenBadgesResultsAt, CredentialAt;
  }

  /**
   After a committed retry, no step of a run or sweep of an older attempt writes anything: marking
   running, success, failure, retry and give-up all leave the store as it is, at any later time.
   */
  lemma OlderAttemptsAreInert(c: Config, before: seq<Step>, after: seq<Step>, i: nat, step: Step)
    requires ValidConfig(c) && !step.Evict?
    requires i + 1 < |Run(c, Init(c), before).log|
    requires ActorId(Run(c, Init(c), before + after), step) == Some(Run(c, Init(c), before).log[i].id)
    ensures Run(c, Init(c), before + after + [step]).store == Run(c, Init(c), before + after).store
  {
    hide Next;
    NoResurrection(c, before, after, i);
    WritesAreKeyed(c, Run(c, Init(c), before + after), step);
    RunSnoc(c, Init(c), before + after, step);
  }

  // ----- giving up ---------------------------------------------------------

  ghost predicate OutOfAttempts(c: Config, s: World)
    requires ValidConfig(c)
  {
    |s.log| == Task(c).maxAttempts && (s.store.Some? ==> s.store.value.state != Active)
  }

  /** Only a committed retry makes a settled record active. */
  lemma OnlyRetryActivates(c: Config, s: World, step: Step)
    requires ValidConfig(c) && Inv(c, s)
    requires s.store.Some? ==> s.store.value.state != Active
    ensures var t := Next(c, s, step);
            t.store.Some? && t.store.value.state == Active ==>
              step.SweepCommit? && step.k in s.sweeps && s.sweeps[step.k].Retrying?
              && Matches(s.store, s.sweeps[step.k].expected)
  {
    hide DecideSweep, MergeOpenBadgesResultsAt, CredentialAt, BodyOk, InLog, RetryOk, WorkerOk, Compatible;
    hide LogOk, CountsOk;
    if step.SweepCommit? && step.k in s.sweeps {
      assert SweepOk(c, s, s.sweeps[step.k]);
    }
  }

  lemma NextStaysOut(c: Config, s: World, step: Step)
    requires ValidConfig(c) && Inv(c, s) && OutOfAttempts(c, s)
    ensures OutOfAttempts(c, Next(c, s, step))
  {
    hide Next, BodyOk, WorkersOk, Compatible, CountsOk;
    NextInv(c, s, step);
    NextLog(c, s, step);
    OnlyRetryActivates(c, s, step);
    if step.SweepCommit? && step.k in s.sweeps && s.sweeps[step.k].Retrying?
       && Matches(s.store, s.sweeps[step.k].expected) {
      assert SweepOk(c, s, s.sweeps[step.k]);
      RetryNeedsAttempts(c, s, s.sweeps[step.k].expected, s.sweeps[step.k].next);
    }
  }

  lemma RetryNeedsAttempts(c: Config, s: World, expected: AttemptId, next: Exchange)
    requires ValidConfig(c) && Inv(c, s) && RetryOk(c, s.log, s.nextId, expected, next)
    requires Matches(s.store, expected)
    ensures |s.log| < Task(c).maxAttempts
  {
    RetryIsNext(c, s, expected, next);
  }

  lemma {:induction false} RunStaysOut(c: Config, s: World, steps: seq<Step>)
    requires ValidConfig(c) && Inv(c, s) && OutOfAttempts(c, s)
    ensures OutOfAttempts(c, Run(c, s, steps))
  {
    if steps != [] {
      RunStaysOut(c, s, steps[..|steps| - 1]);
      RunInv(c, s, steps[..|steps| - 1]);
      NextStaysOut(c, Run(c, s, steps[..|steps| - 1]), steps[|steps| - 1]);
    }
  }

  /** An exchange that gave up is never active again, even if a late worker still commits over it. */
  lemma GaveUpIsNeverActiveAgain(c: Config, before: seq<Step>, after: seq<Step>)
    requires ValidConfig(c)
    requires var s := Run(c, Init(c), before);
             s.store.Some? && s.store.value.verifyTask.Some? && s.store.value.verifyTask.value.status == GaveUp
    ensures var s := Run(c, Init(c), before + after); s.store.Some? ==> s.store.value.state != Active
  {
    ReachableInv(c, before);
    RunConcat(c, Init(c), before, after);
    RunStaysOut(c, Run(c, Init(c), before), after);
  }

  // ----- conservation ------------------------------------------------------

  function Sum(s: seq<nat>): nat {
    if s == [] then 0 else Sum(s[..|s| - 1]) + s[|s| - 1]
  }

  lemma {:induction false} SumBounded(s: seq<nat>, m: nat)
    requires forall i :: 0 <= i < |s| ==> s[i] <= m
    ensures Sum(s) <= |s| * m
  {
    if s != [] {
      var init := s[..|s| - 1];
      assert forall i :: 0 <= i < |init| ==> init[i] == s[i];
      SumBounded(init, m);
      assert |s| * m == |init| * m + m;
    }
  }

  lemma MulMonotone(a: nat, b: nat, n: nat)
    requires a <= b
    ensures a * n <= b * n
  {
  }

  lemma {:induction false} DistinctBounded(s: seq<nat>, n: nat)
    requires Distinct(s) && forall i :: 0 <= i < |s| ==> 1 <= s[i] <= n
    ensures |s| <= n
    decreases n
  {
    if s != [] {
      assert 1 <= s[0] <= n;
      if n in s {
        var i :| 0 <= i < |s| && s[i] == n;
        var rest := s[..i] + s[i + 1..];
        assert forall j :: 0 <= j < |rest| ==> rest[j] == s[if j < i then j else j + 1];
        DistinctBounded(rest, n - 1);
      } else {
        forall i | 0 <= i < |s| ensures s[i] <= n - 1 {
          assert s[i] in s;
        }
        DistinctBounded(s, n - 1);
      }
    }
  }

  /**
   The stored attempt is one plus the retries committed and never exceeds the cap; there is at most one
   enqueue per attempt and one worker run per enqueue; so the verifier is called at most
   `maxAttempts` times the number of recorded indices.
   */
  lemma Conservation(c: Config, steps: seq<Step>)
    requires ValidConfig(c)
    ensures var s := Run(c, Init(c), steps);
            && (s.store.Some? ==> s.store.value.verifyTask.Some? && s.store.value.verifyTask.value.attempt == |s.log|)
            && 1 <= |s.log| <= Task(c).maxAttempts
            && |s.calls| <= |s.enqueues| <= |s.log|
            && Sum(s.calls) <= Task(c).maxAttempts * |Task(c).openBadgesCredentialIndices|
  {
    ReachableInv(c, steps);
    var s := Run(c, Init(c), steps);
    hide Run, WorkersOk, SweepsOk, BodyOk;
    DistinctBounded(s.enqueues, |s.log|);
    var n := |Task(c).openBadgesCredentialIndices|;
    SumBounded(s.calls, n);
    MulMonotone(|s.calls|, Task(c).maxAttempts, n);
  }
}
