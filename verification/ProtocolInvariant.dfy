/** What every step of every interleaving keeps. */
module ProtocolInvariant {
  import opened Wrappers
  import opened VerificationResults
  import opened VerifyTasks
  import opened VerifyTaskWorkers
  import opened VerifyTaskSweeps
  import opened Protocol

  // ----- provenance of results --------------------------------------------

  /** The base results, or the base results with the timeout check appended. */
  ghost function Origin(base: VerificationResult, timedOut: bool): VerificationResult {
    if timedOut then AppendAllResult(Some(base), TIMEOUT_CHECK) else base
  }

  ghost predicate IsDerivation(base: VerificationResult, timedOut: bool, ms: seq<Merge>, r: VerificationResult) {
    InRange(base, ms) && r == ApplyMerges(Origin(base, timedOut), ms)
  }

  /** `r` came from the base by at most one timeout check followed by some merges. */
  ghost predicate Derived(base: VerificationResult, r: VerificationResult) {
    exists timedOut, ms :: IsDerivation(base, timedOut, ms, r)
  }

  lemma BaseIsDerived(base: VerificationResult)
    ensures Derived(base, base)
    ensures Derived(base, Origin(base, true))
  {
    assert IsDerivation(base, false, [], base);
    assert IsDerivation(base, true, [], Origin(base, true));
  }

  lemma MergeIsDerived(base: VerificationResult, r: VerificationResult, i: nat, ob: ObResult)
    requires Derived(base, r) && i < |r.credentialResults|
    ensures Derived(base, MergeOpenBadgesResultsAt(r, i, ob))
  {
    var timedOut, ms :| IsDerivation(base, timedOut, ms, r);
    var m := Merge(i, ob);
    ApplyMergesSnoc(Origin(base, timedOut), ms, m);
    assert InRange(base, ms + [m]);
    assert IsDerivation(base, timedOut, ms + [m], MergeOpenBadgesResultsAt(r, i, ob));
  }

  // ----- records and snapshots --------------------------------------------

  /** What holds of every stored, held or proposed record, whatever attempt it belongs to. */
  ghost predicate BodyOk(c: Config, e: Exchange)
    requires ValidConfig(c)
  {
    && e.workflowId == Verify
    && e.settings == c.posted.settings
    && e.oid4vp == c.posted.oid4vp
    && e.results.Some?
    && e.verifyTask.Some?
    && e.verifyTask.value.openBadgesCredentialIndices == Task(c).openBadgesCredentialIndices
    && e.verifyTask.value.maxAttempts == Task(c).maxAttempts
    && 1 <= e.verifyTask.value.attempt <= Task(c).maxAttempts
    && Derived(Base(c), e.results.value)
    && e.state != Pending
    && (e.state == Active ==> e.results.value == Base(c))
    && (e.state == Complete ==> e.results.value.verified)
    && (e.state == Invalid ==> !e.results.value.verified)
    && (IsTerminal(e.verifyTask.value.status) ==> e.state != Active)
    && (e.verifyTask.value.status == GaveUp ==> e.verifyTask.value.attempt == Task(c).maxAttempts)
  }

  /** The record belongs to a committed attempt and agrees with it. */
  ghost predicate InLog(log: seq<Attempt>, e: Exchange) {
    && e.verifyTask.Some?
    && 1 <= e.verifyTask.value.attempt <= |log|
    && log[e.verifyTask.value.attempt - 1] == Attempt(e.verifyTask.value.attemptId, e.verifyTask.value.deadlineAt)
  }

  ghost predicate RecordOk(c: Config, log: seq<Attempt>, e: Exchange)
    requires ValidConfig(c)
  {
    BodyOk(c, e) && InLog(log, e)
  }

  ghost predicate LogOk(c: Config, log: seq<Attempt>, nextId: AttemptId)
    requires ValidConfig(c)
  {
    && 1 <= |log| <= Task(c).maxAttempts
    && (forall i :: 0 <= i < |log| ==> log[i].id < nextId)
    && (forall i, j :: 0 <= i < j < |log| ==> log[i].id != log[j].id)
  }

  /** The stored record always belongs to the latest attempt. */
  ghost predicate StoreOk(c: Config, s: World)
    requires ValidConfig(c)
  {
    s.store.Some? ==> RecordOk(c, s.log, s.store.value) && s.store.value.verifyTask.value.attempt == |s.log|
  }

  ghost predicate WorkerOk(c: Config, log: seq<Attempt>, calls: nat, w: Worker)
    requires ValidConfig(c)
  {
    && RecordOk(c, log, w.snapshot)
    && !IsTerminal(w.snapshot.verifyTask.value.status)
    && (w.Loaded? ==> calls == 0)
    && calls <= |Task(c).openBadgesCredentialIndices|
    && (w.Verifying? ==> calls <= w.next <= |Task(c).openBadgesCredentialIndices| && Derived(Base(c), w.merged))
  }

  ghost predicate WorkersOk(c: Config, s: World)
    requires ValidConfig(c)
  {
    forall w :: w in s.workers ==> w < |s.calls| && WorkerOk(c, s.log, s.calls[w], s.workers[w])
  }

  ghost predicate RetryOk(c: Config, log: seq<Attempt>, nextId: AttemptId, expected: AttemptId, next: Exchange)
    requires ValidConfig(c)
  {
    && BodyOk(c, next)
    && next.state == Active
    && next.verifyTask.value.status == Queued
    && next.verifyTask.value.attemptId < nextId
    && (forall i :: 0 <= i < |log| ==> log[i].id != next.verifyTask.value.attemptId)
    && 1 < next.verifyTask.value.attempt <= |log| + 1
    && log[next.verifyTask.value.attempt - 2].id == expected
  }

  ghost predicate GiveUpOk(c: Config, log: seq<Attempt>, expected: AttemptId, next: Exchange)
    requires ValidConfig(c)
  {
    && RecordOk(c, log, next)
    && next.state == Invalid
    && next.verifyTask.value.status == GaveUp
    && next.verifyTask.value.attemptId == expected
    && next.results.value == Origin(Base(c), true)
  }

  ghost predicate SweepOk(c: Config, s: World, w: Sweep)
    requires ValidConfig(c)
  {
    match w
    case Read(e) => RecordOk(c, s.log, e)
    case Retrying(expected, next) => RetryOk(c, s.log, s.nextId, expected, next)
    case GivingUp(expected, next) => GiveUpOk(c, s.log, expected, next)
    case MustEnqueue(a) => 1 < a <= |s.log| && a !in s.enqueues
  }

  /** Pending retries carry different fresh ids; pending enqueues are for different attempts. */
  ghost predicate Compatible(a: Sweep, b: Sweep) {
    && (a.Retrying? && b.Retrying? ==> CapturedId(a.next) != CapturedId(b.next))
    && (a.MustEnqueue? && b.MustEnqueue? ==> a.attempt != b.attempt)
  }

  ghost predicate SweepsOk(c: Config, s: World)
    requires ValidConfig(c)
  {
    && (forall k :: k in s.sweeps ==> SweepOk(c, s, s.sweeps[k]))
    && (forall j, k :: j in s.sweeps && k in s.sweeps && j != k ==> Compatible(s.sweeps[j], s.sweeps[k]))
  }

  ghost predicate CountsOk(c: Config, s: World)
    requires ValidConfig(c)
  {
    && Distinct(s.enqueues)
    && (forall i :: 0 <= i < |s.enqueues| ==> 1 <= s.enqueues[i] <= |s.log|)
    && (s.postMustEnqueue ==> 1 !in s.enqueues)
    && |s.calls| <= |s.enqueues|
    && (forall w :: 0 <= w < |s.calls| ==> s.calls[w] <= |Task(c).openBadgesCredentialIndices|)
  }

  ghost predicate Inv(c: Config, s: World)
    requires ValidConfig(c)
  {
    LogOk(c, s.log, s.nextId) && StoreOk(c, s) && WorkersOk(c, s) && SweepsOk(c, s) && CountsOk(c, s)
  }

  // ----- initial world -----------------------------------------------------

  lemma InitInv(c: Config)
    requires ValidConfig(c)
    ensures Inv(c, Init(c))
  {
    BaseIsDerived(Base(c));
  }

  // ----- steps -------------------------------------------------------------

  /** Sweeps that are not touched stay in order. */
  lemma SweepsFrame(c: Config, s: World, t: World)
    requires ValidConfig(c) && SweepsOk(c, s)
    requires t.sweeps == s.sweeps && t.nextId == s.nextId && t.log == s.log && t.enqueues == s.enqueues
    ensures SweepsOk(c, t)
  {
    forall j | j in t.sweeps ensures SweepOk(c, t, t.sweeps[j]) {
      assert SweepOk(c, s, s.sweeps[j]);
    }
  }

  /** Adding, advancing or dropping one worker, together with its own write to the store. */
  lemma WorkerStep(c: Config, s: World, t: World, w: nat)
    requires ValidConfig(c) && Inv(c, s)
    requires t == s.(store := t.store, workers := t.workers, calls := t.calls)
    requires StoreOk(c, t)
    requires |s.calls| <= |t.calls| <= |s.enqueues|
    requires forall v :: 0 <= v < |t.calls| && v != w ==> v < |s.calls| && t.calls[v] == s.calls[v]
    requires w < |t.calls| ==> t.calls[w] <= |Task(c).openBadgesCredentialIndices|
    requires t.workers.Keys <= s.workers.Keys + {w}
    requires forall v :: v in t.workers && v != w ==> t.workers[v] == s.workers[v]
    requires w in t.workers ==> w < |t.calls| && WorkerOk(c, t.log, t.calls[w], t.workers[w])
    ensures Inv(c, t)
  {
    hide SweepOk, Compatible, Distinct, LogOk, StoreOk;
    forall v | v in t.workers ensures v < |t.calls| && WorkerOk(c, t.log, t.calls[v], t.workers[v]) {
      if v != w {
        assert WorkerOk(c, s.log, s.calls[v], s.workers[v]);
      }
    }
    SweepsFrame(c, s, t);
  }

  lemma WorkerLoadInv(c: Config, s: World)
    requires ValidConfig(c) && Inv(c, s)
    ensures Inv(c, DoWorkerLoad(s))
  {
    hide SweepsOk, Distinct, LogOk, BodyOk;
    var t := DoWorkerLoad(s);
    if t != s {
      WorkerStep(c, s, t, |s.calls|);
    }
  }

  lemma MarkKeepsBody(c: Config, current: Exchange, snapshot: Exchange, status: TaskStatus, lastError: Option<string>)
    requires ValidConfig(c) && BodyOk(c, current) && BodyOk(c, snapshot)
    requires !IsTerminal(status)
    ensures BodyOk(c, WithVerifyTask(current, snapshot.verifyTask.value.(status := status, lastError := lastError)))
  {
  }

  lemma WorkerMarkInv(c: Config, s: World, w: nat)
    requires ValidConfig(c) && Inv(c, s)
    ensures Inv(c, DoWorkerMark(s, w))
  {
    hide SweepsOk, Distinct, LogOk, StoreOk, InLog;
    if w in s.workers && s.workers[w].Loaded? {
      assert WorkerOk(c, s.log, s.calls[w], s.workers[w]);
      MarkStoreOk(c, s, s.workers[w].snapshot);
      var t := DoWorkerMark(s, w);
      StoreFrame(c, s.(store := t.store), t);
      WorkerStep(c, s, t, w);
    }
  }

  lemma MarkStoreOk(c: Config, s: World, snapshot: Exchange)
    requires ValidConfig(c) && LogOk(c, s.log, s.nextId) && StoreOk(c, s) && RecordOk(c, s.log, snapshot)
    ensures StoreOk(c, s.(store := MarkStored(s.store, snapshot)))
  {
    if Matches(s.store, CapturedId(snapshot)) {
      SameAttempt(c, s.log, s.nextId, s.store.value, snapshot);
      MarkKeepsBody(c, s.store.value, snapshot, Running, snapshot.verifyTask.value.lastError);
    }
  }

  /** Two records of committed attempts with one id are of the same attempt. */
  lemma SameAttempt(c: Config, log: seq<Attempt>, nextId: AttemptId, a: Exchange, b: Exchange)
    requires ValidConfig(c) && LogOk(c, log, nextId) && RecordOk(c, log, a) && RecordOk(c, log, b)
    requires CapturedId(a) == CapturedId(b)
    ensures a.verifyTask.value.attempt == b.verifyTask.value.attempt
    ensures a.verifyTask.value.deadlineAt == b.verifyTask.value.deadlineAt
  {
    var i, j := a.verifyTask.value.attempt - 1, b.verifyTask.value.attempt - 1;
    assert log[i].id == log[j].id;
  }

  /** The worker after one turn of its loop, and its number of verifier calls. */
  lemma TurnOk(c: Config, s: World, w: nat, ob: ObResult)
    requires ValidConfig(c)
    requires w in s.workers && w < |s.calls| && s.workers[w].Verifying? && WorkerOk(c, s.log, s.calls[w], s.workers[w])
    ensures var t := DoWorkerVerify(s, w, ob);
            t.calls[w] <= |Task(c).openBadgesCredentialIndices| && WorkerOk(c, s.log, t.calls[w], t.workers[w])
  {
    var v := s.workers[w];
    var indices := IndicesOf(v.snapshot);
    if v.next < |indices| && CredentialAt(v.merged, indices[v.next]).Some? {
      MergeIsDerived(Base(c), v.merged, indices[v.next], ob);
    }
  }

  lemma WorkerVerifyInv(c: Config, s: World, w: nat, ob: ObResult)
    requires ValidConfig(c) && Inv(c, s)
    ensures Inv(c, DoWorkerVerify(s, w, ob))
  {
    hide SweepsOk, Distinct, LogOk, StoreOk, WorkerOk;
    if w in s.workers && s.workers[w].Verifying? {
      TurnOk(c, s, w, ob);
      var t := DoWorkerVerify(s, w, ob);
      assert StoreOk(c, t) by { StoreFrame(c, s, t); }
      WorkerStep(c, s, t, w);
    }
  }

  lemma StoreFrame(c: Config, s: World, t: World)
    requires ValidConfig(c) && StoreOk(c, s) && t.store == s.store && t.log == s.log
    ensures StoreOk(c, t)
  {
  }

  lemma WorkerSetupThrowInv(c: Config, s: World, w: nat, message: string)
    requires ValidConfig(c) && Inv(c, s)
    ensures Inv(c, DoWorkerSetupThrow(s, w, message))
  {
    hide SweepsOk, Distinct, LogOk, StoreOk, BodyOk, InLog;
    var t := DoWorkerSetupThrow(s, w, message);
    if t != s {
      assert WorkerOk(c, s.log, s.calls[w], s.workers[w]);
      StoreFrame(c, s, t);
      WorkerStep(c, s, t, w);
    }
  }

  lemma WorkerThrowInv(c: Config, s: World, w: nat, message: string)
    requires ValidConfig(c) && Inv(c, s)
    ensures Inv(c, DoWorkerThrow(s, w, message))
  {
    hide SweepsOk, Distinct, LogOk, StoreOk, WorkerOk;
    if w in s.workers && s.workers[w].Verifying? {
      ThrowOk(c, s, w, message);
      var t := DoWorkerThrow(s, w, message);
      assert StoreOk(c, t) by { StoreFrame(c, s, t); }
      WorkerStep(c, s, t, w);
    }
  }

  /** The worker after a throwing turn: the call is still within the number of indices. */
  lemma ThrowOk(c: Config, s: World, w: nat, message: string)
    requires ValidConfig(c)
    requires w in s.workers && w < |s.calls| && s.workers[w].Verifying? && WorkerOk(c, s.log, s.calls[w], s.workers[w])
    ensures var t := DoWorkerThrow(s, w, message);
            t.calls[w] <= |Task(c).openBadgesCredentialIndices| && WorkerOk(c, s.log, t.calls[w], t.workers[w])
  {
  }

  lemma WorkerCommitInv(c: Config, s: World, w: nat)
    requires ValidConfig(c) && Inv(c, s)
    ensures Inv(c, DoWorkerCommit(s, w))
  {
    hide SweepsOk, Distinct, LogOk, StoreOk, WorkerOk;
    var t := DoWorkerCommit(s, w);
    if t != s {
      CommitStoreOk(c, s, w);
      StoreFrame(c, s.(store := t.store), t);
      WorkerStep(c, s, t, w);
    }
  }

  lemma CommitStoreOk(c: Config, s: World, w: nat)
    requires ValidConfig(c) && LogOk(c, s.log, s.nextId) && StoreOk(c, s)
    requires w in s.workers && w < |s.calls| && WorkerOk(c, s.log, s.calls[w], s.workers[w])
    ensures StoreOk(c, s.(store := CommitStored(s.store, s.workers[w])))
  {
    var worker := s.workers[w];
    var snapshot := worker.snapshot;
    if Matches(s.store, CapturedId(snapshot)) {
      SameAttempt(c, s.log, s.nextId, s.store.value, snapshot);
      if worker.Failing? {
        MarkKeepsBody(c, s.store.value, snapshot, Failed, Some(worker.message));
      }
    }
  }

  /** Reading, deciding or dropping one sweep touches nothing else. */
  lemma SweepStep(c: Config, s: World, t: World, k: nat)
    requires ValidConfig(c) && Inv(c, s)
    requires t == s.(sweeps := t.sweeps, nextId := t.nextId) && s.nextId <= t.nextId
    requires t.sweeps.Keys <= s.sweeps.Keys + {k}
    requires forall j :: j in t.sweeps && j != k ==> t.sweeps[j] == s.sweeps[j]
    requires k in t.sweeps ==> SweepOk(c, t, t.sweeps[k])
    requires k in t.sweeps ==> forall j :: j in s.sweeps && j != k ==> Compatible(s.sweeps[j], t.sweeps[k])
    ensures Inv(c, t)
  {
    hide SweepOk, Compatible, Distinct, WorkerOk, RecordOk;
    SweepsStayOk(c, s, t, k);
  }

  lemma SweepReadInv(c: Config, s: World, k: nat)
    requires ValidConfig(c) && Inv(c, s)
    ensures Inv(c, DoSweepRead(s, k))
  {
    hide WorkersOk, SweepsOk, Distinct, LogOk, RecordOk;
    var t := DoSweepRead(s, k);
    if t != s {
      SweepStep(c, s, t, k);
    }
  }

  lemma RetryRecordOk(c: Config, s: World, e: Exchange)
    requires ValidConfig(c) && LogOk(c, s.log, s.nextId) && RecordOk(c, s.log, e)
    requires DecideSweep(e, s.clock, c.deadlineMs, s.nextId).Retry?
    ensures RetryOk(c, s.log, s.nextId + 1, CapturedId(e), DecideSweep(e, s.clock, c.deadlineMs, s.nextId).next)
  {
  }

  lemma GiveUpRecordOk(c: Config, s: World, e: Exchange)
    requires ValidConfig(c) && LogOk(c, s.log, s.nextId) && RecordOk(c, s.log, e)
    requires DecideSweep(e, s.clock, c.deadlineMs, s.nextId).TimedOut?
    ensures GiveUpOk(c, s.log, CapturedId(e), DecideSweep(e, s.clock, c.deadlineMs, s.nextId).next)
  {
    BaseIsDerived(Base(c));
  }

  lemma SweepDecideInv(c: Config, s: World, k: nat)
    requires ValidConfig(c) && Inv(c, s)
    ensures Inv(c, DoSweepDecide(c, s, k))
  {
    hide WorkersOk, Distinct, LogOk, StoreOk, RecordOk, GiveUpOk;
    if k in s.sweeps && s.sweeps[k].Read? {
      var e := s.sweeps[k].snapshot;
      assert SweepOk(c, s, s.sweeps[k]);
      var t := DoSweepDecide(c, s, k);
      match DecideSweep(e, s.clock, c.deadlineMs, s.nextId)
      case Healthy => SweepStep(c, s, t, k);
      case Retry(next) =>
        RetryRecordOk(c, s, e);
        forall j | j in s.sweeps && j != k ensures Compatible(s.sweeps[j], t.sweeps[k]) {
          assert SweepOk(c, s, s.sweeps[j]);
        }
        SweepStep(c, s, t, k);
      case TimedOut(next) =>
        GiveUpRecordOk(c, s, e);
        SweepStep(c, s, t, k);
    }
  }

  /** Replacing or dropping one sweep leaves the others in order. */
  lemma SweepsStayOk(c: Config, s: World, t: World, k: nat)
    requires ValidConfig(c) && SweepsOk(c, s)
    requires s.nextId <= t.nextId && t.log == s.log && t.enqueues == s.enqueues
    requires t.sweeps.Keys <= s.sweeps.Keys + {k}
    requires forall j :: j in t.sweeps && j != k ==> t.sweeps[j] == s.sweeps[j]
    requires k in t.sweeps ==> SweepOk(c, t, t.sweeps[k])
    requires k in t.sweeps ==> forall j :: j in s.sweeps && j != k ==> Compatible(s.sweeps[j], t.sweeps[k])
    ensures SweepsOk(c, t)
  {
    forall j | j in t.sweeps ensures SweepOk(c, t, t.sweeps[j]) {
      if j != k {
        assert SweepOk(c, s, s.sweeps[j]);
      }
    }
    forall i, j | i in t.sweeps && j in t.sweeps && i != j ensures Compatible(t.sweeps[i], t.sweeps[j]) {
      if i != k && j != k {
        assert Compatible(s.sweeps[i], s.sweeps[j]);
      }
    }
  }

  lemma RecordOkGrows(c: Config, log: seq<Attempt>, a: Attempt, e: Exchange)
    requires ValidConfig(c) && RecordOk(c, log, e)
    ensures RecordOk(c, log + [a], e)
  {
  }

  /** A committed retry is for the attempt right after the stored one. */
  lemma RetryIsNext(c: Config, s: World, expected: AttemptId, next: Exchange)
    requires ValidConfig(c) && Inv(c, s) && RetryOk(c, s.log, s.nextId, expected, next)
    requires Matches(s.store, expected)
    ensures next.verifyTask.value.attempt == |s.log| + 1
  {
    var i := next.verifyTask.value.attempt - 2;
    assert s.log[i].id == expected == s.log[|s.log| - 1].id;
  }

  /** A committed retry extends the log; every other actor keeps its place in it. */
  lemma OthersSurviveRetry(c: Config, s: World, k: nat)
    requires ValidConfig(c) && Inv(c, s)
    requires k in s.sweeps && s.sweeps[k].Retrying? && Matches(s.store, s.sweeps[k].expected)
    ensures WorkersOk(c, DoSweepCommit(s, k))
    ensures SweepsOk(c, DoSweepCommit(s, k))
  {
    hide Derived, Distinct, StoreOk;
    var t := DoSweepCommit(s, k);
    var next := s.sweeps[k].next;
    assert SweepOk(c, s, s.sweeps[k]);
    var a := Attempt(next.verifyTask.value.attemptId, next.verifyTask.value.deadlineAt);
    assert t.log == s.log + [a];
    forall w | w in t.workers ensures w < |t.calls| && WorkerOk(c, t.log, t.calls[w], t.workers[w]) {
      assert WorkerOk(c, s.log, s.calls[w], s.workers[w]);
      RecordOkGrows(c, s.log, a, s.workers[w].snapshot);
    }
    RetryIsNext(c, s, s.sweeps[k].expected, next);
    forall j | j in t.sweeps ensures SweepOk(c, t, t.sweeps[j]) {
      assert SweepOk(c, s, s.sweeps[j]);
      if j != k {
        assert Compatible(s.sweeps[j], s.sweeps[k]);
        match s.sweeps[j]
        case Read(e) => RecordOkGrows(c, s.log, a, e);
        case Retrying(expected', next') =>
          assert RetryOk(c, t.log, t.nextId, expected', next');
        case GivingUp(expected', next') => RecordOkGrows(c, s.log, a, next');
        case MustEnqueue(a') =>
      }
    }
    forall i, j | i in t.sweeps && j in t.sweeps && i != j ensures Compatible(t.sweeps[i], t.sweeps[j]) {
      assert Compatible(s.sweeps[i], s.sweeps[j]);
      assert SweepOk(c, s, s.sweeps[i]) && SweepOk(c, s, s.sweeps[j]);
    }
  }

  /** The retried record becomes the latest attempt, with an id no other has. */
  lemma RetryStoreOk(c: Config, s: World, t: World, expected: AttemptId, next: Exchange)
    requires ValidConfig(c) && LogOk(c, s.log, s.nextId) && RetryOk(c, s.log, s.nextId, expected, next)
    requires next.verifyTask.value.attempt == |s.log| + 1
    requires t.store == Some(next) && t.nextId == s.nextId
    requires t.log == s.log + [Attempt(next.verifyTask.value.attemptId, next.verifyTask.value.deadlineAt)]
    ensures LogOk(c, t.log, t.nextId) && StoreOk(c, t)
  {
    hide Derived;
  }

  lemma CountsFrame(c: Config, s: World, t: World)
    requires ValidConfig(c) && CountsOk(c, s)
    requires |s.log| <= |t.log| && t.enqueues == s.enqueues && t.calls == s.calls
             && t.postMustEnqueue == s.postMustEnqueue
    ensures CountsOk(c, t)
  {
    hide Distinct;
  }

  lemma HeldRetryHasTask(c: Config, s: World, k: nat)
    requires ValidConfig(c) && Inv(c, s) && k in s.sweeps
    ensures s.sweeps[k].Retrying? ==> s.sweeps[k].next.verifyTask.Some?
  {
    assert SweepOk(c, s, s.sweeps[k]);
  }

  lemma RetryCommitInv(c: Config, s: World, k: nat)
    requires ValidConfig(c) && Inv(c, s)
    requires k in s.sweeps && s.sweeps[k].Retrying? && Matches(s.store, s.sweeps[k].expected)
    ensures Inv(c, DoSweepCommit(s, k))
  {
    hide WorkersOk, LogOk, StoreOk, CountsOk, Compatible, BodyOk;
    var t := DoSweepCommit(s, k);
    assert SweepOk(c, s, s.sweeps[k]);
    HeldRetryHasTask(c, s, k);
    RetryIsNext(c, s, s.sweeps[k].expected, s.sweeps[k].next);
    OthersSurviveRetry(c, s, k);
    RetryStoreOk(c, s, t, s.sweeps[k].expected, s.sweeps[k].next);
    CountsFrame(c, s, t);
  }

  lemma GiveUpCommitInv(c: Config, s: World, k: nat)
    requires ValidConfig(c) && Inv(c, s)
    requires k in s.sweeps && s.sweeps[k].GivingUp? && Matches(s.store, s.sweeps[k].expected)
    ensures Inv(c, DoSweepCommit(s, k))
  {
    hide Distinct, LogOk, BodyOk, WorkerOk, Compatible;
    var next := s.sweeps[k].next;
    assert SweepOk(c, s, s.sweeps[k]);
    SweepDieInv(c, s, k);
    SameAttempt(c, s.log, s.nextId, s.store.value, next);
    SweepsFrame(c, s.(sweeps := s.sweeps - {k}), DoSweepCommit(s, k));
  }

  lemma SweepCommitInv(c: Config, s: World, k: nat)
    requires ValidConfig(c) && Inv(c, s)
    ensures Inv(c, DoSweepCommit(s, k))
  {
    hide Inv;
    if k in s.sweeps {
      HeldRetryHasTask(c, s, k);
      match s.sweeps[k]
      case Retrying(expected, next) =>
        if Matches(s.store, expected) { RetryCommitInv(c, s, k); } else { SweepDieInv(c, s, k); }
      case GivingUp(expected, next) =>
        if Matches(s.store, expected) { GiveUpCommitInv(c, s, k); } else { SweepDieInv(c, s, k); }
      case _ =>
    }
  }

  lemma SweepEnqueueInv(c: Config, s: World, k: nat)
    requires ValidConfig(c) && Inv(c, s)
    ensures Inv(c, DoSweepEnqueue(s, k))
  {
    if k in s.sweeps && s.sweeps[k].MustEnqueue? {
      assert SweepOk(c, s, s.sweeps[k]);
      var t := DoSweepEnqueue(s, k);
      forall j | j in t.sweeps ensures SweepOk(c, t, t.sweeps[j]) {
        assert SweepOk(c, s, s.sweeps[j]);
        assert Compatible(s.sweeps[j], s.sweeps[k]);
      }
      forall i, j | i in t.sweeps && j in t.sweeps && i != j ensures Compatible(t.sweeps[i], t.sweeps[j]) {
        assert Compatible(s.sweeps[i], s.sweeps[j]);
      }
    }
  }

  lemma PostEnqueueInv(c: Config, s: World)
    requires ValidConfig(c) && Inv(c, s) && s.postMustEnqueue
    ensures Inv(c, Next(c, s, PostEnqueue))
  {
    var t := Next(c, s, PostEnqueue);
    forall j | j in t.sweeps ensures SweepOk(c, t, t.sweeps[j]) {
      assert SweepOk(c, s, s.sweeps[j]);
    }
  }

  lemma TickInv(c: Config, s: World, ms: nat)
    requires ValidConfig(c) && Inv(c, s)
    ensures Inv(c, s.(clock := s.clock + ms))
  {
    hide LogOk, RecordOk, WorkerOk, Distinct, SweepOk, Compatible;
    SweepsFrame(c, s, s.(clock := s.clock + ms));
  }

  lemma WorkerDieInv(c: Config, s: World, w: nat)
    requires ValidConfig(c) && Inv(c, s)
    ensures Inv(c, s.(workers := s.workers - {w}))
  {
    hide LogOk, RecordOk, WorkerOk, Distinct, SweepsOk;
    WorkerStep(c, s, s.(workers := s.workers - {w}), w);
  }

  lemma EvictInv(c: Config, s: World)
    requires ValidConfig(c) && Inv(c, s)
    ensures Inv(c, s.(store := None))
  {
    hide LogOk, RecordOk, WorkerOk, Distinct, SweepOk, Compatible;
    SweepsFrame(c, s, s.(store := None));
  }

  lemma SweepDieInv(c: Config, s: World, k: nat)
    requires ValidConfig(c) && Inv(c, s)
    ensures Inv(c, s.(sweeps := s.sweeps - {k}))
  {
    hide LogOk, RecordOk, WorkersOk, Distinct, SweepsOk;
    SweepStep(c, s, s.(sweeps := s.sweeps - {k}), k);
  }

  lemma NextInv(c: Config, s: World, step: Step)
    requires ValidConfig(c) && Inv(c, s)
    ensures Inv(c, Next(c, s, step))
  {
    hide Inv, ValidConfig, DoWorkerLoad, DoWorkerMark, DoWorkerVerify, DoWorkerSetupThrow, DoWorkerThrow;
    hide DoWorkerCommit;
    hide DoSweepRead, DoSweepDecide, DoSweepCommit, DoSweepEnqueue;
    match step
    case Tick(ms) => TickInv(c, s, ms);
    case PostEnqueue => if s.postMustEnqueue { PostEnqueueInv(c, s); }
    case WorkerLoad => WorkerLoadInv(c, s);
    case WorkerMark(w) => WorkerMarkInv(c, s, w);
    case WorkerVerify(w, ob) => WorkerVerifyInv(c, s, w, ob);
    case WorkerSetupThrow(w, message) => WorkerSetupThrowInv(c, s, w, message);
    case WorkerThrow(w, message) => WorkerThrowInv(c, s, w, message);
    case WorkerCommit(w) => WorkerCommitInv(c, s, w);
    case WorkerDie(w) => WorkerDieInv(c, s, w);
    case SweepRead(k) => SweepReadInv(c, s, k);
    case SweepDecide(k) => SweepDecideInv(c, s, k);
    case SweepCommit(k) => SweepCommitInv(c, s, k);
    case SweepEnqueue(k) => SweepEnqueueInv(c, s, k);
    case SweepDie(k) => SweepDieInv(c, s, k);
    case Evict => EvictInv(c, s);
  }

  lemma {:induction false} RunInv(c: Config, s: World, steps: seq<Step>)
    requires ValidConfig(c) && Inv(c, s)
    ensures Inv(c, Run(c, s, steps))
  {
    if steps != [] {
      RunInv(c, s, steps[..|steps| - 1]);
      NextInv(c, Run(c, s, steps[..|steps| - 1]), steps[|steps| - 1]);
    }
  }

  /** Every world any interleaving can reach from the POST satisfies the invariant. */
  lemma ReachableInv(c: Config, steps: seq<Step>)
    requires ValidConfig(c)
    ensures Inv(c, Run(c, Init(c), steps))
  {
    InitInv(c);
    RunInv(c, Init(c), steps);
  }
}
