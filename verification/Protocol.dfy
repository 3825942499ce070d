/**
 The asynchronous verification protocol of one verify exchange, from the moment the POST has stored
 the synchronous results and the queued task. Workers and sweeps are async functions: each step
 below is the code one of them runs between two awaits, so a run of steps is an interleaving of any
 number of workers and sweeps with stale snapshots. They meet only at the compare-and-swap.
 */
module Protocol {
  import opened Wrappers
  import opened VerificationResults
  import opened VerifyTasks
  import opened TransactionManagers
  import opened VerifyTaskWorkers
  import opened VerifyTaskSweeps

  /** `posted` is the record the POST saved. */
  datatype Config = Config(posted: Exchange, deadlineMs: nat)

  ghost predicate ValidConfig(c: Config) {
    && c.posted.workflowId == Verify
    && c.posted.state == Active
    && c.posted.results.Some?
    && c.posted.verifyTask.Some?
    && c.posted.verifyTask.value.attemptId == 0
    && c.posted.verifyTask.value.attempt == 1
    && c.posted.verifyTask.value.maxAttempts >= 1
    && c.posted.verifyTask.value.status == Queued
    && Distinct(c.posted.verifyTask.value.openBadgesCredentialIndices)
  }

  function Task(c: Config): VerifyTask
    requires c.posted.verifyTask.Some?
  {
    c.posted.verifyTask.value
  }

  /** The synchronous results of the POST. */
  function Base(c: Config): VerificationResult
    requires c.posted.results.Some?
  {
    c.posted.results.value
  }

  /** An attempt that was, or is, the stored one. */
  datatype Attempt = Attempt(id: AttemptId, deadlineAt: nat)

  datatype Worker =
    | Loaded(snapshot: Exchange)
    | Verifying(snapshot: Exchange, merged: VerificationResult, next: nat)
    | Failing(snapshot: Exchange, message: string)

  datatype Sweep =
    | Read(snapshot: Exchange)
    | Retrying(expected: AttemptId, next: Exchange)
    | GivingUp(expected: AttemptId, next: Exchange)
    | MustEnqueue(attempt: nat)

  /**
   `log`, `enqueues` and `calls` are history: the committed attempts in order, the attempt each
   enqueue was for, and the number of verifier calls of each worker run, thrown ones included.
   */
  datatype World = World(
    store: Option<Exchange>,
    workers: map<nat, Worker>,
    sweeps: map<nat, Sweep>,
    clock: nat,
    nextId: AttemptId,
    postMustEnqueue: bool,
    log: seq<Attempt>,
    enqueues: seq<nat>,
    calls: seq<nat>)

  function Init(c: Config): World
    requires c.posted.verifyTask.Some?
  {
    World(Some(c.posted), map[], map[], 0, 1, true, [Attempt(Task(c).attemptId, Task(c).deadlineAt)], [], [])
  }

  datatype Step =
    | Tick(ms: nat)
    | PostEnqueue
    | WorkerLoad
    | WorkerMark(w: nat)
    | WorkerVerify(w: nat, ob: ObResult)
    | WorkerSetupThrow(w: nat, message: string)
    | WorkerThrow(w: nat, message: string)
    | WorkerCommit(w: nat)
    | WorkerDie(w: nat)
    | SweepRead(k: nat)
    | SweepDecide(k: nat)
    | SweepCommit(k: nat)
    | SweepEnqueue(k: nat)
    | SweepDie(k: nat)
    | Evict

  // ----- the worker's segments --------------------------------------------

  /** The drainer takes one queue entry and the worker loads the record; run `|calls|` starts here. */
  function DoWorkerLoad(s: World): World {
    if |s.calls| >= |s.enqueues| then s
    else
      var started := s.(calls := s.calls + [0]);
      if s.store.None? || s.store.value.workflowId != Verify || s.store.value.verifyTask.None?
         || IsTerminal(s.store.value.verifyTask.value.status)
      then started
      else started.(workers := s.workers[|s.calls| := Loaded(s.store.value)])
  }

  /** The attempt id a snapshot was taken under. */
  function CapturedId(e: Exchange): AttemptId {
    if e.verifyTask.Some? then e.verifyTask.value.attemptId else 0
  }

  function MarkStored(store: Option<Exchange>, snapshot: Exchange): Option<Exchange> {
    if snapshot.verifyTask.None? then store
    else
      var task := snapshot.verifyTask.value;
      CasRecord(store, task.attemptId, current => WithVerifyTask(current, MarkRunning(task))).0
  }

  function DoWorkerMark(s: World, w: nat): World {
    if w !in s.workers || !s.workers[w].Loaded? then s
    else
      var snapshot := s.workers[w].snapshot;
      var after := if snapshot.results.Some? then Verifying(snapshot, snapshot.results.value, 0)
                   else Failing(snapshot, MISSING_RESULTS);
      s.(store := MarkStored(s.store, snapshot), workers := s.workers[w := after])
  }

  function IndicesOf(snapshot: Exchange): seq<nat> {
    if snapshot.verifyTask.Some? then snapshot.verifyTask.value.openBadgesCredentialIndices else []
  }

  /** One turn of the loop; `ob` is what the verifier answered, if it is called at all. */
  function DoWorkerVerify(s: World, w: nat, ob: ObResult): World {
    if w !in s.workers || !s.workers[w].Verifying? then s
    else
      var v := s.workers[w];
      var indices := IndicesOf(v.snapshot);
      if v.next >= |indices| then s
      else if CredentialAt(v.merged, indices[v.next]).None? then s.(workers := s.workers[w := v.(next := v.next + 1)])
      else
        s.(workers := s.workers[w := v.(next := v.next + 1,
                                        merged := MergeOpenBadgesResultsAt(v.merged, indices[v.next], ob))],
        calls := if w < |s.calls| then s.calls[w := s.calls[w] + 1] else s.calls)
  }

  /** Resolving the registries throws, before the first turn of the loop. */
  function DoWorkerSetupThrow(s: World, w: nat, message: string): World {
    if w in s.workers && s.workers[w].Verifying? && s.workers[w].next == 0
    then s.(workers := s.workers[w := Failing(s.workers[w].snapshot, message)])
    else s
  }

  /** The verifier call of the current turn throws; it was a call nevertheless, and it ends the loop. */
  function DoWorkerThrow(s: World, w: nat, message: string): World {
    if w !in s.workers || !s.workers[w].Verifying? then s
    else
      var v := s.workers[w];
      var indices := IndicesOf(v.snapshot);
      if v.next >= |indices| || CredentialAt(v.merged, indices[v.next]).None? then s
      else s.(workers := s.workers[w := Failing(v.snapshot, message)],
           calls := if w < |s.calls| then s.calls[w := s.calls[w] + 1] else s.calls)
  }

  /** The store after the worker's closing compare-and-swap. */
  function CommitStored(store: Option<Exchange>, worker: Worker): Option<Exchange> {
    if worker.snapshot.verifyTask.None? then store
    else
      var task := worker.snapshot.verifyTask.value;
      match worker
      case Loaded(_) => store
      case Verifying(snapshot, merged, next) =>
        CasRecord(store, task.attemptId, _ => Settle(snapshot, task, merged)).0
      case Failing(snapshot, message) =>
        CasRecord(store, task.attemptId, current => WithVerifyTask(current, MarkFailed(task, message))).0
  }

  predicate ReadyToCommit(worker: Worker) {
    worker.Failing? || (worker.Verifying? && worker.next >= |IndicesOf(worker.snapshot)|)
  }

  function DoWorkerCommit(s: World, w: nat): World {
    if w !in s.workers || !ReadyToCommit(s.workers[w]) then s
    else s.(store := CommitStored(s.store, s.workers[w]), workers := s.workers - {w})
  }

  // ----- the sweep's segments ---------------------------------------------

  function DoSweepRead(s: World, k: nat): World {
    if k in s.sweeps || s.store.None? then s else s.(sweeps := s.sweeps[k := Read(s.store.value)])
  }

  function DoSweepDecide(c: Config, s: World, k: nat): World {
    if k !in s.sweeps || !s.sweeps[k].Read? then s
    else
      var e := s.sweeps[k].snapshot;
      match DecideSweep(e, s.clock, c.deadlineMs, s.nextId)
      case Healthy => s.(sweeps := s.sweeps - {k})
      case Retry(next) => s.(sweeps := s.sweeps[k := Retrying(CapturedId(e), next)], nextId := s.nextId + 1)
      case TimedOut(next) => s.(sweeps := s.sweeps[k := GivingUp(CapturedId(e), next)])
  }

  predicate Matches(store: Option<Exchange>, expected: AttemptId) {
    store.Some? && ReadVerifyTaskAttemptId(store.value) == Some(expected)
  }

  function DoSweepCommit(s: World, k: nat): World {
    if k !in s.sweeps then s
    else match s.sweeps[k]
      case Retrying(expected, next) =>
        var (store, status) := CasRecord(s.store, expected, _ => next);
        if status == Committed && next.verifyTask.Some? then
          var task := next.verifyTask.value;
          s.(store := store, sweeps := s.sweeps[k := MustEnqueue(task.attempt)],
          log := s.log + [Attempt(task.attemptId, task.deadlineAt)])
        else s.(sweeps := s.sweeps - {k})
      case GivingUp(expected, next) =>
        s.(store := CasRecord(s.store, expected, _ => next).0, sweeps := s.sweeps - {k})
      case _ => s
  }

  function DoSweepEnqueue(s: World, k: nat): World {
    if k in s.sweeps && s.sweeps[k].MustEnqueue?
    then s.(sweeps := s.sweeps - {k}, enqueues := s.enqueues + [s.sweeps[k].attempt])
    else s
  }

  // ----- runs --------------------------------------------------------------

  /** A step whose actor is not there, or not at that point, does nothing. */
  function Next(c: Config, s: World, step: Step): World {
    match step
    case Tick(ms) => s.(clock := s.clock + ms)
    case PostEnqueue => if s.postMustEnqueue then s.(postMustEnqueue := false, enqueues := s.enqueues + [1]) else s
    case WorkerLoad => DoWorkerLoad(s)
    case WorkerMark(w) => DoWorkerMark(s, w)
    case WorkerVerify(w, ob) => DoWorkerVerify(s, w, ob)
    case WorkerSetupThrow(w, message) => DoWorkerSetupThrow(s, w, message)
    case WorkerThrow(w, message) => DoWorkerThrow(s, w, message)
    case WorkerCommit(w) => DoWorkerCommit(s, w)
    case WorkerDie(w) => s.(workers := s.workers - {w})
    case SweepRead(k) => DoSweepRead(s, k)
    case SweepDecide(k) => DoSweepDecide(c, s, k)
    case SweepCommit(k) => DoSweepCommit(s, k)
    case SweepEnqueue(k) => DoSweepEnqueue(s, k)
    case SweepDie(k) => s.(sweeps := s.sweeps - {k})
    case Evict => s.(store := None)
  }

  function Run(c: Config, s: World, steps: seq<Step>): World {
    if steps == [] then s else Next(c, Run(c, s, steps[..|steps| - 1]), steps[|steps| - 1])
  }

  lemma RunSnoc(c: Config, s: World, steps: seq<Step>, step: Step)
    ensures Run(c, s, steps + [step]) == Next(c, Run(c, s, steps), step)
  {
    assert (steps + [step])[..|steps|] == steps;
  }

  lemma OneStep(c: Config, s: World, a: Step)
    ensures Run(c, s, [a]) == Next(c, s, a)
  {
    hide Next;
    assert [a] == [] + [a];
    RunSnoc(c, s, [], a);
  }

  lemma TwoSteps(c: Config, s: World, a: Step, b: Step)
    ensures Run(c, s, [a, b]) == Next(c, Next(c, s, a), b)
  {
    hide Next;
    assert [a, b] == ([] + [a]) + [b];
    RunSnoc(c, s, [] + [a], b);
    RunSnoc(c, s, [], a);
  }

  lemma ThreeSteps(c: Config, s: World, a: Step, b: Step, d: Step)
    ensures Run(c, s, [a, b, d]) == Next(c, Next(c, Next(c, s, a), b), d)
  {
    hide Next;
    assert [a, b, d] == ([] + [a] + [b]) + [d];
    RunSnoc(c, s, [] + [a] + [b], d);
    RunSnoc(c, s, [] + [a], b);
    RunSnoc(c, s, [], a);
  }

  lemma {:induction false} RunConcat(c: Config, s: World, a: seq<Step>, b: seq<Step>)
    ensures Run(c, s, a + b) == Run(c, Run(c, s, a), b)
  {
    if b == [] {
      assert a + b == a;
    } else {
      var init, last := b[..|b| - 1], b[|b| - 1];
      assert a + b == (a + init) + [last];
      RunSnoc(c, s, a + init, last);
      RunConcat(c, s, a, init);
    }
  }
}
