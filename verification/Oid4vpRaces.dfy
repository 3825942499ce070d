/**
 The presentation binding of a verify exchange (`variables.oid4vp`) while its asynchronous pass is under way: requests
 load and save the record in one step each, between the steps of workers and sweeps that hold older snapshots.
 */
module Oid4vpRaces {
  import opened Wrappers
  import opened VerificationResults
  import opened VerifyTasks
  import opened TransactionManagers
  import opened VerifyTaskWorkers
  import opened VerifyTaskSweeps
  import opened Protocol
  import O = Oid4vp

  /** `minted` and `accepted` are history: the correlation tokens and the number of accepted responses. */
  datatype Race = Race(world: World, nextState: nat, minted: seq<nat>, accepted: nat)

  datatype Event = Protocol(step: Step) | Http(request: O.Request)

  /** The task a request would queue. */
  function QueuedBy(request: O.Request): Option<VerifyTask> {
    match request
    case ResponsePost(_, Queued(_, task)) => Some(task)
    case VcApiPost(Queued(_, task)) => Some(task)
    case _ => None
  }

  /** A request on the stored record; a task it queues carries a new attempt id. */
  function DoHttp(clientId: string, r: Race, request: O.Request): Race {
    var queued := QueuedBy(request);
    if r.world.store.None? || (queued.Some? && queued.value.attemptId != r.world.nextId) then r
    else
      var e := r.world.store.value;
      var (saved, accepted) := O.Handle(e, request, clientId, r.nextState);
      var enqueues := if queued.Some? && saved.verifyTask == queued then r.world.enqueues + [1] else r.world.enqueues;
      Race(r.world.(store := Some(saved), nextId := r.world.nextId + 1, enqueues := enqueues),
           r.nextState + 1,
           if e.oid4vp.None? && saved.oid4vp.Some? then r.minted + [saved.oid4vp.value.state] else r.minted,
           if accepted then r.accepted + 1 else r.accepted)
  }

  function Advance(c: Config, clientId: string, r: Race, event: Event): Race {
    match event
    case Protocol(step) => r.(world := Next(c, r.world, step))
    case Http(request) => DoHttp(clientId, r, request)
  }

  function Play(c: Config, clientId: string, r: Race, events: seq<Event>): Race {
    if events == [] then r else Advance(c, clientId, Play(c, clientId, r, events[..|events| - 1]), events[|events| - 1])
  }

  /** The exchange as created: no binding, no task, nobody at work. */
  function Start(e: Exchange): Race {
    Race(World(Some(e), map[], map[], 0, 1, false, [], [], []), 0, [], 0)
  }

  // ----- attempt ids -------------------------------------------------------

  function TaskId(e: Exchange): Option<AttemptId> {
    ReadVerifyTaskAttemptId(e)
  }

  function IdOf(e: Exchange): AttemptId {
    if TaskId(e).Some? then TaskId(e).value else 0
  }

  ghost predicate Holds(w: Sweep, id: AttemptId) {
    match w
    case Read(e) => TaskId(e) == Some(id)
    case Retrying(expected, _) => expected == id
    case GivingUp(expected, _) => expected == id
    case MustEnqueue(_) => false
  }

  /** Neither the record nor any snapshot is under this id. */
  ghost predicate IsUnheld(s: World, id: AttemptId) {
    && (s.store.Some? ==> TaskId(s.store.value) != Some(id))
    && (forall w :: w in s.workers ==> TaskId(s.workers[w].snapshot) != Some(id))
    && (forall k :: k in s.sweeps ==> !Holds(s.sweeps[k], id))
  }

  ghost predicate IdBelow(e: Exchange, nextId: AttemptId) {
    TaskId(e).Some? ==> TaskId(e).value < nextId
  }

  ghost predicate SweepIds(w: Sweep, nextId: AttemptId) {
    match w
    case Read(e) => IdBelow(e, nextId)
    case Retrying(expected, next) => expected < nextId && TaskId(next).Some? && TaskId(next).value < nextId
    case GivingUp(expected, next) => expected < nextId && TaskId(next) == Some(expected)
    case MustEnqueue(_) => true
  }

  /** Ids are below the counter, and the id of a pending retry is its own. */
  ghost predicate IdsOk(s: World) {
    && (s.store.Some? ==> IdBelow(s.store.value, s.nextId))
    && (forall w :: w in s.workers ==>
          w < |s.calls| && IdBelow(s.workers[w].snapshot, s.nextId) && TaskId(s.workers[w].snapshot).Some?)
    && (forall k :: k in s.sweeps ==> SweepIds(s.sweeps[k], s.nextId))
    && (forall k :: k in s.sweeps && s.sweeps[k].Retrying? ==> IsUnheld(s, IdOf(s.sweeps[k].next)))
    && (forall j, k :: j in s.sweeps && k in s.sweeps && j != k && s.sweeps[j].Retrying? && s.sweeps[k].Retrying? ==>
                         IdOf(s.sweeps[j].next) != IdOf(s.sweeps[k].next))
  }

  // ----- who can bring an old binding back ---------------------------------

  /** A worker under the stored attempt id that can still commit its own snapshot, with another binding. */
  ghost predicate StaleWorker(e: Exchange, w: Worker) {
    && TaskId(w.snapshot) == TaskId(e) && w.snapshot.oid4vp != e.oid4vp
    && (w.Verifying? || (w.Loaded? && w.snapshot.results.Some?))
  }

  ghost predicate StaleSweep(e: Exchange, w: Sweep) {
    match w
    case Read(old') => Sweepable(old') && TaskId(old') == TaskId(e) && old'.oid4vp != e.oid4vp
    case Retrying(expected, next) => TaskId(e) == Some(expected) && next.oid4vp != e.oid4vp
    case GivingUp(expected, next) => TaskId(e) == Some(expected) && next.oid4vp != e.oid4vp
    case MustEnqueue(_) => false
  }

  ghost predicate Raced(s: World)
    requires s.store.Some?
  {
    || (exists w :: w in s.workers && StaleWorker(s.store.value, s.workers[w]))
    || (exists k :: k in s.sweeps && StaleSweep(s.store.value, s.sweeps[k]))
  }

  /** The record, if there, has this binding, and nobody can bring another one back. */
  ghost predicate Clean(s: World, binding: Option<Oid4vpState>) {
    IdsOk(s) && (s.store.Some? ==> s.store.value.oid4vp == binding && !Raced(s))
  }

  // ----- no step brings a binding back -------------------------------------

  /** One worker is added, moved on or dropped, and the record keeps its id. */
  lemma WorkerFrame(s: World, t: World, w: nat, binding: Option<Oid4vpState>)
    requires Clean(s, binding)
    requires t == s.(store := t.store, workers := t.workers, calls := t.calls)
    requires t.store.Some? ==>
               s.store.Some? && TaskId(t.store.value) == TaskId(s.store.value) && t.store.value.oid4vp == binding
    requires |s.calls| <= |t.calls| && (w in t.workers ==> w < |t.calls|)
    requires forall v :: v in t.workers && v != w ==> v in s.workers && t.workers[v] == s.workers[v]
    requires w in t.workers && w in s.workers ==>
               && t.workers[w].snapshot == s.workers[w].snapshot
               && (s.store.Some? && StaleWorker(s.store.value, t.workers[w]) ==>
                     StaleWorker(s.store.value, s.workers[w]))
    requires w in t.workers && w !in s.workers ==> s.store == Some(t.workers[w].snapshot) && TaskId(s.store.value).Some?
    ensures Clean(t, binding)
  {
    hide TaskId, SweepIds, Holds;
    assert forall v :: v in t.workers && v in s.workers ==> t.workers[v].snapshot == s.workers[v].snapshot;
    forall k | k in t.sweeps && t.sweeps[k].Retrying? ensures IsUnheld(t, IdOf(t.sweeps[k].next)) {
      assert IsUnheld(s, IdOf(s.sweeps[k].next));
    }
  }

  lemma LoadIsClean(s: World, binding: Option<Oid4vpState>)
    requires Clean(s, binding)
    ensures Clean(DoWorkerLoad(s), binding)
  {
    hide Raced, IsUnheld, SweepIds;
    WorkerFrame(s, DoWorkerLoad(s), |s.calls|, binding);
  }

  lemma WorkerIds(s: World, w: nat)
    requires IdsOk(s) && w in s.workers
    ensures w < |s.calls| && s.workers[w].snapshot.verifyTask.Some?
            && TaskId(s.workers[w].snapshot) == Some(CapturedId(s.workers[w].snapshot))
  {
  }

  lemma MarkIsClean(s: World, w: nat, binding: Option<Oid4vpState>)
    requires Clean(s, binding)
    ensures Clean(DoWorkerMark(s, w), binding)
  {
    hide IdsOk, Raced;
    if w in s.workers { WorkerIds(s, w); }
    WorkerFrame(s, DoWorkerMark(s, w), w, binding);
  }

  lemma CommitIsClean(s: World, w: nat, binding: Option<Oid4vpState>)
    requires Clean(s, binding)
    ensures Clean(DoWorkerCommit(s, w), binding)
  {
    hide IdsOk;
    if w in s.workers {
      WorkerIds(s, w);
      assert s.store.Some? ==> !StaleWorker(s.store.value, s.workers[w]);
    }
    WorkerFrame(s, DoWorkerCommit(s, w), w, binding);
  }

  /** One sweep is added, moved on or dropped, without a new id. */
  lemma SweepFrame(s: World, t: World, k: nat, binding: Option<Oid4vpState>)
    requires Clean(s, binding)
    requires t == s.(store := t.store, sweeps := t.sweeps, enqueues := t.enqueues)
    requires t.store.Some? ==>
               s.store.Some? && TaskId(t.store.value) == TaskId(s.store.value) && t.store.value.oid4vp == binding
    requires forall j :: j in t.sweeps && j != k ==> j in s.sweeps && t.sweeps[j] == s.sweeps[j]
    requires k in t.sweeps ==>
               || (k in s.sweeps && t.sweeps[k] == s.sweeps[k])
               || t.sweeps[k].MustEnqueue?
               || (s.store.Some? && t.sweeps[k] == Read(s.store.value))
               || (k in s.sweeps && s.sweeps[k].Read? && t.sweeps[k].GivingUp?
                   && TaskId(s.sweeps[k].snapshot) == Some(t.sweeps[k].expected)
                   && TaskId(t.sweeps[k].next) == Some(t.sweeps[k].expected) && Sweepable(s.sweeps[k].snapshot)
                   && t.sweeps[k].next.oid4vp == s.sweeps[k].snapshot.oid4vp)
    ensures Clean(t, binding)
  {
    hide IdsOk;
    SweepFrameIds(s, t, k);
    if t.store.Some? {
      forall j | j in t.sweeps ensures !StaleSweep(t.store.value, t.sweeps[j]) {
        if j in s.sweeps { assert !StaleSweep(s.store.value, s.sweeps[j]); }
      }
      forall w | w in t.workers ensures !StaleWorker(t.store.value, t.workers[w]) {
        assert !StaleWorker(s.store.value, s.workers[w]);
      }
    }
  }

  lemma SweepFrameIds(s: World, t: World, k: nat)
    requires IdsOk(s) && t == s.(store := t.store, sweeps := t.sweeps, enqueues := t.enqueues)
    requires t.store.Some? ==> s.store.Some? && TaskId(t.store.value) == TaskId(s.store.value)
    requires forall j :: j in t.sweeps && j != k ==> j in s.sweeps && t.sweeps[j] == s.sweeps[j]
    requires k in t.sweeps ==>
               || (k in s.sweeps && t.sweeps[k] == s.sweeps[k])
               || t.sweeps[k].MustEnqueue?
               || (s.store.Some? && t.sweeps[k] == Read(s.store.value))
               || (k in s.sweeps && s.sweeps[k].Read? && t.sweeps[k].GivingUp?
                   && TaskId(s.sweeps[k].snapshot) == Some(t.sweeps[k].expected)
                   && TaskId(t.sweeps[k].next) == Some(t.sweeps[k].expected))
    ensures IdsOk(t)
  {
    hide TaskId;
    forall j | j in t.sweeps && t.sweeps[j].Retrying? ensures IsUnheld(t, IdOf(t.sweeps[j].next)) {
      assert IsUnheld(s, IdOf(s.sweeps[j].next));
    }
    forall j | j in t.sweeps ensures SweepIds(t.sweeps[j], t.nextId) {
      if j in s.sweeps { assert SweepIds(s.sweeps[j], s.nextId); }
    }
  }

  /** A sweep reads the record, ends or is left as it is. */
  lemma SweepMoves(s: World, t: World, k: nat, binding: Option<Oid4vpState>)
    requires Clean(s, binding) && t == s.(sweeps := t.sweeps, enqueues := t.enqueues)
    requires forall j :: j in t.sweeps && j != k ==> j in s.sweeps && t.sweeps[j] == s.sweeps[j]
    requires k in t.sweeps ==>
               (k in s.sweeps && t.sweeps[k] == s.sweeps[k]) || (s.store.Some? && t.sweeps[k] == Read(s.store.value))
    ensures Clean(t, binding)
  {
    hide IdsOk, Raced;
    SweepFrame(s, t, k, binding);
  }

  lemma DecideIsClean(c: Config, s: World, k: nat, binding: Option<Oid4vpState>)
    requires Clean(s, binding)
    ensures Clean(DoSweepDecide(c, s, k), binding)
  {
    hide IdsOk, Raced;
    if k in s.sweeps && s.sweeps[k].Read? {
      var e := s.sweeps[k].snapshot;
      match DecideSweep(e, s.clock, c.deadlineMs, s.nextId)
      case Retry(_) => RetryIsClean(c, s, k, binding);
      case _ => SweepFrame(s, DoSweepDecide(c, s, k), k, binding);
    }
  }

  /** A decided retry takes a new id, under which nobody holds anything. */
  lemma RetryIsClean(c: Config, s: World, k: nat, binding: Option<Oid4vpState>)
    requires Clean(s, binding) && k in s.sweeps && s.sweeps[k].Read?
    requires DecideSweep(s.sweeps[k].snapshot, s.clock, c.deadlineMs, s.nextId).Retry?
    ensures Clean(DoSweepDecide(c, s, k), binding)
  {
    var t := DoSweepDecide(c, s, k);
    var e := s.sweeps[k].snapshot;
    assert t.sweeps[k].Retrying? && TaskId(e) == Some(t.sweeps[k].expected)
           && TaskId(t.sweeps[k].next) == Some(s.nextId);
    assert SweepIds(s.sweeps[k], s.nextId);
    assert IsUnheld(t, s.nextId);
    forall j | j in t.sweeps && t.sweeps[j].Retrying? ensures IsUnheld(t, IdOf(t.sweeps[j].next)) {
      if j != k {
        assert IsUnheld(s, IdOf(s.sweeps[j].next));
        assert !Holds(s.sweeps[k], IdOf(s.sweeps[j].next));
      }
    }
    if s.store.Some? {
      assert !StaleSweep(s.store.value, s.sweeps[k]);
    }
  }

  lemma SweepCommitIsClean(s: World, k: nat, binding: Option<Oid4vpState>)
    requires Clean(s, binding)
    ensures Clean(DoSweepCommit(s, k), binding)
  {
    hide IdsOk, Raced;
    if k in s.sweeps {
      match s.sweeps[k]
      case Retrying(expected, next) =>
        if Matches(s.store, expected) {
          RetryCommitIsClean(s, k, binding);
        } else {
          SweepFrame(s, DoSweepCommit(s, k), k, binding);
        }
      case GivingUp(expected, next) =>
        GiveUpKeeps(s, k, binding);
        SweepFrame(s, DoSweepCommit(s, k), k, binding);
      case _ =>
    }
  }

  lemma GiveUpKeeps(s: World, k: nat, binding: Option<Oid4vpState>)
    requires Clean(s, binding) && k in s.sweeps && s.sweeps[k].GivingUp?
    ensures TaskId(s.sweeps[k].next) == Some(s.sweeps[k].expected)
    ensures Matches(s.store, s.sweeps[k].expected) ==> s.sweeps[k].next.oid4vp == binding
  {
    assert SweepIds(s.sweeps[k], s.nextId);
    if Matches(s.store, s.sweeps[k].expected) {
      assert !StaleSweep(s.store.value, s.sweeps[k]);
    }
  }

  lemma RetryCommitIsClean(s: World, k: nat, binding: Option<Oid4vpState>)
    requires Clean(s, binding) && k in s.sweeps && s.sweeps[k].Retrying? && Matches(s.store, s.sweeps[k].expected)
    ensures Clean(DoSweepCommit(s, k), binding)
  {
    var t := DoSweepCommit(s, k);
    var next := s.sweeps[k].next;
    assert SweepIds(s.sweeps[k], s.nextId) && !StaleSweep(s.store.value, s.sweeps[k]);
    assert IsUnheld(s, IdOf(next));
    assert t.store == Some(next) && t.sweeps[k].MustEnqueue?;
    forall j | j in t.sweeps && t.sweeps[j].Retrying? ensures IsUnheld(t, IdOf(t.sweeps[j].next)) {
      assert IsUnheld(s, IdOf(s.sweeps[j].next));
    }
    forall j | j in t.sweeps ensures !StaleSweep(next, t.sweeps[j]) {
      if j != k { assert !Holds(s.sweeps[j], IdOf(next)); }
    }
  }

  /** No step of a worker or a sweep changes the binding of a record nobody races. */
  lemma NextIsClean(c: Config, s: World, step: Step, binding: Option<Oid4vpState>)
    requires Clean(s, binding)
    ensures Clean(Next(c, s, step), binding)
    ensures s.store.Some? && step != Evict ==> Next(c, s, step).store.Some?
  {
    hide Clean, DecideSweep, MergeOpenBadgesResultsAt, CredentialAt;
    assert Clean(Next(c, s, step), binding) by { StepIsClean(c, s, step, binding); }
  }

  /** A turn of the loop, or a throw, of a worker that could commit anyway. */
  lemma TurnIsClean(s: World, t: World, w: nat, binding: Option<Oid4vpState>)
    requires Clean(s, binding) && t == s.(workers := t.workers, calls := t.calls) && |t.calls| == |s.calls|
    requires t.workers == s.workers || (
               && w in s.workers && w in t.workers && s.workers[w].Verifying?
               && t.workers == s.workers[w := t.workers[w]] && t.workers[w].snapshot == s.workers[w].snapshot)
    ensures Clean(t, binding)
  {
    hide Raced, IsUnheld, SweepIds;
    WorkerFrame(s, t, w, binding);
  }

  lemma DieIsClean(s: World, w: nat, binding: Option<Oid4vpState>)
    requires Clean(s, binding)
    ensures Clean(s.(workers := s.workers - {w}), binding)
  {
    hide IdsOk, Raced;
    WorkerFrame(s, s.(workers := s.workers - {w}), w, binding);
  }

  lemma StepIsClean(c: Config, s: World, step: Step, binding: Option<Oid4vpState>)
    requires Clean(s, binding)
    ensures Clean(Next(c, s, step), binding)
  {
    hide Clean, DoWorkerLoad, DoWorkerMark, DoWorkerCommit, DoSweepDecide, DoSweepCommit;
    hide MergeOpenBadgesResultsAt, CredentialAt;
    var t := Next(c, s, step);
    match step
    case Tick(_) => WorkerIdle(s, t, binding);
    case PostEnqueue => WorkerIdle(s, t, binding);
    case WorkerLoad => LoadIsClean(s, binding);
    case WorkerMark(w) => MarkIsClean(s, w, binding);
    case WorkerVerify(w, _) => TurnIsClean(s, t, w, binding);
    case WorkerSetupThrow(w, _) => TurnIsClean(s, t, w, binding);
    case WorkerThrow(w, _) => TurnIsClean(s, t, w, binding);
    case WorkerCommit(w) => CommitIsClean(s, w, binding);
    case WorkerDie(w) => DieIsClean(s, w, binding);
    case SweepRead(k) => SweepMoves(s, t, k, binding);
    case SweepDecide(k) => DecideIsClean(c, s, k, binding);
    case SweepCommit(k) => SweepCommitIsClean(s, k, binding);
    case SweepEnqueue(k) => SweepMoves(s, t, k, binding);
    case SweepDie(k) => SweepMoves(s, t, k, binding);
    case Evict => SweepFrame(s, t, 0, binding);
  }

  /** The clock and the queue entries do not matter. */
  lemma WorkerIdle(s: World, t: World, binding: Option<Oid4vpState>)
    requires Clean(s, binding)
             && t == s.(clock := t.clock, postMustEnqueue := t.postMustEnqueue, enqueues := t.enqueues)
    ensures Clean(t, binding)
  {
    forall k | k in t.sweeps && t.sweeps[k].Retrying? ensures IsUnheld(t, IdOf(t.sweeps[k].next)) {
      assert IsUnheld(s, IdOf(s.sweeps[k].next));
    }
  }

  lemma {:induction false} RunIsClean(c: Config, s: World, steps: seq<Step>, binding: Option<Oid4vpState>)
    requires Clean(s, binding)
    ensures Clean(Run(c, s, steps), binding)
    ensures s.store.Some? && Evict !in steps ==> Run(c, s, steps).store.Some?
  {
    hide Clean, Next;
    if steps != [] {
      var init, last := steps[..|steps| - 1], steps[|steps| - 1];
      assert last in steps && forall x :: x in init ==> x in steps;
      RunIsClean(c, s, init, binding);
      NextIsClean(c, Run(c, s, init), last, binding);
    }
  }

  // ----- a stale snapshot does ---------------------------------------------

  /** Some continuation stores another binding. */
  ghost predicate CanRevert(c: Config, s: World)
    requires s.store.Some?
  {
    exists after: seq<Step> ::
      Evict !in after && Run(c, s, after).store.Some? && Run(c, s, after).store.value.oid4vp != s.store.value.oid4vp
  }

  lemma RevertFrom(c: Config, s: World, step: Step)
    requires s.store.Some? && step != Evict
    requires var t := Next(c, s, step);
             t.store.Some? && (t.store.value.oid4vp != s.store.value.oid4vp || CanRevert(c, t))
    ensures CanRevert(c, s)
  {
    hide Next, Run;
    OneStep(c, s, step);
    var t := Next(c, s, step);
    if t.store.value.oid4vp != s.store.value.oid4vp {
      assert Evict !in [step];
    } else {
      var after :| Evict !in after && Run(c, t, after).store.Some?
                   && Run(c, t, after).store.value.oid4vp != t.store.value.oid4vp;
      RunConcat(c, s, [step], after);
      assert Evict !in [step] + after;
    }
  }

  /** A stale worker in its loop runs to its end and commits. */
  lemma {:induction false} VerifyingReverts(c: Config, s: World, w: nat)
    requires s.store.Some? && w in s.workers && s.workers[w].Verifying? && s.workers[w].snapshot.verifyTask.Some?
    requires TaskId(s.workers[w].snapshot).Some? && StaleWorker(s.store.value, s.workers[w])
    ensures CanRevert(c, s)
    decreases |IndicesOf(s.workers[w].snapshot)| - s.workers[w].next
  {
    hide CanRevert, MergeOpenBadgesResultsAt, CredentialAt, DecideSweep;
    if ReadyToCommit(s.workers[w]) {
      RevertFrom(c, s, WorkerCommit(w));
    } else {
      var step := WorkerVerify(w, ObResult(true, [], []));
      VerifyingReverts(c, Next(c, s, step), w);
      RevertFrom(c, s, step);
    }
  }

  lemma WorkerReverts(c: Config, s: World, w: nat)
    requires IdsOk(s) && s.store.Some? && w in s.workers && StaleWorker(s.store.value, s.workers[w])
    ensures CanRevert(c, s)
  {
    hide CanRevert, MergeOpenBadgesResultsAt, CredentialAt, DecideSweep, IsUnheld, SweepIds;
    WorkerIds(s, w);
    if s.workers[w].Loaded? {
      var t := Next(c, s, WorkerMark(w));
      assert t.store.value.oid4vp == s.store.value.oid4vp && TaskId(t.store.value) == TaskId(s.store.value);
      VerifyingReverts(c, t, w);
      RevertFrom(c, s, WorkerMark(w));
    } else {
      VerifyingReverts(c, s, w);
    }
  }

  lemma HeldWriteReverts(c: Config, s: World, k: nat)
    requires s.store.Some? && k in s.sweeps && (s.sweeps[k].Retrying? || s.sweeps[k].GivingUp?)
             && StaleSweep(s.store.value, s.sweeps[k])
    requires s.sweeps[k].Retrying? ==> s.sweeps[k].next.verifyTask.Some?
    ensures CanRevert(c, s)
  {
    hide CanRevert;
    RevertFrom(c, s, SweepCommit(k));
  }

  lemma SweepReverts(c: Config, s: World, k: nat)
    requires IdsOk(s) && s.store.Some? && k in s.sweeps && StaleSweep(s.store.value, s.sweeps[k])
    ensures CanRevert(c, s)
  {
    hide CanRevert, IsUnheld;
    assert SweepIds(s.sweeps[k], s.nextId);
    if s.sweeps[k].Read? {
      var ms := s.sweeps[k].snapshot.verifyTask.value.deadlineAt;
      var s1 := Next(c, s, Tick(ms));
      var s2 := Next(c, s1, SweepDecide(k));
      assert s2.store == s.store && StaleSweep(s.store.value, s2.sweeps[k]);
      HeldWriteReverts(c, s2, k);
      RevertFrom(c, s1, SweepDecide(k));
      RevertFrom(c, s, Tick(ms));
    } else {
      HeldWriteReverts(c, s, k);
    }
  }

  /**
   The stored binding survives every continuation of workers and sweeps exactly when none of them holds, under the
   stored attempt id, a snapshot with another binding that it can still commit.
   */
  lemma BindingKeptIff(c: Config, s: World)
    requires IdsOk(s) && s.store.Some?
    ensures (forall after: seq<Step> :: Evict !in after ==>
                                          Run(c, s, after).store.Some?
                                          && Run(c, s, after).store.value.oid4vp == s.store.value.oid4vp)
            <==> !Raced(s)
  {
    hide IdsOk, Run, StaleWorker, StaleSweep;
    if !Raced(s) {
      forall after: seq<Step> | Evict !in after
        ensures Run(c, s, after).store.Some? && Run(c, s, after).store.value.oid4vp == s.store.value.oid4vp
      {
        RunIsClean(c, s, after, s.store.value.oid4vp);
      }
    } else {
      if w :| w in s.workers && StaleWorker(s.store.value, s.workers[w]) {
        WorkerReverts(c, s, w);
      } else {
        var k :| k in s.sweeps && StaleSweep(s.store.value, s.sweeps[k]);
        SweepReverts(c, s, k);
      }
      assert CanRevert(c, s);
    }
  }

  // ----- single use --------------------------------------------------------

  /** A request leaves the task alone or puts the one it queues. */
  lemma HandledTask(e: Exchange, request: O.Request, clientId: string, fresh': nat)
    ensures var saved := O.Handle(e, request, clientId, fresh').0;
            saved.workflowId == e.workflowId
            && (saved.verifyTask == e.verifyTask || (QueuedBy(request).Some? && saved.verifyTask == QueuedBy(request)))
  {
    hide O.BindsAudience;
    match request {
      case ResponsePost(_, pipeline) => AppliedTask(e, request, pipeline);
      case VcApiPost(pipeline) => AppliedTask(e, request, pipeline);
      case _ =>
    }
  }

  lemma AppliedTask(e: Exchange, request: O.Request, pipeline: O.Pipeline)
    requires (request.ResponsePost? && request.pipeline == pipeline)
             || (request.VcApiPost? && request.pipeline == pipeline)
    ensures pipeline.Queued? ==> QueuedBy(request) == Some(pipeline.task)
    ensures forall before: Exchange ::
              O.Apply(before, pipeline).workflowId == before.workflowId
              && O.Apply(before, pipeline).verifyTask == if pipeline.Queued? then Some(pipeline.task)
                                                         else before.verifyTask
  {
  }

  lemma SavedId(clientId: string, r: Race, request: O.Request)
    ensures var s, t := r.world, DoHttp(clientId, r, request).world;
            t != s ==> s.store.Some? && t.store.Some?
                       && (TaskId(t.store.value) == TaskId(s.store.value) || TaskId(t.store.value) == Some(s.nextId))
  {
    hide O.Handle, QueuedBy;
    if r.world.store.Some? {
      HandledTask(r.world.store.value, request, clientId, r.nextState);
    }
  }

  /** Attempt ids stay in order, whatever is saved. */
  lemma HttpIds(clientId: string, r: Race, request: O.Request)
    requires IdsOk(r.world)
    ensures IdsOk(DoHttp(clientId, r, request).world)
  {
    hide O.Handle, QueuedBy;
    SavedId(clientId, r, request);
    var s, t := r.world, DoHttp(clientId, r, request).world;
    if t != s {
      forall k | k in t.sweeps && t.sweeps[k].Retrying? ensures IsUnheld(t, IdOf(t.sweeps[k].next)) {
        assert IsUnheld(s, IdOf(s.sweeps[k].next)) && SweepIds(s.sweeps[k], s.nextId);
      }
    }
  }

  /** A save that keeps the binding races nobody who did not race it before. */
  lemma HttpKeepsClean(clientId: string, r: Race, request: O.Request, binding: Option<Oid4vpState>)
    requires Clean(r.world, binding) && r.world.store.Some?
    requires DoHttp(clientId, r, request).world.store.value.oid4vp == binding
    ensures Clean(DoHttp(clientId, r, request).world, binding)
  {
    hide O.Handle, QueuedBy;
    HttpIds(clientId, r, request);
    SavedId(clientId, r, request);
    var s, t := r.world, DoHttp(clientId, r, request).world;
    if t != s {
      forall w | w in t.workers ensures !StaleWorker(t.store.value, t.workers[w]) {
        assert !StaleWorker(s.store.value, s.workers[w]) && IdBelow(s.workers[w].snapshot, s.nextId);
      }
      forall k | k in t.sweeps ensures !StaleSweep(t.store.value, t.sweeps[k]) {
        assert !StaleSweep(s.store.value, s.sweeps[k]) && SweepIds(s.sweeps[k], s.nextId);
      }
    }
  }

  /** The history agrees with the stored binding. */
  ghost predicate SingleUse(r: Race) {
    && |r.minted| <= 1 && r.accepted <= 1
    && (r.world.store.Some? ==>
          match r.world.store.value.oid4vp
          case None => r.minted == [] && r.accepted == 0
          case Some(b) => r.minted == [b.state] && (b.responseReceived <==> r.accepted == 1))
  }

  ghost predicate RaceOk(r: Race) {
    && IdsOk(r.world) && SingleUse(r)
    && (r.world.store.Some? ==> !Raced(r.world))
  }

  lemma HttpSingleUse(clientId: string, r: Race, request: O.Request)
    requires SingleUse(r)
    ensures SingleUse(DoHttp(clientId, r, request))
  {
    hide O.BindsAudience;
  }

  /** Whenever a request saves another binding, nobody holds an old one under the stored attempt id. */
  ghost predicate Unraced(c: Config, clientId: string, r: Race, event: Event) {
    var t := Advance(c, clientId, r, event);
    event.Http? && r.world.store.Some? && t.world.store.Some?
    && t.world.store.value.oid4vp != r.world.store.value.oid4vp ==>
      !Raced(t.world)
  }

  ghost predicate AllUnraced(c: Config, clientId: string, r: Race, events: seq<Event>) {
    events == [] || (
      var init, last := events[..|events| - 1], events[|events| - 1];
      AllUnraced(c, clientId, r, init) && Unraced(c, clientId, Play(c, clientId, r, init), last))
  }

  lemma AdvanceOk(c: Config, clientId: string, r: Race, event: Event)
    requires RaceOk(r) && Unraced(c, clientId, r, event)
    ensures RaceOk(Advance(c, clientId, r, event))
  {
    hide IdsOk, Next, Raced, O.Handle;
    match event
    case Protocol(step) =>
      ProtocolOk(c, r, step);
    case Http(request) =>
      HttpIds(clientId, r, request);
      HttpSingleUse(clientId, r, request);
      var t := DoHttp(clientId, r, request);
      if r.world.store.Some? && t.world.store.Some? && t.world.store.value.oid4vp == r.world.store.value.oid4vp {
        HttpKeepsClean(clientId, r, request, r.world.store.value.oid4vp);
      }
  }

  lemma ProtocolOk(c: Config, r: Race, step: Step)
    requires RaceOk(r)
    ensures RaceOk(r.(world := Next(c, r.world, step)))
  {
    hide IdsOk, Next, Raced;
    var binding := if r.world.store.Some? then r.world.store.value.oid4vp else None;
    NextIsClean(c, r.world, step, binding);
    NoStoreStays(c, r.world, step);
  }

  lemma NoStoreStays(c: Config, s: World, step: Step)
    ensures s.store.None? ==> Next(c, s, step).store.None?
  {
    hide DecideSweep, MergeOpenBadgesResultsAt, CredentialAt;
  }

  /**
   Single use holds over every interleaving of requests, workers and sweeps in which each save of a new binding finds no
   stale snapshot: one token is minted, one response accepted, and the record says so. `BindingKeptIff` says that the
   condition on each save is exact.
   */
  lemma {:induction false} SingleUseUnlessRaced(c: Config, clientId: string, e: Exchange, events: seq<Event>)
    requires O.IsCreated(e) && AllUnraced(c, clientId, Start(e), events)
    ensures RaceOk(Play(c, clientId, Start(e), events))
  {
    hide Advance, Unraced, RaceOk;
    if events == [] {
      StartOk(e);
    } else {
      var init := events[..|events| - 1];
      SingleUseUnlessRaced(c, clientId, e, init);
      AdvanceOk(c, clientId, Play(c, clientId, Start(e), init), events[|events| - 1]);
    }
  }

  lemma StartOk(e: Exchange)
    requires O.IsCreated(e)
    ensures RaceOk(Start(e))
  {
  }

  // ----- and it does not hold beyond that ----------------------------------

  lemma {:induction false} PlayConcat(c: Config, clientId: string, r: Race, a: seq<Event>, b: seq<Event>)
    ensures Play(c, clientId, r, a + b) == Play(c, clientId, Play(c, clientId, r, a), b)
  {
    hide Advance;
    if b == [] {
      assert a + b == a;
    } else {
      var init := b[..|b| - 1];
      assert (a + b)[..|a + b| - 1] == a + init;
      PlayConcat(c, clientId, r, a, init);
    }
  }

  lemma PlayTwo(c: Config, clientId: string, r: Race, a: Event, b: Event)
    ensures Play(c, clientId, r, [a, b]) == Advance(c, clientId, Advance(c, clientId, r, a), b)
  {
    hide Advance;
    assert [a, b][..1] == [a] && [a][..0] == [];
    assert Play(c, clientId, r, [a]) == Advance(c, clientId, Play(c, clientId, r, []), a);
  }

  /** A direct_post that commits to the first correlation token and to this verifier. */
  function GoodPost(clientId: string): O.DirectPost {
    O.DirectPost(Some(0), Some(O.Presentation([O.One(clientId)])))
  }

  lemma GoodPostIsAccepted(e: Exchange, clientId: string)
    requires e.state != Complete && e.oid4vp == Some(Oid4vpState(0, false))
    ensures O.Acceptable(e, GoodPost(clientId), clientId)
    ensures O.ConsumeOid4vpResponse(e, GoodPost(clientId).state).value.oid4vp == Some(Oid4vpState(0, true))
  {
    assert O.CommitsTo(GoodPost(clientId).presentation.value.proofs[0], clientId);
  }

  /** The request is fetched, and a VC-API presentation queues an asynchronous pass. */
  function QueueEvents(posted: VerificationResult, task: VerifyTask): seq<Event> {
    [Http(O.RequestGet), Http(O.VcApiPost(O.Pipeline.Queued(posted, task)))]
  }

  /** The worker takes its snapshot. */
  function SnapshotEvents(): seq<Event> {
    [Protocol(WorkerLoad), Protocol(WorkerMark(0))]
  }

  /** A response is finalized at once: it had no Open Badges credential, or none was recognized. */
  function Respond(clientId: string, results: VerificationResult): Event {
    Http(O.ResponsePost(GoodPost(clientId), O.Finalized(Invalid, results)))
  }

  /** One response is accepted while the verifier answers the worker; after the worker's commit comes another. */
  function RaceEvents(clientId: string, results: VerificationResult, ob: ObResult): seq<Event> {
    [Respond(clientId, results),
     Protocol(WorkerVerify(0, ob))] + [Protocol(WorkerCommit(0)), Respond(clientId, results)]
  }

  lemma Queues(c: Config, clientId: string, e: Exchange, posted: VerificationResult, task: VerifyTask)
    requires O.IsCreated(e) && task.attemptId == 2
    ensures Play(c, clientId, Start(e), QueueEvents(posted, task)) ==
            Race(Start(e).world.(store := Some(e.(state := Active, oid4vp := Some(Oid4vpState(0, false)),
                                                  results := Some(posted), verifyTask := Some(task))),
                                 nextId := 3, enqueues := [1]), 2, [0], 0)
  {
    hide Play;
    PlayTwo(c, clientId, Start(e), Http(O.RequestGet), Http(O.VcApiPost(O.Pipeline.Queued(posted, task))));
    assert Advance(c, clientId, Start(e), Http(O.RequestGet)).world.store ==
             Some(e.(oid4vp := Some(Oid4vpState(0, false))));
  }

  lemma Snapshots(c: Config, clientId: string, r: Race, e: Exchange)
    requires r.world.store == Some(e) && e.workflowId == Verify && e.results.Some? && e.verifyTask.Some?
    requires e.verifyTask.value.status == TaskStatus.Queued
    requires r.world.workers == map[] && r.world.calls == [] && r.world.enqueues == [1]
    ensures var t := Play(c, clientId, r, SnapshotEvents());
            && t == r.(world := t.world)
            && t.world.workers == map[0 := Verifying(e, e.results.value, 0)]
            && t.world.store == Some(WithVerifyTask(e, MarkRunning(e.verifyTask.value)))
  {
    hide Play;
    PlayTwo(c, clientId, r, Protocol(WorkerLoad), Protocol(WorkerMark(0)));
    assert Next(c, r.world, WorkerLoad).workers == map[0 := Loaded(e)];
  }

  /** A record whose one Open Badges credential is still to be verified. */
  ghost predicate AwaitsOne(e: Exchange) {
    && e.workflowId == Verify && e.state == Active && e.oid4vp == Some(Oid4vpState(0, false))
    && e.results.Some? && CredentialAt(e.results.value, 0).Some?
    && e.verifyTask.Some? && e.verifyTask.value.openBadgesCredentialIndices == [0]
  }

  lemma Responds(c: Config, clientId: string, r: Race, e: Exchange, results: VerificationResult, ob: ObResult)
    requires AwaitsOne(e) && r.world.store == Some(WithVerifyTask(e, MarkRunning(e.verifyTask.value)))
    requires r.world.workers == map[0 := Verifying(e, e.results.value, 0)]
    ensures var t := Play(c, clientId, r, [Respond(clientId, results), Protocol(WorkerVerify(0, ob))]);
            && t.accepted == r.accepted + 1 && t.world.store.Some? && TaskId(t.world.store.value) == TaskId(e)
            && t.world.workers == map[0 := Verifying(e, MergeOpenBadgesResultsAt(e.results.value, 0, ob), 1)]
  {
    hide Play, MergeOpenBadgesResultsAt, CredentialAt;
    PlayTwo(c, clientId, r, Respond(clientId, results), Protocol(WorkerVerify(0, ob)));
    GoodPostIsAccepted(r.world.store.value, clientId);
    var r1 := Advance(c, clientId, r, Respond(clientId, results));
    assert r1.accepted == r.accepted + 1 && r1.world.workers == r.world.workers;
  }

  lemma RespondsAgain(c: Config, clientId: string, r: Race, e: Exchange, results: VerificationResult,
                      merged: VerificationResult)
    requires AwaitsOne(e) && !merged.verified
    requires r.world.store.Some? && TaskId(r.world.store.value) == TaskId(e)
    requires r.world.workers == map[0 := Verifying(e, merged, 1)]
    ensures Play(c, clientId, r, [Protocol(WorkerCommit(0)), Respond(clientId, results)]).accepted == r.accepted + 1
  {
    hide Play;
    PlayTwo(c, clientId, r, Protocol(WorkerCommit(0)), Respond(clientId, results));
    var r1 := Advance(c, clientId, r, Protocol(WorkerCommit(0)));
    assert r1.world.store == Some(Settle(e, e.verifyTask.value, merged));
    GoodPostIsAccepted(r1.world.store.value, clientId);
  }

  /**
   Where a save does race, single use can break: for every created exchange, posted results with an Open Badges
   credential, later results and failing verdict, the same response is accepted twice.
   */
  lemma TwoResponsesAccepted(c: Config, clientId: string, e: Exchange, posted: VerificationResult, task: VerifyTask,
                             results: VerificationResult, ob: ObResult)
    requires O.IsCreated(e) && CredentialAt(posted, 0).Some? && !ob.verified
    requires task.attemptId == 2 && task.status == TaskStatus.Queued && task.openBadgesCredentialIndices == [0]
    ensures Play(c, clientId, Start(e),
                 QueueEvents(posted, task) + SnapshotEvents() + RaceEvents(clientId, results, ob)).accepted == 2
  {
    hide Play, Advance, MergeOpenBadgesResultsAt, CredentialAt, Respond;
    var r0 := Start(e);
    Queues(c, clientId, e, posted, task);
    var r1 := Play(c, clientId, r0, QueueEvents(posted, task));
    var queued := r1.world.store.value;
    Snapshots(c, clientId, r1, queued);
    PlayConcat(c, clientId, r0, QueueEvents(posted, task), SnapshotEvents());
    var r2 := Play(c, clientId, r1, SnapshotEvents());
    var first := [Respond(clientId, results), Protocol(WorkerVerify(0, ob))];
    var second := [Protocol(WorkerCommit(0)), Respond(clientId, results)];
    Responds(c, clientId, r2, queued, results, ob);
    var r3 := Play(c, clientId, r2, first);
    FailsOverall(posted, ob);
    RespondsAgain(c, clientId, r3, queued, results, MergeOpenBadgesResultsAt(posted, 0, ob));
    PlayConcat(c, clientId, r2, first, second);
    PlayConcat(c, clientId, r0, QueueEvents(posted, task) + SnapshotEvents(), first + second);
  }

  lemma FailsOverall(posted: VerificationResult, ob: ObResult)
    requires CredentialAt(posted, 0).Some? && !ob.verified
    ensures !MergeOpenBadgesResultsAt(posted, 0, ob).verified
  {
  }
}
