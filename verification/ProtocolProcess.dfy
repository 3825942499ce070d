/**
 The protocol inside one process: workers are started by the drainer of the FIFO queue, which also serves other
 exchanges. This is where "one worker at a time" and "no more runs than enqueues" come from.
 */
module ProtocolProcess {
  import opened VerificationResults
  import opened VerifyTasks
  import opened VerifyTaskWorkers
  import opened Protocol
  import opened ProtocolRefinement
  import Q = VerifyTaskQueues

  /** A processor call for the exchange followed here: not yet past its load, or run number `w`. */
  datatype Job = Called | Working(w: nat)

  /** `jobs` holds, by drainer, the processor calls for this exchange that a drainer awaits or awaited last. */
  datatype Process = Process(world: World, queue: Q.QueueState, jobs: map<nat, Job>)

  datatype Event =
    | Protocol(step: Step)
    | EnqueueOther(exchangeId: string)
    | Turn(d: nat)
    | Load(d: nat)
    | Crash

  function Start(c: Config): Process
    requires c.posted.verifyTask.Some?
  {
    Process(Init(c), Q.EMPTY, map[])
  }

  /** The drainer's promise is settled: its call was for another exchange, or its run is over. */
  predicate IsFree(p: Process, d: nat) {
    d !in p.jobs || (p.jobs[d].Working? && p.jobs[d].w !in p.world.workers)
  }

  /** Runs start through `Load` and end early only with the process. */
  predicate IsOwnStep(step: Step) {
    !step.WorkerLoad? && !step.WorkerDie?
  }

  function DoProtocol(c: Config, id: string, p: Process, step: Step): Process {
    if !IsOwnStep(step) then p
    else
      var world := Next(c, p.world, step);
      p.(world := world, queue := if |world.enqueues| > |p.world.enqueues| then Q.Enqueue(p.queue, id) else p.queue)
  }

  /** The next turn of drainer `d`: the first, or the one after its promise settled. */
  function DoTurn(id: string, p: Process, d: nat): Process {
    if d !in p.queue.drainers || (p.queue.drainers[d].Awaiting? && !IsFree(p, d)) then p
    else
      var queue := if p.queue.drainers[d].Scheduled? then Q.StartDrain(p.queue, d) else Q.ResumeDrain(p.queue, d);
      var handsOver := |queue.processed| > |p.queue.processed| && p.queue.queue != [] && p.queue.queue[0] == id;
      p.(queue := queue, jobs := if handsOver then p.jobs[d := Called] else p.jobs - {d})
  }

  function DoLoad(p: Process, d: nat): Process {
    if d !in p.jobs || !p.jobs[d].Called? then p
    else
      var w := |p.world.calls|;
      var world := DoWorkerLoad(p.world);
      p.(world := world, jobs := if w in world.workers then p.jobs[d := Working(w)] else p.jobs - {d})
  }

  /** The process dies with its queue and its run; the store survives. */
  function DoCrash(p: Process): Process {
    Process(if p.world.calls == [] then p.world
            else p.world.(workers := p.world.workers - {|p.world.calls| - 1}), Q.EMPTY, map[])
  }

  function Advance(c: Config, id: string, p: Process, event: Event): Process {
    match event
    case Protocol(step) => DoProtocol(c, id, p, step)
    case EnqueueOther(other) => if other == id then p else p.(queue := Q.Enqueue(p.queue, other))
    case Turn(d) => DoTurn(id, p, d)
    case Load(d) => DoLoad(p, d)
    case Crash => DoCrash(p)
  }

  function Play(c: Config, id: string, events: seq<Event>): Process
    requires c.posted.verifyTask.Some?
  {
    if events == [] then Start(c) else Advance(c, id, Play(c, id, events[..|events| - 1]), events[|events| - 1])
  }

  // ----- what every process keeps ------------------------------------------

  function Count(id: string, ids: seq<string>): nat {
    if ids == [] then 0 else (if ids[0] == id then 1 else 0) + Count(id, ids[1..])
  }

  lemma {:induction false} CountSnoc(id: string, ids: seq<string>, x: string)
    ensures Count(id, ids + [x]) == Count(id, ids) + if x == id then 1 else 0
  {
    if ids == [] {
      assert [x][1..] == [];
      assert ids + [x] == [x];
    } else {
      assert (ids + [x])[1..] == ids[1..] + [x];
      CountSnoc(id, ids[1..], x);
    }
  }

  /** The one drainer there is, all being of the current generation. */
  ghost predicate OneDrainer(q: Q.QueueState) {
    && (forall d :: d in q.drainers ==> d < q.nextDrainer && q.drainers[d].generation == q.generation)
    && (forall d, e :: d in q.drainers && e in q.drainers ==> d == e)
    && (q.running <==> q.drainers != map[])
  }

  ghost predicate JobsOk(p: Process) {
    && (forall d :: d in p.jobs ==> d in p.queue.drainers && p.queue.drainers[d].Awaiting?)
    && (forall w :: w in p.world.workers ==>
          w == |p.world.calls| - 1 && exists d :: d in p.jobs && p.jobs[d] == Working(w))
    && (forall d :: d in p.jobs && p.jobs[d].Working? ==> p.jobs[d].w < |p.world.calls|)
  }

  function Waiting(id: string, p: Process): nat {
    Count(id, p.queue.queue) + if exists d :: d in p.jobs && p.jobs[d].Called? then 1 else 0
  }

  /** Every id waiting or handed over stands for an enqueue no run has used. */
  ghost predicate ProcessOk(id: string, p: Process) {
    OneDrainer(p.queue) && JobsOk(p) && |p.world.calls| + Waiting(id, p) <= |p.world.enqueues|
  }

  lemma EnqueueOk(q: Q.QueueState, x: string)
    requires OneDrainer(q)
    ensures OneDrainer(Q.Enqueue(q, x))
    ensures forall d :: d in q.drainers ==>
              d in Q.Enqueue(q, x).drainers && Q.Enqueue(q, x).drainers[d] == q.drainers[d]
  {
    if !q.running {
      assert q.nextDrainer in Q.Enqueue(q, x).drainers;
    }
  }

  /** What a protocol step does to the history and to the set of runs. */
  lemma StepEffect(c: Config, s: World, step: Step)
    requires IsOwnStep(step)
    ensures var t := Next(c, s, step);
            && |s.enqueues| <= |t.enqueues| <= |s.enqueues| + 1 && |t.calls| == |s.calls|
               && t.workers.Keys <= s.workers.Keys
  {
    hide CommitStored, MarkStored, MergeOpenBadgesResultsAt, CredentialAt;
  }

  lemma ProtocolOk(c: Config, id: string, p: Process, step: Step)
    requires ProcessOk(id, p)
    ensures ProcessOk(id, DoProtocol(c, id, p, step))
  {
    hide Next, OneDrainer, Count;
    if IsOwnStep(step) {
      StepEffect(c, p.world, step);
      EnqueueOk(p.queue, id);
      CountSnoc(id, p.queue.queue, id);
    }
  }

  lemma TurnOk(id: string, p: Process, d: nat)
    requires ProcessOk(id, p)
    ensures ProcessOk(id, DoTurn(id, p, d))
  {
    hide Count;
    var t := DoTurn(id, p, d);
    if t != p {
      assert p.queue.queue != [] ==>
               Count(id, p.queue.queue) ==
                 (if p.queue.queue[0] == id then 1 else 0) + Count(id, p.queue.queue[1..]) by {
        CountHead(id, p.queue.queue);
      }
      assert forall e :: e in p.jobs ==> e == d;
      assert p.world.workers == map[];
    }
  }

  lemma CountHead(id: string, ids: seq<string>)
    ensures ids != [] ==> Count(id, ids) == (if ids[0] == id then 1 else 0) + Count(id, ids[1..])
  {
  }

  /** A call past its hand-over is the only one, so no run is under way and its enqueue is unused. */
  lemma LoadIsSerial(id: string, p: Process, d: nat)
    requires ProcessOk(id, p) && d in p.jobs && p.jobs[d].Called?
    ensures p.world.workers == map[] && |p.world.calls| < |p.world.enqueues|
  {
    hide Count;
    assert forall e :: e in p.jobs ==> e == d;
  }

  lemma LoadOk(id: string, p: Process, d: nat)
    requires ProcessOk(id, p)
    ensures ProcessOk(id, DoLoad(p, d))
  {
    hide Count;
    if d in p.jobs && p.jobs[d].Called? {
      LoadIsSerial(id, p, d);
      assert forall e :: e in p.jobs ==> e == d;
      var t := DoLoad(p, d);
      assert forall w :: w in t.world.workers ==> t.jobs[d] == Working(w);
    }
  }

  lemma AdvanceOk(c: Config, id: string, p: Process, event: Event)
    requires ProcessOk(id, p)
    ensures ProcessOk(id, Advance(c, id, p, event))
  {
    hide DoProtocol, DoTurn, DoLoad;
    match event
    case Protocol(step) => ProtocolOk(c, id, p, step);
    case EnqueueOther(other) =>
      EnqueueOk(p.queue, other);
      CountSnoc(id, p.queue.queue, other);
    case Turn(d) => TurnOk(id, p, d);
    case Load(d) => LoadOk(id, p, d);
    case Crash =>
  }

  lemma {:induction false} PlayOk(c: Config, id: string, events: seq<Event>)
    requires c.posted.verifyTask.Some?
    ensures ProcessOk(id, Play(c, id, events))
  {
    hide Advance, ProcessOk;
    if events == [] {
      StartOk(c, id);
    } else {
      PlayOk(c, id, events[..|events| - 1]);
      AdvanceOk(c, id, Play(c, id, events[..|events| - 1]), events[|events| - 1]);
    }
  }

  lemma StartOk(c: Config, id: string)
    requires c.posted.verifyTask.Some?
    ensures ProcessOk(id, Start(c))
  {
  }

  // ----- a process is a serial run of the protocol -------------------------

  /** The protocol step an event amounts to, if any. */
  function Projected(p: Process, event: Event): seq<Step> {
    match event
    case Protocol(step) => if IsOwnStep(step) then [step] else []
    case Load(d) => if d in p.jobs && p.jobs[d].Called? then [WorkerLoad] else []
    case Crash => if p.world.calls == [] then [] else [WorkerDie(|p.world.calls| - 1)]
    case _ => []
  }

  function Project(c: Config, id: string, events: seq<Event>): seq<Step>
    requires c.posted.verifyTask.Some?
  {
    if events == [] then []
    else
      var init := events[..|events| - 1];
      Project(c, id, init) + Projected(Play(c, id, init), events[|events| - 1])
  }

  /** The verifier answers by the credential alone, whenever it is called. */
  predicate AnswersFrom(verify: Json -> ObResult, s: World, step: Step) {
    step.WorkerVerify? && step.w in s.workers && s.workers[step.w].Verifying? ==>
      var v := s.workers[step.w];
      v.next < |IndicesOf(v.snapshot)| && CredentialAt(v.merged, IndicesOf(v.snapshot)[v.next]).Some? ==>
        step.ob == verify(CredentialAt(v.merged, IndicesOf(v.snapshot)[v.next]).value)
  }

  predicate Answers(c: Config, id: string, verify: Json -> ObResult, events: seq<Event>)
    requires c.posted.verifyTask.Some?
  {
    events == [] || (
      var init, last := events[..|events| - 1], events[|events| - 1];
      Answers(c, id, verify, init) && (last.Protocol? ==> AnswersFrom(verify, Play(c, id, init).world, last.step)))
  }

  lemma AdvanceProjects(c: Config, id: string, p: Process, event: Event)
    ensures Advance(c, id, p, event).world == Run(c, p.world, Projected(p, event))
  {
    hide Run, Next;
    RunEmpty(c, p.world);
    match event
    case Protocol(step) => OneStep(c, p.world, step);
    case Load(d) =>
      OneStep(c, p.world, WorkerLoad);
      LoadIsNext(c, p.world);
    case Crash =>
      if p.world.calls != [] {
        OneStep(c, p.world, WorkerDie(|p.world.calls| - 1));
        DieIsNext(c, p.world, |p.world.calls| - 1);
      }
    case _ =>
  }

  lemma RunEmpty(c: Config, s: World)
    ensures Run(c, s, []) == s
  {
  }

  lemma LoadIsNext(c: Config, s: World)
    ensures Next(c, s, WorkerLoad) == DoWorkerLoad(s)
  {
  }

  lemma DieIsNext(c: Config, s: World, w: nat)
    ensures Next(c, s, WorkerDie(w)) == s.(workers := s.workers - {w})
  {
  }

  /** The protocol step of an event, if it has one, meets the premises of the refinement. */
  lemma ProjectedIsSerial(id: string, verify: Json -> ObResult, p: Process, event: Event)
    requires ProcessOk(id, p) && (event.Protocol? ==> AnswersFrom(verify, p.world, event.step))
    ensures |Projected(p, event)| <= 1 && forall step :: step in Projected(p, event) ==>
              SerialStep(verify, p.world, step)
  {
    hide CredentialAt, IndicesOf, ProcessOk;
    if event.Load? && event.d in p.jobs && p.jobs[event.d].Called? {
      LoadIsSerial(id, p, event.d);
    }
  }

  lemma SerialSnoc(c: Config, verify: Json -> ObResult, s: World, steps: seq<Step>, more: seq<Step>)
    requires SerialRun(c, verify, s, steps) && |more| <= 1
    requires forall step :: step in more ==> SerialStep(verify, Run(c, s, steps), step)
    ensures SerialRun(c, verify, s, steps + more)
  {
    hide SerialStep, Run;
    if more == [] {
      assert steps + more == steps;
    } else {
      assert (steps + more)[..|steps + more| - 1] == steps && (steps + more)[|steps + more| - 1] == more[0];
    }
  }

  /**
   Whatever the process does, its world is that of a serial run of the protocol: a worker starts only when none is
   running, and every hand-over of the exchange starts one.
   */
  lemma {:induction false} ProcessIsSerialRun(c: Config, id: string, verify: Json -> ObResult, events: seq<Event>)
    requires c.posted.verifyTask.Some? && Answers(c, id, verify, events)
    ensures Play(c, id, events).world == Run(c, Init(c), Project(c, id, events))
    ensures SerialRun(c, verify, Init(c), Project(c, id, events))
  {
    hide Run, Advance, Projected, SerialStep, AnswersFrom, ProcessOk;
    if events == [] {
      RunEmpty(c, Init(c));
    } else {
      var init, last := events[..|events| - 1], events[|events| - 1];
      ProcessIsSerialRun(c, id, verify, init);
      var p := Play(c, id, init);
      PlayOk(c, id, init);
      AdvanceProjects(c, id, p, last);
      ProjectedIsSerial(id, verify, p, last);
      RunConcat(c, Init(c), Project(c, id, init), Projected(p, last));
      SerialSnoc(c, verify, Init(c), Project(c, id, init), Projected(p, last));
    }
  }

  /**
   A run starts for every hand-over: the guard on enqueues never holds one back, and there is never a second worker.
   */
  lemma HandOversRun(c: Config, id: string, events: seq<Event>, d: nat)
    requires c.posted.verifyTask.Some?
    requires d in Play(c, id, events).jobs && Play(c, id, events).jobs[d].Called?
    ensures var s := Play(c, id, events).world;
            s.workers == map[] && |DoWorkerLoad(s).calls| == |s.calls| + 1
  {
    hide ProcessOk, Play;
    PlayOk(c, id, events);
    LoadIsSerial(id, Play(c, id, events), d);
  }

  /**
   The refinement with nothing assumed of the drainer: in one process, a stored success without give-up is the inline
   pass.
   */
  lemma ProcessSucceedsInline(c: Config, id: string, verify: Json -> ObResult, events: seq<Event>)
    requires ValidConfig(c) && Answers(c, id, verify, events) && GiveUps(c, Init(c), Project(c, id, events)) == 0
    requires var s := Play(c, id, events).world;
             s.store.Some? && s.store.value.verifyTask.Some? && s.store.value.verifyTask.value.status == Succeeded
    ensures var e := Play(c, id, events).world.store.value;
            && e.results.Some?
            && IsOpenBadgesPass(verify, Base(c), Indices(c), e.results.value)
            && e.state == OutcomeState(e.results.value.verified)
  {
    hide Run, Play, Project, GiveUps, SerialRun, IsOpenBadgesPass, Answers;
    ProcessIsSerialRun(c, id, verify, events);
    SucceededIsInlinePass(c, verify, Project(c, id, events));
  }

  // ----- and no enqueue is forgotten ---------------------------------------

  ghost predicate NoCrash(events: seq<Event>) {
    Crash !in events
  }

  /** Ids waiting and calls not yet loaded are exactly the enqueues no run has used. */
  ghost predicate AllAccounted(id: string, p: Process) {
    |p.world.calls| + Waiting(id, p) == |p.world.enqueues|
  }

  lemma EnqueueAccounts(id: string, q: Q.QueueState, x: string)
    ensures Count(id, Q.Enqueue(q, x).queue) == Count(id, q.queue) + if x == id then 1 else 0
  {
    CountSnoc(id, q.queue, x);
  }

  lemma ProtocolAccounts(c: Config, id: string, p: Process, step: Step)
    requires AllAccounted(id, p)
    ensures AllAccounted(id, DoProtocol(c, id, p, step))
  {
    hide Next, Count, Q.Enqueue;
    if IsOwnStep(step) {
      StepEffect(c, p.world, step);
      EnqueueAccounts(id, p.queue, id);
    }
  }

  lemma TurnAccounts(id: string, p: Process, d: nat)
    requires ProcessOk(id, p) && AllAccounted(id, p)
    ensures AllAccounted(id, DoTurn(id, p, d))
  {
    hide Count;
    var t := DoTurn(id, p, d);
    if t != p {
      CountHead(id, p.queue.queue);
      assert forall e :: e in p.jobs ==> e == d;
      assert !(exists e :: e in p.jobs && p.jobs[e].Called?);
      if t.jobs == p.jobs[d := Called] {
        assert t.jobs[d].Called?;
      }
    }
  }

  lemma LoadAccounts(id: string, p: Process, d: nat)
    requires ProcessOk(id, p) && AllAccounted(id, p)
    ensures AllAccounted(id, DoLoad(p, d))
  {
    hide Count;
    if d in p.jobs && p.jobs[d].Called? {
      LoadIsSerial(id, p, d);
      assert forall e :: e in p.jobs ==> e == d;
      assert !(exists e :: e in DoLoad(p, d).jobs && DoLoad(p, d).jobs[e].Called?);
    }
  }

  lemma {:induction false} PlayAccounts(c: Config, id: string, events: seq<Event>)
    requires c.posted.verifyTask.Some? && NoCrash(events)
    ensures AllAccounted(id, Play(c, id, events))
  {
    hide ProcessOk, DoProtocol, DoTurn, DoLoad, DoCrash, Q.Enqueue, Count;
    if events == [] {
      StartAccounts(c, id);
    } else {
      var init, last := events[..|events| - 1], events[|events| - 1];
      assert last in events && forall x :: x in init ==> x in events;
      PlayAccounts(c, id, init);
      PlayOk(c, id, init);
      var p := Play(c, id, init);
      match last
      case Protocol(step) => ProtocolAccounts(c, id, p, step);
      case EnqueueOther(other) => EnqueueAccounts(id, p.queue, other);
      case Turn(d) => TurnAccounts(id, p, d);
      case Load(d) => LoadAccounts(id, p, d);
      case Crash => assert false;
    }
  }

  lemma StartAccounts(c: Config, id: string)
    requires c.posted.verifyTask.Some?
    ensures AllAccounted(id, Start(c))
  {
  }

  /**
   Unless the process crashes, no enqueue of the exchange is forgotten: each has started a run, or its id still waits,
   and then a drainer is there to hand it over. So once nothing waits, runs equal enqueues.
   */
  lemma EveryEnqueueRuns(c: Config, id: string, events: seq<Event>)
    requires c.posted.verifyTask.Some? && NoCrash(events)
    ensures var p := Play(c, id, events);
            && |p.world.calls| <= |p.world.enqueues|
            && (id !in p.queue.queue && (forall d :: d in p.jobs ==> p.jobs[d].Working?) ==>
                  |p.world.calls| == |p.world.enqueues|)
            && (|p.world.calls| < |p.world.enqueues| ==> p.queue.drainers != map[])
  {
    hide Play, Count;
    PlayAccounts(c, id, events);
    PlayOk(c, id, events);
    PlayQueue(c, id, events);
    var p := Play(c, id, events);
    CountNone(id, p.queue.queue);
    if d :| d in p.jobs && p.jobs[d].Called? {
      assert d in p.queue.drainers;
    } else if p.queue.queue == [] {
      assert Count(id, p.queue.queue) == 0;
    }
  }

  lemma {:induction false} CountNone(id: string, ids: seq<string>)
    ensures id !in ids ==> Count(id, ids) == 0
    ensures ids == [] ==> Count(id, ids) == 0
  {
    if ids != [] {
      CountNone(id, ids[1..]);
    }
  }

  /** Whatever waits has a drainer. */
  lemma {:induction false} PlayQueue(c: Config, id: string, events: seq<Event>)
    requires c.posted.verifyTask.Some?
    ensures Play(c, id, events).queue.queue != [] ==> Play(c, id, events).queue.drainers != map[]
  {
    hide Next, DoWorkerLoad, Count, DoLoad;
    if events != [] {
      var init := events[..|events| - 1];
      PlayQueue(c, id, init);
      PlayOk(c, id, init);
      var p := Play(c, id, init);
      match events[|events| - 1]
      case Protocol(_) => QueuePush(p.queue, id);
      case EnqueueOther(other) => QueuePush(p.queue, other);
      case Turn(d) => QueueTurn(p.queue, d);
      case Load(d) => assert DoLoad(p, d).queue == p.queue by { LoadQueue(p, d); }
      case Crash =>
    }
  }

  lemma LoadQueue(p: Process, d: nat)
    ensures DoLoad(p, d).queue == p.queue
  {
  }

  lemma QueuePush(q: Q.QueueState, x: string)
    requires OneDrainer(q)
    ensures Q.Enqueue(q, x).drainers != map[]
  {
    if !q.running {
      assert q.nextDrainer in Q.Enqueue(q, x).drainers;
    }
  }

  lemma QueueTurn(q: Q.QueueState, d: nat)
    requires OneDrainer(q) && (q.queue != [] ==> q.drainers != map[])
    ensures Q.StartDrain(q, d).queue != [] ==> Q.StartDrain(q, d).drainers != map[]
    ensures Q.ResumeDrain(q, d).queue != [] ==> Q.ResumeDrain(q, d).drainers != map[]
  {
    if d in q.drainers {
      Q.HandsOverOldest(q, d);
    }
  }
}
