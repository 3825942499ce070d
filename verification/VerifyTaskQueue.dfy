/**
 The in-process FIFO of exchange ids and its drainer
 (src/lib/verify-task/enqueue-verify-task.ts). The drainer is an async function: between two awaits it
 runs alone, so each such segment is one step. A suspended drainer is an entry of `drainers`.
 */
module VerifyTaskQueues {
  /** `Scheduled`: passed to `setImmediate`, not yet run. `Awaiting`: inside `await activeProcessor(next)`. */
  datatype Drainer = Scheduled(generation: nat) | Awaiting(generation: nat)

  /** `enqueued` and `processed` record, since the last reset, the ids pushed and the ids handed to the processor. */
  datatype QueueState = QueueState(
    queue: seq<string>,
    running: bool,
    generation: nat,
    drainers: map<nat, Drainer>,
    nextDrainer: nat,
    enqueued: seq<string>,
    processed: seq<string>)

  const EMPTY := QueueState([], false, 0, map[], 0, [], [])

  function Enqueue(s: QueueState, exchangeId: string): QueueState {
    var pushed := s.(queue := s.queue + [exchangeId], enqueued := s.enqueued + [exchangeId]);
    if s.running then pushed
    else pushed.(running := true, drainers := s.drainers[s.nextDrainer := Scheduled(s.generation)],
         nextDrainer := s.nextDrainer + 1)
  }

  /** One turn of the drain loop for drainer `d`: hand over the next id and await, or finish. */
  function LoopTurn(s: QueueState, d: nat): QueueState
    requires d in s.drainers
  {
    var g := s.drainers[d].generation;
    if s.queue != [] && g == s.generation then
      s.(queue := s.queue[1..], processed := s.processed + [s.queue[0]], drainers := s.drainers[d := Awaiting(g)])
    else
      s.(running := if g == s.generation then false else s.running, drainers := s.drainers - {d})
  }

  /** The `setImmediate` callback: a drainer armed before a reset returns at once. */
  function StartDrain(s: QueueState, d: nat): QueueState {
    if d !in s.drainers || !s.drainers[d].Scheduled? then s
    else if s.drainers[d].generation != s.generation then s.(drainers := s.drainers - {d})
    else LoopTurn(s, d)
  }

  /** The processor settled, fulfilled or rejected: the `catch` makes both the same. */
  function ResumeDrain(s: QueueState, d: nat): QueueState {
    if d !in s.drainers || !s.drainers[d].Awaiting? then s else LoopTurn(s, d)
  }

  function Reset(s: QueueState): QueueState {
    s.(queue := [], running := false, generation := s.generation + 1, enqueued := [], processed := [])
  }

  datatype Step = EnqueueId(exchangeId: string) | Start(d: nat) | Resume(d: nat) | ResetQueue

  function Next(s: QueueState, step: Step): QueueState {
    match step
    case EnqueueId(id) => Enqueue(s, id)
    case Start(d) => StartDrain(s, d)
    case Resume(d) => ResumeDrain(s, d)
    case ResetQueue => Reset(s)
  }

  function Run(s: QueueState, steps: seq<Step>): QueueState {
    if steps == [] then s else Next(Run(s, steps[..|steps| - 1]), steps[|steps| - 1])
  }

  // ----- what every interleaving keeps -------------------------------------

  ghost predicate Live(s: QueueState, d: nat) {
    d in s.drainers && s.drainers[d].generation == s.generation
  }

  ghost predicate Inv(s: QueueState) {
    && (forall d :: d in s.drainers ==> d < s.nextDrainer && s.drainers[d].generation <= s.generation)
    && (forall d, e :: Live(s, d) && Live(s, e) ==> d == e)
    && (s.running <==> exists d :: Live(s, d))
    && (s.queue != [] ==> s.running)
    && s.processed + s.queue == s.enqueued
  }

  lemma EnqueueKeepsInv(s: QueueState, id: string)
    requires Inv(s)
    ensures Inv(Enqueue(s, id))
  {
    var t := Enqueue(s, id);
    assert t.processed + t.queue == (s.processed + s.queue) + [id];
    if s.running {
      var d :| Live(s, d);
      assert Live(t, d);
      forall d', e' | Live(t, d') && Live(t, e') ensures d' == e' {
        assert Live(s, d') && Live(s, e');
      }
    } else {
      assert Live(t, s.nextDrainer);
      forall d' ensures Live(t, d') ==> d' == s.nextDrainer {
        assert Live(t, d') && d' != s.nextDrainer ==> Live(s, d');
      }
    }
  }

  lemma LoopTurnKeepsInv(s: QueueState, d: nat)
    requires Inv(s) && d in s.drainers
    ensures Inv(LoopTurn(s, d))
  {
    var t := LoopTurn(s, d);
    var g := s.drainers[d].generation;
    forall e | Live(t, e) ensures Live(s, e) {}
    if s.queue != [] && g == s.generation {
      assert s.queue == [s.queue[0]] + s.queue[1..];
      assert t.processed + t.queue == s.processed + s.queue;
      assert Live(t, d);
    } else if g == s.generation {
      assert Live(s, d);
      forall e ensures !Live(t, e) {
        assert Live(s, e) ==> e == d;
      }
    } else if s.running {
      var e :| Live(s, e);
      assert Live(t, e);
    }
  }

  lemma NextKeepsInv(s: QueueState, step: Step)
    requires Inv(s)
    ensures Inv(Next(s, step))
  {
    match step
    case EnqueueId(id) => EnqueueKeepsInv(s, id);
    case Start(d) =>
      if d in s.drainers && s.drainers[d].Scheduled? {
        LoopTurnKeepsInv(s, d);
        assert s.drainers[d].generation != s.generation ==> s.queue == [] || LoopTurn(s, d) == StartDrain(s, d);
        if s.drainers[d].generation != s.generation {
          assert LoopTurn(s, d).(running := s.running) == StartDrain(s, d);
        }
      }
    case Resume(d) =>
      if d in s.drainers { LoopTurnKeepsInv(s, d); }
    case ResetQueue =>
      var t := Reset(s);
      forall d ensures !Live(t, d) {
        assert d in t.drainers ==> d in s.drainers;
      }
  }

  lemma {:induction false} RunKeepsInv(steps: seq<Step>)
    ensures Inv(Run(EMPTY, steps))
  {
    if steps == [] {
      assert forall d :: !Live(EMPTY, d);
    } else {
      RunKeepsInv(steps[..|steps| - 1]);
      NextKeepsInv(Run(EMPTY, steps[..|steps| - 1]), steps[|steps| - 1]);
    }
  }

  /**
   In every interleaving of enqueues, drain turns, processor failures and resets: at most one
   drainer of the current generation is alive, ids waiting always have one (no lost wakeup), and the
   ids processed followed by the ids waiting are the ids enqueued, in order.
   */
  lemma QueueIsSound(steps: seq<Step>)
    ensures var s := Run(EMPTY, steps);
            && (forall d, e :: Live(s, d) && Live(s, e) ==> d == e)
            && (s.queue != [] ==> s.running && exists d :: Live(s, d))
            && s.processed + s.queue == s.enqueued
  {
    RunKeepsInv(steps);
  }

  /** The ids enqueued since the last reset, read off the steps alone. */
  function Pushed(steps: seq<Step>): seq<string> {
    if steps == [] then []
    else
      var before := Pushed(steps[..|steps| - 1]);
      match steps[|steps| - 1]
      case EnqueueId(id) => before + [id]
      case ResetQueue => []
      case Start(_) => before
      case Resume(_) => before
  }

  lemma {:induction false} HistoryIsPushed(steps: seq<Step>)
    ensures Run(EMPTY, steps).enqueued == Pushed(steps)
  {
    if steps != [] {
      HistoryIsPushed(steps[..|steps| - 1]);
    }
  }

  /**
   No id is lost, doubled or reordered: those handed to the processor and those waiting are those enqueued, in order.
   */
  lemma NothingIsLost(steps: seq<Step>)
    ensures Run(EMPTY, steps).processed + Run(EMPTY, steps).queue == Pushed(steps)
  {
    QueueIsSound(steps);
    HistoryIsPushed(steps);
  }

  /** A turn hands over exactly the id that waited longest, or none if none waits or a reset came in between. */
  lemma HandsOverOldest(s: QueueState, d: nat)
    requires d in s.drainers
    ensures var t := LoopTurn(s, d);
            if s.queue != [] && s.drainers[d].generation == s.generation then
              t.processed == s.processed + [s.queue[0]] && t.queue == s.queue[1..] && d in t.drainers
              && t.drainers[d].Awaiting?
            else
              t.processed == s.processed && t.queue == s.queue && d !in t.drainers
  {
  }

  ghost predicate NoReset(steps: seq<Step>) {
    forall k :: 0 <= k < |steps| ==> !steps[k].ResetQueue?
  }

  lemma {:induction false} GenerationZero(steps: seq<Step>)
    requires NoReset(steps)
    ensures Run(EMPTY, steps).generation == 0
  {
    if steps != [] {
      assert NoReset(steps[..|steps| - 1]);
      GenerationZero(steps[..|steps| - 1]);
    }
  }

  /** In production nothing resets the queue, so at most one processor call is ever in flight. */
  lemma OneProcessorCall(steps: seq<Step>, d: nat, e: nat)
    requires NoReset(steps)
    requires var s := Run(EMPTY, steps);
             d in s.drainers && e in s.drainers && s.drainers[d].Awaiting? && s.drainers[e].Awaiting?
    ensures d == e
  {
    RunKeepsInv(steps);
    GenerationZero(steps);
    var s := Run(EMPTY, steps);
    assert Live(s, d) && Live(s, e);
  }

  /** `n` turns of drainer `d` with nothing else happening. */
  function Turns(s: QueueState, d: nat, n: nat): QueueState
    decreases n
  {
    if n == 0 then s else Turns(ResumeDrain(s, d), d, n - 1)
  }

  /** Left alone, the live drainer hands over every waiting id and then stops running. */
  lemma {:induction false} DrainerEmptiesQueue(s: QueueState, d: nat)
    requires Inv(s) && Live(s, d) && s.drainers[d].Awaiting?
    ensures var t := Turns(s, d, |s.queue| + 1);
            t.queue == [] && !t.running && t.processed == s.enqueued && t.enqueued == s.enqueued
    decreases |s.queue|
  {
    var t := ResumeDrain(s, d);
    LoopTurnKeepsInv(s, d);
    if s.queue == [] {
      assert Turns(s, d, 1) == Turns(t, d, 0);
      assert s.processed + [] == s.processed;
    } else {
      DrainerEmptiesQueue(t, d);
    }
  }

  // ----- the module-level state, updated in place --------------------------

  class VerifyTaskQueue {
    var queue: seq<string>
    var running: bool
    var generation: nat
    /** Continuations the event loop still holds. */
    var drainers: map<nat, Drainer>
    var nextDrainer: nat
    ghost var enqueued: seq<string>
    ghost var processed: seq<string>

    ghost function View(): QueueState
      reads this
    {
      QueueState(queue, running, generation, drainers, nextDrainer, enqueued, processed)
    }

    constructor ()
      ensures View() == EMPTY
    {
      queue, running, generation := [], false, 0;
      drainers, nextDrainer := map[], 0;
      enqueued, processed := [], [];
    }

    method EnqueueVerifyTask(exchangeId: string)
      modifies this
      ensures View() == Enqueue(old(View()), exchangeId)
      ensures queue == old(queue) + [exchangeId] && running
    {
      queue := queue + [exchangeId];
      enqueued := enqueued + [exchangeId];
      if !running {
        running := true;
        var myGeneration := generation;
        drainers := drainers[nextDrainer := Scheduled(myGeneration)];
        nextDrainer := nextDrainer + 1;
      }
    }

    /** One turn of the loop; `next` is the id passed to the processor, if any. */
    method DrainTurn(d: nat) returns (next: seq<string>)
      requires d in drainers
      modifies this
      ensures View() == LoopTurn(old(View()), d)
      ensures next == if old(queue) != [] && old(drainers[d].generation == generation) then old(queue[..1]) else []
      ensures processed == old(processed) + next && next + queue == old(queue)
    {
      var myGeneration := drainers[d].generation;
      assert |queue| > 0 ==> queue[..1] + queue[1..] == queue;
      if |queue| > 0 && myGeneration == generation {
        next := [queue[0]];
        queue := queue[1..];
        processed := processed + next;
        drainers := drainers[d := Awaiting(myGeneration)];
      } else {
        next := [];
        if myGeneration == generation {
          running := false;
        }
        drainers := drainers - {d};
      }
    }

    method Drain(d: nat) returns (next: seq<string>)
      modifies this
      ensures View() == StartDrain(old(View()), d)
    {
      next := [];
      if d !in drainers || !drainers[d].Scheduled? {
        return;
      }
      if drainers[d].generation != generation {
        drainers := drainers - {d};
        return;
      }
      next := DrainTurn(d);
    }

    method ProcessorSettled(d: nat) returns (next: seq<string>)
      modifies this
      ensures View() == ResumeDrain(old(View()), d)
    {
      next := [];
      if d in drainers && drainers[d].Awaiting? {
        next := DrainTurn(d);
      }
    }

    method ResetVerifyTaskQueue()
      modifies this
      ensures View() == Reset(old(View()))
    {
      queue := [];
      running := false;
      generation := generation + 1;
      enqueued, processed := [], [];
    }
  }
}
