/**
 The single-use state machine of the OpenID for Verifiable Presentations 1.0 verifier binding (section 8.2)
 on one verify exchange, next to the VC-API flow
 (src/oid4vp/state.ts, src/oid4vp/response-handler.ts, src/hono.ts, lines 411-483).
 Requests are handled one at a time.
 */
module Oid4vp {
  import opened Wrappers
  import opened VerificationResults
  import opened VerifyTasks
  import opened TransactionManagers
  import opened VerifyTaskQueues
  import opened VerifyWorkflow

  datatype StateResult<T> = Ok(value: T) | Err(error: string)

  /** Mint the correlation token on the first request; later requests find it. */
  function EnsureOid4vpState(e: Exchange, fresh': nat): (Exchange, bool) {
    if e.oid4vp.Some? then (e, false) else (e.(oid4vp := Some(Oid4vpState(fresh', false))), true)
  }

  function ConsumeOid4vpResponse(e: Exchange, presented: Option<nat>): StateResult<Exchange> {
    if e.oid4vp.None? then Err("no request issued")
    else if e.oid4vp.value.responseReceived then Err("already received")
    else if presented != Some(e.oid4vp.value.state) then Err("state mismatch")
    else Ok(e.(oid4vp := Some(e.oid4vp.value.(responseReceived := true))))
  }

  /** The `domain` of one proof object. */
  datatype Domain = NoDomain | One(domain: string) | Many(domains: seq<string>)

  /** A presentation, seen through the proofs `proofsOf` finds on it. */
  datatype Presentation = Presentation(proofs: seq<Domain>)

  /** A direct_post body; `presentation` is `None` when the token holds no presentation object. */
  datatype DirectPost = MalformedPost | DirectPost(state: Option<nat>, presentation: Option<Presentation>)

  predicate CommitsTo(domain: Domain, clientId: string) {
    match domain
    case NoDomain => false
    case One(d) => d == clientId
    case Many(ds) => clientId in ds
  }

  predicate BindsAudience(vp: Presentation, clientId: string) {
    exists k :: 0 <= k < |vp.proofs| && CommitsTo(vp.proofs[k], clientId)
  }

  /** Everything checked before the pipeline runs. */
  predicate Acceptable(e: Exchange, body: DirectPost, clientId: string) {
    && e.state != Complete
    && body.DirectPost?
    && ConsumeOid4vpResponse(e, body.state).Ok?
    && body.presentation.Some?
    && BindsAudience(body.presentation.value, clientId)
  }

  // ----- the verify pipeline, seen from here ------------------------------

  /** What the pipeline does to the record it is given: finalize it, queue the asynchronous pass, or throw. */
  datatype Pipeline =
    | Finalized(state: ExchangeState, results: VerificationResult)
    | Queued(results: VerificationResult, task: VerifyTask)
    | PipelineThrew

  function Apply(e: Exchange, p: Pipeline): Exchange {
    match p
    case Finalized(state, results) => e.(state := state, results := Some(results))
    case Queued(results, task) => e.(state := Active, results := Some(results), verifyTask := Some(task))
    case PipelineThrew => e
  }

  /** Whatever the POST stores is one of these; nothing else of the exchange moves. */
  lemma PostIsPipeline(e: Exchange, result: PresentationResult, indices: seq<nat>, freshId: AttemptId, now: nat,
                       deadlineMs: nat, maxAttempts: nat, stored: Exchange)
    requires IsStoredByPost(e, result, indices, freshId, now, deadlineMs, maxAttempts, stored)
    ensures exists p: Pipeline :: !p.PipelineThrew? && stored == Apply(e, p)
  {
    var finalized :| IsFinalized(e, result, finalized) &&
                     stored == Recorded(finalized, indices, freshId, now, deadlineMs, maxAttempts);
    if indices == [] {
      assert stored == Apply(e, Finalized(finalized.state, finalized.results.value));
    } else {
      assert stored == Apply(e, Pipeline.Queued(finalized.results.value, stored.verifyTask.value));
    }
  }

  /**
   A response is acceptable exactly if it is well formed, correlated, the first, and one proof commits to this client.
   */
  lemma AcceptableIff(e: Exchange, body: DirectPost, clientId: string)
    ensures Acceptable(e, body, clientId) <==>
              && e.state != Complete
              && body.DirectPost? && e.oid4vp.Some? && !e.oid4vp.value.responseReceived
              && body.state == Some(e.oid4vp.value.state)
              && body.presentation.Some?
              && exists k :: 0 <= k < |body.presentation.value.proofs| &&
                             (|| body.presentation.value.proofs[k] == One(clientId)
                              || (body.presentation.value.proofs[k].Many?
                                  && clientId in body.presentation.value.proofs[k].domains))
    ensures Acceptable(e, body, clientId) ==>
              ConsumeOid4vpResponse(e, body.state).value ==
              e.(oid4vp := Some(Oid4vpState(e.oid4vp.value.state, true)))
  {
    if body.DirectPost? && body.presentation.Some? {
      var proofs := body.presentation.value.proofs;
      forall k | 0 <= k < |proofs|
        ensures CommitsTo(proofs[k], clientId) <==>
                  proofs[k] == One(clientId) || (proofs[k].Many? && clientId in proofs[k].domains)
      {
      }
    }
  }

  method HandleOid4vpResponse(manager: TransactionManager, queue: VerifyTaskQueue, exchangeId: string,
                              exchange: Exchange, body: DirectPost, clientId: string,
                              answer: Option<PresentationResult>, isOpenBadge: Option<Json> -> bool,
                              freshId: AttemptId, now: nat, deadlineMs: nat, maxAttempts: nat)
    returns (ok: bool)
    modifies manager, queue
    ensures ok <==> Acceptable(exchange, body, clientId) && answer.Some?
    ensures ok <==>
              && exchange.state != Complete && answer.Some?
              && body.DirectPost? && exchange.oid4vp.Some? && !exchange.oid4vp.value.responseReceived
              && body.state == Some(exchange.oid4vp.value.state)
              && body.presentation.Some?
              && exists k :: 0 <= k < |body.presentation.value.proofs| &&
                             (|| body.presentation.value.proofs[k] == One(clientId)
                              || (body.presentation.value.proofs[k].Many?
                                  && clientId in body.presentation.value.proofs[k].domains))
    ensures ok ==> manager.Record(exchangeId).Some? && exchange.oid4vp.Some?
                   && manager.Record(exchangeId).value.oid4vp == Some(Oid4vpState(exchange.oid4vp.value.state, true))
                   && manager.Record(exchangeId).value.settings == exchange.settings
    ensures !ok ==> manager.keyv == old(manager.keyv) && queue.View() == old(queue.View())
    ensures ok ==>
              var working := ConsumeOid4vpResponse(exchange, body.state).value;
              && manager.Record(exchangeId).Some?
              && (exists indices ::
                    && AreOpenBadges(answer.value.credentialResults, isOpenBadge, indices)
                    && IsStoredByPost(working, answer.value, indices, freshId, now, deadlineMs, maxAttempts,
                                      manager.Record(exchangeId).value)
                    && queue.View() == if indices == [] then old(queue.View())
                                       else Enqueue(old(queue.View()), exchangeId))
              && (exists p: Pipeline :: !p.PipelineThrew? && manager.Record(exchangeId).value == Apply(working, p))
    ensures forall id :: id != exchangeId ==> manager.Record(id) == old(manager.Record(id))
  {
    ok := false;
    AcceptableIff(exchange, body, clientId);
    if exchange.state == Complete || body.MalformedPost? {
      return;
    }
    var consumed := ConsumeOid4vpResponse(exchange, body.state);
    if consumed.Err? {
      return;
    }
    var working := consumed.value;
    if body.presentation.None? {
      return;
    }
    if !BindsAudience(body.presentation.value, clientId) {
      return;
    }
    ok := ParticipateInVerifyExchange(manager, queue, exchangeId, working, answer, isOpenBadge, freshId, now,
                                      deadlineMs, maxAttempts);
    if ok {
      ghost var indices :| AreOpenBadges(answer.value.credentialResults, isOpenBadge, indices) &&
                           IsStoredByPost(working, answer.value, indices, freshId, now, deadlineMs, maxAttempts,
                                          manager.Record(exchangeId).value) &&
                           queue.View() == if indices == [] then old(queue.View())
                                           else Enqueue(old(queue.View()), exchangeId);
      PostIsPipeline(working, answer.value, indices, freshId, now, deadlineMs, maxAttempts,
                     manager.Record(exchangeId).value);
    }
  }

  // ----- runs --------------------------------------------------------------

  datatype Request =
    | RequestGet
    | ResponsePost(body: DirectPost, pipeline: Pipeline)
    | VcApiEmptyPost
    | VcApiPost(pipeline: Pipeline)

  /** The record after a request, and whether it was a direct_post that was accepted. */
  function Handle(e: Exchange, request: Request, clientId: string, fresh': nat): (Exchange, bool) {
    match request
    case RequestGet => (EnsureOid4vpState(e, fresh').0, false)
    case ResponsePost(body, pipeline) =>
      if Acceptable(e, body, clientId) && !pipeline.PipelineThrew?
      then (Apply(ConsumeOid4vpResponse(e, body.state).value, pipeline), true)
      else (e, false)
    case VcApiEmptyPost => (if e.state == Pending then e.(state := Active) else e, false)
    case VcApiPost(pipeline) => (if e.state == Complete then e else Apply(e, pipeline), false)
  }

  /** The stored record, the correlation tokens minted so far and the number of accepted responses. */
  datatype World = World(stored: Option<Exchange>, nextState: nat, minted: seq<nat>, accepted: nat)

  datatype Step = Request(request: Request) | Evict

  function Next(w: World, clientId: string, step: Step): World {
    if step.Evict? then w.(stored := None)
    else if w.stored.None? then w
    else
      var (e, accepted) := Handle(w.stored.value, step.request, clientId, w.nextState);
      var mints := step.request.RequestGet? && EnsureOid4vpState(w.stored.value, w.nextState).1;
      World(Some(e), w.nextState + 1,
            if mints then w.minted + [w.nextState] else w.minted,
            if accepted then w.accepted + 1 else w.accepted)
  }

  function Run(w: World, clientId: string, steps: seq<Step>): World {
    if steps == [] then w else Next(Run(w, clientId, steps[..|steps| - 1]), clientId, steps[|steps| - 1])
  }

  ghost predicate IsCreated(e: Exchange) {
    e.workflowId == Verify && e.state == Pending && e.oid4vp.None? && e.results.None? && e.verifyTask.None?
  }

  function Start(e: Exchange): World {
    World(Some(e), 0, [], 0)
  }

  lemma {:induction false} RunConcat(w: World, clientId: string, a: seq<Step>, b: seq<Step>)
    ensures Run(w, clientId, a + b) == Run(Run(w, clientId, a), clientId, b)
  {
    if b == [] {
      assert a + b == a;
    } else {
      var init := b[..|b| - 1];
      assert (a + b)[..|a + b| - 1] == a + init;
      RunConcat(w, clientId, a, init);
    }
  }

  ghost predicate Inv(w: World) {
    && |w.minted| <= 1 && w.accepted <= 1
    && (w.stored.Some? ==>
          var e := w.stored.value;
          && (e.oid4vp.None? ==> w.minted == [] && w.accepted == 0)
          && (e.oid4vp.Some? ==>
                && w.minted == [e.oid4vp.value.state]
                && (e.oid4vp.value.responseReceived <==> w.accepted == 1)
                && (e.oid4vp.value.responseReceived ==> e.results.Some?)))
  }

  lemma NextInv(w: World, clientId: string, step: Step)
    requires Inv(w)
    ensures Inv(Next(w, clientId, step))
  {
    if step.Request? && w.stored.Some? && step.request.RequestGet? && w.stored.value.oid4vp.None? {
      assert w.minted + [w.nextState] == [w.nextState];
    }
  }

  lemma {:induction false} RunInv(w: World, clientId: string, steps: seq<Step>)
    requires Inv(w)
    ensures Inv(Run(w, clientId, steps))
  {
    if steps != [] {
      RunInv(w, clientId, steps[..|steps| - 1]);
      NextInv(Run(w, clientId, steps[..|steps| - 1]), clientId, steps[|steps| - 1]);
    }
  }

  lemma NextMinted(w: World, clientId: string, step: Step)
    ensures w.minted <= Next(w, clientId, step).minted
  {
  }

  lemma {:induction false} RunMinted(w: World, clientId: string, steps: seq<Step>)
    ensures w.minted <= Run(w, clientId, steps).minted
  {
    if steps != [] {
      RunMinted(w, clientId, steps[..|steps| - 1]);
      NextMinted(Run(w, clientId, steps[..|steps| - 1]), clientId, steps[|steps| - 1]);
    }
  }

  /**
   What each request may touch: fetching the request only mints a missing binding, an empty body only activates a
   pending exchange, and a VC-API presentation never touches the binding and nothing at all once `complete`.
   */
  lemma RequestsTouch(e: Exchange, clientId: string, fresh': nat, pipeline: Pipeline)
    ensures Handle(e, RequestGet, clientId, fresh').0 ==
            e.(oid4vp := if e.oid4vp.Some? then e.oid4vp else Some(Oid4vpState(fresh', false)))
    ensures Handle(e, VcApiEmptyPost, clientId, fresh').0 == e.(state := if e.state == Pending then Active else e.state)
    ensures Handle(e, VcApiPost(pipeline), clientId, fresh').0.oid4vp == e.oid4vp
    ensures e.state == Complete ==> Handle(e, VcApiPost(pipeline), clientId, fresh').0 == e
    ensures !Handle(e, RequestGet, clientId, fresh').1 && !Handle(e, VcApiEmptyPost, clientId, fresh').1
    ensures !Handle(e, VcApiPost(pipeline), clientId, fresh').1
  {
  }

  /** At most one correlation token is ever minted, and whenever it is stored it is that one. */
  lemma StateNeverChanges(e: Exchange, clientId: string, before: seq<Step>, after: seq<Step>)
    requires IsCreated(e)
    requires var w := Run(Start(e), clientId, before); w.stored.Some? && w.stored.value.oid4vp.Some?
    ensures var w := Run(Start(e), clientId, before);
            var w' := Run(Start(e), clientId, before + after);
            w'.stored.Some? ==> w'.stored.value.oid4vp.Some?
                                && w'.stored.value.oid4vp.value.state == w.stored.value.oid4vp.value.state
  {
    hide Next;
    RunInv(Start(e), clientId, before);
    RunInv(Start(e), clientId, before + after);
    RunConcat(Start(e), clientId, before, after);
    RunMinted(Run(Start(e), clientId, before), clientId, after);
    var w, w' := Run(Start(e), clientId, before), Run(Start(e), clientId, before + after);
    assert w.minted[0] == w'.minted[0];
  }

  /** At most one direct_post is accepted, and a record that says so carries results. */
  lemma OneResponse(e: Exchange, clientId: string, steps: seq<Step>)
    requires IsCreated(e)
    ensures var w := Run(Start(e), clientId, steps);
            && w.accepted <= 1 && |w.minted| <= 1
            && (w.stored.Some? && w.stored.value.oid4vp.Some? && w.stored.value.oid4vp.value.responseReceived ==>
                  w.accepted == 1 && w.stored.value.results.Some?)
  {
    RunInv(Start(e), clientId, steps);
  }

  /** Once a response is accepted, every later direct_post is refused and changes nothing. */
  lemma LaterResponsesRefused(e: Exchange, clientId: string, steps: seq<Step>, body: DirectPost, pipeline: Pipeline)
    requires IsCreated(e) && Run(Start(e), clientId, steps).accepted == 1
    ensures var w := Run(Start(e), clientId, steps);
            Next(w, clientId, Request(ResponsePost(body, pipeline))).stored == w.stored
            && Next(w, clientId, Request(ResponsePost(body, pipeline))).accepted == 1
  {
    RunInv(Start(e), clientId, steps);
  }
}
