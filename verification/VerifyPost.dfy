/** From the POST to the protocol: what the POST stores is a start the protocol's theorems apply to. */
module VerifyPost {
  import opened Wrappers
  import opened VerificationResults
  import opened VerifyTasks
  import opened VerifyWorkflow
  import opened VerifyTaskWorkers
  import opened Protocol
  import opened ProtocolInvariant
  import opened ProtocolRefinement

  /**
   Whenever the POST queues a task, the stored record is a valid start of the protocol over the synchronous results.
   */
  lemma PostStartsProtocol(exchange: Exchange, result: PresentationResult, isOpenBadge: Option<Json> -> bool,
                           indices: seq<nat>,
                           now: nat, deadlineMs: nat, maxAttempts: nat, stored: Exchange)
    requires exchange.workflowId == Verify && maxAttempts >= 1
    requires AreOpenBadges(result.credentialResults, isOpenBadge, indices) && indices != []
    requires IsStoredByPost(exchange, result, indices, 0, now, deadlineMs, maxAttempts, stored)
    ensures ValidConfig(Config(stored, deadlineMs))
    ensures IsSyncResult(result, exchange.settings, Base(Config(stored, deadlineMs)))
    ensures forall i :: i in Indices(Config(stored, deadlineMs)) ==>
              i < |Base(Config(stored, deadlineMs)).credentialResults|
  {
  }

  /**
   End to end: whenever the asynchronous pass succeeds without a give-up, the stored state is the one the
   synchronous loop of the workflow would choose for the merged results and the exchange's trusted issuers exactly
   when one flag is enough for what was posted and what the verifier answers.
   */
  lemma AsyncDecisionIsSyncDecision(c: Config, verify: Json -> ObResult, steps: seq<Step>)
    requires ValidConfig(c) && SerialRun(c, verify, Init(c), steps) && GiveUps(c, Init(c), steps) == 0
    requires var s := Run(c, Init(c), steps);
             s.store.Some? && s.store.value.verifyTask.Some? && s.store.value.verifyTask.value.status == Succeeded
    ensures var e := Run(c, Init(c), steps).store.value;
            && e.results.Some? && e.settings == c.posted.settings
            && (e.state ==
                  OutcomeState(DeservesComplete(e.results.value.verified, e.results.value.credentialResults,
                                                e.settings.trustedIssuers))
                <==> OneFlagIsEnough(verify, Base(c), Indices(c), c.posted.settings.trustedIssuers))
  {
    hide Run, Init, SerialRun, GiveUps, DeservesComplete, IsOpenBadgesPass, OneFlagIsEnough;
    hide WorkersOk, SweepsOk, CountsOk, Derived;
    SucceededIsInlinePass(c, verify, steps);
    ReachableInv(c, steps);
    var e := Run(c, Init(c), steps).store.value;
    FoldIsPass(verify, Base(c), Indices(c));
    PassUnique(verify, Base(c), Indices(c), e.results.value, FoldOpenBadges(verify, Base(c), Indices(c)));
    PassDecisionIff(verify, Base(c), Indices(c), c.posted.settings.trustedIssuers);
  }
}
