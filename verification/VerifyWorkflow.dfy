/**
 The synchronous half of the verify workflow: applying the verifier's answer to the exchange, and
 handing Open Badges credentials to the asynchronous pass (src/workflows/verifyWorkflow.ts, lines 257-821).
 */
module VerifyWorkflow {
  import opened Wrappers
  import opened VerificationResults
  import opened VerifyTasks
  import opened TransactionManagers
  import opened VerifyTaskQueues
  import opened VerifyTaskWorkers
  import opened ClaimsMatching

  /** What `verifyPresentation` returns; check ids are still optional. */
  datatype RawCredentialResult = RawCredentialResult(
    verified: bool,
    verifiableCredential: Option<Json>,
    results: seq<RawCheck>,
    summary: seq<SuiteSummary>)

  datatype PresentationResult = PresentationResult(
    verified: bool,
    presentationResults: seq<RawCheck>,
    credentialResults: seq<RawCredentialResult>,
    summary: seq<SuiteSummary>)

  /**
   `ensureCheckResultId`: unlike the worker's bridge it keeps an empty id and prints a missing part as `undefined`.
   */
  function EnsureCheckResultId(r: RawCheck): CheckResult {
    var shown := (o: Option<string>) => if o.Some? then o.value else "undefined";
    CheckResult(if r.id.Some? then r.id.value else shown(r.suite) + "." + shown(r.check), r.outcome, r.fatal)
  }

  function EnsureIds(rs: seq<RawCheck>): seq<CheckResult> {
    seq(|rs|, i requires 0 <= i < |rs| => EnsureCheckResultId(rs[i]))
  }

  function EnsureCredentialResultIds(crs: seq<RawCredentialResult>): seq<CredentialResult> {
    seq(|crs|, i requires 0 <= i < |crs| =>
      CredentialResult(crs[i].verified, crs[i].verifiableCredential, EnsureIds(crs[i].results), crs[i].summary))
  }

  /** The stored check keeps outcome, fatality and any id, the empty one included; a missing id is suite and check. */
  ghost predicate IsStoredCheck(raw: RawCheck, stored: CheckResult) {
    && stored.outcome == raw.outcome && stored.fatal == raw.fatal
    && (raw.id.Some? ==> stored.id == raw.id.value)
    && (raw.id.None? && raw.suite.Some? && raw.check.Some? ==> stored.id == raw.suite.value + "." + raw.check.value)
    && (raw.id.None? && raw.suite.None? && raw.check.Some? ==> stored.id == "undefined." + raw.check.value)
    && (raw.id.None? && raw.suite.Some? && raw.check.None? ==> stored.id == raw.suite.value + ".undefined")
    && (raw.id.None? && raw.suite.None? && raw.check.None? ==> stored.id == "undefined.undefined")
  }

  ghost predicate AreStoredChecks(raw: seq<RawCheck>, stored: seq<CheckResult>) {
    |stored| == |raw| && forall j :: 0 <= j < |raw| ==> IsStoredCheck(raw[j], stored[j])
  }

  lemma StoredCheck(raw: RawCheck)
    ensures IsStoredCheck(raw, EnsureCheckResultId(raw))
  {
    assert "undefined" + "." == "undefined.";
    if raw.suite.Some? {
      assert raw.suite.value + "." + "undefined" == raw.suite.value + ".undefined" by {
        assert "." + "undefined" == ".undefined";
      }
    }
    assert "undefined." + "undefined" == "undefined.undefined";
  }

  lemma StoredChecks(raw: seq<RawCheck>)
    ensures AreStoredChecks(raw, EnsureIds(raw))
  {
    forall j | 0 <= j < |raw| ensures IsStoredCheck(raw[j], EnsureIds(raw)[j]) {
      StoredCheck(raw[j]);
    }
  }

  // ----- trusted issuers ---------------------------------------------------

  /** The string `trustedIssuers.includes` would compare, if the issuer is a string. */
  function IssuerOf(credential: Json): Option<string> {
    if !credential.Object? || "issuer" !in credential.props then None
    else
      var raw := credential.props["issuer"];
      var issuer := if raw.Object? && "id" in raw.props then raw.props["id"] else raw;
      if issuer.Str? then Some(issuer.text) else None
  }

  /** A successful registry check that counts: it names a trusted registry, or none is named and none required. */
  predicate CountsAsRegistryMatch(check: CheckResult, trustedRegistries: seq<string>) {
    && IsRegistryCheck(check) && check.outcome.Success?
    && var found := check.outcome.foundInRegistries;
       if found != [] then exists k :: 0 <= k < |trustedRegistries| && trustedRegistries[k] in found
       else trustedRegistries == []
  }

  method ValidateTrustedIssuers(credential: Json, trustedIssuers: seq<string>, trustedRegistries: seq<string>,
                                credentialResult: CredentialResult)
    returns (issuerFound: bool, registryMatch: bool)
    ensures issuerFound <==> IssuerOf(credential).Some? && IssuerOf(credential).value in trustedIssuers
    ensures registryMatch <==> exists k :: 0 <= k < |credentialResult.results| &&
                                           CountsAsRegistryMatch(credentialResult.results[k], trustedRegistries)
  {
    var issuer := IssuerOf(credential);
    issuerFound := issuer.Some? && issuer.value in trustedIssuers;
    registryMatch := false;
    var results := credentialResult.results;
    var n := 0;
    while n < |results| && !registryMatch
      invariant 0 <= n <= |results|
      invariant registryMatch <==> exists k :: 0 <= k < n && CountsAsRegistryMatch(results[k], trustedRegistries)
    {
      var check := results[n];
      if IsRegistryCheck(check) && check.outcome.Success? {
        var found := check.outcome.foundInRegistries;
        if |found| > 0 {
          registryMatch := exists k :: 0 <= k < |trustedRegistries| && trustedRegistries[k] in found;
        } else if |trustedRegistries| == 0 {
          registryMatch := true;
        }
      }
      n := n + 1;
    }
  }

  // ----- the outcome -------------------------------------------------------

  predicate FatalRegistryFailureIn(checks: seq<CheckResult>) {
    exists k :: 0 <= k < |checks| && IsRegistryCheck(checks[k]) && checks[k].fatal && checks[k].outcome.Failure?
  }

  predicate FatalRegistryFailure(cr: CredentialResult) {
    FatalRegistryFailureIn(cr.results)
  }

  /** When the synchronous decision is `complete`. */
  predicate DeservesComplete(verified: bool, crs: seq<CredentialResult>, trustedIssuers: seq<string>) {
    && verified
    && forall k :: 0 <= k < |crs| ==> crs[k].verified && (trustedIssuers != [] ==> !FatalRegistryFailure(crs[k]))
  }

  method DetermineExchangeOutcome(verified: bool, credentialResults: seq<CredentialResult>, trustedIssuers: seq<string>)
    returns (outcome: ExchangeState)
    ensures outcome == OutcomeState(DeservesComplete(verified, credentialResults, trustedIssuers))
    ensures outcome == Complete || outcome == Invalid
    ensures outcome == Complete ==> verified && forall k :: 0 <= k < |credentialResults| ==>
              credentialResults[k].verified
    ensures outcome == Complete && trustedIssuers != [] ==>
              forall k, j :: 0 <= k < |credentialResults| && 0 <= j < |credentialResults[k].results|
                             && "trust.registry." <= credentialResults[k].results[j].id
                             && credentialResults[k].results[j].fatal ==>
                               credentialResults[k].results[j].outcome != Failure
    ensures outcome == Invalid ==>
              || !verified
              || (exists k :: 0 <= k < |credentialResults| && !credentialResults[k].verified)
              || (trustedIssuers != [] &&
                  exists k, j :: 0 <= k < |credentialResults| && 0 <= j < |credentialResults[k].results|
                                 && "trust.registry." <= credentialResults[k].results[j].id
                                 && credentialResults[k].results[j].fatal
                                 && credentialResults[k].results[j].outcome == Failure)
  {
    if !verified {
      return Invalid;
    }
    for n := 0 to |credentialResults|
      invariant DeservesComplete(verified, credentialResults[..n], trustedIssuers)
    {
      var cr := credentialResults[n];
      if !cr.verified {
        return Invalid;
      }
      if |trustedIssuers| > 0 {
        for m := 0 to |cr.results|
          invariant forall k :: 0 <= k < m ==>
                      !(IsRegistryCheck(cr.results[k]) && cr.results[k].fatal && cr.results[k].outcome.Failure?)
        {
          if IsRegistryCheck(cr.results[m]) && cr.results[m].fatal && cr.results[m].outcome.Failure? {
            assert FatalRegistryFailure(credentialResults[n]);
            return Invalid;
          }
        }
      }
      assert credentialResults[..n + 1] == credentialResults[..n] + [cr];
    }
    assert credentialResults[..|credentialResults|] == credentialResults;
    outcome := Complete;
  }

  /**
   The worker settles on the single flag of the merged results. That is the synchronous decision exactly when the flag
   is down, or every credential is verified and, with issuers trusted explicitly, none has a fatal registry failure.
   */
  lemma WorkerDecisionIff(r: VerificationResult, trustedIssuers: seq<string>)
    ensures OutcomeState(r.verified) ==
              OutcomeState(DeservesComplete(r.verified, r.credentialResults, trustedIssuers)) <==>
            || !r.verified
            || forall k :: 0 <= k < |r.credentialResults| ==>
                             r.credentialResults[k].verified
                             && (trustedIssuers != [] ==> !FatalRegistryFailure(r.credentialResults[k]))
  {
    hide FatalRegistryFailure;
  }

  lemma FatalIsInRegistryChecks(checks: seq<CheckResult>)
    ensures FatalRegistryFailureIn(checks) <==> FatalRegistryFailureIn(Filter(IsRegistryCheck, checks))
  {
    var registry := Filter(IsRegistryCheck, checks);
    if FatalRegistryFailureIn(checks) {
      var k :| 0 <= k < |checks| && IsRegistryCheck(checks[k]) && checks[k].fatal && checks[k].outcome.Failure?;
      FilterMembers(IsRegistryCheck, checks, checks[k]);
      var j :| 0 <= j < |registry| && registry[j] == checks[k];
    }
    if FatalRegistryFailureIn(registry) {
      var k :| 0 <= k < |registry| && IsRegistryCheck(registry[k]) && registry[k].fatal && registry[k].outcome.Failure?;
      FilterMembers(IsRegistryCheck, checks, registry[k]);
      var j :| 0 <= j < |checks| && checks[j] == registry[k];
    }
  }

  /** The registry checks that count after the pass: the verifier's own for a credential it was called on. */
  ghost predicate FailsRegistry(verify: Json -> ObResult, cr: CredentialResult, recorded: bool) {
    FatalRegistryFailureIn(
      if recorded && cr.verifiableCredential.Some?
      then NormalizeChecks(verify(cr.verifiableCredential.value).results)
      else cr.results)
  }

  lemma PassEntryFails(verify: Json -> ObResult, cr: CredentialResult, recorded: bool)
    ensures FatalRegistryFailure(PassEntry(verify, cr, recorded)) <==> FailsRegistry(verify, cr, recorded)
  {
    hide FatalRegistryFailureIn, Filter, MergeResults, NormalizeChecks;
    if recorded && cr.verifiableCredential.Some? {
      var incoming := NormalizeChecks(verify(cr.verifiableCredential.value).results);
      MergeResultsParts(cr.results, incoming);
      FatalIsInRegistryChecks(incoming);
      FatalIsInRegistryChecks(MergeResults(cr.results, incoming));
    }
  }

  /** Read off the posted results, the verifier's answers and the settings: whether one flag is enough. */
  ghost predicate OneFlagIsEnough(verify: Json -> ObResult, base: VerificationResult, indices: seq<nat>,
                                  trustedIssuers: seq<string>) {
    || !PassVerified(verify, base, indices)
    || forall k :: 0 <= k < |base.credentialResults| ==>
                     && base.credentialResults[k].verified
                     && (trustedIssuers != [] ==> !FailsRegistry(verify, base.credentialResults[k], k in indices))
  }

  /**
   The asynchronous pass decides as the synchronous loop would over its merged results exactly when one flag is enough.
   */
  lemma PassDecisionIff(verify: Json -> ObResult, base: VerificationResult, indices: seq<nat>,
                        trustedIssuers: seq<string>)
    requires Distinct(indices)
    ensures var r := FoldOpenBadges(verify, base, indices);
            OutcomeState(r.verified) == OutcomeState(DeservesComplete(r.verified, r.credentialResults, trustedIssuers))
            <==> OneFlagIsEnough(verify, base, indices, trustedIssuers)
  {
    hide FoldOpenBadges, FailsRegistry, FatalRegistryFailure, MergeResults, DeservesComplete;
    var r := FoldOpenBadges(verify, base, indices);
    FoldIsPass(verify, base, indices);
    WorkerDecisionIff(r, trustedIssuers);
    forall k | 0 <= k < |base.credentialResults|
      ensures FatalRegistryFailure(r.credentialResults[k]) <==>
                FailsRegistry(verify, base.credentialResults[k], k in indices)
      ensures r.verified ==> r.credentialResults[k].verified == base.credentialResults[k].verified
    {
      PassEntryFails(verify, base.credentialResults[k], k in indices);
      assert r.credentialResults[k] == PassEntry(verify, base.credentialResults[k], k in indices);
      assert CredentialAt(base, k) == base.credentialResults[k].verifiableCredential;
    }
  }

  /**
   In particular it does when no issuer is trusted explicitly and an accepted presentation has only accepted
   credentials.
   */
  lemma PassDecision(verify: Json -> ObResult, base: VerificationResult, indices: seq<nat>)
    requires OverallImpliesEach(base) && Distinct(indices)
    ensures OneFlagIsEnough(verify, base, indices, [])
    ensures var r := FoldOpenBadges(verify, base, indices);
            OutcomeState(r.verified) == OutcomeState(DeservesComplete(r.verified, r.credentialResults, []))
  {
    PassDecisionIff(verify, base, indices, []);
  }

  /** What the verifier library documents: a fatal failure takes the verdict down with it. */
  ghost predicate FatalMeansUnverified(verify: Json -> ObResult, base: VerificationResult) {
    && (forall credential: Json :: verify(credential).verified ==>
          !FatalRegistryFailureIn(NormalizeChecks(verify(credential).results)))
    && (forall k :: 0 <= k < |base.credentialResults| && base.credentialResults[k].verified ==>
                      !FatalRegistryFailure(base.credentialResults[k]))
  }

  /** Under the library's guarantees the two decisions agree for every list of trusted issuers. */
  lemma GuaranteedDecision(verify: Json -> ObResult, base: VerificationResult, indices: seq<nat>,
                           trustedIssuers: seq<string>)
    requires OverallImpliesEach(base) && Distinct(indices) && FatalMeansUnverified(verify, base)
    ensures OneFlagIsEnough(verify, base, indices, trustedIssuers)
    ensures var r := FoldOpenBadges(verify, base, indices);
            OutcomeState(r.verified) == OutcomeState(DeservesComplete(r.verified, r.credentialResults, trustedIssuers))
  {
    hide FatalRegistryFailureIn, NormalizeChecks, FoldOpenBadges, DeservesComplete;
    PassDecisionIff(verify, base, indices, trustedIssuers);
    if PassVerified(verify, base, indices) {
      forall k | 0 <= k < |base.credentialResults|
        ensures base.credentialResults[k].verified && !FailsRegistry(verify, base.credentialResults[k], k in indices)
      {
        if k in indices && base.credentialResults[k].verifiableCredential.Some? {
          assert CredentialAt(base, k) == base.credentialResults[k].verifiableCredential;
        }
      }
    }
  }

  /** A true verdict beside a fatal registry failure. */
  function AcceptUntrusted(credential: Json): ObResult {
    ObResult(true, [RawCheck(Some("trust.registry.issuer"), None, None, Failure, true)], [])
  }

  /** Accepted results with one credential and no checks. */
  function AcceptedResults(credential: Json): VerificationResult {
    VerificationResult(true, [], [CredentialResult(true, Some(credential), [], [])], [], [], None, None)
  }

  /**
   Without them it need not, with a trusted issuer: for such a verdict the pass completes an exchange the loop would
   call invalid.
   */
  lemma OneFlagCanMissRegistryFailure(credential: Json, issuer: string)
    ensures OverallImpliesEach(AcceptedResults(credential))
    ensures var r := FoldOpenBadges(AcceptUntrusted, AcceptedResults(credential), [0]);
            && OutcomeState(r.verified) == Complete
            && OutcomeState(DeservesComplete(r.verified, r.credentialResults, [issuer])) == Invalid
  {
    hide FoldOpenBadges, FailsRegistry, DeservesComplete, AcceptUntrusted, IsOpenBadgesPass, PassVerified;
    var base := AcceptedResults(credential);
    assert AcceptUntrusted(credential).results ==
             [RawCheck(Some("trust.registry.issuer"), None, None, Failure, true)] by {
      UntrustedAnswer(credential);
    }
    FailingCheck(AcceptUntrusted(credential).results[0], AcceptUntrusted, base.credentialResults[0]);
    assert PassVerified(AcceptUntrusted, base, [0]) by { AcceptedPass(credential); }
    FoldIsPass(AcceptUntrusted, base, [0]);
    assert FoldOpenBadges(AcceptUntrusted, base, [0]).verified by {
      PassFlag(AcceptUntrusted, base, [0], FoldOpenBadges(AcceptUntrusted, base, [0]));
    }
    PassDecisionIff(AcceptUntrusted, base, [0], [issuer]);
    assert 0 in [0] && FailsRegistry(AcceptUntrusted, base.credentialResults[0], 0 in [0]);
  }

  lemma UntrustedAnswer(credential: Json)
    ensures AcceptUntrusted(credential).verified
    ensures AcceptUntrusted(credential).results == [RawCheck(Some("trust.registry.issuer"), None, None, Failure, true)]
  {
  }

  lemma AcceptedPass(credential: Json)
    ensures PassVerified(AcceptUntrusted, AcceptedResults(credential), [0])
  {
  }

  lemma PassFlag(verify: Json -> ObResult, r: VerificationResult, indices: seq<nat>, out: VerificationResult)
    requires IsOpenBadgesPass(verify, r, indices, out)
    ensures out.verified <==> PassVerified(verify, r, indices)
  {
  }

  lemma FailingCheck(check: RawCheck, verify: Json -> ObResult, credential: CredentialResult)
    requires check == RawCheck(Some("trust.registry.issuer"), None, None, Failure, true)
    requires credential.verifiableCredential.Some? && verify(credential.verifiableCredential.value).results == [check]
    ensures FailsRegistry(verify, credential, true)
  {
    var checks := NormalizeChecks([check]);
    assert checks[0] == CheckResult("trust.registry.issuer", Failure, true);
    assert IsRegistryCheck(checks[0]);
  }

  // ----- applying the results ---------------------------------------------

  /** The credentials present in the results, in order. */
  function PresentCredentials(crs: seq<CredentialResult>): seq<Json> {
    if crs == [] then []
    else
      var last := crs[|crs| - 1].verifiableCredential;
      PresentCredentials(crs[..|crs| - 1]) + if last.Some? then [last.value] else []
  }

  /** The extracted claims of all matching credentials, later ones overwriting. */
  function AllExtracted(credentials: seq<Json>, claims: seq<DcqlClaim>): map<string, Json> {
    if credentials == [] then map[]
    else
      var before := AllExtracted(credentials[..|credentials| - 1], claims);
      var last := credentials[|credentials| - 1];
      if TwoPassMatches(last, claims) then before + Extracted(last, claims) else before
  }

  function MatchedCredentials(credentials: seq<Json>, claims: seq<DcqlClaim>): seq<Json> {
    Filter((credential: Json) => TwoPassMatches(credential, claims), credentials)
  }

  lemma {:induction false} FilterCongruence(p: Json -> bool, q: Json -> bool, s: seq<Json>)
    requires forall x :: x in s ==> p(x) == q(x)
    ensures Filter(p, s) == Filter(q, s)
  {
    if s != [] {
      FilterCongruence(p, q, s[1..]);
    }
  }

  /** With faithful keys the matched credentials are, in order, exactly those that satisfy every claim directly. */
  lemma MatchedAreSatisfying(credentials: seq<Json>, claims: seq<DcqlClaim>)
    requires KeysFaithful(claims)
    ensures MatchedCredentials(credentials, claims) ==
              Filter((credential: Json) => SatisfiesAll(credential, claims), credentials)
  {
    var matches := (credential: Json) => TwoPassMatches(credential, claims);
    var satisfies := (credential: Json) => SatisfiesAll(credential, claims);
    forall credential | credential in credentials ensures matches(credential) == satisfies(credential) {
      TwoPassIsDirect(credential, claims);
    }
    FilterCongruence(matches, satisfies, credentials);
  }

  ghost predicate IssuersValid(crs: seq<CredentialResult>, settings: Settings) {
    forall k :: 0 <= k < |crs| && crs[k].verifiableCredential.Some? ==>
                  var issuer := IssuerOf(crs[k].verifiableCredential.value);
                  || (issuer.Some? && issuer.value in settings.trustedIssuers)
                  || (exists j ::
                        0 <= j < |crs[k].results|
                        && CountsAsRegistryMatch(crs[k].results[j], settings.trustedRegistries))
  }

  /** The stored result of the synchronous pass. */
  ghost predicate IsSyncResult(result: PresentationResult, settings: Settings, r: VerificationResult) {
    && r.verified == result.verified
    && r.presentationResults == EnsureIds(result.presentationResults)
    && r.credentialResults == EnsureCredentialResultIds(result.credentialResults)
    && r.summary == result.summary
    && var present := PresentCredentials(r.credentialResults);
       && r.matchedCredentials ==
            (if settings.vprClaims == [] then present else MatchedCredentials(present, settings.vprClaims))
       && (r.claimsValidation.Some? <==> settings.vprClaims != [])
       && (r.claimsValidation.Some? ==>
             && r.claimsValidation.value.extractedClaims == AllExtracted(present, settings.vprClaims)
             && (r.claimsValidation.value.matched <==> r.matchedCredentials != []))
       && (r.issuerValidation.Some? <==> settings.trustedIssuers != [] || settings.trustedRegistries != [])
       && (r.issuerValidation.Some? ==>
             && (r.issuerValidation.value.issuerFound <==> IssuersValid(r.credentialResults, settings))
             && r.issuerValidation.value.registryMatch == r.issuerValidation.value.issuerFound)
  }

  /** A registry check of a raw credential result that failed fatally, told by the id the check is stored under. */
  ghost predicate RawRegistryFailure(cr: RawCredentialResult) {
    exists j, check :: 0 <= j < |cr.results| && IsStoredCheck(cr.results[j], check) && "trust.registry." <= check.id
                       && cr.results[j].fatal && cr.results[j].outcome == Failure
  }

  /**
   What the POST stores of the verifier's answer: flags, credentials, summaries and checks as they came, and a state
   that is `complete` exactly if the presentation and all its credentials were accepted and, with issuers trusted
   explicitly, no registry check failed fatally.
   */
  lemma StoredAnswer(exchange: Exchange, result: PresentationResult, updated: Exchange)
    requires IsFinalized(exchange, result, updated)
    ensures updated.results.Some?
    ensures var r := updated.results.value;
            && r.verified == result.verified && r.summary == result.summary
            && AreStoredChecks(result.presentationResults, r.presentationResults)
            && |r.credentialResults| == |result.credentialResults|
    ensures forall k :: 0 <= k < |result.credentialResults| ==>
                          var raw, stored := result.credentialResults[k], updated.results.value.credentialResults[k];
                          && stored.verified == raw.verified && stored.verifiableCredential == raw.verifiableCredential
                          && stored.summary == raw.summary && AreStoredChecks(raw.results, stored.results)
    ensures updated.state == Complete <==>
              && result.verified
              && (forall k :: 0 <= k < |result.credentialResults| ==> result.credentialResults[k].verified)
              && (exchange.settings.trustedIssuers != [] ==>
                    forall k :: 0 <= k < |result.credentialResults| ==>
                      !RawRegistryFailure(result.credentialResults[k]))
    ensures updated.state == Complete || updated.state == Invalid
    ensures updated.workflowId == exchange.workflowId && updated.settings == exchange.settings
            && updated.oid4vp == exchange.oid4vp && updated.verifyTask == exchange.verifyTask
  {
    hide EnsureIds, AreStoredChecks, RawRegistryFailure, FatalRegistryFailure, IsSyncResult;
    var crs := EnsureCredentialResultIds(result.credentialResults);
    assert updated.results.value.credentialResults == crs && updated.results.value.verified == result.verified
           && updated.results.value.summary == result.summary
           && updated.results.value.presentationResults ==
                EnsureIds(result.presentationResults) by { SyncParts(exchange, result, updated); }
    StoredChecks(result.presentationResults);
    forall k | 0 <= k < |result.credentialResults|
      ensures AreStoredChecks(result.credentialResults[k].results, crs[k].results)
      ensures FatalRegistryFailure(crs[k]) <==> RawRegistryFailure(result.credentialResults[k])
    {
      StoredChecks(result.credentialResults[k].results);
      RegistryFailureIsRaw(result.credentialResults[k], crs[k]);
    }
  }

  /** The issuer of a present credential is trusted: by name, or by a registry check that counts. */
  ghost predicate IsTrusted(cr: CredentialResult, settings: Settings)
    requires cr.verifiableCredential.Some?
  {
    || (exists name :: name in settings.trustedIssuers && IssuerOf(cr.verifiableCredential.value) == Some(name))
    || (exists j :: 0 <= j < |cr.results| && CountsAsRegistryMatch(cr.results[j], settings.trustedRegistries))
  }

  /**
   What else the POST reports: issuers are validated exactly if any issuer or registry is named, and found valid exactly
   if every present credential is trusted; claims are reported exactly if any are asked for, and matched exactly
   if some present credential matches.
   */
  lemma StoredReports(exchange: Exchange, result: PresentationResult, updated: Exchange)
    requires IsFinalized(exchange, result, updated)
    ensures updated.results.Some?
    ensures var r, settings := updated.results.value, exchange.settings;
            && (r.issuerValidation == None <==> settings.trustedIssuers == [] && settings.trustedRegistries == [])
            && (r.issuerValidation.Some? ==>
                  var valid := forall k ::
                    0 <= k < |r.credentialResults| && r.credentialResults[k].verifiableCredential.Some? ==>
                                             IsTrusted(r.credentialResults[k], settings);
                  r.issuerValidation == Some(IssuerValidation(valid, valid)))
            && (r.claimsValidation == None <==> settings.vprClaims == [])
            && (r.claimsValidation.Some? ==>
                  (r.claimsValidation.value.matched <==>
                     exists credential :: credential in PresentCredentials(r.credentialResults)
                                          && TwoPassMatches(credential, settings.vprClaims)))
            && (r.claimsValidation.Some? ==>
                  r.claimsValidation.value.extractedClaims ==
                  AllExtracted(PresentCredentials(r.credentialResults), settings.vprClaims))
            && (settings.vprClaims == [] ==> r.matchedCredentials == PresentCredentials(r.credentialResults))
            && (settings.vprClaims != [] ==>
                  r.matchedCredentials ==
                    MatchedCredentials(PresentCredentials(r.credentialResults), settings.vprClaims))
            && (forall credential :: credential in r.matchedCredentials <==>
                                       credential in PresentCredentials(r.credentialResults)
                                       && (settings.vprClaims != [] ==> TwoPassMatches(credential, settings.vprClaims)))
  {
    hide PresentCredentials, TwoPassMatches, CountsAsRegistryMatch, DeservesComplete, AllExtracted;
    var r, settings := updated.results.value, exchange.settings;
    var present := PresentCredentials(r.credentialResults);
    forall credential ensures credential in MatchedCredentials(present, settings.vprClaims) <==>
                                credential in present && TwoPassMatches(credential, settings.vprClaims)
    {
      FilterMembers((x: Json) => TwoPassMatches(x, settings.vprClaims), present, credential);
    }
    if r.matchedCredentials != [] {
      assert r.matchedCredentials[0] in r.matchedCredentials;
    }
  }

  lemma SyncParts(exchange: Exchange, result: PresentationResult, updated: Exchange)
    requires IsFinalized(exchange, result, updated)
    ensures var r := updated.results.value;
            && r.verified == result.verified && r.summary == result.summary
            && r.presentationResults == EnsureIds(result.presentationResults)
            && r.credentialResults == EnsureCredentialResultIds(result.credentialResults)
  {
  }

  lemma RegistryFailureIsRaw(raw: RawCredentialResult, stored: CredentialResult)
    requires AreStoredChecks(raw.results, stored.results)
    ensures FatalRegistryFailure(stored) <==> RawRegistryFailure(raw)
  {
    if FatalRegistryFailure(stored) {
      var k :| 0 <= k < |stored.results| && IsRegistryCheck(stored.results[k]) && stored.results[k].fatal
               && stored.results[k].outcome.Failure?;
      assert IsStoredCheck(raw.results[k], stored.results[k]);
    }
    if RawRegistryFailure(raw) {
      var j, check :| 0 <= j < |raw.results| && IsStoredCheck(raw.results[j], check) && "trust.registry." <= check.id
                      && raw.results[j].fatal && raw.results[j].outcome == Failure;
      assert IsStoredCheck(raw.results[j], stored.results[j]);
      assert check.id == stored.results[j].id;
    }
  }

  /**
   Who the issuer is: a string, or the string `id` of an object; an object without one, or no object at all, is nobody.
   */
  lemma IssuerIff(credential: Json, name: string)
    ensures IssuerOf(credential) == Some(name) <==>
              && credential.Object? && "issuer" in credential.props
              && var raw := credential.props["issuer"];
                 raw == Str(name) || (raw.Object? && "id" in raw.props && raw.props["id"] == Str(name))
  {
  }

  /** Which registry checks count: successful ones that name a trusted registry, or name none when none is asked for. */
  lemma RegistryMatchCases(check: CheckResult, trustedRegistries: seq<string>)
    ensures CountsAsRegistryMatch(check, trustedRegistries) ==> "trust.registry." <= check.id && check.outcome.Success?
    ensures "trust.registry." <= check.id && check.outcome == Success([]) ==>
              (CountsAsRegistryMatch(check, trustedRegistries) <==> trustedRegistries == [])
    ensures "trust.registry." <= check.id && check.outcome.Success? && check.outcome.foundInRegistries != [] ==>
              (CountsAsRegistryMatch(check, trustedRegistries) <==>
                 exists x :: x in check.outcome.foundInRegistries && x in trustedRegistries)
  {
    if check.outcome.Success? && check.outcome.foundInRegistries != [] {
      if x :| x in check.outcome.foundInRegistries && x in trustedRegistries {
        var k :| 0 <= k < |trustedRegistries| && trustedRegistries[k] == x;
      }
    }
  }

  /** One result contributes its credential if it is present. */
  lemma PresentOne(cr: CredentialResult)
    ensures PresentCredentials([cr]) ==
              match cr.verifiableCredential case None => [] case Some(credential) => [credential]
  {
    assert [cr][..0] == [];
  }

  /** And the credentials present in two lists one after the other are those of the first, then those of the second. */
  lemma {:induction false} PresentConcat(a: seq<CredentialResult>, b: seq<CredentialResult>)
    ensures PresentCredentials(a + b) == PresentCredentials(a) + PresentCredentials(b)
  {
    if b == [] {
      assert a + b == a;
    } else {
      var init, last := b[..|b| - 1], b[|b| - 1];
      PresentConcat(a, init);
      PresentSnoc(init, last);
      PresentSnoc(a + init, last);
      assert b == init + [last];
      assert a + b == a + init + [last];
      hide PresentCredentials;
      Regroup(PresentCredentials(a), PresentCredentials(init), PresentCredentials([last]));
    }
  }

  lemma PresentSnoc(init: seq<CredentialResult>, last: CredentialResult)
    ensures PresentCredentials(init + [last]) == PresentCredentials(init) + PresentCredentials([last])
  {
    PresentOne(last);
    assert (init + [last])[..|init|] == init;
  }

  lemma Regroup(a: seq<Json>, b: seq<Json>, c: seq<Json>)
    ensures a + b + c == a + (b + c)
  {
  }

  /** Credential `k` is the last matching one that has a value under the key. */
  ghost predicate LastWithKey(credentials: seq<Json>, claims: seq<DcqlClaim>, key: string, k: nat) {
    && k < |credentials| && TwoPassMatches(credentials[k], claims) && key in Extracted(credentials[k], claims)
    && forall j :: k < j < |credentials| && TwoPassMatches(credentials[j], claims) ==>
                     key !in Extracted(credentials[j], claims)
  }

  /**
   The reported claims: a key has the value of the last matching credential that has one, and no other key is there.
   */
  lemma {:induction false} AllExtractedLookup(credentials: seq<Json>, claims: seq<DcqlClaim>, key: string)
    ensures forall k: nat :: LastWithKey(credentials, claims, key, k) ==>
                               key in AllExtracted(credentials, claims)
                               && AllExtracted(credentials, claims)[key] == Extracted(credentials[k], claims)[key]
    ensures key in AllExtracted(credentials, claims) ==> exists k: nat :: LastWithKey(credentials, claims, key, k)
  {
    hide TwoPassMatches, Extracted, LastWithKey;
    if credentials != [] {
      var n := |credentials| - 1;
      var init, last := credentials[..n], credentials[n];
      AllExtractedLookup(init, claims, key);
      if TwoPassMatches(last, claims) && key in Extracted(last, claims) {
        LastIsLast(credentials, claims, key);
      } else {
        forall k: nat ensures LastWithKey(credentials, claims, key, k) <==> LastWithKey(init, claims, key, k) {
          LastIsBefore(credentials, claims, key, k);
        }
        assert forall k: nat :: LastWithKey(init, claims, key, k) ==> credentials[k] == init[k] by {
          LastIsInside(init, claims, key);
        }
      }
    } else {
      LastIsInside(credentials, claims, key);
    }
  }

  lemma LastIsInside(credentials: seq<Json>, claims: seq<DcqlClaim>, key: string)
    ensures forall k: nat :: LastWithKey(credentials, claims, key, k) ==> k < |credentials|
  {
  }

  lemma LastIsLast(credentials: seq<Json>, claims: seq<DcqlClaim>, key: string)
    requires credentials != []
    requires TwoPassMatches(credentials[|credentials| - 1], claims)
             && key in Extracted(credentials[|credentials| - 1], claims)
    ensures forall k: nat :: LastWithKey(credentials, claims, key, k) <==> k == |credentials| - 1
  {
    hide TwoPassMatches, Extracted;
  }

  lemma LastIsBefore(credentials: seq<Json>, claims: seq<DcqlClaim>, key: string, k: nat)
    requires credentials != []
    requires var last := credentials[|credentials| - 1];
             !(TwoPassMatches(last, claims) && key in Extracted(last, claims))
    ensures LastWithKey(credentials, claims, key, k) <==> LastWithKey(credentials[..|credentials| - 1], claims, key, k)
  {
    hide TwoPassMatches, Extracted;
    var init := credentials[..|credentials| - 1];
    assert forall j :: 0 <= j < |init| ==> init[j] == credentials[j];
    if LastWithKey(init, claims, key, k) {
      assert credentials[k] == init[k];
    }
    if LastWithKey(credentials, claims, key, k) {
      assert k < |init| && init[k] == credentials[k];
    }
  }

  lemma SyncResultUnique(result: PresentationResult, settings: Settings, a: VerificationResult, b: VerificationResult)
    requires IsSyncResult(result, settings, a) && IsSyncResult(result, settings, b)
    ensures a == b
  {
  }

  /** `complete` or `invalid` follows from the flags and registry checks; claims and issuer validation do not enter. */
  ghost predicate IsFinalized(exchange: Exchange, result: PresentationResult, updated: Exchange) {
    && updated.results.Some?
    && IsSyncResult(result, exchange.settings, updated.results.value)
    && var crs := EnsureCredentialResultIds(result.credentialResults);
       var state := OutcomeState(DeservesComplete(result.verified, crs, exchange.settings.trustedIssuers));
       updated == exchange.(results := updated.results, state := state)
  }

  method MatchPresented(credentials: seq<Json>, claims: seq<DcqlClaim>)
    returns (valid: seq<Json>, extracted: map<string, Json>)
    ensures valid == MatchedCredentials(credentials, claims)
    ensures extracted == AllExtracted(credentials, claims)
  {
    valid, extracted := [], map[];
    for n := 0 to |credentials|
      invariant valid == MatchedCredentials(credentials[..n], claims)
      invariant extracted == AllExtracted(credentials[..n], claims)
    {
      var credential := credentials[n];
      assert credentials[..n + 1][..n] == credentials[..n];
      assert credentials[..n + 1] == credentials[..n] + [credential];
      FilterConcat((c: Json) => TwoPassMatches(c, claims), credentials[..n], [credential]);
      FilterOne((c: Json) => TwoPassMatches(c, claims), credential);
      var found := ExtractCredentialClaims(credential, claims);
      var matched, _ := MatchClaimsAgainstRequirements(found, claims);
      if matched {
        valid := valid + [credential];
        extracted := extracted + found;
      }
    }
    assert credentials[..|credentials|] == credentials;
  }

  lemma FilterOne(p: Json -> bool, x: Json)
    ensures Filter(p, [x]) == if p(x) then [x] else []
  {
    assert [x][1..] == [];
  }

  method ValidateIssuers(crs: seq<CredentialResult>, settings: Settings) returns (allIssuersValid: bool)
    ensures allIssuersValid <==> IssuersValid(crs, settings)
  {
    allIssuersValid := true;
    var n := 0;
    while n < |crs| && allIssuersValid
      invariant 0 <= n <= |crs|
      invariant allIssuersValid <==> IssuersValid(crs[..n], settings)
      invariant !allIssuersValid ==> !IssuersValid(crs, settings)
    {
      assert crs[..n + 1] == crs[..n] + [crs[n]];
      if crs[n].verifiableCredential.Some? {
        var issuerFound, registryMatch := ValidateTrustedIssuers(
          crs[n].verifiableCredential.value, settings.trustedIssuers, settings.trustedRegistries, crs[n]);
        allIssuersValid := issuerFound || registryMatch;
      }
      n := n + 1;
    }
    if allIssuersValid {
      assert crs[..n] == crs;
    }
  }

  method ApplyVerificationResults(exchange: Exchange, result: PresentationResult) returns (updated: Exchange)
    ensures IsFinalized(exchange, result, updated)
  {
    var settings := exchange.settings;
    var credentialResults := EnsureCredentialResultIds(result.credentialResults);
    var present := PresentCredentials(credentialResults);
    var claimsValidation: Option<ClaimsValidation> := None;
    var matchedCredentials := present;
    if |settings.vprClaims| > 0 {
      var valid, extracted := MatchPresented(present, settings.vprClaims);
      matchedCredentials := valid;
      claimsValidation := Some(ClaimsValidation(extracted, |valid| > 0));
    }
    var issuerValidation: Option<IssuerValidation> := None;
    if |settings.trustedIssuers| > 0 || |settings.trustedRegistries| > 0 {
      var allIssuersValid := ValidateIssuers(credentialResults, settings);
      issuerValidation := Some(IssuerValidation(allIssuersValid, allIssuersValid));
    }
    var outcome := DetermineExchangeOutcome(result.verified, credentialResults, settings.trustedIssuers);
    var verificationResult := VerificationResult(
      result.verified, EnsureIds(result.presentationResults), credentialResults, matchedCredentials,
      result.summary, claimsValidation, issuerValidation);
    updated := exchange.(state := outcome, results := Some(verificationResult));
  }

  /** Changing what is asked for never changes the decision, only what is reported. */
  lemma ClaimsDoNotDecide(a: Exchange, b: Exchange, result: PresentationResult, a': Exchange, b': Exchange)
    requires a.settings.trustedIssuers == b.settings.trustedIssuers
    requires IsFinalized(a, result, a') && IsFinalized(b, result, b')
    ensures a'.state == b'.state
    ensures a'.results.value.verified == b'.results.value.verified
    ensures a'.results.value.credentialResults == b'.results.value.credentialResults
  {
  }

  // ----- handing over to the asynchronous pass ----------------------------

  method IdentifyOpenBadgesCredentialIndices(crs: seq<RawCredentialResult>, isOpenBadge: Option<Json> -> bool)
    returns (out: seq<nat>)
    ensures forall i, j :: 0 <= i < j < |out| ==> out[i] < out[j]
    ensures forall i :: i in out <==> 0 <= i < |crs| && isOpenBadge(crs[i].verifiableCredential)
  {
    out := [];
    for n := 0 to |crs|
      invariant forall i, j :: 0 <= i < j < |out| ==> out[i] < out[j]
      invariant forall i :: i in out <==> 0 <= i < n && isOpenBadge(crs[i].verifiableCredential)
    {
      if isOpenBadge(crs[n].verifiableCredential) {
        assert forall k :: 0 <= k < |out| ==> out[k] in out;
        out := out + [n];
      }
    }
  }

  /** The indices of the Open Badges credentials: increasing, and exactly those. */
  ghost predicate AreOpenBadges(crs: seq<RawCredentialResult>, isOpenBadge: Option<Json> -> bool, indices: seq<nat>) {
    && (forall i, j :: 0 <= i < j < |indices| ==> indices[i] < indices[j])
    && (forall i :: i in indices <==> 0 <= i < |crs| && isOpenBadge(crs[i].verifiableCredential))
  }

  function Recorded(finalized: Exchange, indices: seq<nat>, freshId: AttemptId, now: nat, deadlineMs: nat,
                    maxAttempts: nat): Exchange {
    if indices == [] then finalized
    else
      var task := NewVerifyTask(freshId, now, indices, deadlineMs, maxAttempts);
      finalized.(state := Active, verifyTask := Some(task))
  }

  /** What the POST stores: the finalized exchange, or the same with `active` and a queued task. */
  ghost predicate IsStoredByPost(exchange: Exchange, result: PresentationResult, indices: seq<nat>, freshId: AttemptId,
                                 now: nat, deadlineMs: nat, maxAttempts: nat, stored: Exchange) {
    exists finalized :: IsFinalized(exchange, result, finalized) &&
                        stored == Recorded(finalized, indices, freshId, now, deadlineMs, maxAttempts)
  }

  /**
   With Open Badges credentials the POST stores an active exchange whose first attempt is queued with a full deadline.
   */
  lemma QueuedFirstAttempt(finalized: Exchange, indices: seq<nat>, freshId: AttemptId, now: nat, deadlineMs: nat,
                           maxAttempts: nat)
    ensures var stored := Recorded(finalized, indices, freshId, now, deadlineMs, maxAttempts);
            if indices == [] then stored == finalized
            else
              && stored.state == Active && stored.results == finalized.results && stored.settings == finalized.settings
              && stored.oid4vp == finalized.oid4vp && stored.workflowId == finalized.workflowId
              && stored.verifyTask.Some?
              && var task := stored.verifyTask.value;
                 && task.attemptId == freshId && task.attempt == 1 && task.maxAttempts == maxAttempts
                 && task.deadlineAt == now + deadlineMs && task.openBadgesCredentialIndices == indices
                 && task.status == Queued && task.lastError == None
  {
  }

  method WithSyncResultsAndQueuedVerifyTask(exchange: Exchange, result: PresentationResult, indices: seq<nat>,
                                            freshId: AttemptId, now: nat, deadlineMs: nat, maxAttempts: nat)
    returns (intermediate: Exchange)
    requires indices != []
    ensures IsStoredByPost(exchange, result, indices, freshId, now, deadlineMs, maxAttempts, intermediate)
  {
    var finalized := ApplyVerificationResults(exchange, result);
    intermediate := finalized.(state := Active,
    verifyTask := Some(NewVerifyTask(freshId, now, indices, deadlineMs, maxAttempts)));
  }

  /**
   The POST of a presentation. `answer` is the verifier's result, or `None` when structural validation or
   the verifier throws: then nothing is stored.
   */
  method ParticipateInVerifyExchange(manager: TransactionManager, queue: VerifyTaskQueue, exchangeId: string,
                                     exchange: Exchange,
                                     answer: Option<PresentationResult>, isOpenBadge: Option<Json> -> bool,
                                     freshId: AttemptId, now: nat, deadlineMs: nat, maxAttempts: nat)
    returns (accepted: bool)
    modifies manager, queue
    ensures accepted <==> answer.Some?
    ensures answer.None? ==> manager.keyv == old(manager.keyv) && queue.View() == old(queue.View())
    ensures answer.Some? ==>
              exists indices :: AreOpenBadges(answer.value.credentialResults, isOpenBadge, indices) &&
                                manager.Record(exchangeId).Some? &&
                                IsStoredByPost(exchange, answer.value, indices, freshId, now, deadlineMs, maxAttempts,
                                               manager.Record(exchangeId).value) &&
                                queue.View() ==
                                  (if indices == [] then old(queue.View()) else Enqueue(old(queue.View()), exchangeId))
    ensures forall id :: id != exchangeId ==> manager.Record(id) == old(manager.Record(id))
  {
    if answer.None? {
      return false;
    }
    accepted := true;
    var result := answer.value;
    var obIndices := IdentifyOpenBadgesCredentialIndices(result.credentialResults, isOpenBadge);
    assert AreOpenBadges(result.credentialResults, isOpenBadge, obIndices);
    if |obIndices| == 0 {
      var finalized := ApplyVerificationResults(exchange, result);
      manager.SaveExchange(exchangeId, finalized);
      assert IsStoredByPost(exchange, result, obIndices, freshId, now, deadlineMs, maxAttempts, finalized);
      return;
    }
    var intermediate := WithSyncResultsAndQueuedVerifyTask(exchange, result, obIndices, freshId, now, deadlineMs,
                                                           maxAttempts);
    manager.SaveExchange(exchangeId, intermediate);
    queue.EnqueueVerifyTask(exchangeId);
  }
}
