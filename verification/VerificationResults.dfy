/**
 The verification result stored under `variables.results.default`, and the pure merges that fold
 Open Badges results into it (src/lib/verify-task/verify-task-worker.ts, lines 150-291).
 */
module VerificationResults {
  import opened Wrappers

  /**
   A parsed credential: what `in`, indexing and `String(...)` can observe of a JSON value. `Scalar` is a number or
   a boolean; an object or array carries the text `String` gives it and the properties `in` sees.
   */
  datatype Json =
    | Null
    | Str(text: string)
    | Scalar(text: string)
    | Object(text: string, props: map<string, Json>)

  /** `Success` keeps the registries named in the outcome; an absent list is the empty one. */
  datatype Outcome = Success(foundInRegistries: seq<string>) | Failure | Skipped

  datatype CheckResult = CheckResult(id: string, outcome: Outcome, fatal: bool)

  /** A check as the verifier library returns it: every identifying field is optional. */
  datatype RawCheck = RawCheck(id: Option<string>, suite: Option<string>, check: Option<string>,
                               outcome: Outcome, fatal: bool)

  datatype SuiteSummary = SuiteSummary(id: string, message: string)

  /** `verifiableCredential` is `None` when the credential is absent or null. */
  datatype CredentialResult = CredentialResult(
    verified: bool,
    verifiableCredential: Option<Json>,
    results: seq<CheckResult>,
    summary: seq<SuiteSummary>)

  datatype ClaimsValidation = ClaimsValidation(extractedClaims: map<string, Json>, matched: bool)

  datatype IssuerValidation = IssuerValidation(issuerFound: bool, registryMatch: bool)

  datatype VerificationResult = VerificationResult(
    verified: bool,
    presentationResults: seq<CheckResult>,
    credentialResults: seq<CredentialResult>,
    matchedCredentials: seq<Json>,
    summary: seq<SuiteSummary>,
    claimsValidation: Option<ClaimsValidation>,
    issuerValidation: Option<IssuerValidation>)

  /** The answer of one Open Badges `verifyCredential` call. */
  datatype ObResult = ObResult(verified: bool, results: seq<RawCheck>, summary: seq<SuiteSummary>)

  // ----- suite summaries ---------------------------------------------------

  ghost function SummaryIds(s: seq<SuiteSummary>): set<string> {
    set x | x in s :: x.id
  }

  ghost predicate UniqueIds(s: seq<SuiteSummary>) {
    forall i, j :: 0 <= i < j < |s| ==> s[i].id != s[j].id
  }

  /** The left-to-right union of two summary lists: an id already present is skipped. */
  function SummaryUnion(existing: seq<SuiteSummary>, incoming: seq<SuiteSummary>): (r: seq<SuiteSummary>)
    ensures existing <= r
  {
    if incoming == [] then existing
    else
      var init, last := incoming[..|incoming| - 1], incoming[|incoming| - 1];
      var r := SummaryUnion(existing, init);
      if exists k :: 0 <= k < |r| && r[k].id == last.id then r else r + [last]
  }

  /** The loop of `mergeSummaries`, with its `seen` set and its `appended` array. */
  method MergeSummaries(existing: seq<SuiteSummary>, incoming: seq<SuiteSummary>)
    returns (merged: seq<SuiteSummary>)
    ensures merged == SummaryUnion(existing, incoming)
  {
    var seen := set s | s in existing :: s.id;
    var appended: seq<SuiteSummary> := [];
    for n := 0 to |incoming|
      invariant existing + appended == SummaryUnion(existing, incoming[..n])
      invariant seen == SummaryIds(existing + appended)
    {
      var s := incoming[n];
      assert incoming[..n + 1][..n] == incoming[..n];
      ghost var before := existing + appended;
      SummaryIdsAt(before, s.id);
      if s.id !in seen {
        seen := seen + {s.id};
        SummaryIdsSnoc(before, s);
        appended := appended + [s];
        assert existing + appended == before + [s];
      }
    }
    assert incoming[..|incoming|] == incoming;
    merged := existing + appended;
  }

  lemma SummaryIdsAt(s: seq<SuiteSummary>, id: string)
    ensures id in SummaryIds(s) <==> exists k :: 0 <= k < |s| && s[k].id == id
  {
    if k :| 0 <= k < |s| && s[k].id == id {
      assert s[k] in s;
    }
  }

  lemma SummaryIdsSnoc(s: seq<SuiteSummary>, x: SuiteSummary)
    ensures SummaryIds(s + [x]) == SummaryIds(s) + {x.id}
  {
    forall id ensures id in SummaryIds(s + [x]) <==> id in SummaryIds(s) + {x.id} {
      SummaryIdsAt(s, id);
      SummaryIdsAt(s + [x], id);
      if k :| 0 <= k < |s| && s[k].id == id {
        assert (s + [x])[k].id == id;
      }
      assert (s + [x])[|s|] == x;
    }
  }

  /** No id is lost and none is invented. */
  lemma {:induction false} SummaryUnionIds(a: seq<SuiteSummary>, b: seq<SuiteSummary>)
    ensures SummaryIds(SummaryUnion(a, b)) == SummaryIds(a) + SummaryIds(b)
  {
    if b != [] {
      var init, last := b[..|b| - 1], b[|b| - 1];
      SummaryUnionIds(a, init);
      SummaryIdsSnoc(init, last);
      assert b == init + [last];
      SummaryIdsAt(SummaryUnion(a, init), last.id);
      SummaryIdsSnoc(SummaryUnion(a, init), last);
    }
  }

  /** Uniqueness of the existing ids survives, whatever repeats the incoming list has. */
  lemma {:induction false} SummaryUnionUnique(a: seq<SuiteSummary>, b: seq<SuiteSummary>)
    requires UniqueIds(a)
    ensures UniqueIds(SummaryUnion(a, b))
  {
    if b != [] {
      SummaryUnionUnique(a, b[..|b| - 1]);
    }
  }

  lemma SummaryUnionSnoc(a: seq<SuiteSummary>, b: seq<SuiteSummary>, x: SuiteSummary)
    ensures SummaryUnion(a, b + [x]) ==
            if x.id in SummaryIds(SummaryUnion(a, b)) then SummaryUnion(a, b) else SummaryUnion(a, b) + [x]
  {
    assert (b + [x])[..|b|] == b;
    SummaryIdsAt(SummaryUnion(a, b), x.id);
  }

  lemma {:induction false} SummaryUnionAssociative(a: seq<SuiteSummary>, b: seq<SuiteSummary>, c: seq<SuiteSummary>)
    ensures SummaryUnion(SummaryUnion(a, b), c) == SummaryUnion(a, SummaryUnion(b, c))
  {
    if c != [] {
      var init, last := c[..|c| - 1], c[|c| - 1];
      assert c == init + [last];
      SummaryUnionAssociative(a, b, init);
      SummaryUnionSnoc(SummaryUnion(a, b), init, last);
      SummaryUnionSnoc(b, init, last);
      SummaryUnionSnoc(a, SummaryUnion(b, init), last);
      SummaryUnionIds(a, SummaryUnion(b, init));
    }
  }

  lemma {:induction false} SummaryUnionAbsorbs(a: seq<SuiteSummary>, b: seq<SuiteSummary>)
    requires SummaryIds(b) <= SummaryIds(a)
    ensures SummaryUnion(a, b) == a
  {
    if b != [] {
      var init, last := b[..|b| - 1], b[|b| - 1];
      assert b == init + [last];
      SummaryIdsSnoc(init, last);
      SummaryUnionAbsorbs(a, init);
      SummaryUnionSnoc(a, init, last);
    }
  }

  /** Merging the same summaries a second time changes nothing. */
  lemma SummaryUnionIdempotent(a: seq<SuiteSummary>, b: seq<SuiteSummary>)
    ensures SummaryUnion(SummaryUnion(a, b), b) == SummaryUnion(a, b)
  {
    SummaryUnionIds(a, b);
    SummaryUnionAbsorbs(SummaryUnion(a, b), b);
  }

  /** The first summary carrying `id`. */
  ghost function FirstWithId(s: seq<SuiteSummary>, id: string): (r: Option<SuiteSummary>) {
    if s == [] then None
    else if s[0].id == id then Some(s[0])
    else FirstWithId(s[1..], id)
  }

  lemma {:induction false} FirstWithIdSnoc(s: seq<SuiteSummary>, x: SuiteSummary, id: string)
    ensures FirstWithId(s + [x], id) ==
            if FirstWithId(s, id).Some? then FirstWithId(s, id) else if x.id == id then Some(x) else None
    ensures FirstWithId(s, id).Some? <==> id in SummaryIds(s)
  {
    if s == [] {
      assert FirstWithId([x], id) == if x.id == id then Some(x) else FirstWithId([x][1..], id);
    } else {
      FirstWithIdSnoc(s[1..], x, id);
      assert (s + [x])[1..] == s[1..] + [x];
      SummaryIdsAt(s, id);
      SummaryIdsAt(s[1..], id);
      if k :| 0 <= k < |s| && s[k].id == id && k > 0 {
        assert s[1..][k - 1].id == id;
      }
    }
  }

  /** Which summary a reader finds for an id: the existing one if there is one, else the first incoming. */
  lemma {:induction false} SummaryUnionLookup(a: seq<SuiteSummary>, b: seq<SuiteSummary>, id: string)
    ensures FirstWithId(SummaryUnion(a, b), id) ==
            if FirstWithId(a, id).Some? then FirstWithId(a, id) else FirstWithId(b, id)
  {
    if b != [] {
      var init, last := b[..|b| - 1], b[|b| - 1];
      assert b == init + [last];
      SummaryUnionLookup(a, init, id);
      SummaryUnionSnoc(a, init, last);
      FirstWithIdSnoc(init, last, id);
      FirstWithIdSnoc(SummaryUnion(a, init), last, id);
    }
  }

  // ----- check results -----------------------------------------------------

  const REGISTRY_PREFIX := "trust.registry."

  predicate IsRegistryCheck(r: CheckResult) {
    REGISTRY_PREFIX <= r.id
  }

  function Filter<T>(p: T -> bool, s: seq<T>): seq<T> {
    if s == [] then []
    else (if p(s[0]) then [s[0]] else []) + Filter(p, s[1..])
  }

  lemma {:induction false} FilterMembers<T>(p: T -> bool, s: seq<T>, x: T)
    ensures x in Filter(p, s) <==> x in s && p(x)
  {
    if s != [] {
      FilterMembers(p, s[1..], x);
      assert x in s <==> x == s[0] || x in s[1..];
    }
  }

  predicate IsOtherCheck(r: CheckResult) {
    !IsRegistryCheck(r)
  }

  function CheckIds(s: seq<CheckResult>): set<string> {
    set x | x in s :: x.id
  }

  function WithoutIds(s: seq<CheckResult>, ids: set<string>): seq<CheckResult> {
    Filter((r: CheckResult) => r.id !in ids, s)
  }

  /** `mergeResults`: incoming registry checks replace the old ones, other checks dedupe by id. */
  function MergeResults(existing: seq<CheckResult>, incoming: seq<CheckResult>): seq<CheckResult> {
    var existingNonRegistry := Filter(IsOtherCheck, existing);
    var incomingRegistry := Filter(IsRegistryCheck, incoming);
    var incomingNonRegistry := Filter(IsOtherCheck, incoming);
    var keptIds := CheckIds(existingNonRegistry);
    existingNonRegistry + incomingRegistry + WithoutIds(incomingNonRegistry, keptIds)
  }

  lemma {:induction false} FilterConcat<T(!new)>(p: T -> bool, a: seq<T>, b: seq<T>)
    ensures Filter(p, a + b) == Filter(p, a) + Filter(p, b)
  {
    if a == [] {
      assert a + b == b;
    } else {
      var head := if p(a[0]) then [a[0]] else [];
      assert (a + b)[0] == a[0] && (a + b)[1..] == a[1..] + b;
      assert Filter(p, a + b) == head + Filter(p, a[1..] + b);
      FilterConcat(p, a[1..], b);
      assert head + (Filter(p, a[1..]) + Filter(p, b)) == (head + Filter(p, a[1..])) + Filter(p, b);
    }
  }

  lemma FilterConcat3<T(!new)>(p: T -> bool, a: seq<T>, b: seq<T>, c: seq<T>)
    ensures Filter(p, a + b + c) == Filter(p, a) + Filter(p, b) + Filter(p, c)
  {
    hide Filter;
    FilterConcat(p, a + b, c);
    FilterConcat(p, a, b);
  }

  lemma {:induction false} FilterAll<T(!new)>(p: T -> bool, s: seq<T>)
    requires forall x :: x in s ==> p(x)
    ensures Filter(p, s) == s
  {
    if s != [] {
      FilterAll(p, s[1..]);
    }
  }

  lemma {:induction false} FilterNone<T(!new)>(p: T -> bool, s: seq<T>)
    requires forall x :: x in s ==> !p(x)
    ensures Filter(p, s) == []
  {
    if s != [] {
      FilterNone(p, s[1..]);
    }
  }

  lemma FilterIdempotent<T(!new)>(p: T -> bool, s: seq<T>)
    ensures Filter(p, Filter(p, s)) == Filter(p, s)
  {
    forall x | x in Filter(p, s) ensures p(x) {
      FilterMembers(p, s, x);
    }
    FilterAll(p, Filter(p, s));
  }

  /**
   After a merge the registry checks are exactly the incoming ones, in order, and the other checks
   are the existing ones followed by the incoming ones with new ids.
   */
  lemma MergeResultsParts(existing: seq<CheckResult>, incoming: seq<CheckResult>)
    ensures Filter(IsRegistryCheck, MergeResults(existing, incoming)) == Filter(IsRegistryCheck, incoming)
    ensures var kept := Filter(IsOtherCheck, existing);
            Filter(IsOtherCheck, MergeResults(existing, incoming)) ==
            kept + WithoutIds(Filter(IsOtherCheck, incoming), CheckIds(kept))
  {
    var kept := Filter(IsOtherCheck, existing);
    var registry := Filter(IsRegistryCheck, incoming);
    var appended := WithoutIds(Filter(IsOtherCheck, incoming), CheckIds(kept));
    FilterIdempotent(IsOtherCheck, existing);
    FilterIdempotent(IsOtherCheck, incoming);
    FilterIdempotent(IsRegistryCheck, incoming);
    OthersWithoutIds(Filter(IsOtherCheck, incoming), CheckIds(kept));
    FilterParts(kept, registry, appended);
  }

  /**
   Check by check: after a merge there is exactly every old check that is no registry check, every incoming registry
   check, and every other incoming check whose id no such old check has.
   */
  lemma MergedChecks(existing: seq<CheckResult>, incoming: seq<CheckResult>, x: CheckResult)
    ensures x in MergeResults(existing, incoming) <==>
              || (x in existing && !("trust.registry." <= x.id))
              || (x in incoming && "trust.registry." <= x.id)
              || (x in incoming && !("trust.registry." <= x.id)
                  && forall y :: y in existing && !("trust.registry." <= y.id) ==> y.id != x.id)
  {
    hide Filter;
    var kept := Filter(IsOtherCheck, existing);
    FilterMembers(IsOtherCheck, existing, x);
    FilterMembers(IsRegistryCheck, incoming, x);
    FilterMembers(IsOtherCheck, incoming, x);
    FilterMembers((r: CheckResult) => r.id !in CheckIds(kept), Filter(IsOtherCheck, incoming), x);
    forall y ensures y in kept <==> y in existing && IsOtherCheck(y) {
      FilterMembers(IsOtherCheck, existing, y);
    }
    assert x.id in CheckIds(kept) <==> exists y :: y in kept && y.id == x.id;
  }

  lemma FilterParts(kept: seq<CheckResult>, registry: seq<CheckResult>, appended: seq<CheckResult>)
    requires Filter(IsOtherCheck, kept) == kept && Filter(IsOtherCheck, appended) == appended
    requires Filter(IsRegistryCheck, registry) == registry
    ensures Filter(IsRegistryCheck, kept + registry + appended) == registry
    ensures Filter(IsOtherCheck, kept + registry + appended) == kept + appended
  {
    hide Filter;
    FilterConcat3(IsRegistryCheck, kept, registry, appended);
    FilterConcat3(IsOtherCheck, kept, registry, appended);
    OnlyOthers(kept);
    OnlyOthers(appended);
    OnlyRegistry(registry);
  }

  lemma OnlyOthers(s: seq<CheckResult>)
    requires Filter(IsOtherCheck, s) == s
    ensures Filter(IsRegistryCheck, s) == []
  {
    forall x | x in s ensures !IsRegistryCheck(x) {
      FilterMembers(IsOtherCheck, s, x);
    }
    FilterNone(IsRegistryCheck, s);
  }

  lemma OnlyRegistry(s: seq<CheckResult>)
    requires Filter(IsRegistryCheck, s) == s
    ensures Filter(IsOtherCheck, s) == []
  {
    forall x | x in s ensures !IsOtherCheck(x) {
      FilterMembers(IsRegistryCheck, s, x);
    }
    FilterNone(IsOtherCheck, s);
  }

  lemma OthersWithoutIds(s: seq<CheckResult>, ids: set<string>)
    requires Filter(IsOtherCheck, s) == s
    ensures Filter(IsOtherCheck, WithoutIds(s, ids)) == WithoutIds(s, ids)
  {
    forall x | x in WithoutIds(s, ids) ensures IsOtherCheck(x) {
      FilterMembers((r: CheckResult) => r.id !in ids, s, x);
      FilterMembers(IsOtherCheck, s, x);
    }
    FilterAll(IsOtherCheck, WithoutIds(s, ids));
  }

  /** The second merge of the same list only moves the registry checks behind the others. */
  lemma RemergeForm(existing: seq<CheckResult>, incoming: seq<CheckResult>)
    ensures var once := MergeResults(existing, incoming);
            MergeResults(once, incoming) == Filter(IsOtherCheck, once) + Filter(IsRegistryCheck, incoming)
  {
    var once := MergeResults(existing, incoming);
    var kept := Filter(IsOtherCheck, existing);
    var fresh' := Filter(IsOtherCheck, incoming);
    MergeResultsParts(existing, incoming);
    var all := Filter(IsOtherCheck, once);
    forall x | x in fresh' ensures x.id in CheckIds(all) {
      if x.id in CheckIds(kept) {
        var y :| y in kept && y.id == x.id;
        assert y in all;
      } else {
        FilterMembers((r: CheckResult) => r.id !in CheckIds(kept), fresh', x);
        assert x in all;
      }
    }
    FilterNone((r: CheckResult) => r.id !in CheckIds(all), fresh');
    assert WithoutIds(fresh', CheckIds(all)) == [];
  }

  /**
   Re-merging the list a worker already merged permutes the checks once, neither losing nor
   doubling any, and reaches a fixed point: a third merge changes nothing.
   */
  lemma RemergeSettles(existing: seq<CheckResult>, incoming: seq<CheckResult>)
    ensures var once := MergeResults(existing, incoming);
            var twice := MergeResults(once, incoming);
            multiset(twice) == multiset(once) && MergeResults(twice, incoming) == twice
  {
    var once := MergeResults(existing, incoming);
    var others, registry := Filter(IsOtherCheck, once), Filter(IsRegistryCheck, incoming);
    RemergeForm(existing, incoming);
    assert multiset(others + registry) == multiset(once) by {
      MergeResultsParts(existing, incoming);
      SplitIsPermutation(once);
    }
    assert Filter(IsOtherCheck, others + registry) == others by {
      FilterConcat(IsOtherCheck, others, registry);
      FilterIdempotent(IsOtherCheck, once);
      FilterIdempotent(IsRegistryCheck, incoming);
      OnlyRegistry(registry);
    }
    RemergeForm(once, incoming);
  }

  lemma {:induction false} SplitIsPermutation(s: seq<CheckResult>)
    ensures multiset(Filter(IsOtherCheck, s)) + multiset(Filter(IsRegistryCheck, s)) == multiset(s)
  {
    if s != [] {
      SplitIsPermutation(s[1..]);
      assert s == [s[0]] + s[1..];
    }
  }

  /**
   A re-merge is the same list exactly when the incoming list has no registry check, or none of its other checks
   was new: otherwise the registry checks move behind the new ones.
   */
  lemma RemergeIdempotentIff(existing: seq<CheckResult>, incoming: seq<CheckResult>)
    ensures var once := MergeResults(existing, incoming);
            MergeResults(once, incoming) == once <==>
            || Filter(IsRegistryCheck, incoming) == []
            || WithoutIds(Filter(IsOtherCheck, incoming), CheckIds(Filter(IsOtherCheck, existing))) == []
  {
    hide Filter, IsRegistryCheck, WithoutIds, CheckIds;
    var kept, registry := Filter(IsOtherCheck, existing), Filter(IsRegistryCheck, incoming);
    var appended := WithoutIds(Filter(IsOtherCheck, incoming), CheckIds(kept));
    var once := kept + registry + appended;
    var twice := kept + appended + registry;
    assert MergeResults(existing, incoming) == once;
    MergeResultsParts(existing, incoming);
    RemergeForm(existing, incoming);
    if registry == [] {
      assert once == kept + appended == twice;
    } else if appended == [] {
      assert once == kept + registry == twice;
    } else {
      FilterMembers(IsRegistryCheck, incoming, registry[0]);
      NewAreOthers(incoming, CheckIds(kept), appended[0]);
      assert once[|kept|] == registry[0] && twice[|kept|] == appended[0];
    }
  }

  lemma NewAreOthers(incoming: seq<CheckResult>, ids: set<string>, x: CheckResult)
    requires x in WithoutIds(Filter(IsOtherCheck, incoming), ids)
    ensures !IsRegistryCheck(x)
  {
    FilterMembers((r: CheckResult) => r.id !in ids, Filter(IsOtherCheck, incoming), x);
    FilterMembers(IsOtherCheck, incoming, x);
  }

  /** Such lists exist, so the first re-merge can differ from the first merge. */
  lemma RemergeCanReorder()
    ensures exists e: seq<CheckResult>, i: seq<CheckResult> ::
              MergeResults(MergeResults(e, i), i) != MergeResults(e, i)
  {
    var a := CheckResult("trust.registry.issuer", Failure, true);
    var b := CheckResult("openbadges.schema", Failure, false);
    assert IsRegistryCheck(a);
    assert b.id[0] != REGISTRY_PREFIX[0];
    var i := [a, b];
    FilterMembers(IsRegistryCheck, i, a);
    FilterMembers(IsOtherCheck, i, b);
    FilterMembers((r: CheckResult) => r.id !in CheckIds(Filter(IsOtherCheck, [])), Filter(IsOtherCheck, i), b);
    RemergeIdempotentIff([], i);
  }

  // ----- the merge of one Open Badges result ------------------------------

  /** The id a raw check is stored under; a missing or empty id is rebuilt from suite and check. */
  function NormalizeCheck(r: RawCheck): CheckResult {
    var orUnknown := (o: Option<string>) => if o.Some? then o.value else "unknown";
    if r.id.Some? && r.id.value != "" then CheckResult(r.id.value, r.outcome, r.fatal)
    else CheckResult(orUnknown(r.suite) + "." + orUnknown(r.check), r.outcome, r.fatal)
  }

  /** Outcome and fatality are kept; an id is kept unless it is missing or empty, when suite and check stand in. */
  lemma NormalizedCheck(r: RawCheck)
    ensures var check := NormalizeCheck(r);
            && check.outcome == r.outcome && check.fatal == r.fatal
            && (r.id.Some? && |r.id.value| > 0 ==> check.id == r.id.value)
            && (r.id == None || r.id == Some("") ==>
                  && (r.suite.Some? && r.check.Some? ==> check.id == r.suite.value + "." + r.check.value)
                  && (r.suite.None? && r.check.Some? ==> check.id == "unknown." + r.check.value)
                  && (r.suite.Some? && r.check.None? ==> check.id == r.suite.value + ".unknown")
                  && (r.suite.None? && r.check.None? ==> check.id == "unknown.unknown"))
  {
    assert "unknown" + "." == "unknown.";
    assert "." + "unknown" == ".unknown";
    if r.suite.Some? && r.check.None? {
      assert r.suite.value + "." + "unknown" == r.suite.value + ("." + "unknown");
    }
    assert "unknown." + "unknown" == "unknown.unknown";
  }

  function NormalizeChecks(rs: seq<RawCheck>): seq<CheckResult> {
    seq(|rs|, i requires 0 <= i < |rs| => NormalizeCheck(rs[i]))
  }

  function MergeCredential(prev: CredentialResult, ob: ObResult): CredentialResult {
    prev.(verified := prev.verified && ob.verified,
    results := MergeResults(prev.results, NormalizeChecks(ob.results)),
    summary := SummaryUnion(prev.summary, ob.summary))
  }

  /** `mergeOpenBadgesResultsAt`; an index out of range leaves the result alone. */
  function MergeOpenBadgesResultsAt(merged: VerificationResult, index: nat, ob: ObResult): (r: VerificationResult)
    ensures |r.credentialResults| == |merged.credentialResults|
  {
    if index >= |merged.credentialResults| then merged
    else
      merged.(verified := merged.verified && ob.verified,
      credentialResults := merged.credentialResults[index := MergeCredential(merged.credentialResults[index], ob)])
  }

  /** Merges at different credentials can happen in either order. */
  lemma MergesCommute(r: VerificationResult, i: nat, a: ObResult, j: nat, b: ObResult)
    requires i != j
    ensures MergeOpenBadgesResultsAt(MergeOpenBadgesResultsAt(r, i, a), j, b) ==
            MergeOpenBadgesResultsAt(MergeOpenBadgesResultsAt(r, j, b), i, a)
  {
    var n := |r.credentialResults|;
    if i < n && j < n {
      var x := MergeCredential(r.credentialResults[i], a);
      var y := MergeCredential(r.credentialResults[j], b);
      assert r.credentialResults[i := x][j := y] == r.credentialResults[j := y][i := x];
    }
  }

  /** The verifier library's own guarantee: an accepted presentation has only accepted credentials. */
  ghost predicate OverallImpliesEach(r: VerificationResult) {
    r.verified ==> forall k :: 0 <= k < |r.credentialResults| ==> r.credentialResults[k].verified
  }

  lemma MergeKeepsOverallImpliesEach(r: VerificationResult, i: nat, ob: ObResult)
    requires OverallImpliesEach(r)
    ensures OverallImpliesEach(MergeOpenBadgesResultsAt(r, i, ob))
  {
  }

  // ----- any sequence of merges -------------------------------------------

  datatype Merge = Merge(index: nat, ob: ObResult)

  function ApplyMerges(r: VerificationResult, ms: seq<Merge>): (out: VerificationResult)
    ensures |out.credentialResults| == |r.credentialResults|
  {
    if ms == [] then r
    else
      var last := ms[|ms| - 1];
      MergeOpenBadgesResultsAt(ApplyMerges(r, ms[..|ms| - 1]), last.index, last.ob)
  }

  ghost predicate InRange(r: VerificationResult, ms: seq<Merge>) {
    forall k :: 0 <= k < |ms| ==> ms[k].index < |r.credentialResults|
  }

  lemma ApplyMergesSnoc(r: VerificationResult, ms: seq<Merge>, m: Merge)
    ensures ApplyMerges(r, ms + [m]) == MergeOpenBadgesResultsAt(ApplyMerges(r, ms), m.index, m.ob)
  {
    assert (ms + [m])[..|ms|] == ms;
  }

  lemma {:induction false} ApplyMergesConcat(r: VerificationResult, ms: seq<Merge>, more: seq<Merge>)
    ensures ApplyMerges(ApplyMerges(r, ms), more) == ApplyMerges(r, ms + more)
  {
    if more == [] {
      assert ms + more == ms;
    } else {
      var init, last := more[..|more| - 1], more[|more| - 1];
      assert ms + more == (ms + init) + [last];
      ApplyMergesConcat(r, ms, init);
      ApplyMergesSnoc(r, ms + init, last);
    }
  }

  /**
   Whatever was merged, in whatever order and however often: the overall flag is the base flag AND
   every verdict, and nothing at presentation level moved.
   */
  lemma {:induction false} ApplyMergesVerdict(r: VerificationResult, ms: seq<Merge>)
    requires InRange(r, ms)
    ensures var out := ApplyMerges(r, ms);
            && (out.verified <==> r.verified && forall k :: 0 <= k < |ms| ==> ms[k].ob.verified)
            && out == r.(verified := out.verified, credentialResults := out.credentialResults)
  {
    if ms != [] {
      var init := ms[..|ms| - 1];
      assert forall k :: 0 <= k < |init| ==> init[k] == ms[k];
      ApplyMergesVerdict(r, init);
    }
  }

  lemma {:induction false} ApplyMergesKeepsOverallImpliesEach(r: VerificationResult, ms: seq<Merge>)
    requires OverallImpliesEach(r)
    ensures OverallImpliesEach(ApplyMerges(r, ms))
  {
    if ms != [] {
      ApplyMergesKeepsOverallImpliesEach(r, ms[..|ms| - 1]);
    }
  }

  // ----- the worker's fold -------------------------------------------------

  /** The credential the worker would verify for `index`, if any (`cr?.verifiableCredential`). */
  function CredentialAt(r: VerificationResult, index: nat): Option<Json> {
    if index < |r.credentialResults| then r.credentialResults[index].verifiableCredential else None
  }

  /** The worker's loop over the recorded indices, for a verifier that is a function of the credential. */
  function FoldOpenBadges(verify: Json -> ObResult, r: VerificationResult, indices: seq<nat>): (out: VerificationResult)
    ensures |out.credentialResults| == |r.credentialResults|
  {
    if indices == [] then r
    else
      var merged := FoldOpenBadges(verify, r, indices[..|indices| - 1]);
      var i := indices[|indices| - 1];
      var credential := CredentialAt(merged, i);
      if credential.None? then merged else MergeOpenBadgesResultsAt(merged, i, verify(credential.value))
  }

  lemma FoldSnoc(verify: Json -> ObResult, r: VerificationResult, indices: seq<nat>, n: nat)
    requires n < |indices|
    ensures var merged := FoldOpenBadges(verify, r, indices[..n]);
            var credential := CredentialAt(merged, indices[n]);
            FoldOpenBadges(verify, r, indices[..n + 1]) ==
            if credential.None? then merged else MergeOpenBadgesResultsAt(merged, indices[n], verify(credential.value))
  {
    assert indices[..n + 1][..n] == indices[..n];
  }

  ghost predicate Distinct<T>(s: seq<T>) {
    forall i, j :: 0 <= i < j < |s| ==> s[i] != s[j]
  }

  /** Credential `k` after the pass: merged once with its own verdict if recorded, untouched otherwise. */
  ghost function PassEntry(verify: Json -> ObResult, cr: CredentialResult, recorded: bool): CredentialResult {
    if recorded && cr.verifiableCredential.Some?
    then MergeCredential(cr, verify(cr.verifiableCredential.value))
    else cr
  }

  /** The flag after the pass: the base flag and the verdict of every recorded credential. */
  ghost predicate PassVerified(verify: Json -> ObResult, r: VerificationResult, indices: seq<nat>) {
    r.verified && forall k {:trigger k in indices} :: k in indices && CredentialAt(r, k).Some? ==>
      verify(CredentialAt(r, k).value).verified
  }

  /** The Open Badges pass with no order and no loop: every recorded credential is merged exactly once. */
  ghost predicate IsOpenBadgesPass(verify: Json -> ObResult, r: VerificationResult, indices: seq<nat>,
                                   out: VerificationResult) {
    && out == r.(verified := out.verified, credentialResults := out.credentialResults)
    && |out.credentialResults| == |r.credentialResults|
    && (forall k :: 0 <= k < |r.credentialResults| ==>
                      out.credentialResults[k] == PassEntry(verify, r.credentialResults[k], k in indices))
    && (out.verified <==> PassVerified(verify, r, indices))
  }

  lemma PassUnique(verify: Json -> ObResult, r: VerificationResult, indices: seq<nat>, a: VerificationResult,
                   b: VerificationResult)
    requires IsOpenBadgesPass(verify, r, indices, a) && IsOpenBadgesPass(verify, r, indices, b)
    ensures a == b
  {
    assert a.credentialResults == b.credentialResults;
  }

  /** The flag after one more recorded credential. */
  lemma PassVerifiedSnoc(verify: Json -> ObResult, r: VerificationResult, init: seq<nat>, i: nat)
    ensures PassVerified(verify, r, init + [i]) <==>
            PassVerified(verify, r, init) && (CredentialAt(r, i).Some? ==> verify(CredentialAt(r, i).value).verified)
  {
    hide CredentialAt;
    assert i in init + [i];
    assert forall k :: k in init + [i] <==> k in init || k == i;
  }

  /** The loop over distinct indices computes that pass, so the order of the indices does not matter. */
  lemma {:induction false} FoldIsPass(verify: Json -> ObResult, r: VerificationResult, indices: seq<nat>)
    requires Distinct(indices)
    ensures IsOpenBadgesPass(verify, r, indices, FoldOpenBadges(verify, r, indices))
  {
    hide PassVerified, MergeCredential;
    if indices != [] {
      var init, i := indices[..|indices| - 1], indices[|indices| - 1];
      FoldIsPass(verify, r, init);
      var merged := FoldOpenBadges(verify, r, init);
      assert indices == init + [i];
      PassVerifiedSnoc(verify, r, init, i);
      assert forall k :: k in indices <==> k in init || k == i;
      assert i !in init;
      assert CredentialAt(merged, i) == CredentialAt(r, i);
    } else {
      assert PassVerified(verify, r, []) <==> r.verified by { PassVerifiedNone(verify, r); }
    }
  }

  lemma PassVerifiedNone(verify: Json -> ObResult, r: VerificationResult)
    ensures PassVerified(verify, r, []) <==> r.verified
  {
  }

  // ----- what one credential ends with -------------------------------------

  /** The suite summaries after an answer: the old ones stay in front, ids unite, and a known id keeps its summary. */
  ghost predicate SummaryTakesIn(before: seq<SuiteSummary>, incoming: seq<SuiteSummary>, after: seq<SuiteSummary>) {
    && before <= after
    && SummaryIds(after) == SummaryIds(before) + SummaryIds(incoming)
    && (UniqueIds(before) ==> UniqueIds(after))
    && forall id :: FirstWithId(after, id) ==
                    if FirstWithId(before, id).Some? then FirstWithId(before, id) else FirstWithId(incoming, id)
  }

  /** The checks after an answer: its registry checks replace the old ones, its other checks join if their id is new. */
  ghost predicate ChecksTakeIn(before: seq<CheckResult>, incoming: seq<CheckResult>, after: seq<CheckResult>) {
    && Filter(IsRegistryCheck, after) == Filter(IsRegistryCheck, incoming)
    && var kept := Filter(IsOtherCheck, before);
       Filter(IsOtherCheck, after) == kept + WithoutIds(Filter(IsOtherCheck, incoming), CheckIds(kept))
  }

  lemma MergedEntry(prev: CredentialResult, ob: ObResult)
    ensures var after := MergeCredential(prev, ob);
            && (after.verified <==> prev.verified && ob.verified)
            && after.verifiableCredential == prev.verifiableCredential
            && ChecksTakeIn(prev.results, NormalizeChecks(ob.results), after.results)
            && SummaryTakesIn(prev.summary, ob.summary, after.summary)
  {
    hide MergeResults, Filter, NormalizeChecks, FirstWithId, SummaryUnion;
    MergeResultsParts(prev.results, NormalizeChecks(ob.results));
    SummaryUnionIds(prev.summary, ob.summary);
    if UniqueIds(prev.summary) { SummaryUnionUnique(prev.summary, ob.summary); }
    forall id
      ensures FirstWithId(SummaryUnion(prev.summary, ob.summary), id) ==
              if FirstWithId(prev.summary, id).Some? then FirstWithId(prev.summary, id) else FirstWithId(ob.summary, id)
    {
      SummaryUnionLookup(prev.summary, ob.summary, id);
    }
  }

  /**
   What the pass leaves of each credential: its verdict falls exactly if the posted one or the answer to its own call
   is negative, its checks and summaries take in that answer, and one that is not recorded or not present is untouched.
   */
  lemma PassOfCredential(verify: Json -> ObResult, r: VerificationResult, indices: seq<nat>, k: nat)
    requires Distinct(indices) && k < |r.credentialResults|
    ensures var before, out := r.credentialResults[k], FoldOpenBadges(verify, r, indices);
            && |out.credentialResults| == |r.credentialResults|
            && var after := out.credentialResults[k];
               && after.verifiableCredential == before.verifiableCredential
               && if k in indices && before.verifiableCredential.Some? then
                    var answer := verify(before.verifiableCredential.value);
                    && (after.verified <==> before.verified && answer.verified)
                    && ChecksTakeIn(before.results, NormalizeChecks(answer.results), after.results)
                    && SummaryTakesIn(before.summary, answer.summary, after.summary)
                  else after == before
  {
    hide FoldOpenBadges, MergeCredential, ChecksTakeIn, SummaryTakesIn, PassVerified;
    FoldIsPass(verify, r, indices);
    var before := r.credentialResults[k];
    if k in indices && before.verifiableCredential.Some? {
      MergedEntry(before, verify(before.verifiableCredential.value));
    }
  }

  /** After any merges: a credential is verified exactly if it was and every verdict merged into it was true. */
  lemma {:induction false} MergesOfCredential(r: VerificationResult, ms: seq<Merge>, k: nat)
    requires k < |r.credentialResults|
    ensures var before, after := r.credentialResults[k], ApplyMerges(r, ms).credentialResults[k];
            && after.verifiableCredential == before.verifiableCredential
            && (after.verified <==>
                  before.verified && forall j :: 0 <= j < |ms| && ms[j].index == k ==> ms[j].ob.verified)
            && ((forall j :: 0 <= j < |ms| ==> ms[j].index != k) ==> after == before)
  {
    hide MergeCredential;
    if ms != [] {
      var init, last := ms[..|ms| - 1], ms[|ms| - 1];
      assert forall j :: 0 <= j < |init| ==> init[j] == ms[j];
      MergesOfCredential(r, init, k);
      MergedEntry(ApplyMerges(r, init).credentialResults[k], last.ob);
    }
  }

  lemma FoldKeepsOverallImpliesEach(verify: Json -> ObResult, r: VerificationResult, indices: seq<nat>)
    requires OverallImpliesEach(r) && Distinct(indices)
    ensures OverallImpliesEach(FoldOpenBadges(verify, r, indices))
  {
    FoldIsPass(verify, r, indices);
    var out := FoldOpenBadges(verify, r, indices);
    if out.verified {
      forall k | 0 <= k < |out.credentialResults| ensures out.credentialResults[k].verified {
        if k in indices {
          assert CredentialAt(r, k) == r.credentialResults[k].verifiableCredential;
        }
      }
    }
  }
}
