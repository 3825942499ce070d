/**
 The claims matcher of the verify workflow: extract values under joined path keys, then look the
 required keys up (src/workflows/verifyWorkflow.ts, lines 190-255).
 */
module ClaimsMatching {
  import opened Wrappers
  import opened Joining
  import opened VerificationResults
  import opened VerifyTasks

  /** `String(value)`. */
  function TextOf(v: Json): string {
    if v.Null? then "null" else v.text
  }

  /** The value at a path, walking properties of objects only. */
  function Resolve(v: Json, path: seq<string>): Option<Json> {
    if path == [] then Some(v)
    else if v.Object? && path[0] in v.props then Resolve(v.props[path[0]], path[1..])
    else None
  }

  lemma {:induction false} ResolveSnoc(v: Json, path: seq<string>, segment: string)
    ensures Resolve(v, path + [segment]) ==
            var at := Resolve(v, path);
            if at.Some? && at.value.Object? && segment in at.value.props then Some(at.value.props[segment]) else None
  {
    if path == [] {
      assert [segment][1..] == [];
      assert path + [segment] == [segment];
    } else {
      assert (path + [segment])[0] == path[0] && (path + [segment])[1..] == path[1..] + [segment];
      if v.Object? && path[0] in v.props {
        ResolveSnoc(v.props[path[0]], path[1..], segment);
      }
    }
  }

  /** `path.join('.')` */
  function PathKey(path: seq<string>): string {
    Join(path, '.')
  }

  // ----- extraction --------------------------------------------------------

  /** The extracted values after the claims in order; a later claim with the same key overwrites. */
  function Extracted(credential: Json, claims: seq<DcqlClaim>): map<string, Json> {
    if claims == [] then map[]
    else
      var before := Extracted(credential, claims[..|claims| - 1]);
      var path := claims[|claims| - 1].path;
      if path != [] && Resolve(credential, path).Some? then before[PathKey(path) := Resolve(credential, path).value]
      else before
  }

  method ExtractCredentialClaims(credential: Json, claims: seq<DcqlClaim>) returns (extracted: map<string, Json>)
    ensures extracted == Extracted(credential, claims)
  {
    extracted := map[];
    for n := 0 to |claims|
      invariant extracted == Extracted(credential, claims[..n])
    {
      assert claims[..n + 1][..n] == claims[..n];
      var path := claims[n].path;
      if path == [] {
        continue;
      }
      var value := credential;
      var pathExists := true;
      var i := 0;
      while i < |path| && pathExists
        invariant 0 <= i <= |path|
        invariant pathExists ==> Resolve(credential, path[..i]) == Some(value)
        invariant !pathExists ==> Resolve(credential, path).None?
      {
        assert path[..i + 1] == path[..i] + [path[i]];
        ResolveSnoc(credential, path[..i], path[i]);
        if value.Object? && path[i] in value.props {
          value := value.props[path[i]];
        } else {
          pathExists := false;
          ResolveBeyond(credential, path[..i + 1], path[i + 1..]);
          assert path[..i + 1] + path[i + 1..] == path;
        }
        i := i + 1;
      }
      if pathExists {
        assert path[..i] == path;
        extracted := extracted[PathKey(path) := value];
      }
    }
    assert claims[..|claims|] == claims;
  }

  lemma {:induction false} ResolveBeyond(v: Json, path: seq<string>, more: seq<string>)
    requires Resolve(v, path).None?
    ensures Resolve(v, path + more).None?
  {
    assert path != [];
    assert (path + more)[0] == path[0] && (path + more)[1..] == path[1..] + more;
    if v.Object? && path[0] in v.props {
      ResolveBeyond(v.props[path[0]], path[1..], more);
    }
  }

  // ----- matching ----------------------------------------------------------

  predicate Allowed(claim: DcqlClaim, value: Json) {
    claim.values == [] || TextOf(value) in claim.values
  }

  predicate FoundUnderKey(extracted: map<string, Json>, claim: DcqlClaim) {
    claim.path == [] || (PathKey(claim.path) in extracted && Allowed(claim, extracted[PathKey(claim.path)]))
  }

  /** The keys of the claims not found, in order. */
  function MissingKeys(extracted: map<string, Json>, required: seq<DcqlClaim>): seq<string> {
    if required == [] then []
    else
      var last := required[|required| - 1];
      MissingKeys(extracted, required[..|required| - 1]) + if FoundUnderKey(extracted, last) then []
                                                           else [PathKey(last.path)]
  }

  method MatchClaimsAgainstRequirements(extracted: map<string, Json>, required: seq<DcqlClaim>)
    returns (matched: bool, missing: seq<string>)
    ensures matched <==> forall k :: 0 <= k < |required| ==> FoundUnderKey(extracted, required[k])
    ensures matched <==> missing == []
    ensures missing == MissingKeys(extracted, required)
  {
    missing := [];
    for n := 0 to |required|
      invariant missing == [] <==> forall k :: 0 <= k < n ==> FoundUnderKey(extracted, required[k])
      invariant missing == MissingKeys(extracted, required[..n])
    {
      assert required[..n + 1][..n] == required[..n];
      var claim := required[n];
      if claim.path == [] {
        continue;
      }
      var pathKey := PathKey(claim.path);
      if pathKey !in extracted {
        missing := missing + [pathKey];
        continue;
      }
      var value := extracted[pathKey];
      if |claim.values| > 0 && TextOf(value) !in claim.values {
        missing := missing + [pathKey];
      }
    }
    assert required[..|required|] == required;
    matched := |missing| == 0;
  }

  /** What the two passes report for one credential. */
  predicate TwoPassMatches(credential: Json, claims: seq<DcqlClaim>) {
    var extracted := Extracted(credential, claims);
    forall k :: 0 <= k < |claims| ==> FoundUnderKey(extracted, claims[k])
  }

  /** The direct check: the claim's own path leads to an allowed value. */
  predicate Satisfies(credential: Json, claim: DcqlClaim) {
    claim.path == [] || (Resolve(credential, claim.path).Some? && Allowed(claim, Resolve(credential, claim.path).value))
  }

  predicate SatisfiesAll(credential: Json, claims: seq<DcqlClaim>) {
    forall k :: 0 <= k < |claims| ==> Satisfies(credential, claims[k])
  }

  /** Claim `k` is the last one that resolves among those sharing its key. */
  ghost predicate LastUnderKey(credential: Json, claims: seq<DcqlClaim>, key: string, k: nat) {
    && k < |claims| && claims[k].path != [] && PathKey(claims[k].path) == key
       && Resolve(credential, claims[k].path).Some?
    && forall j :: k < j < |claims| && claims[j].path != [] && PathKey(claims[j].path) == key ==>
         Resolve(credential, claims[j].path).None?
  }

  /** A key holds the value of the last claim with that key that resolves, and is absent if none does. */
  lemma {:induction false} ExtractedLookup(credential: Json, claims: seq<DcqlClaim>, key: string)
    ensures key in Extracted(credential, claims) <==> exists k: nat :: LastUnderKey(credential, claims, key, k)
    ensures forall k: nat :: LastUnderKey(credential, claims, key, k) ==>
                          key in Extracted(credential, claims)
                          && Extracted(credential, claims)[key] == Resolve(credential, claims[k].path).value
  {
    if claims != [] {
      var n := |claims| - 1;
      var init, last := claims[..n], claims[n];
      ExtractedLookup(credential, init, key);
      if last.path != [] && PathKey(last.path) == key && Resolve(credential, last.path).Some? {
        assert LastUnderKey(credential, claims, key, n);
      } else {
        forall k: nat ensures LastUnderKey(credential, claims, key, k) <==> LastUnderKey(credential, init, key, k) {
          LastUnderInit(credential, claims, key, k);
        }
      }
    }
  }

  lemma LastUnderInit(credential: Json, claims: seq<DcqlClaim>, key: string, k: nat)
    requires claims != []
    requires var last := claims[|claims| - 1];
             !(last.path != [] && PathKey(last.path) == key && Resolve(credential, last.path).Some?)
    ensures LastUnderKey(credential, claims, key, k) <==> LastUnderKey(credential, claims[..|claims| - 1], key, k)
  {
    var init := claims[..|claims| - 1];
    assert forall j :: 0 <= j < |init| ==> init[j] == claims[j];
    if LastUnderKey(credential, init, key, k) {
      assert k < |claims| && claims[k] == init[k];
    }
    if LastUnderKey(credential, claims, key, k) {
      assert k < |init|;
    }
  }

  /** Claim `k` is allowed by the last claim that shares its joined key and resolves, which need not be `k` itself. */
  ghost predicate DecidedByLast(credential: Json, claims: seq<DcqlClaim>, k: nat)
    requires k < |claims|
  {
    claims[k].path == []
    || exists j: nat :: LastUnderKey(credential, claims, PathKey(claims[k].path), j)
                        && Allowed(claims[k], Resolve(credential, claims[j].path).value)
  }

  lemma FoundIsDecided(credential: Json, claims: seq<DcqlClaim>, k: nat)
    requires k < |claims|
    ensures FoundUnderKey(Extracted(credential, claims), claims[k]) <==> DecidedByLast(credential, claims, k)
  {
    hide Extracted, Join, Resolve;
    if claims[k].path != [] {
      ExtractedLookup(credential, claims, PathKey(claims[k].path));
    }
  }

  /** What the matcher decides on every input, faithful keys or not. */
  lemma TwoPassExactly(credential: Json, claims: seq<DcqlClaim>)
    ensures TwoPassMatches(credential, claims) <==>
            forall k :: 0 <= k < |claims| ==> DecidedByLast(credential, claims, k)
  {
    hide FoundUnderKey, DecidedByLast, Extracted;
    forall k | 0 <= k < |claims|
      ensures FoundUnderKey(Extracted(credential, claims), claims[k]) <==> DecidedByLast(credential, claims, k)
    {
      FoundIsDecided(credential, claims, k);
    }
  }

  /** Different nonempty paths have different keys. */
  ghost predicate KeysFaithful(claims: seq<DcqlClaim>) {
    forall i, j ::
      (0 <= i < |claims| && 0 <= j < |claims| && claims[i].path != [] && claims[j].path != []
       && PathKey(claims[i].path) == PathKey(claims[j].path)) ==>
        claims[i].path == claims[j].path
  }

  ghost predicate NoDots(claims: seq<DcqlClaim>) {
    forall i, s :: 0 <= i < |claims| && s in claims[i].path ==> '.' !in s
  }

  lemma NoDotsIsFaithful(claims: seq<DcqlClaim>)
    requires NoDots(claims)
    ensures KeysFaithful(claims)
  {
    forall i, j | 0 <= i < |claims| && 0 <= j < |claims| && claims[i].path != [] && claims[j].path != []
                  && PathKey(claims[i].path) == PathKey(claims[j].path)
      ensures claims[i].path == claims[j].path
    {
      JoinInjective(claims[i].path, claims[j].path, '.');
    }
  }

  /** With faithful keys the two passes decide exactly the direct check. */
  lemma TwoPassIsDirect(credential: Json, claims: seq<DcqlClaim>)
    requires KeysFaithful(claims)
    ensures TwoPassMatches(credential, claims) <==> SatisfiesAll(credential, claims)
  {
    forall k | 0 <= k < |claims| && claims[k].path != []
      ensures FoundUnderKey(Extracted(credential, claims), claims[k]) <==> Satisfies(credential, claims[k])
    {
      var key := PathKey(claims[k].path);
      ExtractedLookup(credential, claims, key);
      if Resolve(credential, claims[k].path).Some? {
        ResolvedHasLast(credential, claims, k);
      }
    }
  }

  lemma ResolvedHasLast(credential: Json, claims: seq<DcqlClaim>, k: nat)
    requires k < |claims| && claims[k].path != [] && Resolve(credential, claims[k].path).Some?
    ensures exists j: nat :: LastUnderKey(credential, claims, PathKey(claims[k].path), j)
    decreases |claims| - k
  {
    var key := PathKey(claims[k].path);
    if !LastUnderKey(credential, claims, key, k) {
      var j :| k < j < |claims| && claims[j].path != [] && PathKey(claims[j].path) == key
               && Resolve(credential, claims[j].path).Some?;
      ResolvedHasLast(credential, claims, j);
    }
  }

  // ----- colliding paths ---------------------------------------------------

  /** The paths part ways before either ends. */
  ghost predicate Diverge(p: seq<string>, q: seq<string>) {
    p != [] && q != [] && (p[0] != q[0] || Diverge(p[1..], q[1..]))
  }

  ghost predicate Collide(a: DcqlClaim, b: DcqlClaim) {
    a.path != [] && b.path != [] && a.path != b.path && PathKey(a.path) == PathKey(b.path)
  }

  lemma {:induction false} SameKeyDiverges(p: seq<string>, q: seq<string>)
    requires p != [] && q != [] && p != q && PathKey(p) == PathKey(q)
    ensures Diverge(p, q)
  {
    HeadOfJoin(p, '.');
    HeadOfJoin(q, '.');
    if p[0] == q[0] {
      assert p == [p[0]] + p[1..] && q == [q[0]] + q[1..];
      assert |p| > 1 && |q| > 1;
      assert PathKey(p)[|p[0]| + 1..] == PathKey(p[1..]);
      assert PathKey(q)[|q[0]| + 1..] == PathKey(q[1..]);
      SameKeyDiverges(p[1..], q[1..]);
    }
  }

  /** A credential with `leaf` under `path` and nothing else. */
  ghost function Nest(path: seq<string>, leaf: Json): Json {
    if path == [] then leaf else Object("", map[path[0] := Nest(path[1..], leaf)])
  }

  lemma {:induction false} NestResolves(p: seq<string>, leaf: Json)
    ensures Resolve(Nest(p, leaf), p) == Some(leaf)
  {
    if p != [] {
      NestResolves(p[1..], leaf);
    }
  }

  lemma {:induction false} NestMisses(p: seq<string>, leaf: Json, q: seq<string>)
    requires Diverge(p, q)
    ensures Resolve(Nest(p, leaf), q).None?
  {
    if p[0] == q[0] {
      NestMisses(p[1..], leaf, q[1..]);
    }
  }

  /** A credential with `x` under `p` and `y` under `q`. */
  ghost function Fork(p: seq<string>, x: Json, q: seq<string>, y: Json): Json
    requires Diverge(p, q)
  {
    if p[0] == q[0] then Object("", map[p[0] := Fork(p[1..], x, q[1..], y)])
    else Object("", map[p[0] := Nest(p[1..], x), q[0] := Nest(q[1..], y)])
  }

  lemma {:induction false} ForkResolves(p: seq<string>, x: Json, q: seq<string>, y: Json)
    requires Diverge(p, q)
    ensures Resolve(Fork(p, x, q, y), p) == Some(x) && Resolve(Fork(p, x, q, y), q) == Some(y)
  {
    if p[0] == q[0] {
      ForkResolves(p[1..], x, q[1..], y);
    } else {
      NestResolves(p[1..], x);
      NestResolves(q[1..], y);
    }
  }

  /**
   One claim on one value: it matches exactly if the path is there and no value is asked for or the text of the value is
   asked for, which for `null` is "null" and for everything else its own.
   */
  lemma OneClaimMatchesIff(path: seq<string>, leaf: Json, other: seq<string>, values: seq<string>)
    requires path != [] && Diverge(path, other)
    ensures var credential := Nest(path, leaf);
            && (TwoPassMatches(credential, [DcqlClaim(path, values)]) <==>
                  values == []
                  || match leaf
                     case Null => "null" in values
                     case Str(text) => text in values
                     case Scalar(text) => text in values
                     case Object(text, _) => text in values)
            && !TwoPassMatches(credential, [DcqlClaim(other, values)])
  {
    NestResolves(path, leaf);
    NestMisses(path, leaf, other);
    OneExtracted(Nest(path, leaf), DcqlClaim(path, values));
    OneExtracted(Nest(path, leaf), DcqlClaim(other, values));
    assert [DcqlClaim(path, values)][0] == DcqlClaim(path, values);
    assert [DcqlClaim(other, values)][0] == DcqlClaim(other, values);
  }

  lemma OneExtracted(credential: Json, claim: DcqlClaim)
    requires claim.path != []
    ensures Extracted(credential, [claim]) ==
            match Resolve(credential, claim.path)
            case None => map[]
            case Some(value) => map[PathKey(claim.path) := value]
  {
    assert [claim][..0] == [];
  }

  /** What two colliding claims extract: the second one's value if it resolves, else the first one's. */
  lemma CollidingExtract(credential: Json, a: DcqlClaim, b: DcqlClaim)
    requires Collide(a, b) && Resolve(credential, a.path).Some?
    ensures var at := Resolve(credential, b.path);
            Extracted(credential, [a, b]) ==
            map[PathKey(a.path) := if at.Some? then at.value else Resolve(credential, a.path).value]
  {
    hide PathKey, Resolve;
    assert [a, b][..1] == [a] && [a][..0] == [];
    assert Extracted(credential, [a]) == map[PathKey(a.path) := Resolve(credential, a.path).value];
  }

  /** Where both claims allow some value, a credential with the first claim alone is reported to match both. */
  lemma MatchedThroughOtherKey(a: DcqlClaim, b: DcqlClaim, text: string)
    requires Collide(a, b) && Allowed(a, Str(text)) && Allowed(b, Str(text))
    ensures var credential := Nest(a.path, Str(text));
            TwoPassMatches(credential, [a, b]) && !SatisfiesAll(credential, [a, b])
  {
    hide PathKey, Resolve, Nest, Extracted;
    var credential := Nest(a.path, Str(text));
    SameKeyDiverges(a.path, b.path);
    NestResolves(a.path, Str(text));
    NestMisses(a.path, Str(text), b.path);
    CollidingExtract(credential, a, b);
    assert !Satisfies(credential, [a, b][1]);
  }

  /**
   Where the second claim allows a value the first does not, a credential that satisfies both is reported not to match.
   */
  lemma SatisfiedButNotMatched(a: DcqlClaim, b: DcqlClaim, x: string, y: string)
    requires Collide(a, b) && Allowed(a, Str(x)) && Allowed(b, Str(y)) && !Allowed(a, Str(y))
    ensures exists credential: Json :: SatisfiesAll(credential, [a, b]) && !TwoPassMatches(credential, [a, b])
  {
    hide PathKey, Resolve, Fork, Extracted;
    SameKeyDiverges(a.path, b.path);
    var credential := Fork(a.path, Str(x), b.path, Str(y));
    ForkResolves(a.path, Str(x), b.path, Str(y));
    CollidingExtract(credential, a, b);
    assert !FoundUnderKey(Extracted(credential, [a, b]), [a, b][0]);
    assert SatisfiesAll(credential, [a, b]);
  }

  /**
   For two claims, whatever values they allow, extract-then-match is the direct check on every credential exactly when
   their keys are faithful: every pair of different nonempty paths with one key is told wrong on some credential.
   */
  lemma TwoClaimsAgreeIff(a: DcqlClaim, b: DcqlClaim)
    ensures (forall credential: Json :: TwoPassMatches(credential, [a, b]) <==> SatisfiesAll(credential, [a, b])) <==>
              KeysFaithful([a, b])
  {
    hide TwoPassMatches, SatisfiesAll, PathKey, Nest;
    if KeysFaithful([a, b]) {
      forall credential: Json ensures TwoPassMatches(credential, [a, b]) <==> SatisfiesAll(credential, [a, b]) {
        TwoPassIsDirect(credential, [a, b]);
      }
    } else {
      assert Collide(a, b);
      var x, y := if a.values == [] then "" else a.values[0], if b.values == [] then "" else b.values[0];
      if Allowed(a, Str(y)) {
        MatchedThroughOtherKey(a, b, y);
        assert TwoPassMatches(Nest(a.path, Str(y)), [a, b]) != SatisfiesAll(Nest(a.path, Str(y)), [a, b]);
      } else {
        SatisfiedButNotMatched(a, b, x, y);
      }
    }
  }

  /** Only a dot inside a segment makes keys collide, and it does: a value is found under another claim's path. */
  lemma DottedPathsCollide()
    ensures exists credential: Json, claims: seq<DcqlClaim> ::
              TwoPassMatches(credential, claims) && !SatisfiesAll(credential, claims)
  {
    var nested, flat := DcqlClaim(["a", "b"], []), DcqlClaim(["a.b"], []);
    assert PathKey(["a", "b"]) == "a.b" by {
      assert ["a", "b"][1..] == ["b"];
    }
    assert nested.path[0] != flat.path[0] by {
      assert |"a"| != |"a.b"|;
    }
    MatchedThroughOtherKey(nested, flat, "v");
  }
}
