/**
 Credential issuance on one claim exchange: the Pre-Authorized Code Flow of OpenID for Verifiable Credential
 Issuance 1.0 (sections 4.1, 6, 7 and 8) next to the VC-API flow
 (src/oid4vci/, src/workflows/claimWorkflow.ts, src/exchanges.ts).
 Requests are handled one at a time.
 */
module Oid4vci {
  import opened Wrappers
  import opened VerificationResults
  import opened VerifyTasks

  /** Codes, tokens and nonces: random strings in the source, drawn from a counter here, so a new one is unused. */
  type Token = nat

  datatype Oid4vciState = Oid4vciState(
    preAuthorizedCode: Option<Token>,
    preAuthorizedCodeExpiresAt: Option<int>,
    codeUsed: bool,
    accessToken: Option<Token>,
    accessTokenExpiresAt: Option<int>,
    cNonce: Option<Token>,
    cNonceExpiresAt: Option<int>,
    nonceUsed: bool)

  const NO_OID4VCI := Oid4vciState(None, None, false, None, None, None, None, false)

  /** `issued` is `variables.results.default.verifiableCredential`. */
  datatype ClaimExchange = ClaimExchange(
    state: ExchangeState,
    expires: int,
    oid4vci: Oid4vciState,
    issued: Option<seq<Json>>)

  datatype StateResult<T> = Ok(value: T) | Err(error: string)

  /** An absent expiry counts as lapsed; an expiry is no longer valid at its own instant. */
  predicate IsExpired(at: Option<int>, now: int) {
    at.None? || at.value <= now
  }

  function Future(now: int, ttlSeconds: int): Option<int> {
    Some(now + ttlSeconds * 1000)
  }

  // ----- transitions and validators ---------------------------------------

  function EnsurePreAuthorizedCode(e: ClaimExchange, ttlSeconds: int, now: int,
                                   fresh': Token): (ClaimExchange, Token, bool) {
    var cur := e.oid4vci;
    if cur.preAuthorizedCode.Some? && !cur.codeUsed && !IsExpired(cur.preAuthorizedCodeExpiresAt, now)
    then (e, cur.preAuthorizedCode.value, false)
    else (e.(oid4vci := cur.(preAuthorizedCode := Some(fresh'), preAuthorizedCodeExpiresAt := Future(now, ttlSeconds),
                             codeUsed := false)),
          fresh', true)
  }

  function RedeemPreAuthorizedCode(e: ClaimExchange, presented: Token, now: int): StateResult<ClaimExchange> {
    var cur := e.oid4vci;
    if cur.preAuthorizedCode.None? then Err("invalid_request")
    else if cur.codeUsed then Err("invalid_grant")
    else if IsExpired(cur.preAuthorizedCodeExpiresAt, now) then Err("invalid_grant")
    else if cur.preAuthorizedCode != Some(presented) then Err("invalid_grant")
    else Ok(e.(oid4vci := cur.(codeUsed := true)))
  }

  function SetAccessToken(e: ClaimExchange, ttlSeconds: int, now: int, fresh': Token): ClaimExchange {
    e.(oid4vci := e.oid4vci.(accessToken := Some(fresh'), accessTokenExpiresAt := Future(now, ttlSeconds)))
  }

  function ValidateAccessToken(e: ClaimExchange, presented: Token, now: int): StateResult<bool> {
    var cur := e.oid4vci;
    if cur.accessToken.None? then Err("invalid_token")
    else if IsExpired(cur.accessTokenExpiresAt, now) then Err("invalid_token")
    else if cur.accessToken != Some(presented) then Err("invalid_token")
    else Ok(true)
  }

  function MintNonce(e: ClaimExchange, ttlSeconds: int, now: int, fresh': Token): ClaimExchange {
    e.(oid4vci := e.oid4vci.(cNonce := Some(fresh'), cNonceExpiresAt := Future(now, ttlSeconds), nonceUsed := false))
  }

  function ValidateAndConsumeNonce(e: ClaimExchange, presented: Token, now: int): StateResult<ClaimExchange> {
    var cur := e.oid4vci;
    if cur.cNonce.None? then Err("invalid_nonce")
    else if cur.nonceUsed then Err("invalid_nonce")
    else if IsExpired(cur.cNonceExpiresAt, now) then Err("invalid_nonce")
    else if cur.cNonce != Some(presented) then Err("invalid_nonce")
    else Ok(e.(oid4vci := cur.(nonceUsed := true)))
  }

  // ----- requests ----------------------------------------------------------

  /** A token request body; `code` is `None` when absent or empty. */
  datatype TokenRequest = MalformedToken | TokenRequest(preAuthorizedGrant: bool, code: Option<Token>)

  /** `verifyDIDAuth`: throws on a malformed presentation, refuses, or names the key's controller if it can. */
  datatype DidAuth = DidAuthThrew | NotVerified | Verified(holder: Option<string>)

  /** Building, status allocation and signing: any of them may throw, or no template is configured. */
  datatype Signing = Signed(credential: Json) | NoTemplate | SigningThrew(status: nat)

  /** A parsed di_vp: its challenge, its self-asserted holder, and what the external calls answer. */
  datatype Proof = Proof(challenge: Option<Token>, assertedHolder: Option<string>, auth: DidAuth, signing: Signing)

  datatype CredentialRequest = MalformedCredentialRequest | CredentialRequest(knownConfiguration: bool, proof: Proof)

  datatype Request =
    | OfferGet
    | TokenPost(token: TokenRequest)
    | NoncePost
    | CredentialPost(accessToken: Option<Token>, body: CredentialRequest)
    | VcApiEmptyPost
    | VcApiPost(proof: Proof)

  datatype Response =
    | Offer(code: Token)
    | TokenIssued(token: Token)
    | NonceIssued(nonce: Token)
    | CredentialIssued(credential: Json)
    | PresentationRequested
    | Redirected
    | Refused(status: nat, error: string)

  const ACCESS_TOKEN_TTL_SECONDS := 600
  const NONCE_TTL_SECONDS := 300

  function Min(a: int, b: int): int { if a < b then a else b }

  function Max(a: int, b: int): int { if a < b then b else a }

  /** The time to live of a code: ten minutes, cut to what the exchange has left but at least a second. */
  function CodeTtl(expires: int, now: int): int {
    Min(600, Max(1, (expires - now) / 1000))
  }

  function HandleOffer(e: ClaimExchange, now: int, fresh': Token): (ClaimExchange, Response) {
    var (next, code, _) := EnsurePreAuthorizedCode(e, CodeTtl(e.expires, now), now, fresh');
    (next, Offer(code))
  }

  function HandleToken(e: ClaimExchange, body: TokenRequest, now: int, fresh': Token): (ClaimExchange, Response) {
    if body.MalformedToken? then (e, Refused(400, "invalid_request"))
    else if !body.preAuthorizedGrant then (e, Refused(400, "unsupported_grant_type"))
    else if body.code.None? then (e, Refused(400, "invalid_request"))
    else match RedeemPreAuthorizedCode(e, body.code.value, now)
      case Err(error) => (e, Refused(400, if error == "invalid_request" then "invalid_request" else "invalid_grant"))
      case Ok(redeemed) => (SetAccessToken(redeemed, ACCESS_TOKEN_TTL_SECONDS, now, fresh'), TokenIssued(fresh'))
  }

  /** The only completing write: state and credential together. */
  function CompleteWith(e: ClaimExchange, credential: Json): ClaimExchange {
    e.(state := Complete, issued := Some([credential]))
  }

  function HandleCredential(e: ClaimExchange, accessToken: Option<Token>, body: CredentialRequest,
                            now: int): (ClaimExchange, Response) {
    if accessToken.None? || ValidateAccessToken(e, accessToken.value, now).Err? then (e, Refused(401, "invalid_token"))
    else if e.state == Complete then (e, Refused(400, "credential_request_denied"))
    else if body.MalformedCredentialRequest? then (e, Refused(400, "invalid_credential_request"))
    else if !body.knownConfiguration then (e, Refused(400, "unknown_credential_configuration"))
    else if body.proof.challenge.None? then (e, Refused(400, "invalid_proof"))
    else match ValidateAndConsumeNonce(e, body.proof.challenge.value, now)
      case Err(_) => (e, Refused(400, "invalid_nonce"))
      case Ok(working) =>
        match body.proof.auth
        case DidAuthThrew => (e, Refused(400, "structure"))
        case NotVerified => (e, Refused(400, "invalid_proof"))
        case Verified(holder) =>
          if holder.None? then (e, Refused(400, "invalid_proof"))
          else if body.proof.assertedHolder.Some?
                  && body.proof.assertedHolder != holder then (e, Refused(400, "invalid_proof"))
          else match body.proof.signing
            case Signed(credential) => (CompleteWith(working, credential), CredentialIssued(credential))
            case NoTemplate => (e, Refused(400, "credential_request_denied"))
            case SigningThrew(status) => (e, Refused(status, "signing"))
  }

  function HandleVcApi(e: ClaimExchange, proof: Proof): (ClaimExchange, Response) {
    if e.state == Complete then (e, Refused(400, "completed"))
    else match proof.auth
      case DidAuthThrew => (e, Refused(400, "structure"))
      case NotVerified => (e, Refused(401, "invalid DIDAuth"))
      case Verified(holder) =>
        if proof.assertedHolder.Some? && holder.Some? && proof.assertedHolder != holder
        then (e, Refused(401, "holder mismatch"))
        else if holder.None? then (e, Refused(401, "no holder"))
        else match proof.signing
          case Signed(credential) => (CompleteWith(e, credential), CredentialIssued(credential))
          case NoTemplate => (e, Redirected)
          case SigningThrew(status) => (e, Refused(status, "signing"))
  }

  function HandleEmpty(e: ClaimExchange): (ClaimExchange, Response) {
    if e.state == Complete then (e, Refused(400, "completed"))
    else if e.state == Pending then (e.(state := Active), PresentationRequested)
    else (e, PresentationRequested)
  }

  function Handle(e: ClaimExchange, request: Request, now: int, fresh': Token): (ClaimExchange, Response) {
    match request
    case OfferGet => HandleOffer(e, now, fresh')
    case TokenPost(body) => HandleToken(e, body, now, fresh')
    case NoncePost => (MintNonce(e, NONCE_TTL_SECONDS, now, fresh'), NonceIssued(fresh'))
    case CredentialPost(accessToken, body) => HandleCredential(e, accessToken, body, now)
    case VcApiEmptyPost => HandleEmpty(e)
    case VcApiPost(proof) => HandleVcApi(e, proof)
  }

  // ----- runs --------------------------------------------------------------

  /** A secret handed out, and when. */
  datatype Issued = Issued(value: Token, at: int)

  /** The stored exchange and, as history, what the responses so far handed out; `offered` has each new code once. */
  datatype World = World(
    stored: Option<ClaimExchange>,
    now: int,
    nextToken: Token,
    offered: seq<Issued>,
    redeemed: seq<Token>,
    tokens: seq<Issued>,
    nonces: seq<Issued>,
    credentials: seq<Json>)

  datatype Step = Request(request: Request) | Tick(ms: nat) | Evict

  /** The code a successful token request redeemed. */
  function RedeemedBy(request: Request, response: Response): Option<Token> {
    if request.TokenPost? && request.token.TokenRequest? && response.TokenIssued? then request.token.code else None
  }

  function Next(w: World, step: Step): World {
    match step
    case Tick(ms) => w.(now := w.now + ms)
    case Evict => w.(stored := None)
    case Request(request) =>
      if w.stored.None? then w
      else
        var (e, response) := Handle(w.stored.value, request, w.now, w.nextToken);
        w.(stored := Some(e), nextToken := w.nextToken + 1,
        offered := if response.Offer? && response.code == w.nextToken then w.offered + [Issued(response.code, w.now)]
                   else w.offered,
        redeemed := var code := RedeemedBy(request, response); if code.Some? then w.redeemed + [code.value]
                                                               else w.redeemed,
        tokens := if response.TokenIssued? then w.tokens + [Issued(response.token, w.now)] else w.tokens,
        nonces := if response.NonceIssued? then w.nonces + [Issued(response.nonce, w.now)] else w.nonces,
        credentials := if response.CredentialIssued? then w.credentials + [response.credential] else w.credentials)
  }

  function Run(w: World, steps: seq<Step>): World {
    if steps == [] then w else Next(Run(w, steps[..|steps| - 1]), steps[|steps| - 1])
  }

  /** A claim exchange as `createExchangeClaim` makes it. */
  function Created(expires: int, now: int): World {
    World(Some(ClaimExchange(Pending, expires, NO_OID4VCI, None)), now, 0, [], [], [], [], [])
  }

  lemma {:induction false} RunConcat(w: World, a: seq<Step>, b: seq<Step>)
    ensures Run(w, a + b) == Run(Run(w, a), b)
  {
    if b == [] {
      assert a + b == a;
    } else {
      var init := b[..|b| - 1];
      assert (a + b)[..|a + b| - 1] == a + init;
      RunConcat(w, a, init);
    }
  }

  // ----- the invariant -----------------------------------------------------

  ghost predicate WasOffered(w: World, code: Token) {
    exists k :: 0 <= k < |w.offered| && w.offered[k].value == code
  }

  ghost predicate CodesOk(w: World) {
    && Distinct(w.redeemed)
    && |w.tokens| == |w.redeemed|
    && (forall t :: t in w.redeemed ==> t < w.nextToken && WasOffered(w, t))
    && (forall k :: 0 <= k < |w.offered| ==> w.offered[k].value < w.nextToken)
  }

  function Last(s: seq<Issued>): Option<Issued> {
    if s == [] then None else Some(s[|s| - 1])
  }

  function ValueOf(i: Option<Issued>): Option<Token> {
    if i.None? then None else Some(i.value.value)
  }

  function LapseOf(i: Option<Issued>, ttlSeconds: int): Option<int> {
    if i.None? then None else Future(i.value.at, ttlSeconds)
  }

  /** Every secret on file is the last one handed out, lapsing its lifetime after it was. */
  ghost predicate SecretsOk(w: World, s: Oid4vciState, expires: int) {
    && s.preAuthorizedCode == ValueOf(Last(w.offered))
    && s.preAuthorizedCodeExpiresAt == (if w.offered == [] then None
                                        else LapseOf(Last(w.offered), CodeTtl(expires, Last(w.offered).value.at)))
    && s.accessToken == ValueOf(Last(w.tokens))
       && s.accessTokenExpiresAt == LapseOf(Last(w.tokens), ACCESS_TOKEN_TTL_SECONDS)
    && s.cNonce == ValueOf(Last(w.nonces)) && s.cNonceExpiresAt == LapseOf(Last(w.nonces), NONCE_TTL_SECONDS)
  }

  ghost predicate ExchangeOk(w: World, e: ClaimExchange) {
    var s := e.oid4vci;
    && SecretsOk(w, s, e.expires)
    && (s.preAuthorizedCode.Some? ==> (s.codeUsed <==> s.preAuthorizedCode.value in w.redeemed))
    && (s.nonceUsed ==> e.state == Complete)
    && (e.state == Complete <==> |w.credentials| == 1)
    && e.issued == (if e.state == Complete && |w.credentials| == 1 then Some(w.credentials) else None)
  }

  ghost predicate Inv(w: World) {
    && CodesOk(w)
    && |w.credentials| <= 1
    && (w.stored.Some? ==> ExchangeOk(w, w.stored.value))
  }

  /** Codes redeemed and tokens issued stay as they are. */
  lemma CodesFrame(w: World, w': World)
    requires CodesOk(w) && w'.redeemed == w.redeemed && |w'.tokens| == |w.tokens| && w.nextToken <= w'.nextToken
    requires w.offered <= w'.offered
    requires forall k :: |w.offered| <= k < |w'.offered| ==> w'.offered[k].value < w'.nextToken
    ensures CodesOk(w')
  {
    hide Distinct;
    forall t | t in w'.redeemed ensures WasOffered(w', t) {
      assert WasOffered(w, t);
      var k :| 0 <= k < |w.offered| && w.offered[k].value == t;
      assert w'.offered[k].value == t;
    }
  }

  lemma OfferInv(w: World)
    requires Inv(w) && w.stored.Some?
    ensures Inv(Next(w, Request(OfferGet)))
  {
    hide CodesOk, CodeTtl;
    var e := w.stored.value;
    var w' := Next(w, Request(OfferGet));
    assert CodesOk(w') by {
      CodesBelow(w);
      CodesFrame(w, w');
    }
    NewCodeIsUnused(w);
  }

  lemma CodesBelow(w: World)
    requires CodesOk(w)
    ensures forall k :: 0 <= k < |w.offered| ==> w.offered[k].value < w.nextToken
  {
  }

  lemma NewCodeIsUnused(w: World)
    requires CodesOk(w)
    ensures w.nextToken !in w.redeemed
    ensures Last(w.offered).Some? ==> Last(w.offered).value.value != w.nextToken
  {
  }

  /** One more code is redeemed: it was offered and is new to the redeemed ones. */
  lemma RedeemCodesOk(w: World, w': World, code: Token)
    requires CodesOk(w) && WasOffered(w, code) && code !in w.redeemed
    requires w'.redeemed == w.redeemed + [code] && |w'.tokens| == |w.tokens| + 1
    requires w'.offered == w.offered && w.nextToken <= w'.nextToken
    ensures CodesOk(w')
  {
    assert code < w.nextToken;
    assert forall i :: 0 <= i < |w.redeemed| ==> w.redeemed[i] in w.redeemed;
    forall t | t in w'.redeemed ensures t < w'.nextToken && WasOffered(w', t) {
      assert t in w.redeemed || t == code;
      assert WasOffered(w, t);
    }
  }

  lemma TokenInv(w: World, body: TokenRequest)
    requires Inv(w) && w.stored.Some?
    ensures Inv(Next(w, Request(TokenPost(body))))
  {
    hide CodesOk, CodeTtl, WasOffered;
    var e := w.stored.value;
    var w' := Next(w, Request(TokenPost(body)));
    if HandleToken(e, body, w.now, w.nextToken).1.TokenIssued? {
      var code := body.code.value;
      assert Last(w.offered).Some? && Last(w.offered).value.value == code;
      assert WasOffered(w, code) by { LastWasOffered(w); }
      RedeemCodesOk(w, w', code);
    } else {
      CodesFrame(w, w');
    }
  }

  lemma LastWasOffered(w: World)
    requires w.offered != []
    ensures WasOffered(w, Last(w.offered).value.value)
  {
    assert w.offered[|w.offered| - 1].value == Last(w.offered).value.value;
  }

  lemma IssueInv(w: World, request: Request)
    requires Inv(w) && w.stored.Some? && (request.CredentialPost? || request.VcApiPost?)
    ensures Inv(Next(w, Request(request)))
  {
    hide CodesOk, CodeTtl, HandleCredential, HandleVcApi;
    var e := w.stored.value;
    var w' := Next(w, Request(request));
    var (e', response) := Handle(e, request, w.now, w.nextToken);
    IssueOrRefuse(e, request, w.now, w.nextToken);
    assert CodesOk(w') by { CodesFrame(w, w'); }
    if response.CredentialIssued? {
      IssuedIsComplete(e, request, w.now, w.nextToken);
      assert w.credentials == [];
      assert w'.credentials == [response.credential];
    } else {
      assert e' == e by { RefusalStoresNothing(e, request, w.now, w.nextToken); }
    }
  }

  lemma IssueOrRefuse(e: ClaimExchange, request: Request, now: int, fresh': Token)
    requires request.CredentialPost? || request.VcApiPost?
    ensures var response := Handle(e, request, now,
                                   fresh').1; response.CredentialIssued? || response.Refused? || response.Redirected?
  {
  }

  /** What an issuing request leaves: the exchange completed with the credential, at most its nonce used. */
  lemma IssuedIsComplete(e: ClaimExchange, request: Request, now: int, fresh': Token)
    requires Handle(e, request, now, fresh').1.CredentialIssued?
    ensures e.state != Complete
    ensures var (e', response) := Handle(e, request, now, fresh');
            e' == CompleteWith(e, response.credential).(oid4vci := e.oid4vci.(nonceUsed := e'.oid4vci.nonceUsed))
  {
  }

  lemma OtherInv(w: World, request: Request)
    requires Inv(w) && w.stored.Some? && (request.NoncePost? || request.VcApiEmptyPost?)
    ensures Inv(Next(w, Request(request)))
  {
    hide CodesOk, CodeTtl;
    CodesFrame(w, Next(w, Request(request)));
  }

  lemma NextInv(w: World, step: Step)
    requires Inv(w)
    ensures Inv(Next(w, step))
  {
    hide Handle, ExchangeOk;
    match step
    case Tick(ms) => TickInv(w, ms);
    case Evict => CodesFrame(w, Next(w, step));
    case Request(request) =>
      if w.stored.Some? {
        match request
        case OfferGet => OfferInv(w);
        case TokenPost(body) => TokenInv(w, body);
        case CredentialPost(_, _) => IssueInv(w, request);
        case VcApiPost(_) => IssueInv(w, request);
        case _ => OtherInv(w, request);
      }
  }

  lemma TickInv(w: World, ms: nat)
    requires Inv(w)
    ensures Inv(w.(now := w.now + ms))
  {
    hide CodesOk;
    CodesFrame(w, w.(now := w.now + ms));
  }

  lemma {:induction false} RunInv(w: World, steps: seq<Step>)
    requires Inv(w)
    ensures Inv(Run(w, steps))
  {
    if steps != [] {
      RunInv(w, steps[..|steps| - 1]);
      NextInv(Run(w, steps[..|steps| - 1]), steps[|steps| - 1]);
    }
  }

  // ----- what every run of requests promises ------------------------------

  /**
   At most one credential is issued, over both flows together, and the stored exchange is `complete` with exactly it.
   */
  lemma OneCredential(expires: int, now: int, steps: seq<Step>)
    ensures var w := Run(Created(expires, now), steps);
            && |w.credentials| <= 1
            && (w.stored.Some? ==>
                  && (w.stored.value.state == Complete <==> |w.credentials| == 1)
                  && w.stored.value.issued == if |w.credentials| == 1 then Some(w.credentials) else None)
  {
    RunInv(Created(expires, now), steps);
  }

  lemma CompleteStays(w: World, step: Step, credential: Json)
    requires Inv(w) && w.stored.Some? && w.stored.value.state == Complete && w.stored.value.issued == Some([credential])
    ensures Next(w, step).stored.Some? ==>
              Next(w, step).stored.value.state == Complete && Next(w, step).stored.value.issued == Some([credential])
  {
  }

  lemma {:induction false} RunCompleteStays(w: World, steps: seq<Step>, credential: Json)
    requires Inv(w) && (w.stored.Some? ==>
                          w.stored.value.state == Complete && w.stored.value.issued == Some([credential]))
    ensures Run(w, steps).stored.Some? ==>
              Run(w, steps).stored.value.state == Complete && Run(w, steps).stored.value.issued == Some([credential])
  {
    if steps != [] {
      var before := Run(w, steps[..|steps| - 1]);
      RunCompleteStays(w, steps[..|steps| - 1], credential);
      RunInv(w, steps[..|steps| - 1]);
      if before.stored.Some? {
        CompleteStays(before, steps[|steps| - 1], credential);
      }
    }
  }

  /** Once complete with a credential, no later request of either flow changes the state or the credential. */
  lemma CompleteIsFinal(expires: int, now: int, before: seq<Step>, after: seq<Step>)
    requires var w := Run(Created(expires, now), before); w.stored.Some? && w.stored.value.state == Complete
    ensures var w := Run(Created(expires, now), before);
            var w' := Run(Created(expires, now), before + after);
            w'.stored.Some? ==> w'.stored.value.state == Complete && w'.stored.value.issued == w.stored.value.issued
  {
    hide Next, CodesOk;
    var w := Run(Created(expires, now), before);
    RunInv(Created(expires, now), before);
    RunConcat(Created(expires, now), before, after);
    assert w.credentials == [w.credentials[0]];
    RunCompleteStays(w, after, w.credentials[0]);
  }

  /** Each code is redeemed at most once, only codes that were offered are, and one token is issued per redemption. */
  lemma CodesAreSingleUse(expires: int, now: int, steps: seq<Step>)
    ensures var w := Run(Created(expires, now), steps);
            && (forall i, j :: 0 <= i < j < |w.redeemed| ==> w.redeemed[i] != w.redeemed[j])
            && (forall t :: t in w.redeemed ==> WasOffered(w, t))
            && |w.tokens| == |w.redeemed|
  {
    RunInv(Created(expires, now), steps);
  }

  ghost predicate ExpiresIs(w: World, expires: int) {
    w.stored.Some? ==> w.stored.value.expires == expires
  }

  lemma {:induction false} ExpiresIsFixed(w: World, expires: int, steps: seq<Step>)
    requires ExpiresIs(w, expires)
    ensures ExpiresIs(Run(w, steps), expires)
  {
    hide Handle;
    if steps != [] {
      ExpiresIsFixed(w, expires, steps[..|steps| - 1]);
      var before := Run(w, steps[..|steps| - 1]);
      var step := steps[|steps| - 1];
      if before.stored.Some? && step.Request? {
        HandleKeepsExpires(before.stored.value, step.request, before.now, before.nextToken);
      }
    }
  }

  lemma HandleKeepsExpires(e: ClaimExchange, request: Request, now: int, fresh': Token)
    ensures Handle(e, request, now, fresh').0.expires == e.expires
  {
  }

  /** The secret is the last one handed out and its lifetime is not over. */
  predicate IsCurrent(handedOut: seq<Issued>, presented: Token, now: int, ttlSeconds: int) {
    Last(handedOut).Some? && presented == Last(handedOut).value.value
    && now - Last(handedOut).value.at < ttlSeconds * 1000
  }

  /** A presented token is accepted exactly when it is the latest one issued and that was less than ten minutes ago. */
  lemma OnlyLatestTokenValidates(expires: int, now: int, steps: seq<Step>, presented: Token)
    ensures var w := Run(Created(expires, now), steps);
            w.stored.Some? ==>
              (ValidateAccessToken(w.stored.value, presented, w.now).Ok? <==>
                 IsCurrent(w.tokens, presented, w.now, 600))
  {
    RunInv(Created(expires, now), steps);
  }

  /**
   A token request is granted exactly when its code is the latest one offered, was not redeemed, and was offered less
   than its lifetime ago: ten minutes, or what was then left of the exchange but at least a second.
   */
  lemma OnlyLatestCodeIsRedeemed(expires: int, now: int, steps: seq<Step>, code: Token)
    ensures var w := Run(Created(expires, now), steps);
            w.stored.Some? ==>
              (HandleToken(w.stored.value, TokenRequest(true, Some(code)), w.now, w.nextToken).1.TokenIssued? <==>
               && code !in w.redeemed && w.offered != []
               && IsCurrent(w.offered, code, w.now, CodeTtl(expires, Last(w.offered).value.at)))
  {
    hide CodeTtl, Run;
    RunInv(Created(expires, now), steps);
    ExpiresIsFixed(Created(expires, now), expires, steps);
  }

  /** A nonce is stored as used only together with the credential it bought. */
  lemma UsedNonceMeansComplete(expires: int, now: int, steps: seq<Step>)
    ensures var w := Run(Created(expires, now), steps);
            w.stored.Some? && w.stored.value.oid4vci.nonceUsed ==>
              w.stored.value.state == Complete && |w.credentials| == 1
  {
    RunInv(Created(expires, now), steps);
  }

  /** A request that is refused or redirected stores nothing: in particular a failed proof leaves its nonce unused. */
  lemma RefusalStoresNothing(e: ClaimExchange, request: Request, now: int, fresh': Token)
    ensures var (e', response) := Handle(e, request, now, fresh'); response.Refused? || response.Redirected? ==> e' == e
  {
  }

  /**
   What the request itself must bring: the offered configuration and a proof whose signer is known and not contradicted.
   */
  predicate Convincing(body: CredentialRequest) {
    && body.CredentialRequest? && body.knownConfiguration
    && body.proof.auth.Verified? && body.proof.auth.holder.Some?
    && (body.proof.assertedHolder.Some? ==> body.proof.assertedHolder == body.proof.auth.holder)
    && body.proof.signing.Signed?
  }

  lemma HandlerIssuesIff(e: ClaimExchange, accessToken: Option<Token>, body: CredentialRequest, now: int)
    ensures HandleCredential(e, accessToken, body, now).1.CredentialIssued? <==>
            && accessToken.Some? && e.oid4vci.accessToken == accessToken
               && !IsExpired(e.oid4vci.accessTokenExpiresAt, now)
            && e.state != Complete
            && Convincing(body)
            && body.proof.challenge.Some? && e.oid4vci.cNonce == body.proof.challenge
            && !e.oid4vci.nonceUsed && !IsExpired(e.oid4vci.cNonceExpiresAt, now)
  {
  }

  /**
   Over every run, a credential request issues exactly when no credential was issued before, its token is the latest
   issued, less than ten minutes ago, its proof answers the latest nonce, less than five minutes old, and the request is
   convincing.
   */
  lemma CredentialIssuedIff(expires: int, now: int, steps: seq<Step>, accessToken: Token, body: CredentialRequest)
    ensures var w := Run(Created(expires, now), steps);
            w.stored.Some? ==>
              (HandleCredential(w.stored.value, Some(accessToken), body, w.now).1.CredentialIssued? <==>
               && w.credentials == []
               && IsCurrent(w.tokens, accessToken, w.now, 600)
               && Convincing(body) && body.proof.challenge.Some?
               && IsCurrent(w.nonces, body.proof.challenge.value, w.now, 300))
  {
    hide HandleCredential, Run, Convincing, CodesOk, CodeTtl;
    RunInv(Created(expires, now), steps);
    var w := Run(Created(expires, now), steps);
    if w.stored.Some? {
      HandlerIssuesIff(w.stored.value, Some(accessToken), body, w.now);
    }
  }

  /**
   The VC-API flow issues exactly when the exchange is not complete, the presentation's signer is verified, known and
   not contradicted by a self-asserted holder, and signing succeeds; and then it stores just that.
   */
  lemma VcApiIssuesIff(e: ClaimExchange, proof: Proof)
    ensures HandleVcApi(e, proof).1.CredentialIssued? <==>
              && e.state != Complete
              && proof.auth.Verified? && proof.auth.holder.Some?
              && (proof.assertedHolder == None || proof.assertedHolder == proof.auth.holder)
              && proof.signing.Signed?
    ensures HandleVcApi(e, proof).1.CredentialIssued? ==>
              HandleVcApi(e, proof) == (e.(state := Complete, issued := Some([proof.signing.credential])),
                                        CredentialIssued(proof.signing.credential))
  {
  }

  /**
   Refusals of a credential request: 401 exactly for the token; after it, the first guard that fails names the error.
   */
  lemma CredentialRefusals(e: ClaimExchange, accessToken: Option<Token>, body: CredentialRequest, now: int)
    ensures var response := HandleCredential(e, accessToken, body, now).1;
            var tokenOk := accessToken.Some? && e.oid4vci.accessToken == accessToken
                           && e.oid4vci.accessTokenExpiresAt.Some? && now < e.oid4vci.accessTokenExpiresAt.value;
            && (!tokenOk ==> response == Refused(401, "invalid_token"))
            && (tokenOk && e.state == Complete ==> response == Refused(400, "credential_request_denied"))
            && (tokenOk && e.state != Complete && body.MalformedCredentialRequest? ==>
                  response == Refused(400, "invalid_credential_request"))
            && (tokenOk && e.state != Complete && body.CredentialRequest? && !body.knownConfiguration ==>
                  response == Refused(400, "unknown_credential_configuration"))
            && (tokenOk && e.state != Complete && body.CredentialRequest? && body.knownConfiguration ==>
                  var nonceOk := body.proof.challenge.Some? && e.oid4vci.cNonce == body.proof.challenge
                               && !e.oid4vci.nonceUsed && e.oid4vci.cNonceExpiresAt.Some?
                               && now < e.oid4vci.cNonceExpiresAt.value;
                  && (body.proof.challenge.None? ==> response == Refused(400, "invalid_proof"))
                  && (body.proof.challenge.Some? && !nonceOk ==> response == Refused(400, "invalid_nonce"))
                  && (nonceOk && body.proof.auth.NotVerified? ==> response == Refused(400, "invalid_proof"))
                  && (nonceOk && body.proof.auth.Verified?
                      && (body.proof.auth.holder == None
                          || (body.proof.assertedHolder.Some?
                              && body.proof.assertedHolder != body.proof.auth.holder)) ==>
                        response == Refused(400, "invalid_proof")))
  {
  }

  /** Refusals of a token request, in the order they are checked. */
  lemma TokenRefusals(e: ClaimExchange, body: TokenRequest, now: int, fresh': Token)
    ensures var response := HandleToken(e, body, now, fresh').1;
            && (body.MalformedToken? ==> response == Refused(400, "invalid_request"))
            && (body.TokenRequest? && !body.preAuthorizedGrant ==> response == Refused(400, "unsupported_grant_type"))
            && (body.TokenRequest? && body.preAuthorizedGrant ==>
                  && (body.code == None || e.oid4vci.preAuthorizedCode == None ==>
                        response == Refused(400, "invalid_request"))
                  && (body.code.Some? && e.oid4vci.preAuthorizedCode.Some? ==>
                        response == TokenIssued(fresh') || response == Refused(400, "invalid_grant")))
  {
  }

  /**
   The lifetime of a code: ten minutes while the exchange has that long, else the whole seconds left, else one second.
   */
  lemma CodeLifetime(expires: int, now: int)
    ensures expires - now >= 600_000 ==> CodeTtl(expires, now) == 600
    ensures 1000 <= expires - now < 600_000 ==>
              CodeTtl(expires, now) * 1000 <= expires - now < (CodeTtl(expires, now) + 1) * 1000
    ensures expires - now < 1000 ==> CodeTtl(expires, now) == 1
  {
  }

  /**
   A newly minted code is redeemed exactly by itself and exactly before its lifetime ends; until then a second offer
   hands out the same code, and once redeemed no code at all is accepted until a new one is minted.
   */
  lemma CodeOpensOnceWithinLifetime(e: ClaimExchange, ttlSeconds: int, now: int, fresh': Token, presented: Token,
                                    later: int)
    requires EnsurePreAuthorizedCode(e, ttlSeconds, now, fresh').2
    ensures var (offered, code, _) := EnsurePreAuthorizedCode(e, ttlSeconds, now, fresh');
            && (RedeemPreAuthorizedCode(offered, presented, later).Ok? <==>
                  presented == code && later - now < ttlSeconds * 1000)
            && (forall ttl, again ::
                  EnsurePreAuthorizedCode(offered, ttl, later, again).2 <==> later - now >= ttlSeconds * 1000)
            && (RedeemPreAuthorizedCode(offered, presented, later).Ok? ==>
                  forall other, at ::
                    RedeemPreAuthorizedCode(RedeemPreAuthorizedCode(offered, presented, later).value, other, at).Err?)
  {
  }

  /** Likewise a token opens while it lasts, and a nonce once; minting a new one shuts the old one out. */
  lemma TokenAndNonceOpenWithinLifetime(e: ClaimExchange, ttlSeconds: int, now: int, fresh': Token, presented: Token,
                                        later: int)
    ensures ValidateAccessToken(SetAccessToken(e, ttlSeconds, now, fresh'), presented, later).Ok?
            <==> presented == fresh' && later - now < ttlSeconds * 1000
    ensures var consumed := ValidateAndConsumeNonce(MintNonce(e, ttlSeconds, now, fresh'), presented, later);
            && (consumed.Ok? <==> presented == fresh' && later - now < ttlSeconds * 1000)
            && (consumed.Ok? ==> forall other, at :: ValidateAndConsumeNonce(consumed.value, other, at).Err?)
  {
  }

  /**
   Of the three lifetimes only the code's is cut to the exchange's: a minted code lapses with the
   exchange (or within a second of being minted), while a new token outlives the exchange exactly when
   less than ten minutes are left, and a new nonce when less than five are.
   */
  lemma LifetimesBounded(e: ClaimExchange, now: int, fresh': Token)
    ensures var (offered, _, isNew) := EnsurePreAuthorizedCode(e, CodeTtl(e.expires, now), now, fresh');
            isNew ==> offered.oid4vci.preAuthorizedCodeExpiresAt.Some?
                      && offered.oid4vci.preAuthorizedCodeExpiresAt.value <= Max(e.expires, now + 1000)
    ensures SetAccessToken(e, ACCESS_TOKEN_TTL_SECONDS, now, fresh').oid4vci.accessTokenExpiresAt.value <= e.expires
            <==> e.expires - now >= 600_000
    ensures MintNonce(e, NONCE_TTL_SECONDS, now, fresh').oid4vci.cNonceExpiresAt.value <= e.expires
            <==> e.expires - now >= 300_000
  {
    var left := (e.expires - now) / 1000;
    assert left * 1000 <= e.expires - now;
  }

  // ----- the handlers over the store --------------------------------------

  class ClaimStore {
    var stored: ClaimExchange
    /** Number of saves, so that a handler that saves nothing is seen to. */
    ghost var saves: nat

    constructor (e: ClaimExchange)
      ensures stored == e && saves == 0
    {
      stored, saves := e, 0;
    }

    method SaveExchange(e: ClaimExchange)
      modifies this
      ensures stored == e && saves == old(saves) + 1
    {
      stored := e;
      saves := saves + 1;
    }

    /** Signs for a known holder only; a refusal saves nothing. */
    method SignClaimCredentialFromHolderDid(holderDid: Option<string>, exchange: ClaimExchange, signing: Signing)
      returns (signed: StateResult<Option<Json>>)
      modifies this
      ensures match signed
              case Err(error) =>
                && (holderDid.None? <==> error == "no holder")
                   && (holderDid.Some? ==> error == "signing" && signing.SigningThrew?)
                && stored == old(stored) && saves == old(saves)
              case Ok(None) => holderDid.Some? && signing.NoTemplate? && stored == old(stored) && saves == old(saves)
              case Ok(Some(credential)) =>
                && holderDid.Some? && signing == Signed(credential)
                && stored.state == Complete && stored.issued == Some([credential])
                && stored.oid4vci == exchange.oid4vci && stored.expires == exchange.expires
                && stored == CompleteWith(exchange, credential) && saves == old(saves) + 1
    {
      if holderDid.None? {
        return Err("no holder");
      }
      match signing
      case NoTemplate => signed := Ok(None);
      case SigningThrew(_) => signed := Err("signing");
      case Signed(credential) =>
        var updatedExchange := exchange.(state := Complete, issued := Some([credential]));
        SaveExchange(updatedExchange);
        signed := Ok(Some(credential));
    }

    method HandleCredentialRequest(accessToken: Option<Token>, body: CredentialRequest,
                                   now: int) returns (response: Response)
      modifies this
      ensures (stored, response) == HandleCredential(old(stored), accessToken, body, now)
      ensures saves == old(saves) + if response.CredentialIssued? then 1 else 0
    {
      var exchange := stored;
      if accessToken.None? {
        return Refused(401, "invalid_token");
      }
      if ValidateAccessToken(exchange, accessToken.value, now).Err? {
        return Refused(401, "invalid_token");
      }
      if exchange.state == Complete {
        return Refused(400, "credential_request_denied");
      }
      if body.MalformedCredentialRequest? {
        return Refused(400, "invalid_credential_request");
      }
      if !body.knownConfiguration {
        return Refused(400, "unknown_credential_configuration");
      }
      if body.proof.challenge.None? {
        return Refused(400, "invalid_proof");
      }
      var consumed := ValidateAndConsumeNonce(exchange, body.proof.challenge.value, now);
      if consumed.Err? {
        return Refused(400, "invalid_nonce");
      }
      var working := consumed.value;
      if body.proof.auth.DidAuthThrew? {
        return Refused(400, "structure");
      }
      if body.proof.auth.NotVerified? {
        return Refused(400, "invalid_proof");
      }
      var holderDid := body.proof.auth.holder;
      if holderDid.None? {
        return Refused(400, "invalid_proof");
      }
      if body.proof.assertedHolder.Some? && body.proof.assertedHolder != holderDid {
        return Refused(400, "invalid_proof");
      }
      var signed := SignClaimCredentialFromHolderDid(holderDid, working, body.proof.signing);
      match signed
      case Err(_) => response := Refused(body.proof.signing.status, "signing");
      case Ok(None) => response := Refused(400, "credential_request_denied");
      case Ok(Some(credential)) => response := CredentialIssued(credential);
    }

    method ParticipateWithEmptyBody() returns (response: Response)
      modifies this
      ensures (stored, response) == HandleEmpty(old(stored))
      ensures stored == old(stored).(state := if old(stored).state == Pending then Active else old(stored).state)
      ensures response == if old(stored).state == Complete then Refused(400, "completed") else PresentationRequested
      ensures saves == old(saves) + if old(stored).state == Pending then 1 else 0
    {
      var exchange := stored;
      if exchange.state == Complete {
        return Refused(400, "completed");
      }
      if exchange.state == Pending {
        exchange := exchange.(state := Active);
        SaveExchange(exchange);
      }
      response := PresentationRequested;
    }

    method ParticipateInClaimExchange(proof: Proof) returns (response: Response)
      modifies this
      ensures (stored, response) == HandleVcApi(old(stored), proof)
      ensures saves == old(saves) + if response.CredentialIssued? then 1 else 0
    {
      var exchange := stored;
      if exchange.state == Complete {
        return Refused(400, "completed");
      }
      if proof.auth.DidAuthThrew? {
        return Refused(400, "structure");
      }
      if proof.auth.NotVerified? {
        return Refused(401, "invalid DIDAuth");
      }
      var holderDid := proof.auth.holder;
      if proof.assertedHolder.Some? && holderDid.Some? && proof.assertedHolder != holderDid {
        return Refused(401, "holder mismatch");
      }
      var signed := SignClaimCredentialFromHolderDid(holderDid, exchange, proof.signing);
      match signed
      case Err(error) => response := if error == "no holder" then Refused(401, error)
                                     else Refused(proof.signing.status, error);
      case Ok(None) => response := Redirected;
      case Ok(Some(credential)) => response := CredentialIssued(credential);
    }
  }
}
