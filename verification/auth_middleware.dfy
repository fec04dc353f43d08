/** The JWT middleware in front of every backend route
    (backend/auth_middleware.go). Token parsing and signature checking are an
    opaque verdict; the model covers the decisions taken on that verdict and
    on the token's claims. */
module AuthMiddleware {
  import opened Wrappers
  import opened Strings
  import opened Http
  import opened HandlerHelpers

  const Auth0Domain := "file-conversion-tenant.eu.auth0.com"
  const Auth0Audience := "https://file-conversion-api/"
  const HealthPath := "/health"
  const BearerPrefix := "Bearer "

  /** `fmt.Sprintf("https://%s/", auth0Domain)`. */
  const ExpectedIssuer := "https://" + Auth0Domain + "/"

  /** Methods the middleware advertises in its CORS headers. */
  const MiddlewareMethods: seq<string> := [MethodGet, MethodPost, MethodOptions]

  /** A decoded JSON value, as `jwt.MapClaims` holds claim values. Numbers are
      rationals standing for the float64 the decoder produces. */
  datatype Json =
    | JNull
    | JBool(b: bool)
    | JNumber(n: real)
    | JString(s: string)
    | JArray(items: seq<Json>)
    | JObject(fields: map<string, Json>)

  type Claims = map<string, Json>

  /** `token.Claims`, which is either a `jwt.MapClaims` or some other claims type. */
  datatype ParsedClaims = MapClaims(claims: Claims) | OtherClaims

  /** What `jwt.Parse(token, jwks.Keyfunc)` reports: an error (or an invalid
      token) with its message, or a valid token with its claims. */
  datatype Verdict = Invalid(message: string) | Valid(parsed: ParsedClaims)

  /** Why the middleware answers 401. */
  datatype Rejection =
    | MissingHeader
    | InvalidToken(detail: string)
    | InvalidClaims
    | MissingAudience
    | InvalidAudience
    | InvalidIssuer
    | TokenExpired
    | MissingSubject

  function RejectionMessage(r: Rejection): string {
    match r
    case MissingHeader => "Missing Authorization header"
    case InvalidToken(detail) => "Invalid token: " + detail
    case InvalidClaims => "Invalid token claims"
    case MissingAudience => "Missing audience claim"
    case InvalidAudience => "Invalid audience"
    case InvalidIssuer => "Invalid issuer"
    case TokenExpired => "Token expired"
    case MissingSubject => "Missing sub claim"
  }

  /** Only an invalid-token rejection starts with "Invalid token: ". */
  lemma OnlyTokenMessagesHavePrefix(r: Rejection)
    ensures var m := RejectionMessage(r);
            r.InvalidToken? <==> |m| >= 15 && m[..15] == "Invalid token: "
  {
    match r
    case InvalidToken(detail) =>
      assert RejectionMessage(r)[..15] == "Invalid token: ";
    case InvalidClaims =>
      assert RejectionMessage(r)[13] == ' ';
    case InvalidAudience =>
      assert RejectionMessage(r)[8] == 'a';
    case MissingHeader =>
      assert RejectionMessage(r)[0] == 'M';
    case MissingAudience =>
      assert RejectionMessage(r)[0] == 'M';
    case MissingSubject =>
      assert RejectionMessage(r)[0] == 'M';
    case InvalidIssuer =>
    case TokenExpired =>
  }

  /** Every rejection has its own 401 text, so the reason can be told apart
      from the response body alone. */
  lemma RejectionMessagesDistinct(a: Rejection, b: Rejection)
    ensures RejectionMessage(a) == RejectionMessage(b) ==> a == b
  {
    if RejectionMessage(a) == RejectionMessage(b) {
      OnlyTokenMessagesHavePrefix(a);
      OnlyTokenMessagesHavePrefix(b);
      if a.InvalidToken? {
        assert a.detail == RejectionMessage(a)[15..];
        assert b.detail == RejectionMessage(b)[15..];
      }
    }
  }

  datatype Request = Request(path: string, httpMethod: string, header: Headers)

  /** What the middleware does with a request. */
  datatype Outcome =
      /** The next handler runs on the untouched request and writer. */
    | Bypass
      /** 200 with the CORS headers and no body. */
    | Preflight(header: Headers)
      /** 401 with the CORS headers and the rejection's message. */
    | Unauthorized(header: Headers, reason: Rejection)
      /** The next handler runs with the CORS headers set and `subject`
          attached to the request context. */
    | Forward(header: Headers, subject: string)

  // ----- Claim checks -----

  /** Go's `int64(f)` for a float in range: truncation toward zero. */
  function TruncateTowardZero(x: real): int {
    if x >= 0.0 then x.Floor else -((-x).Floor)
  }

  /** The `for _, a := range aud` loop: some element is the expected audience string. */
  predicate AudienceListed(items: seq<Json>) {
    |items| > 0 && ((items[0].JString? && items[0].s == Auth0Audience) || AudienceListed(items[1..]))
  }

  /** The type switch on the `aud` claim: a string must equal the audience, a
      list must contain it, anything else is invalid. */
  predicate AudienceValid(aud: Json) {
    match aud
    case JString(s) => s == Auth0Audience
    case JArray(items) => AudienceListed(items)
    case _ => false
  }

  predicate AudienceOk(claims: Claims) {
    "aud" in claims && AudienceValid(claims["aud"])
  }

  /** `claims["iss"] != expectedIss` compares an interface with a string: only
      a string claim with exactly that text is equal. */
  predicate IssuerOk(claims: Claims) {
    "iss" in claims && claims["iss"] == JString(ExpectedIssuer)
  }

  /** The `exp` claim when it is a number, the only case the code inspects. */
  function Expiry(claims: Claims): Option<real> {
    if "exp" in claims && claims["exp"].JNumber? then Some(claims["exp"].n) else None
  }

  /** `int64(exp) < time.Now().Unix()`, `now` in Unix seconds. */
  predicate Expired(claims: Claims, now: int) {
    match Expiry(claims)
    case Some(e) => TruncateTowardZero(e) < now
    case None => false
  }

  /** `claims["sub"].(string)`, with the empty string when it is missing or not a string. */
  function SubjectOf(claims: Claims): string {
    if "sub" in claims && claims["sub"].JString? then claims["sub"].s else ""
  }

  /** Every claim check passes. */
  predicate ClaimsAccepted(claims: Claims, now: int) {
    AudienceOk(claims) && IssuerOk(claims) && !Expired(claims, now) && SubjectOf(claims) != ""
  }

  /** The claim checks in the order the middleware runs them; the first
      failing one names the rejection. */
  function CheckClaims(claims: Claims, now: int): (r: Result<string, Rejection>)
    ensures r.Success? <==> ClaimsAccepted(claims, now)
    ensures r.Success? ==> r.value == SubjectOf(claims) && r.value != ""
    ensures r == Failure(MissingAudience) <==> "aud" !in claims
    ensures r == Failure(InvalidAudience) <==> "aud" in claims && !AudienceValid(claims["aud"])
    ensures r == Failure(InvalidIssuer) <==> AudienceOk(claims) && !IssuerOk(claims)
    ensures r == Failure(TokenExpired) <==> AudienceOk(claims) && IssuerOk(claims) && Expired(claims, now)
    ensures r == Failure(MissingSubject) <==>
              AudienceOk(claims) && IssuerOk(claims) && !Expired(claims, now) && SubjectOf(claims) == ""
  {
    if "aud" !in claims then Failure(MissingAudience)
    else if !AudienceValid(claims["aud"]) then Failure(InvalidAudience)
    else if !IssuerOk(claims) then Failure(InvalidIssuer)
    else if Expired(claims, now) then Failure(TokenExpired)
    else if SubjectOf(claims) == "" then Failure(MissingSubject)
    else Success(SubjectOf(claims))
  }

  /** The token handed to the verifier: the header with one leading
      "Bearer " removed when present, unchanged otherwise. */
  function TokenString(authorization: string): (t: string)
    ensures HasPrefix(authorization, BearerPrefix) ==> BearerPrefix + t == authorization
    ensures !HasPrefix(authorization, BearerPrefix) ==> t == authorization
  {
    TrimPrefix(authorization, BearerPrefix)
  }

  /** The CORS headers the middleware sets on every non-health request. */
  function MiddlewareHeaders(req: Request): Headers {
    SetHandlerHeaders(map[], req.header, MiddlewareMethods)
  }

  /** `jwtMiddleware`: `verify` stands for `jwt.Parse` with the key set, `now`
      for the current Unix time. */
  function JwtMiddleware(req: Request, verify: string -> Verdict, now: int): (r: Outcome)
    ensures req.path == HealthPath <==> r == Bypass
    ensures req.path != HealthPath ==> r.header == MiddlewareHeaders(req)
    ensures req.path != HealthPath && req.httpMethod == MethodOptions ==> r.Preflight?
    ensures r.Preflight? ==> req.httpMethod == MethodOptions
    ensures req.path != HealthPath && req.httpMethod != MethodOptions && Get(req.header, "Authorization") == "" ==>
              r.Unauthorized? && r.reason == MissingHeader
    ensures req.path != HealthPath && req.httpMethod != MethodOptions && Get(req.header, "Authorization") != "" ==>
              var verdict := verify(TokenString(Get(req.header, "Authorization")));
              && (verdict.Invalid? ==> r == Unauthorized(MiddlewareHeaders(req), InvalidToken(verdict.message)))
              && (verdict == Valid(OtherClaims) ==> r == Unauthorized(MiddlewareHeaders(req), InvalidClaims))
              && (verdict.Valid? && verdict.parsed.MapClaims? && CheckClaims(verdict.parsed.claims, now).Failure? ==>
                    r == Unauthorized(MiddlewareHeaders(req), CheckClaims(verdict.parsed.claims, now).error))
    ensures r.Forward? <==>
              && req.path != HealthPath
              && req.httpMethod != MethodOptions
              && Get(req.header, "Authorization") != ""
              && verify(TokenString(Get(req.header, "Authorization"))).Valid?
              && verify(TokenString(Get(req.header, "Authorization"))).parsed.MapClaims?
              && ClaimsAccepted(verify(TokenString(Get(req.header, "Authorization"))).parsed.claims, now)
    ensures r.Forward? ==>
              r.subject != "" &&
              r.subject == SubjectOf(verify(TokenString(Get(req.header, "Authorization"))).parsed.claims)
  {
    if req.path == HealthPath then Bypass
    else
      var h := MiddlewareHeaders(req);
      if req.httpMethod == MethodOptions then Preflight(h)
      else
        var authorization := Get(req.header, "Authorization");
        if authorization == "" then Unauthorized(h, MissingHeader)
        else
          match verify(TokenString(authorization))
          case Invalid(message) => Unauthorized(h, InvalidToken(message))
          case Valid(OtherClaims) => Unauthorized(h, InvalidClaims)
          case Valid(MapClaims(claims)) =>
            match CheckClaims(claims, now)
            case Failure(reason) => Unauthorized(h, reason)
            case Success(sub) => Forward(h, sub)
  }

  /** `getUserAuthID`: the subject stored in the request context, with `false`
      (and the empty string) when there is none. */
  function GetUserAuthID(ctx: Option<string>): (r: (string, bool))
    ensures r.1 <==> ctx.Some?
    ensures r.1 ==> r.0 == ctx.value
    ensures !r.1 ==> r.0 == ""
  {
    match ctx
    case Some(sub) => (sub, true)
    case None => ("", false)
  }

  // ----- Properties -----

  /** The list scan finds the audience exactly when some element is that string. */
  lemma {:induction false} AudienceListedMeansMember(items: seq<Json>)
    ensures AudienceListed(items) <==> exists k :: 0 <= k < |items| && items[k] == JString(Auth0Audience)
  {
    if |items| > 0 {
      AudienceListedMeansMember(items[1..]);
      if items[0] != JString(Auth0Audience) && AudienceListed(items) {
        var k :| 0 <= k < |items[1..]| && items[1..][k] == JString(Auth0Audience);
        assert items[k + 1] == JString(Auth0Audience);
      }
      if exists k :: 0 <= k < |items| && items[k] == JString(Auth0Audience) {
        var k :| 0 <= k < |items| && items[k] == JString(Auth0Audience);
        if k > 0 {
          assert items[1..][k - 1] == JString(Auth0Audience);
        }
      }
    }
  }

  /** An expiry equal to the current second is accepted, an absent one too;
      for a non-negative expiry the truncating comparison agrees with comparing
      the exact claim value against `now`. */
  lemma ExpiryBoundary(claims: Claims, now: int)
    ensures Expiry(claims) == Some(now as real) ==> !Expired(claims, now)
    ensures Expiry(claims).None? ==> !Expired(claims, now)
    ensures Expiry(claims).Some? && Expiry(claims).value >= 0.0 ==>
              (Expired(claims, now) <==> Expiry(claims).value < now as real)
  {
    if Expiry(claims).Some? && Expiry(claims).value >= 0.0 {
      var e := Expiry(claims).value;
      assert e.Floor as real <= e < e.Floor as real + 1.0;
    }
  }

  /** A preflight request is answered the same whatever its credentials and
      whatever the verifier would say. */
  lemma PreflightIgnoresCredentials(req1: Request, req2: Request, verify1: string -> Verdict,
                                    verify2: string -> Verdict, now1: int, now2: int)
    requires req1.path == req2.path && req1.httpMethod == req2.httpMethod == MethodOptions
    requires Get(req1.header, "Origin") == Get(req2.header, "Origin")
    ensures JwtMiddleware(req1, verify1, now1) == JwtMiddleware(req2, verify2, now2)
  {
  }

  /** The verifier receives the credential that follows "Bearer ". */
  lemma BearerTokenExtracted(token: string)
    ensures TokenString(BearerPrefix + token) == token
  {
    TrimPrefixOfPrefixed(BearerPrefix, token);
  }
}
