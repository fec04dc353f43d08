/** Route registration and request dispatch (backend/main.go): the six
    conversion routes, each built by the handler factory at startup, behind
    the JWT middleware. */
module Server {
  import opened Wrappers
  import opened Http
  import opened ImageConversion
  import opened AuthMiddleware

  /** One `mux.HandleFunc(path, imageHandlerFactory(decoderTag, encoderTag))`. */
  datatype Route = Route(path: string, decoderTag: string, encoderTag: string)

  const ConversionRoutes: seq<Route> := [
    Route("/jpeg/png", JpegTag, PngTag),
    Route("/jpeg/webp", JpegTag, WebpTag),
    Route("/png/jpeg", PngTag, JpegTag),
    Route("/png/webp", PngTag, WebpTag),
    Route("/webp/jpeg", WebpTag, JpegTag),
    Route("/webp/png", WebpTag, PngTag)
  ]

  /** The path names the factory's two tags: `/<decoder>/<encoder>`. */
  predicate PathMatchesTags(r: Route) {
    r.path == "/" + r.decoderTag + "/" + r.encoderTag
  }

  /** Builds every route's handler in order; the first factory panic aborts startup. */
  function RegisterAll(routes: seq<Route>): (r: Result<seq<ImageHandler>, FactoryPanic>)
    ensures r.Success? <==>
              forall k :: 0 <= k < |routes| ==> ImageHandlerFactory(routes[k].decoderTag, routes[k].encoderTag).Success?
    ensures r.Success? ==>
              && |r.value| == |routes|
              && forall k :: 0 <= k < |routes| ==>
                   r.value[k] == ImageHandlerFactory(routes[k].decoderTag, routes[k].encoderTag).value
  {
    if |routes| == 0 then Success([])
    else
      match ImageHandlerFactory(routes[0].decoderTag, routes[0].encoderTag)
      case Failure(p) => Failure(p)
      case Success(h) =>
        match RegisterAll(routes[1..])
        case Failure(p) => Failure(p)
        case Success(hs) => Success([h] + hs)
  }

  /** Every registration is well formed: known, distinct tags named by the
      path, so no factory panics when the server starts. */
  lemma StartupNeverPanics()
    ensures |ConversionRoutes| == 6
    ensures forall k :: 0 <= k < |ConversionRoutes| ==> PathMatchesTags(ConversionRoutes[k])
    ensures RegisterAll(ConversionRoutes).Success?
  {
  }

  /** Some route is registered for the decoder and encoder tags. */
  predicate Registered(decoderTag: string, encoderTag: string) {
    exists k :: 0 <= k < |ConversionRoutes| &&
      ConversionRoutes[k].decoderTag == decoderTag && ConversionRoutes[k].encoderTag == encoderTag
  }

  /** The six routes are exactly the ordered pairs of distinct formats, each once. */
  lemma RoutesCoverEveryPair()
    ensures forall a: Format, b: Format :: a != b ==> Registered(Tag(a), Tag(b))
    ensures forall k :: 0 <= k < |ConversionRoutes| ==>
              KnownTag(ConversionRoutes[k].decoderTag) && KnownTag(ConversionRoutes[k].encoderTag) &&
              ConversionRoutes[k].decoderTag != ConversionRoutes[k].encoderTag
    ensures forall j, k :: 0 <= j < k < |ConversionRoutes| ==> ConversionRoutes[j].path != ConversionRoutes[k].path
  {
    forall a: Format, b: Format | a != b
      ensures Registered(Tag(a), Tag(b))
    {
      var k := match (a, b)
        case (Jpeg, Png) => 0
        case (Jpeg, Webp) => 1
        case (Png, Jpeg) => 2
        case (Png, Webp) => 3
        case (Webp, Jpeg) => 4
        case (Webp, Png) => 5
        case _ => 0;
      assert ConversionRoutes[k].decoderTag == Tag(a) && ConversionRoutes[k].encoderTag == Tag(b);
    }
  }

  /** The ServeMux lookup for an exact conversion path: the handler registered for it. */
  function LookupIn(routes: seq<Route>, path: string): (r: Option<Route>)
    ensures r.Some? <==> exists k :: 0 <= k < |routes| && routes[k].path == path
    ensures r.Some? ==> r.value.path == path && r.value in routes
  {
    if |routes| == 0 then None
    else if routes[0].path == path then Some(routes[0])
    else
      var r := LookupIn(routes[1..], path);
      assert forall k :: 1 <= k < |routes| ==> routes[k] == routes[1..][k - 1];
      r
  }

  /** With distinct paths, looking up a registered path finds its own route. */
  lemma {:induction false} LookupFindsOwnRoute(routes: seq<Route>, k: nat)
    requires k < |routes|
    requires forall i, j :: 0 <= i < j < |routes| ==> routes[i].path != routes[j].path
    ensures LookupIn(routes, routes[k].path) == Some(routes[k])
  {
    if k > 0 {
      assert routes[0].path != routes[k].path;
      assert routes[1..][k - 1] == routes[k];
      LookupFindsOwnRoute(routes[1..], k - 1);
    }
  }

  function Lookup(path: string): Option<ImageHandler> {
    match LookupIn(ConversionRoutes, path)
    case Some(route) =>
      (match ImageHandlerFactory(route.decoderTag, route.encoderTag)
       case Success(h) => Some(h)
       case Failure(_) => None)
    case None => None
  }

  /** What the server does with a request. */
  datatype ServeResult =
      /** The middleware answered on its own. */
    | MiddlewareAnswer(w: Writer)
      /** The request reached a conversion handler. */
    | Answered(served: Served)
      /** `/health`, passed on to the health handler. */
    | HealthCheck
      /** A path this model does not cover (the user routes, or 404). */
    | OtherRoute(path: string)

  /** `jwtMiddleware(mux, jwks)` in front of the conversion routes. */
  function Serve(req: Request, verify: string -> Verdict, now: int, env: Env): (s: ServeResult)
    ensures req.path == HealthPath <==> s == HealthCheck
    ensures req.path != HealthPath && req.httpMethod == MethodOptions ==>
              && s.MiddlewareAnswer? && StatusSent(s.w) == StatusOK && s.w.body == []
              && s.w.header == MiddlewareHeaders(req)
    ensures JwtMiddleware(req, verify, now).Unauthorized? ==>
              && s.MiddlewareAnswer? && StatusSent(s.w) == StatusUnauthorized
              && s.w.body == [Text(RejectionMessage(JwtMiddleware(req, verify, now).reason) + "\n")]
              && "Content-Type" in s.w.header && s.w.header["Content-Type"] == "text/plain; charset=utf-8"
    ensures s.Answered? ==> JwtMiddleware(req, verify, now).Forward? && Lookup(req.path).Some?
    ensures s.Answered? ==>
              (|s.served.trace| == 0 ||
               (s.served.trace[0].QueryQuota? && s.served.trace[0].authID == JwtMiddleware(req, verify, now).subject
                && s.served.trace[0].authID != ""))
  {
    match JwtMiddleware(req, verify, now)
    case Bypass => HealthCheck
    case Preflight(h) => MiddlewareAnswer(WriteHeader(Fresh(h), StatusOK))
    case Unauthorized(h, reason) => MiddlewareAnswer(Error(Fresh(h), RejectionMessage(reason), StatusUnauthorized))
    case Forward(h, sub) =>
      match Lookup(req.path)
      case Some(handler) =>
        var served := Handle(handler, req.httpMethod, req.header, Some(sub), env, h);
        MiddlewareSubjectReachesHandler(handler, req, sub, env, h);
        Answered(served)
      case None => OtherRoute(req.path)
  }

  lemma MiddlewareSubjectReachesHandler(handler: ImageHandler, req: Request, sub: string, env: Env, h: Headers)
    ensures var r := Handle(handler, req.httpMethod, req.header, Some(sub), env, h);
            |r.trace| == 0 || r.trace[0] == QueryQuota(sub)
  {
  }

  /** Behind the middleware the handler always has its user id, so the
      as-written and corrected handlers do the same work, leave the same
      database and answer the same status unless recording fails. */
  lemma MiddlewareMasksMissingAuthID(req: Request, verify: string -> Verdict, now: int, env: Env)
    ensures var o := JwtMiddleware(req, verify, now);
            o.Forward? && Lookup(req.path).Some? ==>
              var r := Handle(Lookup(req.path).value, req.httpMethod, req.header, Some(o.subject), env, o.header);
              var r' := HandleIntended(Lookup(req.path).value, req.httpMethod, req.header, Some(o.subject), env, o.header);
              && Serve(req, verify, now, env) == Answered(r)
              && r.trace == r'.trace && r.db == r'.db
              && (|r.trace| < 5 || env.db.acceptsWrites ==> StatusSent(r.w) == StatusSent(r'.w))
  {
    var o := JwtMiddleware(req, verify, now);
    if o.Forward? && Lookup(req.path).Some? {
      IntendedAgreesWhenAuthenticated(Lookup(req.path).value, req.httpMethod, req.header, o.subject, env, o.header);
    }
  }
}

/** The byte-size constants of backend/main.go. */
module Sizes {
  const Kilobyte := 1024
  const Megabyte := Kilobyte * 1024

  lemma MegabyteValue()
    ensures Kilobyte == 1024 && Megabyte == 1048576
  {
  }
}
