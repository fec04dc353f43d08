/** CORS header computation shared by the JWT middleware and the conversion
    handlers (backend/handler_helpers.go). */
module HandlerHelpers {
  import opened Strings
  import opened Http

  const AcceptableOrigins: seq<string> := ["http://localhost:3000", "http://frontend:3000", "http://frontend.local"]

  const AllowOrigin := "Access-Control-Allow-Origin"
  const AllowMethods := "Access-Control-Allow-Methods"
  const AllowHeaders := "Access-Control-Allow-Headers"
  const AllowCredentials := "Access-Control-Allow-Credentials"

  const AllowedHeadersValue := "Content-Type, Authorization"
  const MethodSeparator := ", "

  /** The four header keys the helper may touch. */
  predicate IsCorsKey(k: string) {
    k == AllowOrigin || k == AllowMethods || k == AllowHeaders || k == AllowCredentials
  }

  /** `slices.Contains(acceptableOrigins, origin)`. */
  predicate OriginAccepted(origin: string) {
    origin in AcceptableOrigins
  }

  /** `setHandlerHeaders(w, r, methods...)` as an update of the response header
      map `h`, given the request headers `request`. */
  function SetHandlerHeaders(h: Headers, request: Headers, methods: seq<string>): (r: Headers)
    ensures OriginAccepted(Get(request, "Origin")) ==> AllowOrigin in r && r[AllowOrigin] == Get(request, "Origin")
    ensures !OriginAccepted(Get(request, "Origin")) ==>
              (AllowOrigin in r <==> AllowOrigin in h) && (AllowOrigin in h ==> r[AllowOrigin] == h[AllowOrigin])
    ensures AllowMethods in r && AllowHeaders in r && AllowCredentials in r
    ensures r[AllowHeaders] == AllowedHeadersValue && r[AllowCredentials] == "true"
    ensures forall k :: k in h && !IsCorsKey(k) ==> k in r && r[k] == h[k]
    ensures forall k :: k in r && !IsCorsKey(k) ==> k in h
  {
    var origin := Get(request, "Origin");
    var h1 := if OriginAccepted(origin) then h[AllowOrigin := origin] else h;
    h1[AllowMethods := Join(methods, MethodSeparator)]
      [AllowHeaders := AllowedHeadersValue]
      [AllowCredentials := "true"]
  }

  /** A request without an Origin header, or with an empty one, never gets an
      Allow-Origin header from the helper. */
  lemma EmptyOriginNeverMatches(h: Headers, request: Headers, methods: seq<string>)
    requires Get(request, "Origin") == ""
    ensures (AllowOrigin in SetHandlerHeaders(h, request, methods)) <==> AllowOrigin in h
  {
    assert "" !in AcceptableOrigins;
  }

  // ----- Reading the Allow-Methods value back -----

  /** Prefixes every element with a space. */
  function SpaceEach(ms: seq<string>): (r: seq<string>)
    ensures |r| == |ms|
  {
    if |ms| == 0 then [] else [" " + ms[0]] + SpaceEach(ms[1..])
  }

  /** Drops one leading space, if there is one. */
  function DropSpace(s: string): string {
    if |s| > 0 && s[0] == ' ' then s[1..] else s
  }

  function DropSpaceEach(ms: seq<string>): (r: seq<string>)
    ensures |r| == |ms|
  {
    if |ms| == 0 then [] else [DropSpace(ms[0])] + DropSpaceEach(ms[1..])
  }

  /** How a client reads an Allow-Methods value: split on commas and drop the
      space the separator put in front of every method but the first. */
  function ParseAllowMethods(value: string): seq<string> {
    var parts := Split(value, ',');
    [parts[0]] + DropSpaceEach(parts[1..])
  }

  lemma {:induction false} DropSpaceEachSpaceEach(ms: seq<string>)
    ensures DropSpaceEach(SpaceEach(ms)) == ms
  {
    if |ms| > 0 {
      assert DropSpace(" " + ms[0]) == ms[0];
      DropSpaceEachSpaceEach(ms[1..]);
      assert ms == [ms[0]] + ms[1..];
    }
  }

  lemma JoinLeadingSpace(x: string, rest: seq<string>, sep: string)
    ensures Join([" " + x] + rest, sep) == " " + Join([x] + rest, sep)
  {
    if |rest| > 0 {
      assert ([" " + x] + rest)[1..] == rest;
      assert ([x] + rest)[1..] == rest;
    }
  }

  /** Joining with ", " is joining with "," after putting a space in front of
      every element but the first. */
  lemma {:induction false} JoinCommaSpace(ms: seq<string>)
    requires |ms| >= 1
    ensures Join(ms, MethodSeparator) == Join([ms[0]] + SpaceEach(ms[1..]), ",")
  {
    if |ms| >= 2 {
      var tail := ms[1..];
      JoinCommaSpace(tail);
      assert tail[1..] == ms[2..];
      assert SpaceEach(tail) == [" " + ms[1]] + SpaceEach(ms[2..]);
      JoinLeadingSpace(ms[1], SpaceEach(ms[2..]), ",");
      assert ([ms[0]] + SpaceEach(tail))[1..] == SpaceEach(tail);
      assert tail == [tail[0]] + tail[1..];
    }
  }

  /** The Allow-Methods value lists exactly the given methods, in argument
      order, provided no method name contains a comma. */
  lemma AllowMethodsRoundTrip(h: Headers, request: Headers, methods: seq<string>)
    requires |methods| >= 1
    requires forall k :: 0 <= k < |methods| ==> ',' !in methods[k]
    ensures ParseAllowMethods(SetHandlerHeaders(h, request, methods)[AllowMethods]) == methods
  {
    var padded := [methods[0]] + SpaceEach(methods[1..]);
    JoinCommaSpace(methods);
    forall k | 0 <= k < |padded|
      ensures ',' !in padded[k]
    {
      if k > 0 {
        SpaceEachElement(methods[1..], k - 1);
      }
    }
    SplitJoin(padded, ',');
    assert padded[1..] == SpaceEach(methods[1..]);
    DropSpaceEachSpaceEach(methods[1..]);
    assert methods == [methods[0]] + methods[1..];
  }

  lemma {:induction false} SpaceEachElement(ms: seq<string>, k: nat)
    requires k < |ms|
    ensures SpaceEach(ms)[k] == " " + ms[k]
  {
    if k > 0 {
      SpaceEachElement(ms[1..], k - 1);
    }
  }
}
