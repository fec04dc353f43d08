# Image conversion service — a Dafny model of its request decisions

The system is an authenticated HTTP service that converts an uploaded image
between JPEG, PNG and WebP. A per-user daily quota and a per-file size limit
bound each conversion, and a deadline bounds how long a slow upload may take.
A Next.js frontend lets a signed-in user pick a file and a target format.

This project restates the decision logic of that system as pure Dafny
functions and proves properties about them:

- the JWT middleware: the health bypass, the preflight answer, the
  Authorization header, and the audience → issuer → expiry → subject checks;
- the conversion handler's ordered gates: method, user id, quota, bounded
  read, decode, encode, record;
- the codec tag registry and the handler factory's panics;
- the read deadline `calculateTimeout`, restated in integer milliseconds;
- the quota decision over a plan row and a 24-hour window of the
  conversion log, and the append-only log itself;
- the CORS headers;
- the six route registrations;
- the frontend's MIME allow-list, request URL, response handling, download
  name and protected-route redirect.

Everything outside the process is a parameter or an opaque value:

- the database is a value `Db`: a plan row per auth id, the conversion log,
  and two flags saying whether queries and inserts succeed;
- the JWT library's parse-and-verify is a function from the token string to a
  `Verdict`, and the clock is a number;
- the race between the body read and its deadline is a function from the byte
  ceiling and the deadline to a `ReadOutcome`;
- the image codecs are two functions that may fail.

Files, one module each (plus `Wrappers`, `Strings` and `Http` as shared
helpers):

| file | module | models |
|---|---|---|
| `http.dfy` | `Http` | the parts of `net/http` the handlers rely on: header maps; a ResponseWriter whose first written status wins, and whose first body write commits 200; `http.Error` |
| `handler_helpers.dfy` | `HandlerHelpers` | `backend/handler_helpers.go` |
| `auth_middleware.dfy` | `AuthMiddleware` | `backend/auth_middleware.go` |
| `user_access.dfy` | `UserAccess` | `backend/backend_user_access.go` |
| `image_conversion.dfy` | `ImageConversion` | `backend/image_conversion_handlers.go` |
| `server.dfy` | `Server`, `Sizes` | the routing and the size constants of `backend/main.go` |
| `main_component.dfy` | `MainComponent` | `frontend/src/app/MainComponent.tsx` |
| `frontend_middleware.dfy` | `FrontendMiddleware` | `frontend/src/middleware.ts` |

The conversion handler returns a `Served` value with three parts:

- the response writer;
- the database afterwards;
- a trace of the work it did (quota query, body read with its ceiling and
  deadline, decode, encode, record).

Properties about ordering and "nothing else happens" are stated over that
trace.

## Model

| member | source | states |
|---|---|---|
| `HandlerHelpers.SetHandlerHeaders` | backend/handler_helpers.go:9-20 | Allow-Origin is set to the request's Origin exactly when that origin is in the allow-list, and is otherwise left as it was. Allow-Headers is always "Content-Type, Authorization" and Allow-Credentials always "true". No header other than the four CORS keys is added or changed. |
| `HandlerHelpers.EmptyOriginNeverMatches` | backend/handler_helpers.go:9-15 | A missing or empty Origin never gets an Allow-Origin header. |
| `HandlerHelpers.AllowMethodsRoundTrip` | backend/handler_helpers.go:17 | Splitting the Allow-Methods value on ", " gives back exactly the methods passed, in argument order. |
| `HandlerHelpers.JoinCommaSpace` | backend/handler_helpers.go:17 | Joining with ", " equals joining with "," after a space is put before every element but the first. |
| `AuthMiddleware.CheckClaims` | backend/auth_middleware.go:56-96 | The claims are accepted iff audience, issuer, expiry and subject all pass, and then the result is the non-empty `sub`. Each rejection reason holds exactly when every earlier check passed and its own check failed. The order is audience (missing, then invalid), issuer, expiry, subject. |
| `AuthMiddleware.AudienceListedMeansMember` | backend/auth_middleware.go:66-72 | The scan over a list `aud` succeeds iff some element is the expected audience string. |
| `AuthMiddleware.ExpiryBoundary` | backend/auth_middleware.go:85-90 | The middleware's own expiry check (which runs after the library's checks inside `jwt.Parse`) passes an `exp` equal to now, and an absent or non-numeric `exp`. For a non-negative `exp`, comparing the truncated value with now agrees with the exact comparison `exp < now`. |
| `AuthMiddleware.TokenString` | backend/auth_middleware.go:43 | One leading "Bearer " is removed when present; otherwise the header is unchanged. |
| `AuthMiddleware.BearerTokenExtracted` | backend/auth_middleware.go:43 | The verifier receives exactly the credential that follows "Bearer ". |
| `AuthMiddleware.JwtMiddleware` | backend/auth_middleware.go:20-104 | `/health` (and only it) is bypassed with no headers. Every other path gets the CORS headers for GET, POST, OPTIONS. OPTIONS gets 200. An empty Authorization header gets 401 MissingHeader. Otherwise a parser error gets InvalidToken with the parser's message, non-map claims get InvalidClaims, and failed claims get the first failing check's reason from `CheckClaims`. The request is forwarded iff the header is present, the verifier accepts the trimmed token with map claims, and the claims pass; the forwarded subject is the non-empty `sub`. |
| `AuthMiddleware.PreflightIgnoresCredentials` | backend/auth_middleware.go:30-35 | An OPTIONS request is answered the same way whatever its Authorization header, verifier or clock. |
| `AuthMiddleware.OnlyTokenMessagesHavePrefix` | backend/auth_middleware.go:44-48 | A 401 text starts with "Invalid token: " iff the rejection is the parser's verdict. |
| `AuthMiddleware.RejectionMessagesDistinct` | backend/auth_middleware.go:37-96 | Different rejections give different 401 texts; for a parser rejection the text carries the parser's message unchanged. |
| `AuthMiddleware.GetUserAuthID` | backend/auth_middleware.go:106-109 | The result is `(sub, true)` when the context holds a subject, and `("", false)` otherwise. |
| `UserAccess.RecentCount` | backend/backend_user_access.go:19-24 | The count of the user's in-window conversions never exceeds the log length. |
| `UserAccess.CanUserConvert` | backend/backend_user_access.go:9-38 | A query error (no connection, or no user row) gives `(false, 0, err)`. Otherwise the max file size is the plan's, and `allowed` holds iff the recent count is below `maxInteractions`. |
| `UserAccess.InsertConversion` | backend/backend_user_access.go:40-56 | The insert succeeds iff the database is up, accepts writes and knows the user. On success it appends exactly the one record (user, starting type, resulting type, size, now) and changes nothing else. |
| `UserAccess.RecentCountAppend` | backend/backend_user_access.go:19-24 | The window count over a concatenated log is the sum of the counts of its parts. |
| `UserAccess.RecentCountPositive` | backend/backend_user_access.go:16-24 | The count is positive iff the log holds one of the user's conversions with `created_at >= now - 24h`. |
| `UserAccess.NoRecentConversions` | backend/backend_user_access.go:16-37 | With no conversions in the window, `allowed` holds iff `maxInteractions > 0`. |
| `UserAccess.AtLimitNotAllowed` | backend/backend_user_access.go:33-35 | At a count equal to `maxInteractions` the answer is not allowed, and the max file size is still returned. |
| `UserAccess.MoreConversionsNeverAllow` | backend/backend_user_access.go:22-35 | Adding conversions to the log never turns a refusal into a permission. |
| `UserAccess.InsertCountsOnce` | backend/backend_user_access.go:47-55 | After a successful insert, the user's window count grows by exactly one and every other user's count is unchanged. |
| `ImageConversion.ParseTag` | backend/image_conversion_handlers.go:189-213 | A format is found iff the tag is "jpeg", "png" or "webp", and the format's tag is the input. |
| `ImageConversion.TagRoundTrip` | backend/image_conversion_handlers.go:20-24 | Tags and formats are in one-to-one correspondence. |
| `ImageConversion.GetDecoder` | backend/image_conversion_handlers.go:189-200 | The result is non-nil exactly for the three known tags, and decodes the tag's format. |
| `ImageConversion.GetEncoder` | backend/image_conversion_handlers.go:202-213 | The result is non-nil exactly for the three known tags, and is the registered encoder of the tag's format. |
| `ImageConversion.EncoderPolicy` | backend/image_conversion_handlers.go:148-187 | The encoder constants: JPEG uses quality 90 and content type "image/jpg"; PNG uses library defaults and "image/png"; WebP is lossless with "image/webp". Each has its own failure message. |
| `ImageConversion.ImageHandlerFactory` | backend/image_conversion_handlers.go:36-51 | The factory panics iff the decoder tag is unknown, the encoder tag is unknown, or the tags are equal, in that order of precedence. A built handler converts between two different formats named by its tags. |
| `ImageConversion.CalculateTimeoutMs` | backend/image_conversion_handlers.go:239-246 | The deadline is at least 5 s, and long enough to move the whole size limit at 20 KB/s. It equals one of the two bounds, so it is the larger of them. |
| `ImageConversion.TimeoutMonotone` | backend/image_conversion_handlers.go:239-246 | A larger size limit never gives a shorter deadline. |
| `ImageConversion.TimeoutForPositiveSizes` | backend/image_conversion_handlers.go:239-246 | From 1 MB up the deadline is 51 200 ms per MB; for 0 MB or less it is 5 000 ms. |
| `ImageConversion.Handle` | backend/image_conversion_handlers.go:53-140 | The work done is always a prefix of quota → read → decode → encode → record. The database afterwards is either unchanged, or, after a completed pipeline, the same database with exactly the recorded conversion appended to its log (plans and connection state untouched). |
| `ImageConversion.HandleVariant` | backend/image_conversion_handlers.go:53-73 | In both variants the work is ordered, and the database is either unchanged or the same database with exactly the final record appended to its log. The corrected variant does no work when the user id is missing. |
| `ImageConversion.Admit` | backend/image_conversion_handlers.go:75-118 | The first work item is always the quota query for the given id; the work stays in pipeline order and the database changes by at most the one appended record. |
| `ImageConversion.Convert` | backend/image_conversion_handlers.go:120-138 | Decode, encode and record only ever extend the quota-and-read prefix, in order, and the database changes by at most the one appended record. |
| `ImageConversion.Record` | backend/image_conversion_handlers.go:127-138 | The record step appends exactly the conversion (subject, both tags, body size, now) to the work, and leaves the database unchanged or with exactly that record appended to its log. |
| `ImageConversion.OptionsDoesNothingElse` | backend/image_conversion_handlers.go:55-60 | OPTIONS answers 200 with the POST, OPTIONS CORS headers. It has no body, does no work and leaves the database unchanged. |
| `ImageConversion.OtherMethodsRejected` | backend/image_conversion_handlers.go:62-65 | Any method other than POST and OPTIONS gets 400 (not 405), before any quota or read work. |
| `ImageConversion.MissingAuthIDContinues` | backend/image_conversion_handlers.go:69-77 | As written, a missing user id commits 400, but the quota query still runs for the empty id. |
| `ImageConversion.MissingAuthIDStillRecords` | backend/image_conversion_handlers.go:69-138 | A concrete request without a user id is answered 400, yet its conversion is recorded under the empty id. |
| `ImageConversion.QuotaGate` | backend/image_conversion_handlers.go:77-87 | A quota error or an exhausted quota gives 403 after the quota query and before any read. |
| `ImageConversion.ReadGate` | backend/image_conversion_handlers.go:89-118 | The body is read with ceiling `maxFileSizeMB * megabyte` and the computed deadline. A deadline gives 408 (checked first), too many bytes 413, and any other read error 400. None of them goes further. |
| `ImageConversion.DecodeFailure` | backend/image_conversion_handlers.go:120-125 | Undecodable bytes give 400; nothing is encoded or recorded. |
| `ImageConversion.EncodeFailure` | backend/image_conversion_handlers.go:127-132 | An encoder failure gives 500 and nothing is recorded. |
| `ImageConversion.SuccessfulConversion` | backend/image_conversion_handlers.go:127-138 | A full success gives 200 with exactly the encoded bytes under the target's Content-Type. It appends one record whose size is the body length in bytes. |
| `ImageConversion.RecordedSizeWithinPlan` | backend/image_conversion_handlers.go:95-134 | When the read respects the `MaxBytesReader` ceiling, a recorded conversion is under the requesting subject and its size never exceeds the plan's `maxFileSizeMB * megabyte` (taken as 0 when negative, as `MaxBytesReader` does). |
| `ImageConversion.RecordFailureStillSends200` | backend/image_conversion_handlers.go:127-138 | As written, a failed record after a successful encode still answers 200. |
| `ImageConversion.EncodeFailureNamesSource` | backend/image_conversion_handlers.go:127-131 | As written, a failed JPEG→PNG encode reports "Failed to encode jpeg.". |
| `ImageConversion.HandleIntended` | backend/image_conversion_handlers.go:53-140 | The corrected handler keeps the pipeline order, leaves the database unchanged or appends exactly the final record to its log and nothing else, and does no work without a user id. |
| `ImageConversion.IntendedStopsWithoutAuthID` | backend/image_conversion_handlers.go:69-73 | Corrected: a missing user id gives 400 with no further work. |
| `ImageConversion.IntendedRecordFailureIs500` | backend/image_conversion_handlers.go:134-138 | Corrected: a failed record gives 500 and no image bytes are sent. |
| `ImageConversion.IntendedEncodeFailureNamesTarget` | backend/image_conversion_handlers.go:127-131 | Corrected: the encode-failure message names the target tag. |
| `ImageConversion.IntendedAgreesWhenAuthenticated` | backend/image_conversion_handlers.go:53-140 | With a user id, both handlers do the same work and leave the same database. Their statuses agree unless recording fails. |
| `Sizes.MegabyteValue` | backend/main.go:13-16 | `kilobyte` is 1024 and `megabyte` is 1 048 576. |
| `Server.RegisterAll` | backend/main.go:57-64 | Startup succeeds iff every route's factory call succeeds, and then yields those handlers in order. |
| `Server.StartupNeverPanics` | backend/main.go:57-64 | There are six routes. Every path is `/<decoder>/<encoder>` for its own factory arguments, and no factory call panics. |
| `Server.RoutesCoverEveryPair` | backend/main.go:57-64 | Every ordered pair of distinct formats has a route. Every route uses known, distinct tags, and no two routes share a path. |
| `Server.LookupIn` | backend/main.go:57-64 | A route is found iff one is registered for the path, and the found route has that path. |
| `Server.LookupFindsOwnRoute` | backend/main.go:57-64 | Looking up a registered path finds that path's own route. |
| `Server.Serve` | backend/main.go:55-76 | `/health` is passed on unchecked. A preflight on any other path is answered 200 with an empty body by the middleware, so the handler's own OPTIONS branch is never reached. Every middleware rejection is answered through `http.Error`: status 401, a plain-text Content-Type, and the rejection's own text as the body. The handler runs only on a forwarded request for a conversion path, and its quota query uses the verified, non-empty subject. |
| `Server.MiddlewareSubjectReachesHandler` | backend/image_conversion_handlers.go:69-77 | A handler given a subject queries the quota for that subject. |
| `Server.MiddlewareMasksMissingAuthID` | backend/main.go:76 | Behind the middleware, the as-written and corrected handlers do the same work and leave the same database. Their statuses agree unless recording fails. |
| `MainComponent.SelectFile` | frontend/src/app/MainComponent.tsx:99-110 | The error is cleared first. An allowed first file becomes the file and the starting type. A disallowed one sets the error and leaves the file and starting type as they were. |
| `MainComponent.OnDrop` | frontend/src/app/MainComponent.tsx:73-87 | A drop ends the drag highlight and otherwise behaves like a file selection. |
| `MainComponent.OnFileChange` | frontend/src/app/MainComponent.tsx:99-110 | No files: only the error is cleared. An allowed first file becomes the file and the starting type, with no error. A disallowed first file sets the error "Chosen file type is not on the list of accepted types." and keeps the file and starting type. The drag, converting and target fields never change. |
| `MainComponent.OnlyFirstFileCounts` | frontend/src/app/MainComponent.tsx:78-79 | Files after the first are ignored. |
| `MainComponent.SelectionInvariantHolds` | frontend/src/app/MainComponent.tsx:18-110 | The initial state satisfies it, and a drop, a file change and a target choice keep it: the starting type is in the allow-list and a selected file's type is the starting type. |
| `MainComponent.OnTargetChosen` | frontend/src/app/MainComponent.tsx:161-163 | Choosing a target sets the target type and leaves every other field as it was. |
| `MainComponent.ChosenTargetIsEncoder` | frontend/src/app/MainComponent.tsx:112-163 | After choosing a different allowed target with a file selected, the next conversion is sent, to the backend route whose decoder is the starting type and whose encoder is the chosen one. |
| `Strings.JoinSplit` | frontend/src/app/MainComponent.tsx:124 | Splitting on a character loses nothing: joining the pieces with that character gives back the string. |
| `MainComponent.SubtypeOfImageType` | frontend/src/app/MainComponent.tsx:124 | `"image/x".split("/").at(1)` is `x`. |
| `MainComponent.BeginConvert` | frontend/src/app/MainComponent.tsx:112-124 | With no file nothing happens. With equal types the error becomes "File is already that type." and no request is made. Otherwise the error is cleared, converting starts, and the URL is backend + "/" + starting subtype + "/" + target subtype. |
| `MainComponent.ConversionPathIsRoute` | frontend/src/app/MainComponent.tsx:124 | For two different allowed types, the path is one of the backend's six routes, with the starting type as decoder and the target as encoder. |
| `MainComponent.FailureMessage` | frontend/src/app/MainComponent.tsx:135-138 | A non-OK response's error is its body text, or "Server returned <status>" when the body is empty. |
| `MainComponent.EmptyBodyReportsStatus` | frontend/src/app/MainComponent.tsx:137 | The "Server returned" message carries the status in decimal, and those digits read back as the status. |
| `MainComponent.FinishConvert` | frontend/src/app/MainComponent.tsx:135-158 | Converting ends on every outcome. Only an OK response yields a download, named from the request's file and target type. Each failure kind sets its own error. |
| `MainComponent.EnabledButtonConverts` | frontend/src/app/MainComponent.tsx:112-208 | When the button is enabled (a file is selected and no conversion is in flight), pressing it either sends a request or reports that the file is already that type; it never returns silently. |
| `MainComponent.ButtonDuringConversion` | frontend/src/app/MainComponent.tsx:121-208 | The button is disabled while the request is in flight, and enabled again once it settles (a file is still selected). |
| `MainComponent.StripExtension` | frontend/src/app/MainComponent.tsx:144 | The result is the name cut at the match of `/\.[^.]+$/` when there is one, and the whole name otherwise. |
| `MainComponent.DownloadName` | frontend/src/app/MainComponent.tsx:144 | The download name always ends with "." plus the target subtype. |
| `MainComponent.StripExtensionOfExtended` | frontend/src/app/MainComponent.tsx:144 | `base.ext`, where `ext` is non-empty and has no dot, loses exactly `.ext`. |
| `MainComponent.NoExtensionKeepsName` | frontend/src/app/MainComponent.tsx:144 | A name without a dot is kept whole before the new extension. |
| `FrontendMiddleware.AnyPrefix` | frontend/src/middleware.ts:11 | `some(startsWith)` holds iff some listed route is a prefix of the path. |
| `FrontendMiddleware.Middleware` | frontend/src/middleware.ts:7-18 | The guard redirects iff the path is protected and there is no session. The redirect goes to `/api/auth/signin` on the request's origin; everything else passes through. |
| `FrontendMiddleware.ProtectionIsPrefix` | frontend/src/middleware.ts:5-11 | A path is protected iff it starts with "/user-info". |
| `FrontendMiddleware.PrefixOnlyExample` | frontend/src/middleware.ts:5-11 | "/user-infoX" and "/user-info/settings" are protected; "/" is not. |

## Findings

| source | as written | input that shows it | evidently intended | confidence | as-written member | corrected member |
|---|---|---|---|---|---|---|
| backend/image_conversion_handlers.go:127-138 | The encoder streams the image into the response, which commits status 200. A failed `insertConversion` then calls `http.Error(..., 500)`, which cannot change the status. | An admitted POST whose decode and encode succeed while the INSERT fails (`acceptsWrites` false) | The client is told the operation failed (500) | medium, not executed | `ImageConversion.RecordFailureStillSends200` | `ImageConversion.IntendedRecordFailureIs500` |
| backend/image_conversion_handlers.go:69-73 | A failed user-id extraction writes 400 but does not return. Quota, read, decode, encode and record still run for the empty id. | A POST reaching the handler with no subject in its context, with a plan row for "" | Return immediately after the 400 | high, not executed | `ImageConversion.MissingAuthIDStillRecords` | `ImageConversion.IntendedStopsWithoutAuthID` |
| backend/image_conversion_handlers.go:129 | The encode-failure message names `decoderTag` | A JPEG→PNG request whose PNG encode fails reports "Failed to encode jpeg." | Name the encoder tag: "Failed to encode png." | medium, not executed | `ImageConversion.EncodeFailureNamesSource` | `ImageConversion.IntendedEncodeFailureNamesTarget` |

The server composition `Server.Serve` uses the handler as written, because
that is what the program runs. Behind the middleware, a forwarded request
always carries a non-empty subject (`Server.Serve`,
`Server.MiddlewareMasksMissingAuthID`). So the second finding cannot happen
in the deployed composition; it matters only for a handler mounted without
the middleware. The first finding does happen in the deployed composition.

## Left out

- JWT parsing, signature verification and key-set retrieval are one opaque
  `Verdict`. This covers the library's own time-claim checks (which run
  before the middleware's `exp` check; a library that requires `now < exp`
  rejects an `exp` equal to now before line 86 is reached, with an
  "Invalid token: …" message) and the nil `err` that line 46 would
  dereference if the library ever returned an invalid token without an error.
- `ExpiryBoundary`: `int64(exp)` is modelled as truncation toward zero of an
  exact rational. Float64 rounding and out-of-range conversion are not
  modelled.
- `CalculateTimeoutMs`: stated in integer milliseconds. The float64
  arithmetic and the nanosecond `time.Duration` of the source are not
  modelled.
- `LimitBytes`: `maxFileSizeMB * megabyte` is unbounded; the 64-bit overflow
  of the source for absurd plan sizes is not modelled.
- `readWithTimeout`: the goroutine and channel race, and `MaxBytesReader`'s
  connection handling, are an environment function from (ceiling, deadline)
  to the read outcome, because they are concurrency. That function is not
  required to respect the byte ceiling; `RecordedSizeWithinPlan` states its
  bound only for reads that do (`ReadRespectsLimit`).
- JPEG, PNG and WebP decoding and encoding are environment functions that may
  fail. An encoder is assumed to fail before writing any byte. Only the
  options and content types are recorded, as constants.
- `InsertConversion`: the record is stamped with `now`. The INSERT never sets
  `created_at`, so this relies on a column default of the current time. The
  schema is not part of this model, and `InsertCountsOnce` holds only under
  that assumption.
- `CanUserConvert`, `InsertConversion`: the SQL text and `database/sql` are
  replaced by the `Db` value with `now` as a parameter. The database error
  texts are placeholders. An INSERT for an unknown auth id is modelled as
  failing, on the assumption that `user_id` is a NOT NULL column; the schema
  is not part of this model.
- `Http.Error` is modelled with its header effects (Content-Length removed,
  plain-text Content-Type, `nosniff`). The writer keeps changing its header
  map after the status is committed, as Go's header map does, but the model
  does not separate the headers the client actually received (those at the
  commit) from later changes. No property here depends on headers changed
  after the commit.
- The user endpoints (`backend/db_handlers.go`), the health handlers, the
  database retry loop, `ListenAndServe`, environment reads and ServeMux path
  cleaning are not part of this model; `Server.Serve` reports such paths as
  `OtherRoute` or `HealthCheck`.
- Frontend configuration (`next.config.ts`, `auth.ts`, `next-auth.d.ts`),
  page and layout rendering, the user-registration effect, the drag-over and
  drag-leave highlight handlers, and the DOM download mechanics are left out
  because they are rendering or I/O. The download is the value `Download`.
- `FinishConvert`: failures of `response.text()` or `response.blob()` are not
  modelled.
