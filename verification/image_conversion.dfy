/** The conversion handlers (backend/image_conversion_handlers.go): the codec
    registry, the factory that validates a (decoder, encoder) tag pair, the
    read timeout, and the handler's ordered sequence of gates. Codecs, the
    body read and the database are parameters of the model. */
module ImageConversion {
  import opened Wrappers
  import opened Http
  import opened HandlerHelpers
  import opened Sizes
  import opened UserAccess
  import AuthMiddleware

  const JpegTag := "jpeg"
  const PngTag := "png"
  const WebpTag := "webp"

  /** `minimumConversionTime` (5 s), in milliseconds. */
  const MinimumConversionTimeMs := 5000
  /** `minimumKBTransferSpeed`, in KB per second. */
  const MinimumKBTransferSpeed := 20

  /** Methods the conversion handler advertises in its CORS headers. */
  const HandlerMethods: seq<string> := [MethodPost, MethodOptions]

  // ----- Codec registry -----

  datatype Format = Jpeg | Png | Webp

  function Tag(f: Format): string {
    match f
    case Jpeg => JpegTag
    case Png => PngTag
    case Webp => WebpTag
  }

  predicate KnownTag(tag: string) {
    tag == JpegTag || tag == PngTag || tag == WebpTag
  }

  /** The `switch` shared by `getDecoder` and `getEncoder`. */
  function ParseTag(tag: string): (r: Option<Format>)
    ensures r.Some? <==> KnownTag(tag)
    ensures r.Some? ==> Tag(r.value) == tag
  {
    if tag == JpegTag then Some(Jpeg)
    else if tag == PngTag then Some(Png)
    else if tag == WebpTag then Some(Webp)
    else None
  }

  lemma TagRoundTrip(f: Format)
    ensures ParseTag(Tag(f)) == Some(f)
    ensures forall g :: Tag(g) == Tag(f) ==> g == f
  {
  }

  /** The options each encoder passes to its library. */
  datatype EncoderOptions = JpegQuality(quality: int) | PngDefaults | WebpLossless(lossless: bool)

  datatype Decoder = Decoder(format: Format)

  /** An encoder: its format, the Content-Type it sets, its options and the
      message it writes itself when the library fails. */
  datatype Encoder = Encoder(format: Format, contentType: string, options: EncoderOptions, failureMessage: string)

  function EncoderFor(f: Format): Encoder {
    match f
    case Jpeg => Encoder(Jpeg, "image/jpg", JpegQuality(90), "failed to encode JPG.")
    case Png => Encoder(Png, "image/png", PngDefaults, "failed to encode PNG.")
    case Webp => Encoder(Webp, "image/webp", WebpLossless(true), "failed to encode file.")
  }

  /** `getDecoder`: a decoder exactly for the three known tags. */
  function GetDecoder(tag: string): (r: Option<Decoder>)
    ensures r.Some? <==> KnownTag(tag)
    ensures r.Some? ==> Tag(r.value.format) == tag
  {
    match ParseTag(tag)
    case Some(f) => Some(Decoder(f))
    case None => None
  }

  /** `getEncoder`: an encoder exactly for the three known tags. */
  function GetEncoder(tag: string): (r: Option<Encoder>)
    ensures r.Some? <==> KnownTag(tag)
    ensures r.Some? ==> Tag(r.value.format) == tag && r.value == EncoderFor(r.value.format)
  {
    match ParseTag(tag)
    case Some(f) => Some(EncoderFor(f))
    case None => None
  }

  /** The encoder policy constants: JPEG at quality 90 labelled "image/jpg",
      PNG with library defaults, WebP lossless. */
  lemma EncoderPolicy()
    ensures GetEncoder(JpegTag) == Some(Encoder(Jpeg, "image/jpg", JpegQuality(90), "failed to encode JPG."))
    ensures GetEncoder(PngTag) == Some(Encoder(Png, "image/png", PngDefaults, "failed to encode PNG."))
    ensures GetEncoder(WebpTag) == Some(Encoder(Webp, "image/webp", WebpLossless(true), "failed to encode file."))
  {
  }

  // ----- Factory -----

  /** The three panics of `imageHandlerFactory`. */
  datatype FactoryPanic = InvalidDecoder | InvalidEncoder | SameFormat

  datatype ImageHandler = ImageHandler(decoderTag: string, encoderTag: string, decoder: Decoder, encoder: Encoder)

  /** `imageHandlerFactory`: checks the decoder, then the encoder, then that
      the two tags differ. */
  function ImageHandlerFactory(decoderTag: string, encoderTag: string): (r: Result<ImageHandler, FactoryPanic>)
    ensures r.Failure? <==> !KnownTag(decoderTag) || !KnownTag(encoderTag) || decoderTag == encoderTag
    ensures r == Failure(InvalidDecoder) <==> !KnownTag(decoderTag)
    ensures r == Failure(InvalidEncoder) <==> KnownTag(decoderTag) && !KnownTag(encoderTag)
    ensures r == Failure(SameFormat) <==> KnownTag(decoderTag) && KnownTag(encoderTag) && decoderTag == encoderTag
    ensures r.Success? ==>
              && r.value.decoderTag == decoderTag && r.value.encoderTag == encoderTag
              && Tag(r.value.decoder.format) == decoderTag
              && Tag(r.value.encoder.format) == encoderTag
              && r.value.decoder.format != r.value.encoder.format
  {
    var decoder := GetDecoder(decoderTag);
    var encoder := GetEncoder(encoderTag);
    if decoder.None? then Failure(InvalidDecoder)
    else if encoder.None? then Failure(InvalidEncoder)
    else if encoderTag == decoderTag then Failure(SameFormat)
    else Success(ImageHandler(decoderTag, encoderTag, decoder.value, encoder.value))
  }

  // ----- Read timeout -----

  /** `calculateTimeout`, in milliseconds: the larger of the 5 s floor and the
      time to move the whole size limit at 20 KB/s. */
  function CalculateTimeoutMs(maxMB: int): (ms: int)
    ensures ms >= MinimumConversionTimeMs
    ensures ms * MinimumKBTransferSpeed >= 1000 * Kilobyte * maxMB
    ensures ms == MinimumConversionTimeMs || ms * MinimumKBTransferSpeed == 1000 * Kilobyte * maxMB
  {
    var transferMs := 51200 * maxMB;
    if transferMs > MinimumConversionTimeMs then transferMs else MinimumConversionTimeMs
  }

  /** A larger size limit never shortens the deadline. */
  lemma TimeoutMonotone(a: int, b: int)
    requires a <= b
    ensures CalculateTimeoutMs(a) <= CalculateTimeoutMs(b)
  {
  }

  /** From one megabyte up the transfer term dominates: 51.2 s per megabyte. */
  lemma TimeoutForPositiveSizes(maxMB: int)
    ensures maxMB >= 1 ==> CalculateTimeoutMs(maxMB) == 51200 * maxMB
    ensures maxMB <= 0 ==> CalculateTimeoutMs(maxMB) == MinimumConversionTimeMs
  {
  }

  // ----- The handler -----

  datatype Image = Image(width: nat, height: nat, pixels: seq<int>)

  /** The codec libraries: `decode` fails on bytes that are not a valid
      image of the format, `encode` fails when the library does. */
  datatype Codecs = Codecs(decode: (Format, seq<uint8>) -> Option<Image>,
                           encode: (Format, Image) -> Option<seq<uint8>>)

  /** How `readWithTimeout` over the `MaxBytesReader` ends. */
  datatype ReadOutcome = ReadOk(data: seq<uint8>) | DeadlineExceeded | MaxBytesExceeded | OtherReadError

  /** Everything outside the handler: the database, the clock, the bounded
      read of the body (given its byte ceiling and deadline), the codecs. */
  datatype Env = Env(db: Db, now: int, read: (int, int) -> ReadOutcome, codecs: Codecs)

  /** `MaxBytesReader` never yields more bytes than its ceiling; it treats a
      negative ceiling as zero. */
  function Ceiling(limit: int): nat {
    if limit < 0 then 0 else limit
  }

  ghost predicate ReadRespectsLimit(env: Env) {
    forall limit, timeout :: env.read(limit, timeout).ReadOk? ==> |env.read(limit, timeout).data| <= Ceiling(limit)
  }

  /** The work the handler performs, in the order performed. */
  datatype Work =
    | QueryQuota(authID: string)
    | ReadBody(limitBytes: int, timeoutMs: int)
    | DecodeBody(decoded: Format)
    | EncodeImage(encoded: Format)
    | RecordConversion(record: ConversionRecord)

  function Rank(w: Work): nat {
    match w
    case QueryQuota(_) => 0
    case ReadBody(_, _) => 1
    case DecodeBody(_) => 2
    case EncodeImage(_) => 3
    case RecordConversion(_) => 4
  }

  /** The work done is a prefix of quota, read, decode, encode, record. */
  predicate InPipelineOrder(trace: seq<Work>) {
    forall i :: 0 <= i < |trace| ==> Rank(trace[i]) == i
  }

  /** The response, the database afterwards, and the work done. */
  datatype Served = Served(w: Writer, db: Db, trace: seq<Work>)

  const NotPostMessage := "You cannot use this method with this endpoint. Try POST instead."
  const NoAuthIDMessage := "Failed to extract authentication token from request."
  const ExhaustedMessage := "User exhausted possible conversions"
  const TimedOutMessage := "Request timed out."
  const TooLargeMessage := "The file provided exceeds your account limit."
  const ReadFailedMessage := "Failed to read file."

  function DecodeFailedMessage(h: ImageHandler): string {
    "Failed to decode " + h.decoderTag + ". Make sure its a valid image."
  }

  /** The handler's own encode-failure message, which names the decoder tag. */
  function EncodeFailedMessage(h: ImageHandler): string {
    "Failed to encode " + h.decoderTag + "."
  }

  /** The same message naming the format that failed to encode. */
  function IntendedEncodeFailedMessage(h: ImageHandler): string {
    "Failed to encode " + h.encoderTag + "."
  }

  /** The byte ceiling handed to `http.MaxBytesReader`. */
  function LimitBytes(maxFileSizeMB: int): int {
    maxFileSizeMB * Megabyte
  }

  /** `AsWritten` is the handler of the source. `Intended` differs in three
      places: it stops when the user id is missing, its encode-failure message
      names the target format, and it records the conversion before sending
      the encoded bytes, so that a failed record can still answer 500. */
  datatype Variant = AsWritten | Intended

  /** The handler returned by the factory, as written. `ctx` is the subject
      the middleware stored in the request context, `header` the response
      headers set before the handler runs. */
  function Handle(h: ImageHandler, httpMethod: string, request: Headers, ctx: Option<string>,
                  env: Env, header: Headers): (r: Served)
    ensures InPipelineOrder(r.trace)
    ensures r.db == env.db || (|r.trace| == 5 && r.db == env.db.(log := env.db.log + [r.trace[4].record]))
  {
    HandleVariant(AsWritten, h, httpMethod, request, ctx, env, header)
  }

  /** The handler with the three corrections of `Intended`. */
  function HandleIntended(h: ImageHandler, httpMethod: string, request: Headers, ctx: Option<string>,
                          env: Env, header: Headers): (r: Served)
    ensures InPipelineOrder(r.trace)
    ensures r.db == env.db || (|r.trace| == 5 && r.db == env.db.(log := env.db.log + [r.trace[4].record]))
    ensures ctx.None? ==> r.trace == []
  {
    HandleVariant(Intended, h, httpMethod, request, ctx, env, header)
  }

  function HandleVariant(v: Variant, h: ImageHandler, httpMethod: string, request: Headers,
                         ctx: Option<string>, env: Env, header: Headers): (r: Served)
    ensures InPipelineOrder(r.trace)
    ensures r.db == env.db || (|r.trace| == 5 && r.db == env.db.(log := env.db.log + [r.trace[4].record]))
    ensures v == Intended && ctx.None? ==> r.trace == []
  {
    var w := Fresh(SetHandlerHeaders(header, request, HandlerMethods));
    if httpMethod == MethodOptions then Served(WriteHeader(w, StatusOK), env.db, [])
    else if httpMethod != MethodPost then Served(Error(w, NotPostMessage, StatusBadRequest), env.db, [])
    else
      var (authID, ok) := AuthMiddleware.GetUserAuthID(ctx);
      if !ok && v == Intended then Served(Error(w, NoAuthIDMessage, StatusBadRequest), env.db, [])
      else
        // As written, the failure is reported but processing goes on with an empty id.
        var w' := if ok then w else Error(w, NoAuthIDMessage, StatusBadRequest);
        Admit(v, h, authID, env, w')
  }

  /** Quota gate and bounded read. */
  function Admit(v: Variant, h: ImageHandler, authID: string, env: Env, w: Writer): (r: Served)
    ensures |r.trace| >= 1 && r.trace[0] == QueryQuota(authID)
    ensures InPipelineOrder(r.trace)
    ensures r.db == env.db || (|r.trace| == 5 && r.db == env.db.(log := env.db.log + [r.trace[4].record]))
  {
    var decision := CanUserConvert(env.db, authID, env.now);
    var trace := [QueryQuota(authID)];
    if decision.err.Some? then Served(Error(w, ErrorText(decision.err.value), StatusForbidden), env.db, trace)
    else if !decision.allowed then Served(Error(w, ExhaustedMessage, StatusForbidden), env.db, trace)
    else
      var limit := LimitBytes(decision.maxFileSizeMB);
      var timeout := CalculateTimeoutMs(decision.maxFileSizeMB);
      var trace := trace + [ReadBody(limit, timeout)];
      match env.read(limit, timeout)
      case DeadlineExceeded => Served(Error(w, TimedOutMessage, StatusRequestTimeout), env.db, trace)
      case MaxBytesExceeded => Served(Error(w, TooLargeMessage, StatusRequestEntityTooLarge), env.db, trace)
      case OtherReadError => Served(Error(w, ReadFailedMessage, StatusBadRequest), env.db, trace)
      case ReadOk(data) => Convert(v, h, authID, data, env, w, trace)
  }

  /** Decode, encode, record. As written, the encoder streams into the
      response before the record is attempted. */
  function Convert(v: Variant, h: ImageHandler, authID: string, data: seq<uint8>, env: Env, w: Writer,
                   trace: seq<Work>): (r: Served)
    requires |trace| == 2 && InPipelineOrder(trace)
    ensures |r.trace| >= 3 && r.trace[..2] == trace
    ensures InPipelineOrder(r.trace)
    ensures r.db == env.db || (|r.trace| == 5 && r.db == env.db.(log := env.db.log + [r.trace[4].record]))
  {
    var trace := trace + [DecodeBody(h.decoder.format)];
    match env.codecs.decode(h.decoder.format, data)
    case None => Served(Error(w, DecodeFailedMessage(h), StatusBadRequest), env.db, trace)
    case Some(img) =>
      var trace := trace + [EncodeImage(h.encoder.format)];
      var w := w.(header := w.header["Content-Type" := h.encoder.contentType]);
      match env.codecs.encode(h.encoder.format, img)
      case None =>
        var w := Error(w, h.encoder.failureMessage, StatusInternalServerError);
        var message := if v == AsWritten then EncodeFailedMessage(h) else IntendedEncodeFailedMessage(h);
        Served(Error(w, message, StatusInternalServerError), env.db, trace)
      case Some(encoded) => Record(v, h, authID, |data|, encoded, env, w, trace)
  }

  /** Insert the conversion record and send the encoded bytes, in the order
      of the variant. */
  function Record(v: Variant, h: ImageHandler, authID: string, size: nat, encoded: seq<uint8>, env: Env,
                  w: Writer, trace: seq<Work>): (r: Served)
    requires |trace| == 4
    ensures r.trace == trace + [RecordConversion(ConversionRecord(authID, h.decoderTag, h.encoderTag, size, env.now))]
    ensures r.db == env.db || r.db == env.db.(log := env.db.log + [r.trace[4].record])
  {
    var record := ConversionRecord(authID, h.decoderTag, h.encoderTag, size, env.now);
    var trace := trace + [RecordConversion(record)];
    var inserted := InsertConversion(env.db, authID, h.decoderTag, h.encoderTag, size, env.now);
    if v == AsWritten then
      var w := Write(w, Bytes(encoded));
      match inserted
      case Failure(e) => Served(Error(w, ErrorText(e), StatusInternalServerError), env.db, trace)
      case Success(db') => Served(w, db', trace)
    else
      match inserted
      case Failure(e) => Served(Error(w, ErrorText(e), StatusInternalServerError), env.db, trace)
      case Success(db') => Served(Write(w, Bytes(encoded)), db', trace)
  }

  // ----- Properties of the handler -----

  /** The quota answer for a subject. */
  function QuotaOf(env: Env, authID: string): Decision {
    CanUserConvert(env.db, authID, env.now)
  }

  /** The quota gate lets the request through to the read. */
  predicate Admitted(env: Env, authID: string) {
    QuotaOf(env, authID).err.None? && QuotaOf(env, authID).allowed
  }

  /** The outcome of the bounded read under the user's size limit. */
  function ReadOf(env: Env, authID: string): ReadOutcome {
    var mb := QuotaOf(env, authID).maxFileSizeMB;
    env.read(LimitBytes(mb), CalculateTimeoutMs(mb))
  }

  /** A preflight answers 200 with the CORS headers and does nothing else. */
  lemma OptionsDoesNothingElse(h: ImageHandler, request: Headers, ctx: Option<string>, env: Env, header: Headers)
    ensures var r := Handle(h, MethodOptions, request, ctx, env, header);
            && StatusSent(r.w) == StatusOK && r.w.body == [] && r.trace == [] && r.db == env.db
            && r.w.header == SetHandlerHeaders(header, request, HandlerMethods)
  {
  }

  /** Any method other than POST and OPTIONS is answered 400 before any work. */
  lemma OtherMethodsRejected(h: ImageHandler, httpMethod: string, request: Headers, ctx: Option<string>,
                             env: Env, header: Headers)
    requires httpMethod != MethodOptions && httpMethod != MethodPost
    ensures var r := Handle(h, httpMethod, request, ctx, env, header);
            StatusSent(r.w) == StatusBadRequest && r.trace == [] && r.db == env.db
  {
  }

  /** As written, a missing user id commits 400 yet the pipeline still runs,
      starting with a quota query for the empty id. */
  lemma MissingAuthIDContinues(h: ImageHandler, request: Headers, env: Env, header: Headers)
    ensures var r := Handle(h, MethodPost, request, None, env, header);
            StatusSent(r.w) == StatusBadRequest && |r.trace| >= 1 && r.trace[0] == QueryQuota("")
  {
  }

  /** A quota error or an exhausted quota answers 403 after the quota query
      and before the body is read. */
  lemma QuotaGate(h: ImageHandler, request: Headers, sub: string, env: Env, header: Headers)
    requires !Admitted(env, sub)
    ensures var r := Handle(h, MethodPost, request, Some(sub), env, header);
            StatusSent(r.w) == StatusForbidden && r.trace == [QueryQuota(sub)] && r.db == env.db
  {
  }

  /** An admitted request reads the body under the user's byte ceiling and the
      matching deadline; a timeout is 408, an oversized body 413, any other
      read error 400, and none of them goes further. */
  lemma ReadGate(h: ImageHandler, request: Headers, sub: string, env: Env, header: Headers)
    requires Admitted(env, sub)
    ensures var r := Handle(h, MethodPost, request, Some(sub), env, header);
            var mb := QuotaOf(env, sub).maxFileSizeMB;
            && |r.trace| >= 2
            && r.trace[1] == ReadBody(mb * Megabyte, CalculateTimeoutMs(mb))
            && (ReadOf(env, sub) == DeadlineExceeded ==> StatusSent(r.w) == StatusRequestTimeout && |r.trace| == 2)
            && (ReadOf(env, sub) == MaxBytesExceeded ==> StatusSent(r.w) == StatusRequestEntityTooLarge && |r.trace| == 2)
            && (ReadOf(env, sub) == OtherReadError ==> StatusSent(r.w) == StatusBadRequest && |r.trace| == 2)
            && (!ReadOf(env, sub).ReadOk? ==> r.db == env.db)
  {
  }

  /** Bytes that do not decode answer 400; nothing is encoded or recorded. */
  lemma DecodeFailure(h: ImageHandler, request: Headers, sub: string, env: Env, header: Headers)
    requires Admitted(env, sub) && ReadOf(env, sub).ReadOk?
    requires env.codecs.decode(h.decoder.format, ReadOf(env, sub).data).None?
    ensures var r := Handle(h, MethodPost, request, Some(sub), env, header);
            StatusSent(r.w) == StatusBadRequest && |r.trace| == 3 && r.db == env.db
  {
  }

  /** An encoder failure answers 500 and nothing is recorded. */
  lemma EncodeFailure(h: ImageHandler, request: Headers, sub: string, env: Env, header: Headers)
    requires Admitted(env, sub) && ReadOf(env, sub).ReadOk?
    requires env.codecs.decode(h.decoder.format, ReadOf(env, sub).data).Some?
    requires env.codecs.encode(h.encoder.format, env.codecs.decode(h.decoder.format, ReadOf(env, sub).data).value).None?
    ensures var r := Handle(h, MethodPost, request, Some(sub), env, header);
            StatusSent(r.w) == StatusInternalServerError && |r.trace| == 4 && r.db == env.db
  {
  }

  /** A full success answers 200 with the encoded bytes under the target's
      Content-Type and appends one record whose size is the body length. */
  lemma SuccessfulConversion(h: ImageHandler, request: Headers, sub: string, env: Env, header: Headers)
    requires Admitted(env, sub) && ReadOf(env, sub).ReadOk?
    requires env.codecs.decode(h.decoder.format, ReadOf(env, sub).data).Some?
    requires env.codecs.encode(h.encoder.format, env.codecs.decode(h.decoder.format, ReadOf(env, sub).data).value).Some?
    requires env.db.acceptsWrites
    ensures var r := Handle(h, MethodPost, request, Some(sub), env, header);
            var data := ReadOf(env, sub).data;
            var encoded := env.codecs.encode(h.encoder.format, env.codecs.decode(h.decoder.format, data).value).value;
            && StatusSent(r.w) == StatusOK
            && r.w.body == [Bytes(encoded)]
            && "Content-Type" in r.w.header && r.w.header["Content-Type"] == h.encoder.contentType
            && r.db.log == env.db.log + [ConversionRecord(sub, h.decoderTag, h.encoderTag, |data|, env.now)]
  {
  }

  /** Under a read that respects its ceiling, a recorded conversion is never
      larger than the user's plan allows. */
  lemma RecordedSizeWithinPlan(h: ImageHandler, httpMethod: string, request: Headers, sub: string,
                               env: Env, header: Headers)
    ensures var r := Handle(h, httpMethod, request, Some(sub), env, header);
            ReadRespectsLimit(env) && |r.trace| == 5 ==>
              && r.trace[4].record.authID == sub
              && r.trace[4].record.fileSize <= Ceiling(LimitBytes(QuotaOf(env, sub).maxFileSizeMB))
  {
    var r := Handle(h, httpMethod, request, Some(sub), env, header);
    if ReadRespectsLimit(env) && |r.trace| == 5 {
      var mb := QuotaOf(env, sub).maxFileSizeMB;
      assert env.read(LimitBytes(mb), CalculateTimeoutMs(mb)).ReadOk?;
    }
  }

  /** As written, a failed record after a successful encode still answers
      200: the encoder has already committed the status by writing the image. */
  lemma RecordFailureStillSends200(h: ImageHandler, request: Headers, sub: string, env: Env, header: Headers)
    requires Admitted(env, sub) && ReadOf(env, sub).ReadOk?
    requires env.codecs.decode(h.decoder.format, ReadOf(env, sub).data).Some?
    requires env.codecs.encode(h.encoder.format, env.codecs.decode(h.decoder.format, ReadOf(env, sub).data).value).Some?
    requires !env.db.acceptsWrites
    ensures var r := Handle(h, MethodPost, request, Some(sub), env, header);
            StatusSent(r.w) == StatusOK && |r.trace| == 5 && r.db == env.db
  {
  }

  /** As written, an encode failure blames the source format: converting
      JPEG to PNG reports "Failed to encode jpeg.". */
  lemma EncodeFailureNamesSource(h: ImageHandler, request: Headers, sub: string, env: Env, header: Headers)
    requires h.decoderTag == JpegTag && h.encoderTag == PngTag
    requires Admitted(env, sub) && ReadOf(env, sub).ReadOk?
    requires env.codecs.decode(h.decoder.format, ReadOf(env, sub).data).Some?
    requires env.codecs.encode(h.encoder.format, env.codecs.decode(h.decoder.format, ReadOf(env, sub).data).value).None?
    ensures var r := Handle(h, MethodPost, request, Some(sub), env, header);
            r.w.body[|r.w.body| - 1] == Text("Failed to encode jpeg.\n")
  {
  }

  // ----- Properties of the corrected handler -----

  /** Without a user id the corrected handler stops at 400 before any work. */
  lemma IntendedStopsWithoutAuthID(h: ImageHandler, request: Headers, env: Env, header: Headers)
    ensures var r := HandleIntended(h, MethodPost, request, None, env, header);
            StatusSent(r.w) == StatusBadRequest && r.trace == [] && r.db == env.db
  {
  }

  /** In the corrected handler a failed record answers 500 and no image bytes are sent. */
  lemma IntendedRecordFailureIs500(h: ImageHandler, request: Headers, sub: string, env: Env, header: Headers)
    requires Admitted(env, sub) && ReadOf(env, sub).ReadOk?
    requires env.codecs.decode(h.decoder.format, ReadOf(env, sub).data).Some?
    requires env.codecs.encode(h.encoder.format, env.codecs.decode(h.decoder.format, ReadOf(env, sub).data).value).Some?
    requires !env.db.acceptsWrites
    ensures var r := HandleIntended(h, MethodPost, request, Some(sub), env, header);
            && StatusSent(r.w) == StatusInternalServerError
            && (forall k :: 0 <= k < |r.w.body| ==> r.w.body[k].Text?)
            && r.db == env.db
  {
  }

  /** The corrected encode-failure message names the target format. */
  lemma IntendedEncodeFailureNamesTarget(h: ImageHandler, request: Headers, sub: string, env: Env, header: Headers)
    requires Admitted(env, sub) && ReadOf(env, sub).ReadOk?
    requires env.codecs.decode(h.decoder.format, ReadOf(env, sub).data).Some?
    requires env.codecs.encode(h.encoder.format, env.codecs.decode(h.decoder.format, ReadOf(env, sub).data).value).None?
    ensures var r := HandleIntended(h, MethodPost, request, Some(sub), env, header);
            r.w.body[|r.w.body| - 1] == Text("Failed to encode " + h.encoderTag + ".\n")
  {
  }

  /** For an authenticated request the corrected handler does the same work,
      leaves the same database and answers the same status, except that a
      failed record becomes a 500. */
  lemma IntendedAgreesWhenAuthenticated(h: ImageHandler, httpMethod: string, request: Headers, sub: string,
                                        env: Env, header: Headers)
    ensures var r := Handle(h, httpMethod, request, Some(sub), env, header);
            var r' := HandleIntended(h, httpMethod, request, Some(sub), env, header);
            && r.trace == r'.trace
            && r.db == r'.db
            && (|r.trace| < 5 || env.db.acceptsWrites ==> StatusSent(r.w) == StatusSent(r'.w))
  {
  }

  /** A concrete run of the defect: a request that reaches the handler without
      a user id is answered 400, yet when the empty id has a plan row the
      image is converted and recorded against it. */
  lemma MissingAuthIDStillRecords()
    ensures var h := ImageHandler(JpegTag, PngTag, Decoder(Jpeg), EncoderFor(Png));
            var env := Env(Db(true, true, map["" := PlanRow(10, 5)], []), 0,
                           (limit: int, timeout: int) => ReadOk([1]),
                           Codecs((f: Format, d: seq<uint8>) => Some(Image(1, 1, [0])),
                                  (f: Format, i: Image) => Some([2])));
            var r := Handle(h, MethodPost, map[], None, env, map[]);
            StatusSent(r.w) == StatusBadRequest && |r.db.log| == 1 && r.db.log[0].authID == ""
  {
  }
}
