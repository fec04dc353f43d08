/** The upload page's logic (frontend/src/app/MainComponent.tsx): file
    selection against the MIME allow-list, the conversion request built from
    the chosen types, the response handling and the download name. React
    state is a value; each handler maps a state to the next one. */
module MainComponent {
  import opened Wrappers
  import opened Strings
  import opened Http
  import Server
  import ImageConversion

  const AllowedTypes: seq<string> := ["image/jpeg", "image/png", "image/webp"]

  const NotAcceptedMessage := "Chosen file type is not on the list of accepted types."
  const AlreadyThatTypeMessage := "File is already that type."
  const ConversionFailedMessage := "Conversion failed."

  datatype File = File(name: string, mimeType: string, content: seq<uint8>)

  /** The component's `useState` hooks. */
  datatype State = State(
    file: Option<File>,
    isDragging: bool,
    error: Option<string>,
    isConverting: bool,
    startingType: string,
    targetType: string)

  const InitialState := State(None, false, None, false, "image/jpeg", "image/jpeg")

  // ----- Choosing a file -----

  /** The part `onDrop` and `onFileChange` share: clear the error, then take
      the first file if its type is allowed, or report it otherwise. */
  function SelectFile(st: State, files: seq<File>): (r: State)
    ensures r.isDragging == st.isDragging && r.isConverting == st.isConverting && r.targetType == st.targetType
    ensures |files| == 0 ==> r == st.(error := None)
    ensures |files| > 0 && files[0].mimeType !in AllowedTypes ==>
              r.file == st.file && r.startingType == st.startingType && r.error == Some(NotAcceptedMessage)
    ensures |files| > 0 && files[0].mimeType in AllowedTypes ==>
              r.file == Some(files[0]) && r.startingType == files[0].mimeType && r.error.None?
  {
    var st := st.(error := None);
    if |files| == 0 then st
    else
      var f := files[0];
      if f.mimeType !in AllowedTypes then st.(error := Some(NotAcceptedMessage))
      else st.(file := Some(f), startingType := f.mimeType)
  }

  /** `onDrop`: also ends the drag highlight. */
  function OnDrop(st: State, files: seq<File>): (r: State)
    ensures !r.isDragging
    ensures r == SelectFile(st, files).(isDragging := false)
  {
    SelectFile(st.(isDragging := false), files)
  }

  /** `onFileChange`: the input's file list, with no drag state involved. */
  function OnFileChange(st: State, files: seq<File>): (r: State)
    ensures r.isDragging == st.isDragging && r.isConverting == st.isConverting && r.targetType == st.targetType
    ensures |files| == 0 ==> r == st.(error := None)
    ensures |files| > 0 && files[0].mimeType !in AllowedTypes ==>
              r.file == st.file && r.startingType == st.startingType && r.error == Some(NotAcceptedMessage)
    ensures |files| > 0 && files[0].mimeType in AllowedTypes ==>
              r.file == Some(files[0]) && r.startingType == files[0].mimeType && r.error.None?
  {
    SelectFile(st, files)
  }

  /** Only the first of several files is looked at. */
  lemma OnlyFirstFileCounts(st: State, f: File, rest: seq<File>)
    ensures OnDrop(st, [f] + rest) == OnDrop(st, [f])
    ensures OnFileChange(st, [f] + rest) == OnFileChange(st, [f])
  {
  }

  /** A selected file always has an allowed type, and it is the starting type. */
  predicate SelectionInvariant(st: State) {
    st.startingType in AllowedTypes && (st.file.Some? ==> st.file.value.mimeType == st.startingType)
  }

  /** The invariant holds initially and every selection handler keeps it. */
  lemma SelectionInvariantHolds(st: State, files: seq<File>, value: string)
    requires SelectionInvariant(st)
    ensures SelectionInvariant(InitialState)
    ensures SelectionInvariant(OnDrop(st, files))
    ensures SelectionInvariant(OnFileChange(st, files))
    ensures SelectionInvariant(OnTargetChosen(st, value))
  {
  }

  /** `handleTargetTypeChosen`: only the target type changes. */
  function OnTargetChosen(st: State, value: string): (r: State)
    ensures r.targetType == value
    ensures r.file == st.file && r.startingType == st.startingType && r.error == st.error
    ensures r.isConverting == st.isConverting && r.isDragging == st.isDragging
  {
    st.(targetType := value)
  }

  // ----- The request -----

  /** `mimeType.split("/").at(1)` placed in a template string: the part after
      the first "/", or "undefined" when there is none. */
  function Subtype(mimeType: string): string {
    var parts := Split(mimeType, '/');
    if |parts| > 1 then parts[1] else "undefined"
  }

  lemma {:induction false} SubtypeOfImageType(x: string)
    requires '/' !in x
    ensures Subtype("image/" + x) == x
  {
    SplitJoin(["image", x], '/');
    assert Join(["image", x], ['/']) == "image/" + x;
  }

  /** The conversion endpoint for the two chosen types. */
  function ConversionPath(startingType: string, targetType: string): string {
    "/" + Subtype(startingType) + "/" + Subtype(targetType)
  }

  datatype ConvertRequest = ConvertRequest(
    url: string, contentType: string, authorization: string, body: File, targetType: string)

  /** The rendering of `Bearer ${accessToken}` with a possibly undefined token. */
  function BearerHeader(accessToken: Option<string>): string {
    "Bearer " + accessToken.GetOr("undefined")
  }

  /** The synchronous part of `onConvert`, up to the `fetch`. */
  function BeginConvert(st: State, backendAddress: string, accessToken: Option<string>):
    (r: (State, Option<ConvertRequest>))
    ensures st.file.None? ==> r == (st, None)
    ensures st.file.Some? && st.startingType == st.targetType ==>
              r == (st.(error := Some(AlreadyThatTypeMessage)), None)
    ensures r.1.Some? <==> st.file.Some? && st.startingType != st.targetType
    ensures r.1.Some? ==>
              && r.0 == st.(error := None, isConverting := true)
              && r.1.value.url == backendAddress + ConversionPath(st.startingType, st.targetType)
              && r.1.value.body == st.file.value
              && r.1.value.targetType == st.targetType
  {
    if st.file.None? then (st, None)
    else if st.startingType == st.targetType then (st.(error := Some(AlreadyThatTypeMessage)), None)
    else
      var url := backendAddress + "/" + Subtype(st.startingType) + "/" + Subtype(st.targetType);
      (st.(error := None, isConverting := true),
       Some(ConvertRequest(url, st.startingType, BearerHeader(accessToken), st.file.value, st.targetType)))
  }

  /** Two different allowed types always name one of the backend's six
      conversion routes, with the starting type as decoder and the target
      type as encoder. */
  lemma ConversionPathIsRoute(startingType: string, targetType: string)
    requires startingType in AllowedTypes && targetType in AllowedTypes && startingType != targetType
    ensures var route := Server.LookupIn(Server.ConversionRoutes, ConversionPath(startingType, targetType));
            && route.Some?
            && route.value.decoderTag == Subtype(startingType)
            && route.value.encoderTag == Subtype(targetType)
  {
    var a := AllowedSubtype(startingType);
    var b := AllowedSubtype(targetType);
    var k := if a == "jpeg" then (if b == "png" then 0 else 1)
             else if a == "png" then (if b == "jpeg" then 2 else 3)
             else (if b == "jpeg" then 4 else 5);
    var route := Server.ConversionRoutes[k];
    assert route.decoderTag == a && route.encoderTag == b;
    Server.StartupNeverPanics();
    assert Server.PathMatchesTags(route);
    assert ConversionPath(startingType, targetType) == "/" + a + "/" + b;
    Server.RoutesCoverEveryPair();
    Server.LookupFindsOwnRoute(Server.ConversionRoutes, k);
  }

  /** The subtype of an allowed type, which is one of the three backend tags. */
  lemma AllowedSubtype(mimeType: string) returns (sub: string)
    requires mimeType in AllowedTypes
    ensures sub == Subtype(mimeType) && mimeType == "image/" + sub
    ensures sub == "jpeg" || sub == "png" || sub == "webp"
  {
    sub := if mimeType == "image/jpeg" then "jpeg" else if mimeType == "image/png" then "png" else "webp";
    assert mimeType == "image/" + sub;
    SubtypeOfImageType(sub);
  }

  // ----- The response -----

  /** What an `await fetch(...)` produces. */
  datatype FetchResult =
    | Response(status: nat, text: string, blob: seq<uint8>)
      /** The promise rejected with an `Error` carrying `message`. */
    | ThrewError(message: string)
      /** The promise rejected with something that is not an `Error`. */
    | ThrewOther

  /** `response.ok`. */
  predicate ResponseOk(status: nat) {
    200 <= status <= 299
  }

  datatype Download = Download(name: string, blob: seq<uint8>)

  /** The message thrown for a non-OK response. */
  function FailureMessage(status: nat, text: string): (m: string)
    ensures text != "" ==> m == text
    ensures text == "" ==> m == "Server returned " + NatToDecimal(status)
  {
    if text != "" then text else "Server returned " + NatToDecimal(status)
  }

  /** The rest of `onConvert` once the request has settled, including the
      `finally` that clears the converting flag. */
  function FinishConvert(st: State, req: ConvertRequest, result: FetchResult): (r: (State, Option<Download>))
    ensures !r.0.isConverting
    ensures r.0.file == st.file && r.0.startingType == st.startingType && r.0.targetType == st.targetType
    ensures r.1.Some? <==> result.Response? && ResponseOk(result.status)
    ensures r.1.Some? ==> r.1.value == Download(DownloadName(req.body.name, req.targetType), result.blob)
    ensures r.1.Some? ==> r.0.error == st.error
    ensures result.Response? && !ResponseOk(result.status) ==>
              r.0.error == Some(FailureMessage(result.status, result.text))
    ensures result.ThrewError? ==> r.0.error == Some(result.message)
    ensures result.ThrewOther? ==> r.0.error == Some(ConversionFailedMessage)
  {
    match result
    case Response(status, text, blob) =>
      if ResponseOk(status) then
        (st.(isConverting := false), Some(Download(DownloadName(req.body.name, req.targetType), blob)))
      else (st.(error := Some(FailureMessage(status, text)), isConverting := false), None)
    case ThrewError(message) => (st.(error := Some(message), isConverting := false), None)
    case ThrewOther => (st.(error := Some(ConversionFailedMessage), isConverting := false), None)
  }

  /** The convert button's `disabled` attribute. */
  predicate ButtonDisabled(st: State) {
    st.file.None? || st.isConverting
  }

  /** The button is disabled while a request is in flight and, once it
      settles, enabled again exactly when a file is selected. */
  lemma ButtonDuringConversion(st: State, backendAddress: string, accessToken: Option<string>,
                               result: FetchResult)
    requires BeginConvert(st, backendAddress, accessToken).1.Some?
    ensures var (during, req) := BeginConvert(st, backendAddress, accessToken);
            && ButtonDisabled(during)
            && !ButtonDisabled(FinishConvert(during, req.value, result).0)
  {
  }

  /** An enabled button never hits the silent no-file return of `onConvert`:
      it either sends a request or reports that the file is already that type. */
  lemma EnabledButtonConverts(st: State, backendAddress: string, accessToken: Option<string>)
    requires !ButtonDisabled(st)
    ensures var (st', req) := BeginConvert(st, backendAddress, accessToken);
            req.Some? || st'.error == Some(AlreadyThatTypeMessage)
  {
  }

  /** Choosing a different allowed target type makes the next conversion go
      to the backend route whose encoder is that type. */
  lemma ChosenTargetIsEncoder(st: State, value: string, backendAddress: string, accessToken: Option<string>)
    requires SelectionInvariant(st) && st.file.Some?
    requires value in AllowedTypes && value != st.startingType
    ensures var (_, req) := BeginConvert(OnTargetChosen(st, value), backendAddress, accessToken);
            var route := Server.LookupIn(Server.ConversionRoutes, ConversionPath(st.startingType, value));
            && req.Some? && req.value.targetType == value
            && req.value.url == backendAddress + ConversionPath(st.startingType, value)
            && route.Some? && route.value.decoderTag == Subtype(st.startingType)
            && route.value.encoderTag == Subtype(value)
  {
    ConversionPathIsRoute(st.startingType, value);
  }

  /** A non-OK answer with an empty body reports its status in decimal. */
  lemma EmptyBodyReportsStatus(status: nat)
    ensures var m := FailureMessage(status, "");
            var digits := m[|"Server returned "|..];
            && HasPrefix(m, "Server returned ")
            && (forall k :: 0 <= k < |digits| ==> '0' <= digits[k] <= '9')
            && DecimalValue(digits) == status
  {
    var m := FailureMessage(status, "");
    assert m[|"Server returned "|..] == NatToDecimal(status);
    assert m[..|"Server returned "|] == "Server returned ";
    DecimalRoundTrip(status);
  }

  // ----- The download name -----

  /** `/\.[^.]+$/` matches at `i`: a dot followed by one or more non-dots up
      to the end of the name. */
  predicate ExtensionAt(name: string, i: int) {
    0 <= i < |name| - 1 && name[i] == '.' && forall j :: i < j < |name| ==> name[j] != '.'
  }

  /** `name.replace(/\.[^.]+$/, "")`: removes the match when there is one. */
  function StripExtension(name: string): (r: string)
    ensures forall i :: ExtensionAt(name, i) ==> r == name[..i]
    ensures (forall i :: 0 <= i < |name| ==> !ExtensionAt(name, i)) ==> r == name
  {
    match LastIndexOf(name, '.')
    case Some(i) =>
      if i < |name| - 1 then
        assert ExtensionAt(name, i);
        name[..i]
      else name
    case None => name
  }

  /** The `a.download` name: extension replaced by the target's subtype. */
  function DownloadName(fileName: string, targetType: string): (r: string)
    ensures HasSuffix(r, "." + Subtype(targetType))
  {
    var suffix := "." + Subtype(targetType);
    var r := StripExtension(fileName) + suffix;
    assert r[|r| - |suffix|..] == suffix;
    r
  }

  predicate HasSuffix(s: string, t: string) {
    |t| <= |s| && s[|s| - |t|..] == t
  }

  /** A trailing extension is removed whole: `base.ext` becomes `base`. */
  lemma StripExtensionOfExtended(base: string, ext: string)
    requires |ext| > 0 && '.' !in ext
    ensures StripExtension(base + "." + ext) == base
  {
    var name := base + "." + ext;
    assert ExtensionAt(name, |base|);
    assert name[..|base|] == base;
  }

  /** A name without a dot is kept whole as the prefix of the download name. */
  lemma NoExtensionKeepsName(fileName: string, targetType: string)
    requires '.' !in fileName
    ensures DownloadName(fileName, targetType) == fileName + "." + Subtype(targetType)
  {
  }
}
