/** The slice of Go's net/http that the handlers observe: header maps,
    status codes, and a ResponseWriter whose first status write wins. */
module Http {
  import opened Wrappers

  newtype uint8 = x: int | 0 <= x < 256

  type Headers = map<string, string>

  const MethodGet := "GET"
  const MethodPost := "POST"
  const MethodOptions := "OPTIONS"

  const StatusOK := 200
  const StatusBadRequest := 400
  const StatusUnauthorized := 401
  const StatusForbidden := 403
  const StatusRequestTimeout := 408
  const StatusRequestEntityTooLarge := 413
  const StatusInternalServerError := 500

  /** `Header.Get`: the value for `key`, or the empty string when absent. */
  function Get(h: Headers, key: string): string {
    if key in h then h[key] else ""
  }

  /** A piece of the response body: error text or encoded image bytes. */
  datatype Chunk = Text(text: string) | Bytes(data: seq<uint8>)

  /** A response under construction. `status` is the committed status line,
      `None` while nothing has been written yet. `header` is the handler's
      header map; the client receives it as it stood when `status` was first
      set, so changes made after that point are kept in the map but never sent. */
  datatype Writer = Writer(header: Headers, status: Option<int>, body: seq<Chunk>)

  function Fresh(header: Headers): Writer {
    Writer(header, None, [])
  }

  /** `WriteHeader`: only the first call decides the status; later calls are
      superfluous and ignored. */
  function WriteHeader(w: Writer, code: int): (r: Writer)
    ensures w.status.Some? ==> r == w
    ensures w.status.None? ==> r.status == Some(code) && r.header == w.header && r.body == w.body
  {
    if w.status.Some? then w else w.(status := Some(code))
  }

  /** `Write`: commits status 200 if no status has been written, then appends. */
  function Write(w: Writer, c: Chunk): (r: Writer)
    ensures r.status == Some(w.status.GetOr(StatusOK))
    ensures r.body == w.body + [c]
    ensures r.header == w.header
  {
    var w' := WriteHeader(w, StatusOK);
    w'.(body := w'.body + [c])
  }

  /** `http.Error`: marks the body as plain text, writes the status (if none
      was written yet) and the message followed by a newline. */
  function Error(w: Writer, message: string, code: int): (r: Writer)
    ensures r.status == Some(w.status.GetOr(code))
    ensures r.body == w.body + [Text(message + "\n")]
    ensures "Content-Type" in r.header && r.header["Content-Type"] == "text/plain; charset=utf-8"
  {
    var h := (w.header - {"Content-Length"})["Content-Type" := "text/plain; charset=utf-8"]
                                            ["X-Content-Type-Options" := "nosniff"];
    Write(WriteHeader(w.(header := h), code), Text(message + "\n"))
  }

  /** The status line the client receives: 200 when the handler never wrote one. */
  function StatusSent(w: Writer): int {
    w.status.GetOr(StatusOK)
  }
}
