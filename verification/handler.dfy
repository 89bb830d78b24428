/** `EnclaveProxy.do_POST`, `do_GET`, `_is_enclave_running` and
    `_send_error`: the status decision table in front of the bridge, and the
    health route. A response is reduced to its status code, its body bytes
    and the `Content-Length` it announces; every response the proxy writes
    has content type `application/json`. */
module Handler {
  import opened Common
  import opened Codec
  import opened Bridge
  import JsonText

  /** The messages of the errors `do_POST` and `do_GET` raise themselves. */
  const EmptyBodyMessage: string := "Empty request body"
  const InvalidJsonMessage: string := "Invalid JSON"
  const EmptyReplyMessage: string := "Enclave returned empty response"
  const NotFoundMessage: string := "Not found"

  /** `self.headers.get("Content-Length", 0)` after `int()`: absent (the
      default `0`), an integer, or text `int()` rejects with `ValueError`. */
  datatype LengthHeader = Absent | Number(value: int) | NotANumber(message: string)

  datatype Response = Response(status: int, body: Bytes, contentLength: nat)

  /** `send_response`, `Content-Length: len(body)`, then the body. */
  function Send(status: int, body: Bytes): Response {
    Response(status, body, |body|)
  }

  /** `_send_error(status, message)`: the body is `{"error": message}`. */
  function SendError(status: int, message: string): (r: Response)
    ensures r.status == status && r.contentLength == |r.body| > 0
  {
    Send(status, JsonText.ErrorDocument(message))
  }

  /** The largest size `rfile.read` accepts: a C `ssize_t` is 64 bits wide. */
  const MaxReadSize: int := 0x7fff_ffff_ffff_ffff

  /** `str()` of the `OverflowError` raised when the size does not fit a
      `ssize_t`. */
  const OverflowMessage: string := "cannot fit 'int' into an index-sized integer"

  /** The request body stream: the bytes the client sent, and, for each size
      `n`, the exception `read(n)` raises for reasons outside the program
      (`MemoryError` for a buffer the host cannot allocate, a connection
      reset), if any. */
  datatype Upload = Upload(sent: Bytes, fault: int -> Option<string>)

  /** What `self.rfile.read(n)` does: return bytes or raise. */
  datatype BodyRead = Got(body: Bytes) | ReadRaised(message: string)

  /** `self.rfile.read(n)`: a size beyond `MaxReadSize` raises
      `OverflowError`; otherwise the read raises if the environment makes it,
      and returns at most `n` bytes of what the client sent (fewer when the
      client closes the stream early). */
  function ReadBody(u: Upload, n: int): (r: BodyRead)
    requires n > 0
    ensures r.Got? <==> n <= MaxReadSize && u.fault(n).None?
    ensures n > MaxReadSize ==> r == ReadRaised(OverflowMessage)
    ensures r.Got? ==> |r.body| <= n && |r.body| <= |u.sent| && r.body == u.sent[..|r.body|]
    ensures r.Got? && |u.sent| >= n ==> |r.body| == n
    ensures r.Got? && |u.sent| < n ==> r.body == u.sent
  {
    if n > MaxReadSize then ReadRaised(OverflowMessage)
    else match u.fault(n)
      case Some(m) => ReadRaised(m)
      case None => Got(if |u.sent| <= n then u.sent else u.sent[..n])
  }

  /** `str()` of the `AttributeError` raised by `message.get('type')` when
      the body parsed to something other than a dictionary. */
  function NoGetMessage(typeName: string): string {
    "'" + typeName + "' object has no attribute 'get'"
  }

  /** The statuses `do_POST` can answer with. */
  predicate IsPostStatus(status: int) {
    status == 200 || status == 400 || status == 500 || status == 502
  }

  /** What one POST produces: the response, the body passed to
      `_call_enclave` if it was called, and the bytes handed to `sendall`
      if the connection was made. */
  datatype Post = Post(response: Response, forwarded: Option<Bytes>, wire: Option<Bytes>)

  function Answer(r: Response): Post {
    Post(r, None, None)
  }

  /** The tail of `do_POST` once a parsed dictionary `body` is in hand:
      `_call_enclave`, then 502 for `None` and 200 with the bytes otherwise. */
  function Forward(c: Codec, body: Bytes, b: Backend): (r: Post)
    ensures r.response.contentLength == |r.response.body|
    ensures r.response.status == 200 || r.response.status == 502
    ensures r.forwarded == Some(body)
    ensures r.wire.Some? ==> r.wire.value == body + [NewLine]
  {
    var call := CallEnclave(c, body, b);
    match call.result
    case None => Post(SendError(502, EmptyReplyMessage), Some(body), call.wire)
    case Some(reply) => Post(Send(200, reply), Some(body), call.wire)
  }

  /** `do_POST` once the body has been read: decode, parse, print the
      `type` field (which needs a dictionary, and raises when the entry
      cannot be written to standard output), then forward. */
  function Dispatch(c: Codec, body: Bytes, b: Backend): (r: Post)
    ensures r.response.contentLength == |r.response.body|
    ensures IsPostStatus(r.response.status)
    ensures r.forwarded.Some? <==> r.response.status == 200 || r.response.status == 502
    ensures r.forwarded.None? ==> r.wire.None?
    ensures r.forwarded.Some? ==> r.forwarded.value == body && Forwardable(c, body)
    ensures r.wire.Some? ==> r.wire.value == body + [NewLine]
  {
    if !c.utf8Ok(body) then Answer(SendError(500, c.decodeError(body)))
    else
      match c.loads(body)
      case Malformed => Answer(SendError(400, InvalidJsonMessage))
      case Crash(m) => Answer(SendError(500, m))
      case Document(t) =>
        if t != DictType then Answer(SendError(500, NoGetMessage(t)))
        else
          match c.typeLogged(body)
          case Some(m) => Answer(SendError(500, m))
          case None => Forward(c, body, b)
  }

  /** `do_POST` for a request whose `Content-Length` header is `h` and whose
      body stream is `u`, with the enclave behaving as `b`. */
  function HandlePost(c: Codec, h: LengthHeader, u: Upload, b: Backend): (r: Post)
    ensures r.response.contentLength == |r.response.body|
    ensures IsPostStatus(r.response.status)
    ensures r.forwarded.Some? <==> r.response.status == 200 || r.response.status == 502
    ensures r.forwarded.None? ==> r.wire.None?
    ensures r.wire.Some? ==> r.wire.value == r.forwarded.value + [NewLine]
    ensures r.forwarded.Some? ==> Forwardable(c, r.forwarded.value)
  {
    match h
    case NotANumber(m) => Answer(SendError(500, m))
    case Absent => Answer(SendError(400, EmptyBodyMessage))
    case Number(n) =>
      if n <= 0 then Answer(SendError(400, EmptyBodyMessage))
      else
        match ReadBody(u, n)
        case ReadRaised(m) => Answer(SendError(500, m))
        case Got(body) => Dispatch(c, body, b)
  }

  /** The `/health` body: `{"status": ..., "enclave_cid": cid}`. */
  function HealthFields(up: bool, cid: int): seq<JsonText.Field> {
    [("status", JsonText.Str(if up then "healthy" else "enclave_down")), ("enclave_cid", JsonText.Int(cid))]
  }

  /** `do_GET` for `path`; `probe` is how the connect of
      `_is_enclave_running` ends (it is attempted only on `/health`, and any
      exception counts as down) and `cid` the configured context identifier. */
  function HandleGet(path: string, probe: Attempt, cid: int): (r: Response)
    ensures r.contentLength == |r.body|
    ensures path == "/health" ==> (r.status == 200 <==> probe.Done?) && (r.status == 503 <==> probe.Failed?)
    ensures path != "/health" ==> r.status == 404
  {
    if path == "/health" then
      var up := probe.Done?;
      var fields := HealthFields(up, cid);
      JsonText.DumpsPrintable(fields);
      Send(if up then 200 else 503, JsonText.AsciiBytes(JsonText.Dumps(fields)))
    else SendError(404, NotFoundMessage)
  }
}
