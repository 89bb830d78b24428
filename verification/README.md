# Autonomify enclave HTTP proxy, modelled in Dafny

The Autonomify enclave proxy is a small HTTP server that stands in front of a
Nitro Enclave. A `POST` body is forwarded over a fresh vsock connection, and
the enclave's reply is passed back to the client. `GET /health` reports
whether the enclave accepts connections. This project models the
request/response bridge of class `EnclaveProxy`:

- **`_call_enclave`** (`Bridge`, `BridgeProperties`). The connection has no
  framing. The receive loop therefore appends each `recv(4096)` chunk to a
  buffer and stops at the first buffer that decodes as UTF-8 and parses as
  JSON, at end of stream, or at a read timeout. The result, or any exception,
  is then mapped to bytes, `None`, or a synthesised
  `{"error": "Enclave error: ..."}` document.
- **`do_POST`** (`Handler.HandlePost`, `HandlerProperties`). The status
  decision table: 400, 500, 502 or 200.
- **`do_GET`** (`Handler.HandleGet`). `/health` answers 200 or 503 from the
  outcome of a connection probe. Every other path answers 404.
- **`_send_error` and the `json.dumps` documents** (`JsonText`,
  `JsonRoundTrip`). The bytes of the `{"error": ...}` and health documents are
  written out concretely. `json.dumps` is modelled with its defaults: ASCII
  only, `\uXXXX` and surrogate-pair escapes, and the `", "` and `": "`
  separators. Its partner is a reader, `JsonText.ReadObject`. The round-trip
  lemmas prove that every document the proxy writes reads back as the
  dictionary it was made from.

The socket is replaced by a `Bridge.Backend`:

- the outcome of `connect`;
- the outcome of `sendall`;
- a `Bridge.Script` of what successive `recv` calls deliver. That is a
  sequence of non-empty chunks of at most 4096 bytes, followed by end of
  stream, a timeout or another receive error.

Every finite run of the loop has this shape. The two library calls that
decide whether bytes are a JSON document are not modelled: `bytes.decode` and
`json.loads`. Instead a `Codec.Codec` value supplies their outcome for every
byte string, so each property holds whatever UTF-8 and JSON validity are.
`json.loads` has three outcomes:

- a document, with the type name of its top-level value;
- `JSONDecodeError`;
- any other exception, for example `RecursionError` on deep nesting.

The receive loop is written twice:

- `Bridge.ReceiveLoop` is the `while True` loop as the program has it.
- `Bridge.Receive` is a recursive function.

The loop is proved to compute the function. The function is in turn proved
equal to an independent, non-recursive description, `BridgeProperties.Explains`,
which at most one outcome can satisfy.

Where the behaviour of the code is not what a reader might expect, the model
follows the code:

- A POST body that is not UTF-8 is answered 500, not 400. `UnicodeDecodeError`
  is not the `JSONDecodeError` the inner handler catches.
- A POST body that parses to something other than a JSON object is also
  answered 500. The diagnostic `message.get('type')` raises `AttributeError`.
- A POST body that parses to a JSON object is still answered 500, and not
  forwarded, when printing its `type` entry raises. A lone surrogate such
  as `"\ud800"` makes the print raise `UnicodeEncodeError`. The print sits
  inside the inner `try`, which catches only `JSONDecodeError`.
- A `Content-Length` header that `int()` rejects is answered 500.
- A `Content-Length` that `rfile.read` cannot take is answered 500. A size
  of 2^63 or more does not fit a C `ssize_t`, and `read` raises
  `OverflowError`. A read can also raise for reasons outside the program,
  such as `MemoryError` for a buffer the host cannot allocate, or a
  connection reset. The model supplies those as part of the body stream.
- A connect, send or receive failure is not an HTTP error. `_call_enclave`
  returns an error document, and `do_POST` answers it with 200.
- A UTF-8 sequence split across a chunk boundary ends the exchange with an
  "Enclave error" document. The buffer read so far no longer decodes. This
  holds at any chunk after undecided buffers, even when the next chunk would
  have completed a valid reply.
- The health document's second key is `enclave_cid`, holding the configured
  context identifier.
- The socket is closed only on the normal path of `_call_enclave`, not when
  an exception leaves the loop.

## Model

| member | source | states |
|---|---|---|
| Bridge.BufferOnlyGrows | packages/autonomify-enclave/http-proxy.py:97-103 | `response += chunk` only appends: every earlier buffer is a prefix of every later one |
| Bridge.Verdict | packages/autonomify-enclave/http-proxy.py:103-108 | after appending a chunk the loop reads on exactly when the buffer decodes but does not parse; a parsed buffer stops it with that very buffer; any other outcome is an exception that leaves the loop |
| Bridge.Finish | packages/autonomify-enclave/http-proxy.py:100-110 | end of stream and timeout stop the loop keeping the buffer whatever it holds, never as a parsed document; any other receive error escapes |
| Bridge.Drain | packages/autonomify-enclave/http-proxy.py:98-110 | the loop never consumes more chunks than the stream delivers, and every chunk it appends makes the kept buffer longer |
| Bridge.ReceiveLoop | packages/autonomify-enclave/http-proxy.py:96-110 | the program's `while True` loop computes `Receive`; a buffer it keeps is the first `used` chunks concatenated in order |
| Bridge.CallEnclave | packages/autonomify-enclave/http-proxy.py:84-124 | `sendall` is attempted exactly when the connection was made, with the body and one newline; `None` is returned exactly when the enclave sent nothing and closed or went quiet; every other result is non-empty bytes |
| BridgeProperties.ReceiveExplained | packages/autonomify-enclave/http-proxy.py:97-110 | the loop ends as the non-recursive description says: every earlier buffer was undecided, and the last one either settled it or the stream's end decided |
| BridgeProperties.ExplainsUnique | packages/autonomify-enclave/http-proxy.py:97-110 | that description admits at most one outcome for a given stream |
| BridgeProperties.ReceiveBufferIsConcatenation | packages/autonomify-enclave/http-proxy.py:97-103 | nothing is dropped or reordered: the buffer returned is the chunks read, concatenated in order |
| BridgeProperties.ReceiveReadsWhileUndecided | packages/autonomify-enclave/http-proxy.py:104-108 | the loop reads on while the buffer decodes but does not parse, and never reads past a buffer that is not in that state |
| BridgeProperties.ReceiveStopsAtFirstDocument | packages/autonomify-enclave/http-proxy.py:104-106 | a parsed buffer that is returned is the first chunk-boundary prefix that parses; no shorter prefix parsed |
| BridgeProperties.FirstDocumentIsReturned | packages/autonomify-enclave/http-proxy.py:98-108 | conversely, the first prefix that parses after undecided ones is exactly what the loop returns |
| BridgeProperties.TerminalDecides | packages/autonomify-enclave/http-proxy.py:100-110 | when no prefix settles it, end of stream and timeout return all the bytes unparsed, and any other receive error escapes |
| BridgeProperties.ReceiveIgnoresUnread | packages/autonomify-enclave/http-proxy.py:104-106 | once the loop stops on a chunk, what the stream would deliver afterwards cannot change the outcome |
| BridgeProperties.UnparsedReplyReturned | packages/autonomify-enclave/http-proxy.py:100-119 | a reply that never parses is returned as it is at end of stream or timeout, and `None` when it is empty |
| BridgeProperties.ReceiveDecidedAt | packages/autonomify-enclave/http-proxy.py:98-108 | the loop ends with the verdict on the first buffer that is not undecided: stopped with that buffer if it parsed, or the exception it raised |
| BridgeProperties.DecidingChunkReturned | packages/autonomify-enclave/http-proxy.py:98-124 | when the k-th chunk settles the loop after undecided buffers, `_call_enclave` returns the whole k-chunk buffer if it parses. If it does not decode, it returns the "Enclave error" document of the `UnicodeDecodeError`; for any other parser error, the document of that error |
| Bridge.EnclaveError | packages/autonomify-enclave/http-proxy.py:123 | the bytes are never empty, so the result is never taken for `None`; what they read back as is stated by `BridgeProperties.FailureBecomesErrorDocument` |
| BridgeProperties.SplitCharacterIsFatal | packages/autonomify-enclave/http-proxy.py:103-124 | a first chunk that is not valid UTF-8 turns the exchange into an "Enclave error" document, whatever follows |
| BridgeProperties.FailureBecomesErrorDocument | packages/autonomify-enclave/http-proxy.py:121-124 | a failed connect or send, or an exception out of the loop, yields bytes that read back as `{"error": "Enclave error: m"}` for the exception's message |
| BridgeProperties.OneChunkReplyReturned | packages/autonomify-enclave/http-proxy.py:98-116 | a reply the enclave completes in one chunk is returned unchanged |
| Handler.ReadBody | packages/autonomify-enclave/http-proxy.py:26 | for a client that sends its bytes and closes its side, the read returns exactly when the size fits a `ssize_t` and the environment does not make it raise; a larger size raises `OverflowError`; a body it returns is the first `n` bytes the client sent, or all of them when it sent fewer |
| Handler.Forward | packages/autonomify-enclave/http-proxy.py:37-49 | once the enclave is called, the answer is 200 or 502, the body passed is the request body, and what was sent is that body and one newline |
| Handler.Dispatch | packages/autonomify-enclave/http-proxy.py:26-57 | after the body is read, the enclave is called only with a body that decodes and parses to a dictionary whose `type` entry prints; the status is one of 200, 400, 500 and 502, and is 200 or 502 exactly when the enclave was called |
| Handler.HandlePost | packages/autonomify-enclave/http-proxy.py:18-57 | every answer announces its own length and has status 200, 400, 500 or 502; the enclave is called exactly for the 200 and 502 answers, with a body that parses to a dictionary whose `type` entry prints, and is sent that body and one newline |
| Handler.SendError | packages/autonomify-enclave/http-proxy.py:126-134 | the response has the given status and announces the length of its non-empty body; the body's content is stated by `HandlerProperties.SendErrorReports` |
| HandlerProperties.SendErrorReports | packages/autonomify-enclave/http-proxy.py:126-134 | the body of an error response reads back as `{"error": message}` |
| HandlerProperties.EmptyBodyRejected | packages/autonomify-enclave/http-proxy.py:21-24 | a missing or non-positive length is answered 400 "Empty request body" and nothing is sent to the enclave |
| HandlerProperties.InvalidJsonRejected | packages/autonomify-enclave/http-proxy.py:28-34 | a body that decodes but does not parse is answered 400 "Invalid JSON" without calling the enclave |
| HandlerProperties.BadRequestIff | packages/autonomify-enclave/http-proxy.py:21-34 | 400 is answered exactly for a missing or non-positive length and for a body, read without error, that decodes but does not parse |
| HandlerProperties.ReadFailureIsServerError | packages/autonomify-enclave/http-proxy.py:20-57 | a read of the body that raises is answered 500 with the exception's message and nothing is sent to the enclave; above `ssize_t` the message is that of `OverflowError` |
| HandlerProperties.OversizedLengthIsServerError | packages/autonomify-enclave/http-proxy.py:20-57 | a `Content-Length` of 2^63 or more is answered 500 with the `OverflowError` message whatever the client sent, without calling the enclave |
| HandlerProperties.UndecodableBodyIsServerError | packages/autonomify-enclave/http-proxy.py:28-57 | a body that is not UTF-8 escapes the inner handler and is answered 500 with the decode error's message, without calling the enclave |
| HandlerProperties.NonObjectBodyIsServerError | packages/autonomify-enclave/http-proxy.py:28-57 | a body that parses to something other than a dictionary is answered 500 with the `AttributeError` message, without calling the enclave |
| HandlerProperties.ServerErrorIff | packages/autonomify-enclave/http-proxy.py:20-57 | 500 is answered exactly when an exception escapes to the outer handler: an unparsable length, a read of the body that raises, an undecodable body, a parser error other than `JSONDecodeError`, a parsed body that is not a dictionary, or a dictionary whose `type` entry cannot be printed |
| HandlerProperties.TypeLogFailureIsServerError | packages/autonomify-enclave/http-proxy.py:28-57 | a body that parses to a dictionary whose `type` entry cannot be printed is answered 500 with the exception's message, and the enclave is not called |
| HandlerProperties.ForwardedIff | packages/autonomify-enclave/http-proxy.py:21-37 | the enclave is called exactly for a positive length whose read returns a body that parses to a dictionary whose `type` entry prints, and it is passed exactly that body |
| HandlerProperties.WireIsBodyAndNewline | packages/autonomify-enclave/http-proxy.py:94 | the bytes sent to the enclave are the request body followed by a single newline |
| HandlerProperties.BadGatewayIff | packages/autonomify-enclave/http-proxy.py:37-41 | 502 is answered exactly when the enclave was called, accepted the request, and closed or went quiet without sending a byte |
| HandlerProperties.OkEchoesReply | packages/autonomify-enclave/http-proxy.py:43-49 | a 200 carries the bytes `_call_enclave` returned, verbatim, with `Content-Length` equal to their length |
| HandlerProperties.TransportFailureAnsweredOk | packages/autonomify-enclave/http-proxy.py:37-49 | a connect, send or receive failure is answered 200 with a body that reads back as `{"error": "Enclave error: m"}` |
| Handler.HandleGet | packages/autonomify-enclave/http-proxy.py:59-82 | `/health` answers 200 exactly when the probe's connect succeeds and 503 exactly when it raises; any other path answers 404 |
| HandlerProperties.HealthRouting | packages/autonomify-enclave/http-proxy.py:59-71 | the health body reads back as `{"status": "healthy" or "enclave_down", "enclave_cid": cid}`, and any other path's body as `{"error": "Not found"}` |
| JsonText.Dumps | packages/autonomify-enclave/http-proxy.py:64 | the text is enclosed in braces; its content is stated by `JsonRoundTrip.DumpsReadsBack` and `JsonText.DumpsPrintable` |
| JsonText.ErrorDocument | packages/autonomify-enclave/http-proxy.py:128 | the bytes are never empty; that they read back as `{"error": message}` is stated by `JsonRoundTrip.ErrorDocumentReadsBack` |
| JsonText.DumpsPrintable | packages/autonomify-enclave/http-proxy.py:128 | `json.dumps` with its default `ensure_ascii` writes printable ASCII only, so the UTF-8 encoding is one byte per character |
| JsonText.AsciiBytes | packages/autonomify-enclave/http-proxy.py:64 | encoding printable ASCII text gives one byte per character, and those bytes decode back to the same text |
| JsonRoundTrip.EscapedReadsBack | packages/autonomify-enclave/http-proxy.py:128 | every string, escaped as `json.dumps` escapes it, reads back as the same string, whatever follows the closing quote |
| JsonRoundTrip.DecimalReadsBack | packages/autonomify-enclave/http-proxy.py:63-64 | an integer written in decimal reads back as the same integer |
| JsonRoundTrip.DumpsReadsBack | packages/autonomify-enclave/http-proxy.py:63-64 | `json.dumps` of a flat dictionary of strings and integers reads back as that dictionary, entries in order |
| JsonRoundTrip.ErrorDocumentReadsBack | packages/autonomify-enclave/http-proxy.py:123 | the bytes of an `{"error": message}` document read back as that one-entry dictionary, so the message reaches the client intact |

## Left out

- Bridge.EnclaveError: its contract says only that the bytes are non-empty.
  What they read back as is a separate lemma,
  `BridgeProperties.FailureBecomesErrorDocument`. This keeps the JSON reader
  out of every proof that unfolds `CallEnclave`.
- Handler.SendError: its contract fixes the status and `Content-Length`.
  The body's content is a separate lemma,
  `HandlerProperties.SendErrorReports`, for the same reason.
- JsonText.Dumps: its contract fixes only the enclosing braces. The content
  is stated by `JsonRoundTrip.DumpsReadsBack`, and the ASCII-only output by
  `JsonText.DumpsPrintable`.
- JsonText.ErrorDocument: its contract says only that the bytes are
  non-empty. The content is stated by `JsonText.ErrorDocumentText` and
  `JsonRoundTrip.ErrorDocumentReadsBack`.

- Socket work is not modelled: `AF_VSOCK` creation, `settimeout`, `connect`,
  `sendall` and `recv`. A `Bridge.Backend` supplies their outcomes. The 60 s
  and 2 s timeouts appear only as a `Timeout` end of the stream, not as time.
- Closing the socket is not modelled. It happens only on the normal path, so
  no release is claimed.
- An enclave that trickles bytes forever without closing, timing out or
  completing a document is not modelled. A `Bridge.Script` is finite.
- UTF-8 validity and `json.loads` are kept abstract in `Codec.Codec`, as is
  the text of their exception messages. `JsonText.ReadObject` reads only the
  documents the proxy itself writes, so it is not a model of `json.loads`.
- `int()` of the `Content-Length` header is kept abstract in
  `Handler.LengthHeader`, as an integer or a rejection with its message.
- `_is_enclave_running` is not modelled as a member. `HandleGet` takes the
  outcome of its connect as a parameter, because the connect itself is I/O.
- Which sizes make `rfile.read` raise `MemoryError`, and when a connection
  resets, are not modelled. The body stream supplies them per size. Only
  the `ssize_t` bound on the size is fixed.
- Python strings may hold lone surrogates, which `json.dumps` would escape.
  Dafny characters are Unicode scalar values, so such strings are not
  represented.
- Header and `wfile` mechanics are not modelled beyond the status, the body
  bytes and `Content-Length`. Every response's `Content-Type` is
  `application/json`. A failure while writing a response is I/O and is not
  modelled.
- Logging is not modelled: `print`, `traceback.print_exc` and the
  `log_message` no-op. The one exception is the print of the request's
  `type` at line 30, whose failure changes the answer; `Codec.Codec`
  supplies its outcome. Every other print is assumed not to raise.
- The `HTTPServer` bootstrap, its port 8001 and the enclave port 5000 are
  not modelled. Neither is the command-line override of the context
  identifier. `HandleGet` takes the identifier as a parameter, whatever its
  value, so the default 16 needs no separate treatment.
- There is no concurrency to model. `HTTPServer` serves requests one after
  another, and the handlers share no state.
- Handler.ReadBody: `Upload.sent` is what the client sent before closing its
  side of the connection. The handler's socket has no timeout, so a client
  that sends fewer bytes than its `Content-Length` and keeps the connection
  open blocks the read forever, and with it the whole server. That case is
  not modelled.
