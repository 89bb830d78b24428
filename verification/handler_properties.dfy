/** The decision table of `do_POST` and the routing of `do_GET`, each status
    characterised by the request and the enclave's behaviour that lead to
    it, and every body read back as the document the client receives. */
module HandlerProperties {
  import opened Common
  import opened Codec
  import opened Bridge
  import opened Handler
  import JsonText
  import JsonRoundTrip

  /** The declared length is missing, zero or negative. */
  predicate NoLength(h: LengthHeader) {
    h.Absent? || (h.Number? && h.value <= 0)
  }

  /** The declared length is positive and reading that many bytes returns. */
  predicate Readable(h: LengthHeader, u: Upload) {
    h.Number? && h.value > 0 && ReadBody(u, h.value).Got?
  }

  /** The bytes `do_POST` reads and forwards, when the read returns. */
  function BodyOf(h: LengthHeader, u: Upload): Bytes
    requires Readable(h, u)
  {
    ReadBody(u, h.value).body
  }

  /** The body of `r` reads back as `{"error": message}`. */
  predicate Reports(r: Response, message: string) {
    JsonText.ReadObject(JsonText.AsciiText(r.body)) == Some([("error", JsonText.Str(message))])
  }

  lemma SendErrorReports(status: int, message: string)
    ensures Reports(SendError(status, message), message)
  {
    JsonRoundTrip.ErrorDocumentReadsBack(message);
  }

  /** When the read returns, `do_POST` is `Dispatch` of the body it read. */
  lemma PostDispatches(c: Codec, h: LengthHeader, u: Upload, b: Backend)
    requires Readable(h, u)
    ensures HandlePost(c, h, u, b) == Dispatch(c, BodyOf(h, u), b)
  {
  }

  lemma PostReports(c: Codec, h: LengthHeader, u: Upload, b: Backend, status: int, message: string)
    requires HandlePost(c, h, u, b).response == SendError(status, message)
    ensures Reports(HandlePost(c, h, u, b).response, message)
  {
    SendErrorReports(status, message);
  }

  /** A missing or non-positive `Content-Length` is answered 400 "Empty
      request body" without calling the enclave. */
  lemma EmptyBodyRejected(c: Codec, h: LengthHeader, u: Upload, b: Backend)
    requires NoLength(h)
    ensures var r := HandlePost(c, h, u, b);
      && r.response.status == 400
      && Reports(r.response, EmptyBodyMessage)
      && r.forwarded.None? && r.wire.None?
  {
    PostReports(c, h, u, b, 400, EmptyBodyMessage);
  }

  lemma DispatchUndecided(c: Codec, body: Bytes, b: Backend)
    requires Undecided(c, body)
    ensures Dispatch(c, body, b) == Answer(SendError(400, InvalidJsonMessage))
  {
  }

  /** A body that decodes but does not parse is answered 400 InvalidJsonMessage
      without calling the enclave. */
  lemma InvalidJsonRejected(c: Codec, h: LengthHeader, u: Upload, b: Backend)
    requires Readable(h, u)
    requires Undecided(c, BodyOf(h, u))
    ensures var r := HandlePost(c, h, u, b);
      && r.response.status == 400
      && Reports(r.response, InvalidJsonMessage)
      && r.forwarded.None?
  {
    PostDispatches(c, h, u, b);
    DispatchUndecided(c, BodyOf(h, u), b);
    SendErrorReports(400, InvalidJsonMessage);
  }

  /** 400 is answered exactly for a missing or non-positive length and for
      a body that decodes but does not parse. */
  lemma BadRequestIff(c: Codec, h: LengthHeader, u: Upload, b: Backend)
    ensures HandlePost(c, h, u, b).response.status == 400 <==>
      NoLength(h) || (Readable(h, u) && Undecided(c, BodyOf(h, u)))
  {
  }

  /** A read of the body that raises reaches the outer handler: 500 with the
      exception's message, and the enclave is not called. A declared length
      beyond what a `ssize_t` holds always raises `OverflowError`. */
  lemma ReadFailureIsServerError(c: Codec, h: LengthHeader, u: Upload, b: Backend)
    requires h.Number? && h.value > 0 && ReadBody(u, h.value).ReadRaised?
    ensures var r := HandlePost(c, h, u, b);
      && r.response.status == 500
      && Reports(r.response, ReadBody(u, h.value).message)
      && r.forwarded.None? && r.wire.None?
    ensures h.value > MaxReadSize ==> ReadBody(u, h.value).message == OverflowMessage
  {
    PostReadRaised(c, h, u, b);
    SendErrorReports(500, ReadBody(u, h.value).message);
  }

  lemma PostReadRaised(c: Codec, h: LengthHeader, u: Upload, b: Backend)
    requires h.Number? && h.value > 0 && ReadBody(u, h.value).ReadRaised?
    ensures HandlePost(c, h, u, b) == Answer(SendError(500, ReadBody(u, h.value).message))
  {
  }

  /** A declared length of 2^63 or more is answered 500 with the
      `OverflowError` message whatever the client sent, and the enclave is
      not called. */
  lemma OversizedLengthIsServerError(c: Codec, h: LengthHeader, u: Upload, b: Backend)
    requires h.Number? && h.value > MaxReadSize
    ensures var r := HandlePost(c, h, u, b);
      && r.response.status == 500
      && Reports(r.response, OverflowMessage)
      && r.forwarded.None? && r.wire.None?
  {
    ReadFailureIsServerError(c, h, u, b);
  }

  /** The `UnicodeDecodeError` of a body that is not UTF-8 is not the
      `JSONDecodeError` the inner handler catches: it reaches the outer
      handler and is answered 500 with its own message. */
  lemma UndecodableBodyIsServerError(c: Codec, h: LengthHeader, u: Upload, b: Backend)
    requires Readable(h, u)
    requires !c.utf8Ok(BodyOf(h, u))
    ensures var r := HandlePost(c, h, u, b);
      && r.response.status == 500
      && Reports(r.response, c.decodeError(BodyOf(h, u)))
      && r.forwarded.None?
  {
    PostReports(c, h, u, b, 500, c.decodeError(BodyOf(h, u)));
  }

  /** A body that parses to something other than a dictionary makes the
      diagnostic `message.get('type')` raise `AttributeError`: 500, and the
      enclave is not called. */
  lemma NonObjectBodyIsServerError(c: Codec, h: LengthHeader, u: Upload, b: Backend)
    requires Readable(h, u)
    requires JsonOk(c, BodyOf(h, u)) && c.loads(BodyOf(h, u)).typeName != DictType
    ensures var r := HandlePost(c, h, u, b);
      && r.response.status == 500
      && Reports(r.response, NoGetMessage(c.loads(BodyOf(h, u)).typeName))
      && r.forwarded.None?
  {
    PostReports(c, h, u, b, 500, NoGetMessage(c.loads(BodyOf(h, u)).typeName));
  }

  /** Printing the request's `type` happens inside the inner `try`, which
      catches only `JSONDecodeError`: when it raises (a lone surrogate in
      the entry, say), the exception reaches the outer handler, 500 is
      answered with its message, and the enclave is not called. */
  lemma TypeLogFailureIsServerError(c: Codec, h: LengthHeader, u: Upload, b: Backend)
    requires Readable(h, u)
    requires JsonOk(c, BodyOf(h, u)) && c.loads(BodyOf(h, u)).typeName == DictType
    requires c.typeLogged(BodyOf(h, u)).Some?
    ensures var r := HandlePost(c, h, u, b);
      && r.response.status == 500
      && Reports(r.response, c.typeLogged(BodyOf(h, u)).value)
      && r.forwarded.None? && r.wire.None?
  {
    PostReports(c, h, u, b, 500, c.typeLogged(BodyOf(h, u)).value);
  }

  /** 500 is answered exactly when an exception escapes to the outer
      handler: an unparsable length, a read of the body that raises, a body
      that is not UTF-8, a parser error other than `JSONDecodeError`, a
      parsed body that is not a dictionary, or a `type` entry that cannot be
      printed. */
  lemma ServerErrorIff(c: Codec, h: LengthHeader, u: Upload, b: Backend)
    ensures HandlePost(c, h, u, b).response.status == 500 <==>
      h.NotANumber? ||
      (h.Number? && h.value > 0 && !ReadBody(u, h.value).Got?) ||
      (Readable(h, u) &&
        var body := BodyOf(h, u);
        !c.utf8Ok(body) || c.loads(body).Crash? || (c.loads(body).Document? && c.loads(body).typeName != DictType) ||
        (JsonOk(c, body) && c.loads(body).typeName == DictType && c.typeLogged(body).Some?))
  {
    if Readable(h, u) {
      PostDispatches(c, h, u, b);
      DispatchServerError(c, BodyOf(h, u), b);
    }
  }

  lemma DispatchServerError(c: Codec, body: Bytes, b: Backend)
    ensures Dispatch(c, body, b).response.status == 500 <==>
      !c.utf8Ok(body) || c.loads(body).Crash? || (c.loads(body).Document? && c.loads(body).typeName != DictType) ||
      (JsonOk(c, body) && c.loads(body).typeName == DictType && c.typeLogged(body).Some?)
  {
    if Forwardable(c, body) {
      assert Dispatch(c, body, b).forwarded.Some?;
    }
  }

  /** The enclave is called exactly for a positive length whose read
      returns a body that parses to a dictionary with a printable `type`
      entry, and it is passed that body. */
  lemma ForwardedIff(c: Codec, h: LengthHeader, u: Upload, b: Backend)
    ensures var r := HandlePost(c, h, u, b);
      r.forwarded.Some? <==>
        Readable(h, u) && Forwardable(c, BodyOf(h, u))
    ensures var r := HandlePost(c, h, u, b);
      r.forwarded.Some? ==> r.forwarded.value == BodyOf(h, u)
  {
  }

  /** The bytes sent to the enclave are the request body and one `\n`. */
  lemma WireIsBodyAndNewline(c: Codec, h: LengthHeader, u: Upload, b: Backend)
    requires Readable(h, u)
    requires Forwardable(c, BodyOf(h, u))
    requires b.connect.Done?
    ensures HandlePost(c, h, u, b).wire == Some(BodyOf(h, u) + [NewLine])
  {
  }

  /** Only an empty reply is answered 502: the enclave accepted the request
      and then closed or went quiet before sending a single byte. */
  lemma BadGatewayIff(c: Codec, h: LengthHeader, u: Upload, b: Backend)
    ensures var r := HandlePost(c, h, u, b);
      r.response.status == 502 <==>
        && r.forwarded.Some?
        && b.connect.Done? && b.send.Done?
        && |b.reply.chunks| == 0 && !b.reply.end.RecvError?
  {
  }

  /** A 200 carries `_call_enclave`'s bytes verbatim, announced with their
      own length. */
  lemma OkEchoesReply(c: Codec, h: LengthHeader, u: Upload, b: Backend)
    ensures var r := HandlePost(c, h, u, b);
      r.response.status == 200 ==>
        && r.forwarded.Some?
        && CallEnclave(c, r.forwarded.value, b).result == Some(r.response.body)
        && r.response.contentLength == |r.response.body|
  {
  }

  /** A connect or send failure, or an exception in the receive loop, is
      not an HTTP error: it is answered 200 with an "Enclave error"
      document. */
  lemma TransportFailureAnsweredOk(c: Codec, h: LengthHeader, u: Upload, b: Backend)
    requires Readable(h, u)
    requires Forwardable(c, BodyOf(h, u))
    requires b.connect.Failed? || b.send.Failed? || Receive(c, b.reply).Raised?
    ensures var r := HandlePost(c, h, u, b);
      var m := if b.connect.Failed? then b.connect.message
               else if b.send.Failed? then b.send.message
               else Receive(c, b.reply).message;
      r.response.status == 200 && Reports(r.response, "Enclave error: " + m)
  {
    var m := if b.connect.Failed? then b.connect.message
             else if b.send.Failed? then b.send.message
             else Receive(c, b.reply).message;
    JsonRoundTrip.ErrorDocumentReadsBack("Enclave error: " + m);
  }

  /** `GET /health` answers 200 "healthy" when the probe connects and 503
      "enclave_down" when it does not, reporting the context identifier;
      every other path answers 404 NotFoundMessage. */
  lemma HealthRouting(path: string, probe: Attempt, cid: int)
    ensures var r := HandleGet(path, probe, cid);
      if path == "/health" then
        && r.status == (if probe.Done? then 200 else 503)
        && JsonText.ReadObject(JsonText.AsciiText(r.body)) == Some([
             ("status", JsonText.Str(if probe.Done? then "healthy" else "enclave_down")),
             ("enclave_cid", JsonText.Int(cid))])
      else r.status == 404 && Reports(r, NotFoundMessage)
  {
    if path == "/health" {
      JsonRoundTrip.DumpsReadsBack(HealthFields(probe.Done?, cid));
    } else {
      SendErrorReports(404, NotFoundMessage);
    }
  }
}
