/** `EnclaveProxy._call_enclave`: one request/response exchange with the
    enclave over a fresh vsock connection. The stream has no framing, so the
    receive loop appends each chunk to a buffer and stops as soon as the
    whole buffer decodes as UTF-8 and parses as JSON, or at end of stream,
    or at a read timeout.

    The socket is replaced by a `Backend`: the outcome of `connect`, the
    outcome of `sendall`, and a `Script` of what successive `recv(4096)`
    calls return. */
module Bridge {
  import opened Common
  import opened Codec
  import JsonText

  /** The argument of every `recv` call. */
  const RecvSize: nat := 4096

  /** What one successful `recv` returns: between one and `RecvSize` bytes. */
  type Chunk = b: Bytes | 0 < |b| <= RecvSize witness [0]

  /** How a `recv` call ends the stream: it returns `b''`, it raises
      `socket.timeout`, or it raises another error. */
  datatype Terminal = Eof | Timeout | RecvError(message: string)

  /** Everything the receive loop can observe: some chunks, then a terminal
      event. The loop may stop before reaching the terminal event. */
  datatype Script = Script(chunks: seq<Chunk>, end: Terminal)

  /** A socket call that either returns or raises with a message
      (socket creation and `connect` together count as one call). */
  datatype Attempt = Done | Failed(message: string)

  /** The enclave as the proxy sees it over one connection. */
  datatype Backend = Backend(connect: Attempt, send: Attempt, reply: Script)

  /** Why the receive loop stopped without raising. */
  datatype Why = ParsedDoc | PeerClosed | TimedOut

  /** The receive loop's end state: the buffer it stopped with, or the
      message of an exception that escaped it; `used` counts the chunks
      it appended. */
  datatype Receipt =
    | Drained(why: Why, buffer: Bytes, used: nat)
    | Raised(message: string, used: nat)

  // ---------------------------------------------------------------------
  // The buffer
  // ---------------------------------------------------------------------

  /** The chunks appended in order. */
  function Concat(cs: seq<Chunk>): Bytes {
    if |cs| == 0 then [] else Concat(cs[..|cs| - 1]) + cs[|cs| - 1]
  }

  /** The buffer after the first `k` chunks of `s`. */
  function Prefix(s: Script, k: nat): Bytes
    requires k <= |s.chunks|
  {
    Concat(s.chunks[..k])
  }

  lemma PrefixGrows(s: Script, k: nat)
    requires k < |s.chunks|
    ensures Prefix(s, k + 1) == Prefix(s, k) + s.chunks[k]
  {
    assert s.chunks[..k + 1][..k] == s.chunks[..k];
  }

  /** `response += chunk` only ever appends: an earlier buffer is a prefix
      of every later one. */
  lemma {:induction false} BufferOnlyGrows(s: Script, j: nat, k: nat)
    requires j <= k <= |s.chunks|
    ensures |Prefix(s, j)| <= |Prefix(s, k)| && Prefix(s, k)[..|Prefix(s, j)|] == Prefix(s, j)
    decreases k - j
  {
    if j < k {
      BufferOnlyGrows(s, j, k - 1);
      PrefixGrows(s, k - 1);
    }
  }

  // ---------------------------------------------------------------------
  // One step of the loop, and its end
  // ---------------------------------------------------------------------

  /** What the loop does right after appending a chunk, the buffer now being
      `buf` after `used` chunks: `None` when it reads on (the text decoded
      but `json.loads` raised `JSONDecodeError`); otherwise how it stops: a
      parsed document breaks out, a `UnicodeDecodeError` or any other error
      of `json.loads` escapes the loop. */
  function Verdict(c: Codec, buf: Bytes, used: nat): (r: Option<Receipt>)
    ensures r.None? <==> Undecided(c, buf)
    ensures r.Some? ==> r.value.used == used
    ensures r.Some? && r.value.Drained? ==> r.value.buffer == buf && r.value.why == ParsedDoc && JsonOk(c, buf)
    ensures r.Some? && JsonOk(c, buf) ==> r.value.Drained?
  {
    if !c.utf8Ok(buf) then Some(Raised(c.decodeError(buf), used))
    else
      match c.loads(buf)
      case Document(_) => Some(Drained(ParsedDoc, buf, used))
      case Malformed => None
      case Crash(m) => Some(Raised(m, used))
  }

  /** How the loop ends at the terminal event, with buffer `buf`: end of
      stream and timeout break out and keep the buffer, whatever it holds;
      any other receive error escapes. */
  function Finish(t: Terminal, buf: Bytes, used: nat): (r: Receipt)
    ensures r.used == used
    ensures r.Drained? <==> !t.RecvError?
    ensures r.Drained? ==> r.buffer == buf && r.why != ParsedDoc
  {
    match t
    case Eof => Drained(PeerClosed, buf, used)
    case Timeout => Drained(TimedOut, buf, used)
    case RecvError(m) => Raised(m, used)
  }

  // ---------------------------------------------------------------------
  // The loop, as a function and as the program's while loop
  // ---------------------------------------------------------------------

  /** The loop from the point where `i` chunks have been appended to `acc`. */
  function Drain(c: Codec, s: Script, i: nat, acc: Bytes): (r: Receipt)
    requires i <= |s.chunks|
    ensures i <= r.used <= |s.chunks|
    ensures r.Drained? ==> |r.buffer| >= |acc|
    ensures r.Drained? && i < |s.chunks| ==> |r.buffer| > |acc|
    decreases |s.chunks| - i
  {
    if i == |s.chunks| then Finish(s.end, acc, i)
    else
      var buf := acc + s.chunks[i];
      match Verdict(c, buf, i + 1)
      case Some(r) => r
      case None => Drain(c, s, i + 1, buf)
  }

  /** The receive loop of `_call_enclave` run against `s`. */
  function Receive(c: Codec, s: Script): Receipt {
    Drain(c, s, 0, [])
  }

  /** The receive loop as written: `recv`, stop on `b''`, append, try to
      decode and parse the whole buffer, stop on success, read on after
      `JSONDecodeError`, stop on `socket.timeout`. */
  method ReceiveLoop(c: Codec, s: Script) returns (r: Receipt)
    ensures r == Receive(c, s)
    ensures r.Drained? ==> r.used <= |s.chunks| && r.buffer == Prefix(s, r.used)
  {
    var response: Bytes := [];
    var i := 0;
    while true
      invariant i <= |s.chunks|
      invariant response == Prefix(s, i)
      invariant Drain(c, s, i, response) == Receive(c, s)
      decreases |s.chunks| - i
    {
      if i == |s.chunks| {
        match s.end {
          case Eof => r := Drained(PeerClosed, response, i);
          case Timeout => r := Drained(TimedOut, response, i);
          case RecvError(m) => r := Raised(m, i);
        }
        return;
      }
      var chunk := s.chunks[i];
      PrefixGrows(s, i);
      response := response + chunk;
      i := i + 1;
      if !c.utf8Ok(response) {
        r := Raised(c.decodeError(response), i);
        return;
      }
      match c.loads(response) {
        case Document(_) =>
          r := Drained(ParsedDoc, response, i);
          return;
        case Crash(m) =>
          r := Raised(m, i);
          return;
        case Malformed =>
      }
    }
  }

  // ---------------------------------------------------------------------
  // Outcome mapping of `_call_enclave`
  // ---------------------------------------------------------------------

  /** The bytes `_call_enclave` returns when an exception reaches its outer
      handler: `{"error": "Enclave error: <message>"}`. */
  function EnclaveError(message: string): (b: Bytes)
    ensures |b| > 0
  {
    JsonText.ErrorDocument("Enclave error: " + message)
  }

  /** What one call returns (`None` or bytes) and the bytes it handed to
      `sendall`, if it got that far. */
  datatype Call = Call(result: Option<Bytes>, wire: Option<Bytes>)

  /** `_call_enclave(body)` against the enclave `b`. */
  function CallEnclave(c: Codec, body: Bytes, b: Backend): (r: Call)
    ensures r.wire.Some? <==> b.connect.Done?
    ensures r.wire.Some? ==> r.wire.value == body + [NewLine]
    ensures r.result.None? <==>
      b.connect.Done? && b.send.Done? && |b.reply.chunks| == 0 && !b.reply.end.RecvError?
    ensures r.result.Some? ==> |r.result.value| > 0
  {
    match b.connect
    case Failed(m) => Call(Some(EnclaveError(m)), None)
    case Done =>
      var wire := body + [NewLine];
      match b.send
      case Failed(m) => Call(Some(EnclaveError(m)), Some(wire))
      case Done =>
        match Receive(c, b.reply)
        case Raised(m, _) => Call(Some(EnclaveError(m)), Some(wire))
        case Drained(_, buf, _) => Call(if |buf| > 0 then Some(buf) else None, Some(wire))
  }
}
