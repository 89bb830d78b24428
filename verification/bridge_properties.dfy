/** What the receive loop of `_call_enclave` guarantees, stated without
    reference to its recursion: it reads chunks for exactly as long as the
    buffer decodes but does not parse, its buffer is the chunks in order,
    and nothing it has not read can change its outcome. */
module BridgeProperties {
  import opened Common
  import opened Codec
  import opened Bridge
  import JsonText
  import JsonRoundTrip

  /** `r` is how a loop that reads on exactly while the buffer is undecided
      ends on `s`: every buffer before the last one was undecided, and the
      last one either settled the matter at once or the chunks ran out and
      the terminal event decided. */
  ghost predicate Explains(c: Codec, s: Script, r: Receipt) {
    && r.used <= |s.chunks|
    && (forall k :: 0 < k < r.used ==> Undecided(c, Prefix(s, k)))
    && if 0 < r.used && !Undecided(c, Prefix(s, r.used))
       then Verdict(c, Prefix(s, r.used), r.used) == Some(r)
       else r.used == |s.chunks| && r == Finish(s.end, Prefix(s, r.used), r.used)
  }

  lemma {:induction false} DrainExplained(c: Codec, s: Script, i: nat, acc: Bytes)
    requires i <= |s.chunks|
    requires acc == Prefix(s, i)
    requires forall k :: 0 < k <= i ==> Undecided(c, Prefix(s, k))
    ensures Explains(c, s, Drain(c, s, i, acc))
    decreases |s.chunks| - i
  {
    if i < |s.chunks| {
      PrefixGrows(s, i);
      var buf := acc + s.chunks[i];
      if Undecided(c, buf) {
        DrainExplained(c, s, i + 1, buf);
      }
    }
  }

  /** The receive loop ends exactly as `Explains` describes. */
  lemma ReceiveExplained(c: Codec, s: Script)
    ensures Explains(c, s, Receive(c, s))
  {
    DrainExplained(c, s, 0, []);
  }

  /** `Explains` leaves no choice: at most one receipt fits a script. */
  lemma ExplainsUnique(c: Codec, s: Script, r1: Receipt, r2: Receipt)
    requires Explains(c, s, r1) && Explains(c, s, r2)
    ensures r1 == r2
  {
  }

  /** Nothing is dropped or reordered: a buffer the loop returns is the
      concatenation of the chunks it read, in order. */
  lemma ReceiveBufferIsConcatenation(c: Codec, s: Script)
    ensures var r := Receive(c, s);
      r.used <= |s.chunks| && (r.Drained? ==> r.buffer == Prefix(s, r.used))
  {
    ReceiveExplained(c, s);
  }

  /** The loop reads on exactly while the buffer decodes but does not parse:
      every buffer it looked at before its last one was undecided, and it
      never reads past a buffer that was not. */
  lemma ReceiveReadsWhileUndecided(c: Codec, s: Script)
    ensures var r := Receive(c, s);
      && (forall k :: 0 < k < r.used ==> Undecided(c, Prefix(s, k)))
      && (forall k :: 0 < k <= |s.chunks| && !Undecided(c, Prefix(s, k)) ==> r.used <= k)
  {
    ReceiveExplained(c, s);
  }

  /** A document the loop returns is the first chunk-boundary prefix of the
      stream that parses: no shorter prefix parsed. */
  lemma ReceiveStopsAtFirstDocument(c: Codec, s: Script)
    requires Receive(c, s).Drained? && Receive(c, s).why == ParsedDoc
    ensures var r := Receive(c, s);
      && 0 < r.used <= |s.chunks|
      && r.buffer == Prefix(s, r.used)
      && JsonOk(c, r.buffer)
      && forall k :: 0 < k < r.used ==> !JsonOk(c, Prefix(s, k))
  {
    ReceiveExplained(c, s);
  }

  /** Conversely, the first prefix that parses, after only undecided ones,
      is exactly what the loop returns. */
  lemma FirstDocumentIsReturned(c: Codec, s: Script, k: nat)
    requires 0 < k <= |s.chunks|
    requires JsonOk(c, Prefix(s, k))
    requires forall j :: 0 < j < k ==> Undecided(c, Prefix(s, j))
    ensures Receive(c, s) == Drained(ParsedDoc, Prefix(s, k), k)
  {
    var r := Drained(ParsedDoc, Prefix(s, k), k);
    assert Explains(c, s, r);
    ReceiveExplained(c, s);
    ExplainsUnique(c, s, r, Receive(c, s));
  }

  /** When every prefix is undecided the terminal event decides: end of
      stream and timeout return the whole buffer as it is, unparsed; any
      other receive error escapes. */
  lemma TerminalDecides(c: Codec, s: Script)
    requires forall k :: 0 < k <= |s.chunks| ==> Undecided(c, Prefix(s, k))
    ensures Receive(c, s) == Finish(s.end, Prefix(s, |s.chunks|), |s.chunks|)
  {
    var r := Finish(s.end, Prefix(s, |s.chunks|), |s.chunks|);
    assert Explains(c, s, r);
    ReceiveExplained(c, s);
    ExplainsUnique(c, s, r, Receive(c, s));
  }

  /** No further chunks are consumed: once the loop stops on a chunk, what
      the stream would have delivered after it cannot change the outcome. */
  lemma ReceiveIgnoresUnread(c: Codec, s: Script, s': Script)
    requires 0 < Receive(c, s).used
    requires !Undecided(c, Prefix(s, Receive(c, s).used))
    requires Receive(c, s).used <= |s'.chunks|
    requires s'.chunks[..Receive(c, s).used] == s.chunks[..Receive(c, s).used]
    ensures Receive(c, s') == Receive(c, s)
  {
    var r := Receive(c, s);
    ReceiveExplained(c, s);
    forall k | 0 < k <= r.used
      ensures Prefix(s', k) == Prefix(s, k)
    {
      calc {
        s'.chunks[..k];
        s'.chunks[..r.used][..k];
        s.chunks[..r.used][..k];
        s.chunks[..k];
      }
    }
    assert Explains(c, s', r);
    ReceiveExplained(c, s');
    ExplainsUnique(c, s', r, Receive(c, s'));
  }

  /** A reply that never parses is still returned as it is when the enclave
      closes the stream or goes quiet: the bytes it sent, concatenated, or
      `None` when it sent none. */
  lemma UnparsedReplyReturned(c: Codec, body: Bytes, b: Backend)
    requires b.connect.Done? && b.send.Done? && !b.reply.end.RecvError?
    requires forall k :: 0 < k <= |b.reply.chunks| ==> Undecided(c, Prefix(b.reply, k))
    ensures var all := Prefix(b.reply, |b.reply.chunks|);
      CallEnclave(c, body, b).result == if |b.reply.chunks| == 0 then None else Some(all)
  {
    TerminalDecides(c, b.reply);
  }

  /** The bytes `_call_enclave` returns when the `k`-th chunk settles the
      loop after undecided buffers: the whole buffer when it parses, however
      many chunks it took; otherwise the "Enclave error" document of the
      exception, whether `UnicodeDecodeError` (a character split across that
      chunk's end, say) or another error of `json.loads`. */
  lemma DecidingChunkReturned(c: Codec, body: Bytes, b: Backend, k: nat)
    requires b.connect.Done? && b.send.Done?
    requires 0 < k <= |b.reply.chunks|
    requires forall j :: 0 < j < k ==> Undecided(c, Prefix(b.reply, j))
    requires !Undecided(c, Prefix(b.reply, k))
    ensures var buf := Prefix(b.reply, k);
      CallEnclave(c, body, b).result ==
        if JsonOk(c, buf) then Some(buf)
        else if !c.utf8Ok(buf) then Some(EnclaveError(c.decodeError(buf)))
        else Some(EnclaveError(c.loads(buf).message))
  {
    ReceiveDecidedAt(c, b.reply, k);
  }

  /** The loop ends with the verdict on the first buffer that is not
      undecided. */
  lemma ReceiveDecidedAt(c: Codec, s: Script, k: nat)
    requires 0 < k <= |s.chunks|
    requires forall j :: 0 < j < k ==> Undecided(c, Prefix(s, j))
    requires !Undecided(c, Prefix(s, k))
    ensures Verdict(c, Prefix(s, k), k) == Some(Receive(c, s))
  {
    var r := Verdict(c, Prefix(s, k), k).value;
    assert Explains(c, s, r);
    ReceiveExplained(c, s);
    ExplainsUnique(c, s, r, Receive(c, s));
  }

  /** A UTF-8 sequence split across the first chunk boundary makes the
      decode of the first buffer raise `UnicodeDecodeError`, which no inner
      handler catches: the exchange becomes an "Enclave error" document even
      if the very next chunk would have completed a valid reply. */
  lemma SplitCharacterIsFatal(c: Codec, body: Bytes, b: Backend)
    requires b.connect.Done? && b.send.Done?
    requires |b.reply.chunks| > 0 && !c.utf8Ok(b.reply.chunks[0])
    ensures CallEnclave(c, body, b).result == Some(EnclaveError(c.decodeError(b.reply.chunks[0])))
  {
    assert [] + b.reply.chunks[0] == b.reply.chunks[0];
  }

  /** A failed connect or send, or an exception out of the receive loop,
      yields a document that reads back as `{"error": "Enclave error: m"}`
      for the exception's message `m`. */
  lemma FailureBecomesErrorDocument(c: Codec, body: Bytes, b: Backend)
    requires b.connect.Failed? || b.send.Failed? || Receive(c, b.reply).Raised?
    ensures var r := CallEnclave(c, body, b);
      var m := if b.connect.Failed? then b.connect.message
               else if b.send.Failed? then b.send.message
               else Receive(c, b.reply).message;
      && r.result.Some?
      && JsonText.ReadObject(JsonText.AsciiText(r.result.value))
         == Some([("error", JsonText.Str("Enclave error: " + m))])
  {
    var m := if b.connect.Failed? then b.connect.message
             else if b.send.Failed? then b.send.message
             else Receive(c, b.reply).message;
    JsonRoundTrip.ErrorDocumentReadsBack("Enclave error: " + m);
  }

  /** A reply the enclave completes in one chunk is returned unchanged. */
  lemma OneChunkReplyReturned(c: Codec, body: Bytes, b: Backend)
    requires b.connect.Done? && b.send.Done?
    requires |b.reply.chunks| > 0 && JsonOk(c, b.reply.chunks[0])
    ensures CallEnclave(c, body, b).result == Some(b.reply.chunks[0])
  {
    assert [] + b.reply.chunks[0] == b.reply.chunks[0];
  }
}
