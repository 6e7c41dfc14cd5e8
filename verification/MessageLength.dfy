/** How the end of a message body is found once its headers are read, and whether the connection
    lives on, against the rules of RFC 2616. */
module MessageLength {
  import opened Bytes
  import opened HttpErrors
  import opened HttpFraming
  import opened HttpExecute
  import opened ChunkedCoding

  datatype Framing = NoBody | Chunked | Counted(length: nat) | UntilClose | Rejected | Switched

  /** The message answers a HEAD request, or the application wants no body. */
  predicate BodySkipped(p: Parser) {
    p.flags.skipBody || p.message.reply != Continue
  }

  /** A response that never has a body, by its status or because it is skipped. */
  predicate NeverHasBody(p: Parser) {
    BodySkipped(p) ||
    (!p.message.request && (100 <= p.message.status < 200 || p.message.status == 204 || p.message.status == 304))
  }

  /** The headers announce a body. */
  predicate BodyAnnounced(p: Parser) {
    p.flags.chunked || 0 < p.contentLength < NO_LENGTH
  }

  /** Another protocol is asked for: by CONNECT, by the two upgrade headers, or by the application. */
  predicate Upgrades(p: Parser) {
    || p.message.connect || p.message.reply == SkipBodyAndUpgrade
    || (p.flags.upgrade && p.flags.connectionUpgrade)
  }

  /** Section 4.4 of RFC 2616, in its order: no body at all, the chunked coding, the length given, the
      end of the connection. A request without a length has no body. */
  function LengthRule(p: Parser): Framing {
    if NeverHasBody(p) then NoBody
    else if p.flags.chunked then Chunked
    else if p.contentLength != NO_LENGTH then (if p.contentLength == 0 then NoBody else Counted(p.contentLength))
    else if p.message.request then NoBody
    else UntilClose
  }

  /** Before that: the two lengths must not come together, and a message that changes the protocol is over
      at once, unless a body is announced that is neither skipped nor that of a CONNECT. */
  function Rule(p: Parser): Framing {
    if p.flags.chunked && p.flags.contentLength then Rejected
    else if Upgrades(p) && (p.message.connect || BodySkipped(p) || !BodyAnnounced(p)) then Switched
    else LengthRule(p)
  }

  /** The framing the parser has chosen, read off what the call on the last line feed returns. */
  function Chosen(r: Result): Framing {
    if r.status.Failed? then Rejected
    else if r.status.Upgraded? then Switched
    else if MessageComplete in r.events then NoBody
    else if r.p.state.ChunkSizeStart? then Chunked
    else if r.p.state.BodyIdentity? then Counted(r.p.contentLength)
    else UntilClose
  }

  /** What is reported with it. */
  function Reported(f: Framing): seq<Event> {
    match f
    case Rejected => []
    case NoBody => [HeadersComplete, MessageComplete]
    case Switched => [HeadersComplete, MessageComplete]
    case _ => [HeadersComplete]
  }

  predicate AtHeadersEnd(p: Parser) {
    (p.state.HeadersAlmostDone? || p.state.HeaderFieldStart?) && p.nread < MAX_HEADER_SIZE && !p.flags.trailing
  }

  /** The status forbids a body that the headers announce; the parser looks at the status only when no
      header gives a length. */
  predicate ForbiddenBody(p: Parser) {
    NeverHasBody(p) && !BodySkipped(p) && BodyAnnounced(p)
  }

  /** Every message: what the parser does at the end of its headers is what the rules say, exactly when
      they do not forbid a body that the headers announce; it then reads that body. */
  lemma ChosenIff(p: Parser)
    requires AtHeadersEnd(p)
    ensures var f := Chosen(Run(p, [LF]));
            && (f == Rule(p) <==> !ForbiddenBody(p) || Rule(p).Rejected? || Rule(p).Switched?)
            && (f != Rule(p) ==> f == if p.flags.chunked then Chunked else Counted(p.contentLength))
            && Run(p, [LF]).events == Reported(f)
  {
    HeadersStep(p);
    var q := p.(nread := p.nread + 1);
    if !(p.flags.chunked && p.flags.contentLength) {
      DoneIff(q);
    }
    hide Step, EndOfHeaders, HeadersDone;
    RunOne(p, LF);
  }

  lemma HeadersStep(p: Parser)
    requires AtHeadersEnd(p)
    ensures var q := p.(nread := p.nread + 1);
            Step(p, LF) == if p.flags.chunked && p.flags.contentLength then Fail(UnexpectedContentLength)
                           else HeadersDone(Replied(q))
  {
    hide HeadersDone, Replied;
  }

  lemma DoneIff(p: Parser)
    requires !(p.flags.chunked && p.flags.contentLength)
    ensures var o := HeadersDone(Replied(p));
            && (o.Next? || o.Exit?) && o.p.upgrade == Upgrades(p)
            && var f := Chosen(Result(o.p, o.events, 1, if o.Next? then Ok else Upgraded));
            && (f == Rule(p) <==> !ForbiddenBody(p) || Rule(p).Switched?)
            && (f != Rule(p) ==> f == if p.flags.chunked then Chunked else Counted(p.contentLength))
            && o.events == Reported(f)
  {
    hide ShouldKeepAlive;
  }

  /** The two lengths together: the line feed that ends the headers is refused, with this error, before
      anything is reported, exactly when both are there; and that is what a call returns. */
  lemma BothLengthsIff(p: Parser, rest: seq<byte>)
    requires p.Valid() && AtHeadersEnd(p)
    ensures var r := Call(p, [LF] + rest);
            p.flags.chunked && p.flags.contentLength <==>
            r.status == Failed(UnexpectedContentLength) && r.consumed == 0 && r.events == [] && r.p == p
  {
    hide Step, Run;
    FailsAtOnceIff(p, [LF] + rest, UnexpectedContentLength);
  }

  /** Whether a message changes the protocol is remembered until its body has been read. */
  lemma UpgradeIsKept(p: Parser)
    requires AtHeadersEnd(p) && !(p.flags.chunked && p.flags.contentLength)
    ensures Run(p, [LF]).p.upgrade == Upgrades(p)
  {
    HeadersStep(p);
    DoneIff(p.(nread := p.nread + 1));
    hide Step, HeadersDone;
    RunOne(p, LF);
  }

  /** A 204 response with a Content-Length of 3: the rules say no body, the parser waits for three bytes. */
  lemma BodyOfNoContent()
    ensures var message := Message(false, false, 1, 1, 204, Continue);
            var flags := Flags(false, false, false, false, false, false, false, true);
            var p := Parser(HeadersAlmostDone, message, flags, 0, 3, false);
            Rule(p) == NoBody && Chosen(Run(p, [LF])) == Counted(3)
  {
    var message := Message(false, false, 1, 1, 204, Continue);
    var flags := Flags(false, false, false, false, false, false, false, true);
    ChosenIff(Parser(HeadersAlmostDone, message, flags, 0, 3, false));
  }

  /** A counted body: exactly its bytes are delivered, then the message is complete. */
  lemma CountedMessage(p: Parser, body: seq<byte>)
    requires p.Valid() && AtHeadersEnd(p)
    requires !p.flags.chunked && p.message.reply == Continue && !p.flags.skipBody && !p.message.connect
    requires 0 < |body| < NO_LENGTH && p.contentLength == |body|
    ensures Run(p, [LF] + body).events == [HeadersComplete] + Bodies(body) + [MessageComplete]
    ensures Run(p, [LF] + body).consumed == 1 + |body|
  {
    var q := Replied(p).(nread := 0, state := BodyIdentity);
    HeadersStep(p);
    DoneCounted(Replied(p.(nread := p.nread + 1)));
    hide Step, Run, HeadersDone;
    RunOne(p, LF);
    IdentityEnd(q, body);
    RunSplit(p, [LF], body);
  }

  lemma DoneCounted(q: Parser)
    requires !q.flags.chunked && !q.flags.skipBody && !q.message.connect && 0 < q.contentLength < NO_LENGTH
    ensures HeadersDone(q) == Next(q.(nread := 0, state := BodyIdentity), [HeadersComplete])
  {
  }

  /** A chunked body: its chunks are delivered, then the message is complete. */
  lemma ChunkedMessage(p: Parser, chunks: seq<Chunk>, ending: Ending)
    requires p.Valid() && AtHeadersEnd(p)
    requires p.flags.chunked && !p.flags.contentLength && p.message.reply == Continue
    requires !p.flags.skipBody && !p.message.connect
    requires ending.Valid() && forall i :: 0 <= i < |chunks| ==> chunks[i].Valid()
    ensures Run(p, [LF] + Encode(chunks, ending)).events == [HeadersComplete] + Delivered(chunks)
    ensures Run(p, [LF] + Encode(chunks, ending)).consumed == 1 + |Encode(chunks, ending)|
  {
    var q := Replied(p).(nread := 0, state := ChunkSizeStart);
    HeadersStep(p);
    DoneChunked(Replied(p.(nread := p.nread + 1)));
    hide Step, Run, HeadersDone;
    RunOne(p, LF);
    RoundTrip(q, chunks, ending);
    RunSplit(p, [LF], Encode(chunks, ending));
  }

  lemma DoneChunked(q: Parser)
    requires q.flags.chunked && !q.flags.skipBody && !q.message.connect
    ensures HeadersDone(q) == Next(q.(nread := 0, state := ChunkSizeStart), [HeadersComplete])
  {
  }

  /** Section 8.1 of RFC 2616: from HTTP/1.1 on a connection persists unless close is asked for, before
      that only if keep-alive is; and never when the body ends with the connection. */
  predicate Persists(p: Parser) {
    && (if p.message.major > 1 || (p.message.major == 1 && p.message.minor >= 1) then !p.flags.close
        else p.flags.keepAlive)
    && LengthRule(p.(message := p.message.(reply := Continue))) != UntilClose
  }

  /** The parser takes a version for 1.1 or later when both its numbers are positive, so it differs on
      versions 2.0, 3.0 and so on, where keep-alive and close do not happen to say the same. */
  lemma KeepAliveIff(p: Parser)
    ensures ShouldKeepAlive(p) == Persists(p) <==>
            || !(p.message.major > 1 && p.message.minor == 0) || p.flags.keepAlive == !p.flags.close
            || LengthRule(p.(message := p.message.(reply := Continue))) == UntilClose
  {
  }

  /** Version 2.0 without a Connection header: persistent by the rules, closed by the parser. */
  lemma VersionTwoCloses()
    ensures var message := Message(false, false, 2, 0, 200, Continue);
            var flags := Flags(false, false, false, false, false, false, false, true);
            var p := Parser(BodyIdentity, message, flags, 0, 0, false);
            Persists(p) && !ShouldKeepAlive(p)
  {
  }

  predicate LineEnds(data: seq<byte>) {
    forall i :: 0 <= i < |data| ==> data[i] == CR || data[i] == LF
  }

  lemma {:induction false} OnlyLineEnds(p: Parser, data: seq<byte>)
    requires p.state.Dead? && p.nread + |data| <= MAX_HEADER_SIZE
    ensures Run(p, data).events == []
    ensures Run(p, data).status == if LineEnds(data) then Ok else Failed(ClosedConnection)
    decreases |data|
  {
    if data != [] {
      var q := p.(nread := p.nread + 1);
      assert Step(p, data[0]) == if data[0] == CR || data[0] == LF then Next(q, []) else Fail(ClosedConnection);
      OnlyLineEnds(q, data[1..]);
      assert LineEnds(data) <==> (data[0] == CR || data[0] == LF) && LineEnds(data[1..]);
    }
  }

  /** What a completed message means for the bytes after it: on a connection that is kept they are the
      next message's, and on one that is not, anything but line ends is refused and nothing reported. */
  lemma AfterMessage(p: Parser, data: seq<byte>)
    requires data != [] && p.nread + |data| <= MAX_HEADER_SIZE
    ensures var r := Run(NewMessage(p), data);
            && r.events == []
            && (ShouldKeepAlive(p) ==> r.p.state == if p.message.request then StartReq else StartRes)
            && r.status == if ShouldKeepAlive(p) then HandedOff
                           else if LineEnds(data) then Ok else Failed(ClosedConnection)
  {
    if ShouldKeepAlive(p) {
      assert Step(NewMessage(p), data[0]) == HandOff;
    } else {
      OnlyLineEnds(NewMessage(p), data);
    }
  }
}
