/** The body-framing states of the HTTP/1.x parser (strict mode), one byte at a time.

    `Step` is the reference semantics: it consumes one byte and never looks at how the stream was
    cut into calls. `Run` folds it over a buffer. The block-reading implementation is in
    HttpExecute; the chunked transfer coding it decodes is in ChunkedCoding. */
module HttpFraming {
  import opened Bytes

  const MAX_HEADER_SIZE: nat := 80 * 1024

  /** `content_length` holds this value while no length is known. */
  const NO_LENGTH: uint64 := UINT64_MAX

  /** The largest chunk size the size line can spell; see ChunkedCoding.SizeLineAccepted. */
  const MAX_CHUNK: nat := UINT64_MAX - 16

  datatype State =
    | Dead
    | StartReq
    | StartRes
    | HeaderFieldStart
    | ChunkSizeStart
    | ChunkSize
    | ChunkParameters
    | ChunkSizeAlmostDone
    | HeadersAlmostDone
    | ChunkData
    | ChunkDataAlmostDone
    | ChunkDataDone
    | BodyIdentity
    | BodyIdentityEof
    {
      /** States up to s_headers_done in the source's order; their bytes are counted in `nread`. */
      predicate Header() {
        !ChunkData? && !ChunkDataAlmostDone? && !ChunkDataDone? && !BodyIdentity? && !BodyIdentityEof?
      }

      predicate Chunk() {
        || ChunkSizeStart? || ChunkSize? || ChunkParameters? || ChunkSizeAlmostDone?
        || ChunkData? || ChunkDataAlmostDone? || ChunkDataDone?
      }
    }

  datatype Flags = Flags(chunked: bool, keepAlive: bool, close: bool, connectionUpgrade: bool,
                         trailing: bool, upgrade: bool, skipBody: bool, contentLength: bool)

  datatype Errno =
    | InvalidEofState
    | HeaderOverflow
    | ClosedConnection
    | UnexpectedContentLength
    | InvalidContentLength
    | InvalidChunkSize
    | Strict

  /** What on_headers_complete answers: 0, 1 (no body) or 2 (no body and no further messages). */
  datatype HeadersReply = Continue | SkipBody | SkipBodyAndUpgrade

  /** What the start line decided, and how the application answers; the body states only read it. */
  datatype Message = Message(request: bool, connect: bool, major: nat, minor: nat, status: nat, reply: HeadersReply)

  datatype Parser = Parser(state: State, message: Message, flags: Flags, nread: nat, contentLength: uint64,
                           upgrade: bool)
  {
    /** The facts the source's own assert() calls rely on in each state. */
    predicate Valid() {
      && nread <= MAX_HEADER_SIZE
      && (state.ChunkSizeStart? ==> nread == 0)
      && (state.Chunk() ==> flags.chunked)
      && (state.ChunkSize? || state.ChunkParameters? || state.ChunkSizeAlmostDone? ==> contentLength <= MAX_CHUNK)
      && (state.ChunkData? ==> 0 < contentLength <= MAX_CHUNK)
      && (state.BodyIdentity? ==> 0 < contentLength < NO_LENGTH)
      && (state.ChunkDataAlmostDone? || state.ChunkDataDone? ==> contentLength == 0)
    }
  }

  datatype Event =
    | HeadersComplete
    | ChunkHeader(length: nat)
    | Body(b: byte)
    | ChunkComplete
    | MessageComplete

  /** The effect of one byte.
      Next: consumed, carry on. Exit: consumed, and execute returns early because the rest of the
      stream is another protocol. Fail: rejected. HandOff: the byte belongs to the start line or a
      header field, which this model leaves to the rest of the parser. */
  datatype Outcome =
    | Next(p: Parser, events: seq<Event>)
    | Exit(p: Parser, events: seq<Event>)
    | Fail(error: Errno)
    | HandOff

  /** The unhex table. Only its first 128 entries are written out in the source, so every byte from
      128 up reads as the digit zero. */
  function Unhex(c: byte): (v: int)
    ensures -1 <= v < 16
    ensures v != -1 <==> IsHex(c) || c >= 128
    ensures c >= 128 ==> v == 0
  {
    if IsDigit(c) then c - 48
    else if 65 <= c <= 70 then c - 55
    else if 97 <= c <= 102 then c - 87
    else if c < 128 then -1
    else 0
  }

  predicate NeedsEof(p: Parser) {
    && !p.message.request
    && p.message.status / 100 != 1 && p.message.status != 204 && p.message.status != 304 && !p.flags.skipBody
    && !p.flags.chunked && p.contentLength == NO_LENGTH
  }

  predicate ShouldKeepAlive(p: Parser) {
    && (if p.message.major > 0 && p.message.minor > 0 then !p.flags.close else p.flags.keepAlive)
    && !NeedsEof(p)
  }

  function NewMessage(p: Parser): Parser {
    p.(state := if ShouldKeepAlive(p) then (if p.message.request then StartReq else StartRes) else Dead)
  }

  function MessageDone(p: Parser, before: seq<Event>): Outcome {
    if p.upgrade then Exit(NewMessage(p), before + [MessageComplete])
    else Next(NewMessage(p), before + [MessageComplete])
  }

  /** s_headers_done, reached from s_headers_almost_done on the same line feed. */
  function HeadersDone(p: Parser): Outcome {
    var p := p.(nread := 0);
    var hasBody := p.flags.chunked || 0 < p.contentLength < NO_LENGTH;
    if p.upgrade && (p.message.connect || p.flags.skipBody || !hasBody) then
      Exit(NewMessage(p), [HeadersComplete, MessageComplete])
    else if p.flags.skipBody then
      Next(NewMessage(p), [HeadersComplete, MessageComplete])
    else if p.flags.chunked then
      Next(p.(state := ChunkSizeStart), [HeadersComplete])
    else if p.contentLength == 0 then
      Next(NewMessage(p), [HeadersComplete, MessageComplete])
    else if p.contentLength != NO_LENGTH then
      Next(p.(state := BodyIdentity), [HeadersComplete])
    else if !NeedsEof(p) then
      Next(NewMessage(p), [HeadersComplete, MessageComplete])
    else
      Next(p.(state := BodyIdentityEof), [HeadersComplete])
  }

  /** The parser after on_headers_complete has answered. */
  function Replied(p: Parser): Parser {
    var upgrade := (p.flags.upgrade && p.flags.connectionUpgrade) || p.message.connect;
    match p.message.reply
    case Continue => p.(upgrade := upgrade)
    case SkipBody => p.(upgrade := upgrade, flags := p.flags.(skipBody := true))
    case SkipBodyAndUpgrade => p.(upgrade := true, flags := p.flags.(skipBody := true))
  }

  function EndOfHeaders(p: Parser, c: byte): Outcome {
    if c != LF then Fail(Strict)
    else if p.flags.trailing then MessageDone(p, [ChunkComplete])
    else if p.flags.chunked && p.flags.contentLength then Fail(UnexpectedContentLength)
    else
      HeadersDone(Replied(p))
  }

  /** One more hexadecimal digit of a chunk size, in 64-bit arithmetic. */
  function AddDigit(p: Parser, c: byte): Outcome
    requires Unhex(c) != -1
  {
    var t := (p.contentLength * 16 + Unhex(c)) % (UINT64_MAX + 1);
    if (UINT64_MAX - 16) / 16 < p.contentLength then Fail(InvalidContentLength)
    else Next(p.(contentLength := t), [])
  }

  /** The switch of http_parser_execute, after the header-size count. */
  function Dispatch(p: Parser, c: byte): Outcome {
    match p.state
    case Dead =>
      if c == CR || c == LF then Next(p, []) else Fail(ClosedConnection)
    case StartReq => HandOff
    case StartRes => HandOff
    case HeaderFieldStart =>
      if c == CR then Next(p.(state := HeadersAlmostDone), [])
      else if c == LF then EndOfHeaders(p, c)
      else HandOff
    case HeadersAlmostDone => EndOfHeaders(p, c)
    case ChunkSizeStart =>
      if Unhex(c) == -1 then Fail(InvalidChunkSize)
      else Next(p.(contentLength := Unhex(c), state := ChunkSize), [])
    case ChunkSize =>
      if c == CR then Next(p.(state := ChunkSizeAlmostDone), [])
      else if Unhex(c) == -1 then
        if c == 59 || c == SP then Next(p.(state := ChunkParameters), []) else Fail(InvalidChunkSize)
      else AddDigit(p, c)
    case ChunkParameters =>
      Next(if c == CR then p.(state := ChunkSizeAlmostDone) else p, [])
    case ChunkSizeAlmostDone =>
      if c != LF then Fail(Strict)
      else if p.contentLength == 0 then
        Next(p.(nread := 0, flags := p.flags.(trailing := true), state := HeaderFieldStart), [ChunkHeader(0)])
      else
        Next(p.(nread := 0, state := ChunkData), [ChunkHeader(p.contentLength)])
    case ChunkData => TakeBody(p, c, ChunkDataAlmostDone)
    case ChunkDataAlmostDone =>
      if c != CR then Fail(Strict) else Next(p.(state := ChunkDataDone), [])
    case ChunkDataDone =>
      if c != LF then Fail(Strict) else Next(p.(nread := 0, state := ChunkSizeStart), [ChunkComplete])
    case BodyIdentity =>
      if p.contentLength == 1 then MessageDone(p.(contentLength := 0), [Body(c)])
      else TakeBody(p, c, BodyIdentity)
    case BodyIdentityEof => Next(p, [Body(c)])
  }

  /** One byte of a body whose remaining length is counted down, moving to `after` at zero. */
  function TakeBody(p: Parser, c: byte, after: State): Outcome {
    if p.contentLength == 0 then Next(p, [])
    else Next(p.(contentLength := p.contentLength - 1,
                 state := if p.contentLength == 1 then after else p.state), [Body(c)])
  }

  function Step(p: Parser, c: byte): Outcome {
    if p.state.Header() then
      if p.nread + 1 > MAX_HEADER_SIZE then Fail(HeaderOverflow)
      else Dispatch(p.(nread := p.nread + 1), c)
    else
      Dispatch(p, c)
  }

  datatype Status = Ok | Upgraded | Failed(error: Errno) | HandedOff

  /** What a buffer does: the parser and events after its first `consumed` bytes, and why it stopped. */
  datatype Result = Result(p: Parser, events: seq<Event>, consumed: nat, status: Status)

  function Run(p: Parser, data: seq<byte>): (r: Result)
    ensures r.consumed <= |data|
    ensures r.status.Ok? ==> r.consumed == |data|
    ensures r.status.Failed? || r.status.HandedOff? ==> r.consumed < |data|
    decreases |data|
  {
    if data == [] then Result(p, [], 0, Ok)
    else match Step(p, data[0])
      case Next(q, events) => Prepend(events, 1, Run(q, data[1..]))
      case Exit(q, events) => Result(q, events, 1, Upgraded)
      case Fail(e) => Result(p, [], 0, Failed(e))
      case HandOff => Result(p, [], 0, HandedOff)
  }

  function Prepend(events: seq<Event>, consumed: nat, r: Result): Result {
    r.(events := events + r.events, consumed := consumed + r.consumed)
  }

  /** Every byte was consumed and the parser is not in error. */
  predicate Accepted(r: Result, data: seq<byte>) {
    r.consumed == |data| && (r.status.Ok? || r.status.Upgraded?)
  }

  // ---------------------------------------------------------------- invariants

  /** No assert() of the source fires: what each state relies on survives every byte, and a chunk
      size neither wraps 64 bits nor reaches the "no length" mark. */
  lemma StepKeepsValid(p: Parser, c: byte)
    requires p.Valid()
    ensures OutcomeValid(Step(p, c))
  {
    if !p.state.Header() {
      BodyKeepsValid(p, c);
    } else if p.state.Chunk() {
      ChunkSizeKeepsValid(p, c);
    } else if p.state.HeaderFieldStart? || p.state.HeadersAlmostDone? {
      HeadersKeepValid(p, c);
    } else {
      IdleKeepsValid(p, c);
    }
  }

  lemma BodyKeepsValid(p: Parser, c: byte)
    requires p.Valid() && !p.state.Header()
    ensures OutcomeValid(Step(p, c))
  {
    NewMessageValid(p.(contentLength := 0));
  }

  lemma ChunkSizeKeepsValid(p: Parser, c: byte)
    requires p.Valid() && p.state.Header() && p.state.Chunk()
    ensures OutcomeValid(Step(p, c))
  {
    if p.state.ChunkSize? && Unhex(c) != -1 {
      AddDigitIsExact(p.(nread := p.nread + 1), c);
    }
  }

  lemma IdleKeepsValid(p: Parser, c: byte)
    requires p.Valid() && (p.state.Dead? || p.state.StartReq? || p.state.StartRes?)
    ensures OutcomeValid(Step(p, c))
  {
  }

  predicate OutcomeValid(o: Outcome) {
    o.Next? || o.Exit? ==> o.p.Valid()
  }

  lemma NewMessageValid(p: Parser)
    requires p.nread <= MAX_HEADER_SIZE
    ensures NewMessage(p).Valid()
  {
  }

  lemma HeadersDoneValid(p: Parser)
    ensures OutcomeValid(HeadersDone(p))
  {
    NewMessageValid(p.(nread := 0));
  }

  lemma HeadersKeepValid(p: Parser, c: byte)
    requires p.Valid() && (p.state.HeaderFieldStart? || p.state.HeadersAlmostDone?)
    ensures OutcomeValid(Step(p, c))
  {
    if p.nread < MAX_HEADER_SIZE {
      var q := p.(nread := p.nread + 1);
      var o := EndOfHeaders(q, c);
      AlmostDoneValid(q, c);
      if p.state.HeadersAlmostDone? || c == LF {
        assert Step(p, c) == o;
      }
    }
  }

  lemma AlmostDoneValid(p: Parser, c: byte)
    requires p.nread <= MAX_HEADER_SIZE
    ensures OutcomeValid(EndOfHeaders(p, c))
  {
    NewMessageValid(p);
    HeadersDoneValid(Replied(p));
  }

  lemma AddDigitIsExact(p: Parser, c: byte)
    requires p.contentLength <= MAX_CHUNK && Unhex(c) != -1
    ensures AddDigit(p, c).Next? <==> p.contentLength * 16 + Unhex(c) <= MAX_CHUNK
    ensures AddDigit(p, c).Next? ==> AddDigit(p, c).p.contentLength == p.contentLength * 16 + Unhex(c) < NO_LENGTH
  {
    assert (UINT64_MAX - 16) / 16 == 0xFFF_FFFF_FFFF_FFFE;
  }

  lemma {:induction false} RunKeepsValid(p: Parser, data: seq<byte>)
    requires p.Valid()
    ensures Run(p, data).p.Valid()
    decreases |data|
  {
    if data != [] {
      StepKeepsValid(p, data[0]);
      match Step(p, data[0])
      case Next(q, _) => RunKeepsValid(q, data[1..]);
      case _ =>
    }
  }

  // ---------------------------------------------------------------- cutting the stream

  /** Cutting a buffer in two: the second part resumes where the first stopped, and an early stop in
      the first part is the whole story. */
  lemma {:induction false} RunSplit(p: Parser, a: seq<byte>, b: seq<byte>)
    ensures var r := Run(p, a);
            Run(p, a + b) == if r.status.Ok? then Prepend(r.events, r.consumed, Run(r.p, b)) else r
    decreases |a|
  {
    if a == [] {
      assert a + b == b;
    } else {
      assert (a + b)[0] == a[0];
      assert (a + b)[1..] == a[1..] + b;
      match Step(p, a[0])
      case Next(q, events) =>
        RunSplit(q, a[1..], b);
        var r := Run(q, a[1..]);
        if r.status.Ok? {
          assert events + (r.events + Run(r.p, b).events) == (events + r.events) + Run(r.p, b).events;
        }
      case _ =>
    }
  }

  function Concat(pieces: seq<seq<byte>>): seq<byte> {
    if pieces == [] then [] else pieces[0] + Concat(pieces[1..])
  }

  /** Successive calls, each given the next piece, stopping at the first call that does not finish Ok. */
  function RunPieces(p: Parser, pieces: seq<seq<byte>>): Result
    decreases |pieces|
  {
    if pieces == [] then Result(p, [], 0, Ok)
    else
      var r := Run(p, pieces[0]);
      if r.status.Ok? then Prepend(r.events, r.consumed, RunPieces(r.p, pieces[1..])) else r
  }

  /** However a stream is cut, the calls together do what one call on the whole stream does. */
  lemma {:induction false} PiecesAreOneRun(p: Parser, pieces: seq<seq<byte>>)
    ensures RunPieces(p, pieces) == Run(p, Concat(pieces))
    decreases |pieces|
  {
    if pieces != [] {
      RunSplit(p, pieces[0], Concat(pieces[1..]));
      var r := Run(p, pieces[0]);
      PiecesAreOneRun(r.p, pieces[1..]);
    }
  }
}
