/** The chunked transfer coding as the framing automaton reads it: what it accepts from
    s_chunk_size_start to the end of a message without trailer fields is exactly the encodings below, and
    it delivers exactly their chunks. An encoding is one of section 4.1 of RFC 7230 as far as its sizes go
    exactly when no byte of them is 128 or more (RfcSizesIff). */
module ChunkedCoding {
  import opened Bytes
  import opened HttpFraming
  import opened HttpExecute

  /** The size line of a chunk without its CRLF: digits of the parser's table, then an extension that
      starts with ';' or ' ' (or nothing). */
  datatype SizeLine = SizeLine(digits: seq<byte>, extension: seq<byte>)
  {
    predicate Valid() {
      && digits != [] && (forall i :: 0 <= i < |digits| ==> Unhex(digits[i]) != -1)
      && (extension != [] ==> extension[0] == 59 || extension[0] == SP)
      && (forall i :: 0 <= i < |extension| ==> extension[i] != CR)
      && |digits| + |extension| + 2 <= MAX_HEADER_SIZE
    }

    function Bytes(): seq<byte> {
      digits + extension + [CR, LF]
    }
  }

  datatype Chunk = Chunk(line: SizeLine, data: seq<byte>)
  {
    predicate Valid() {
      line.Valid() && 0 < |data| <= MAX_CHUNK && HexValue(line.digits) == |data|
    }

    function Bytes(): seq<byte> {
      line.Bytes() + data + [CR, LF]
    }

    function Events(): seq<Event> {
      [ChunkHeader(|data|)] + Bodies(data) + [ChunkComplete]
    }
  }

  /** The terminating chunk and the empty trailer section, whose CR the parser lets senders omit. */
  datatype Ending = Ending(line: SizeLine, bareLf: bool)
  {
    predicate Valid() {
      line.Valid() && HexValue(line.digits) == 0
    }

    function Bytes(): seq<byte> {
      line.Bytes() + Trailer()
    }

    function Trailer(): seq<byte> {
      if bareLf then [LF] else [CR, LF]
    }
  }

  function HexValue(digits: seq<byte>): nat
    requires forall i :: 0 <= i < |digits| ==> Unhex(digits[i]) != -1
  {
    if digits == [] then 0
    else HexValue(digits[..|digits| - 1]) * 16 + Unhex(digits[|digits| - 1])
  }

  function Encode(chunks: seq<Chunk>, ending: Ending): seq<byte> {
    if chunks == [] then ending.Bytes() else chunks[0].Bytes() + Encode(chunks[1..], ending)
  }

  function Delivered(chunks: seq<Chunk>): seq<Event> {
    if chunks == [] then [ChunkHeader(0), ChunkComplete, MessageComplete]
    else chunks[0].Events() + Delivered(chunks[1..])
  }

  predicate AtChunkStart(p: Parser) {
    p.Valid() && p.state.ChunkSizeStart?
  }

  // ---------------------------------------------------------------- the size line

  lemma DigitStep(p: Parser, c: byte)
    requires p.state.ChunkSize? && p.Valid() && p.nread < MAX_HEADER_SIZE && Unhex(c) != -1
    ensures Step(p, c) == AddDigit(p.(nread := p.nread + 1), c)
  {
  }

  /** The parser after the digits of a size line. */
  function Sized(p: Parser, digits: seq<byte>): Parser
    requires (forall i :: 0 <= i < |digits| ==> Unhex(digits[i]) != -1) && HexValue(digits) <= MAX_CHUNK
  {
    p.(state := ChunkSize, nread := |digits|, contentLength := HexValue(digits))
  }

  /** The digits of a size line accumulate exactly, and are accepted exactly up to 2^64 - 17. */
  predicate DigitsTaken(p: Parser, digits: seq<byte>)
    requires forall i :: 0 <= i < |digits| ==> Unhex(digits[i]) != -1
  {
    && (Run(p, digits).status.Ok? <==> HexValue(digits) <= MAX_CHUNK)
    && (HexValue(digits) <= MAX_CHUNK ==> Run(p, digits) == Result(Sized(p, digits), [], |digits|, Ok))
    && Run(p, digits).events == []
  }

  lemma {:induction false} Digits(p: Parser, digits: seq<byte>)
    requires AtChunkStart(p) && 0 < |digits| <= MAX_HEADER_SIZE
    requires forall i :: 0 <= i < |digits| ==> Unhex(digits[i]) != -1
    ensures DigitsTaken(p, digits)
  {
    hide Run, Step, DigitsTaken;
    var n := |digits| - 1;
    var c := digits[n];
    if n == 0 {
      assert digits == [c];
      FirstDigit(p, c);
    } else {
      var front := digits[..n];
      assert front + [c] == digits;
      Digits(p, front);
      MoreDigits(p, front, c);
    }
  }

  lemma FirstDigit(p: Parser, c: byte)
    requires AtChunkStart(p) && Unhex(c) != -1
    ensures DigitsTaken(p, [c])
  {
    hide Run;
    RunOne(p, c);
    assert [c][..0] == [] && HexValue([c]) == Unhex(c);
  }

  lemma MoreDigits(p: Parser, front: seq<byte>, c: byte)
    requires AtChunkStart(p) && 0 < |front| < MAX_HEADER_SIZE && Unhex(c) != -1
    requires (forall i :: 0 <= i < |front| ==> Unhex(front[i]) != -1) && DigitsTaken(p, front)
    ensures DigitsTaken(p, front + [c])
  {
    hide Run, Step;
    RunSplit(p, front, [c]);
    HexValueMore(front, c);
    hide HexValue, Unhex;
    if HexValue(front) <= MAX_CHUNK {
      var q := Sized(p, front);
      DigitStep(q, c);
      RunOne(q, c);
      AddDigitIsExact(q.(nread := |front| + 1), c);
    }
  }

  lemma HexValueMore(front: seq<byte>, c: byte)
    requires Unhex(c) != -1 && forall i :: 0 <= i < |front| ==> Unhex(front[i]) != -1
    ensures HexValue(front + [c]) == HexValue(front) * 16 + Unhex(c) && HexValue(front) >= 0
  {
    assert (front + [c])[..|front|] == front;
  }

  lemma {:induction false} Extension(p: Parser, extension: seq<byte>)
    requires p.Valid() && p.state.ChunkParameters? && p.nread + |extension| <= MAX_HEADER_SIZE
    requires forall i :: 0 <= i < |extension| ==> extension[i] != CR
    ensures Run(p, extension) == Result(p.(nread := p.nread + |extension|), [], |extension|, Ok)
    decreases |extension|
  {
    if extension != [] {
      var q := p.(nread := p.nread + 1);
      assert Step(p, extension[0]) == Next(q, []);
      Extension(q, extension[1..]);
    }
  }

  /** The parser once a size line has announced `n` bytes. */
  function Announced(p: Parser, n: uint64): Parser {
    if n == 0 then
      p.(state := HeaderFieldStart, nread := 0, contentLength := 0, flags := p.flags.(trailing := true))
    else
      p.(state := ChunkData, nread := 0, contentLength := n)
  }

  lemma EndOfLine(p: Parser)
    requires p.Valid() && (p.state.ChunkSize? || p.state.ChunkParameters?) && p.nread + 2 <= MAX_HEADER_SIZE
    ensures Run(p, [CR, LF]) == Result(Announced(p, p.contentLength), [ChunkHeader(p.contentLength)], 2, Ok)
  {
    hide Run;
    var q := p.(state := ChunkSizeAlmostDone, nread := p.nread + 1);
    assert Step(p, CR) == Next(q, []);
    assert Step(q, LF) == Next(Announced(p, p.contentLength), [ChunkHeader(p.contentLength)]);
    hide Step;
    RunOne(p, CR);
    RunOne(q, LF);
    RunSplit(p, [CR], [LF]);
    assert [CR, LF] == [CR] + [LF];
  }

  lemma ExtensionStarts(p: Parser, c: byte)
    requires p.Valid() && p.state.ChunkSize? && p.nread < MAX_HEADER_SIZE && (c == 59 || c == SP)
    ensures Step(p, c) == Next(p.(state := ChunkParameters, nread := p.nread + 1), [])
    ensures p.(state := ChunkParameters, nread := p.nread + 1).Valid()
  {
  }

  lemma AfterDigits(p: Parser, extension: seq<byte>)
    requires p.Valid() && p.state.ChunkSize? && p.nread + |extension| + 2 <= MAX_HEADER_SIZE
    requires extension != [] ==> extension[0] == 59 || extension[0] == SP
    requires forall i :: 0 <= i < |extension| ==> extension[i] != CR
    ensures Run(p, extension + [CR, LF]) ==
            Result(Announced(p, p.contentLength), [ChunkHeader(p.contentLength)], |extension| + 2, Ok)
  {
    hide Run, Step;
    if extension == [] {
      assert extension + [CR, LF] == [CR, LF];
      EndOfLine(p);
    } else {
      var q := p.(state := ChunkParameters, nread := p.nread + 1);
      var rest := extension[1..];
      ExtensionStarts(p, extension[0]);
      RunOne(p, extension[0]);
      InExtension(q, rest);
      RunSplit(p, [extension[0]], rest + [CR, LF]);
      assert extension + [CR, LF] == [extension[0]] + (rest + [CR, LF]);
    }
  }

  lemma InExtension(p: Parser, rest: seq<byte>)
    requires p.Valid() && p.state.ChunkParameters? && p.nread + |rest| + 2 <= MAX_HEADER_SIZE
    requires forall i :: 0 <= i < |rest| ==> rest[i] != CR
    ensures Run(p, rest + [CR, LF]) ==
            Result(Announced(p, p.contentLength), [ChunkHeader(p.contentLength)], |rest| + 2, Ok)
  {
    hide Run, Step;
    Extension(p, rest);
    RunSplit(p, rest, [CR, LF]);
    EndOfLine(p.(nread := p.nread + |rest|));
  }

  /** A whole size line: accepted exactly when its value is at most 2^64 - 17, and then announced. */
  lemma SizeLineAccepted(p: Parser, line: SizeLine)
    requires AtChunkStart(p) && line.Valid()
    ensures Run(p, line.Bytes()).status.Ok? <==> HexValue(line.digits) <= MAX_CHUNK
    ensures HexValue(line.digits) <= MAX_CHUNK ==>
              Run(p, line.Bytes()) == Result(Announced(p, HexValue(line.digits)), [ChunkHeader(HexValue(line.digits))],
                                             |line.Bytes()|, Ok)
    ensures HexValue(line.digits) > MAX_CHUNK ==> Run(p, line.Bytes()).events == []
  {
    hide Run, Step;
    var rest := line.extension + [CR, LF];
    assert line.Bytes() == line.digits + rest;
    RunSplit(p, line.digits, rest);
    Digits(p, line.digits);
    var v := HexValue(line.digits);
    if v <= MAX_CHUNK {
      var q := p.(state := ChunkSize, nread := |line.digits|, contentLength := v);
      AfterDigits(q, line.extension);
      assert Announced(q, v) == Announced(p, v);
      assert [] + [ChunkHeader(v)] == [ChunkHeader(v)];
    }
  }

  // ---------------------------------------------------------------- chunks to bytes to chunks

  lemma ChunkTail(p: Parser)
    requires p.Valid() && p.state.ChunkDataAlmostDone?
    ensures Run(p, [CR, LF]) == Result(p.(state := ChunkSizeStart, nread := 0), [ChunkComplete], 2, Ok)
  {
    var q := p.(state := ChunkDataDone);
    assert Step(p, CR) == Next(q, []);
    assert Step(q, LF) == Next(p.(state := ChunkSizeStart, nread := 0), [ChunkComplete]);
    hide Step;
    RunOne(p, CR);
    RunOne(q, LF);
    RunSplit(p, [CR], [LF]);
    assert [CR, LF] == [CR] + [LF];
  }

  lemma OneChunk(p: Parser, c: Chunk)
    requires AtChunkStart(p) && c.Valid()
    ensures Run(p, c.Bytes()) == Result(p.(contentLength := 0, nread := 0), c.Events(), |c.Bytes()|, Ok)
  {
    hide Run, Step;
    var p1 := Announced(p, |c.data|);
    var p2 := p1.(contentLength := 0, state := ChunkDataAlmostDone);
    SizeLineAccepted(p, c.line);
    ChunkBlock(p1, c.data);
    ChunkTail(p2);
    RunSplit(p1, c.data, [CR, LF]);
    RunSplit(p, c.line.Bytes(), c.data + [CR, LF]);
    assert c.Bytes() == c.line.Bytes() + (c.data + [CR, LF]);
    assert c.Events() == [ChunkHeader(|c.data|)] + (Bodies(c.data) + [ChunkComplete]);
  }

  lemma ChunkFirst(p: Parser, c: Chunk, rest: seq<byte>)
    requires AtChunkStart(p) && c.Valid()
    ensures Run(p, c.Bytes() + rest).events == c.Events() + Run(p.(contentLength := 0, nread := 0), rest).events
    ensures MessageComplete !in c.Events()
  {
    hide Run, Step;
    OneChunk(p, c);
    RunSplit(p, c.Bytes(), rest);
  }

  /** The parser when the message is over. */
  function Completed(p: Parser, ending: Ending): Parser {
    NewMessage(p.(contentLength := 0, nread := |ending.Trailer()|, flags := p.flags.(trailing := true)))
  }

  lemma TrailerEnds(p: Parser, ending: Ending)
    requires p.Valid() && p.state.HeaderFieldStart? && p.nread == 0 && p.flags.trailing && p.contentLength == 0
    ensures Run(p, ending.Trailer()) ==
            Result(Completed(p, ending), [ChunkComplete, MessageComplete], |ending.Trailer()|,
                   if p.upgrade then Upgraded else Ok)
  {
    hide Run, Step;
    if ending.bareLf {
      BareLineEnds(p);
      RunOne(p, LF);
    } else {
      var q := p.(state := HeadersAlmostDone, nread := 1);
      LineEnds(p);
      RunOne(p, CR);
      RunOne(q, LF);
      RunSplit(p, [CR], [LF]);
      assert [CR, LF] == [CR] + [LF];
    }
  }

  lemma BareLineEnds(p: Parser)
    requires p.Valid() && p.state.HeaderFieldStart? && p.nread == 0 && p.flags.trailing && p.contentLength == 0
    ensures Step(p, LF) == MessageDone(p.(nread := 1), [ChunkComplete])
    ensures NewMessage(p.(nread := 1)) ==
            NewMessage(p.(contentLength := 0, nread := 1, flags := p.flags.(trailing := true)))
  {
  }

  lemma LineEnds(p: Parser)
    requires p.Valid() && p.state.HeaderFieldStart? && p.nread == 0 && p.flags.trailing && p.contentLength == 0
    ensures var q := p.(state := HeadersAlmostDone, nread := 1);
            && Step(p, CR) == Next(q, []) && q.Valid()
            && Step(q, LF) == MessageDone(q.(nread := 2), [ChunkComplete])
            && NewMessage(q.(nread := 2)) ==
               NewMessage(p.(contentLength := 0, nread := 2, flags := p.flags.(trailing := true)))
  {
  }

  lemma LastChunk(p: Parser, ending: Ending)
    requires AtChunkStart(p) && ending.Valid()
    ensures Run(p, ending.Bytes()) ==
            Result(Completed(p, ending), [ChunkHeader(0), ChunkComplete, MessageComplete], |ending.Bytes()|,
                   if p.upgrade then Upgraded else Ok)
  {
    hide Run, Step;
    var q := Announced(p, 0);
    SizeLineAccepted(p, ending.line);
    TrailerEnds(q, ending);
    assert Completed(q, ending) == Completed(p, ending);
    RunSplit(p, ending.line.Bytes(), ending.Trailer());
  }

  /** Round trip: every list of non-empty chunks, however its sizes are spelled, is delivered chunk
      by chunk and byte by byte, followed by one message-complete. */
  lemma {:induction false} RoundTrip(p: Parser, chunks: seq<Chunk>, ending: Ending)
    requires AtChunkStart(p) && ending.Valid()
    requires forall i :: 0 <= i < |chunks| ==> chunks[i].Valid()
    ensures Run(p, Encode(chunks, ending)) ==
            Result(Completed(p, ending), Delivered(chunks), |Encode(chunks, ending)|,
                   if p.upgrade then Upgraded else Ok)
    decreases |chunks|
  {
    hide Run, Step;
    if chunks == [] {
      LastChunk(p, ending);
    } else {
      var q := p.(contentLength := 0, nread := 0);
      OneChunk(p, chunks[0]);
      RoundTrip(q, chunks[1..], ending);
      assert Completed(q, ending) == Completed(p, ending);
      RunSplit(p, chunks[0].Bytes(), Encode(chunks[1..], ending));
    }
  }

  // ---------------------------------------------------------------- bytes to chunks

  /** Unfolding a run by one byte. */
  lemma RunFirst(p: Parser, data: seq<byte>)
    requires data != []
    ensures Run(p, data).events == if Step(p, data[0]).Next?
                                   then Step(p, data[0]).events + Run(Step(p, data[0]).p, data[1..]).events
                                   else if Step(p, data[0]).Exit? then Step(p, data[0]).events else []
  {
    hide Step;
  }

  lemma {:induction false} ExtensionShape(p: Parser, data: seq<byte>) returns (extension: seq<byte>, rest: seq<byte>)
    requires p.Valid() && p.state.ChunkParameters? && Run(p, data).events != []
    ensures data == extension + [CR, LF] + rest
    ensures forall i :: 0 <= i < |extension| ==> extension[i] != CR
    ensures p.nread + |extension| + 2 <= MAX_HEADER_SIZE
    decreases |data|
  {
    assert data != [];
    RunFirst(p, data);
    if data[0] == CR {
      rest := LineFeedShape(p, data);
      extension := [];
      assert data == extension + [CR, LF] + rest;
    } else {
      hide Run;
      var q := p.(nread := p.nread + 1);
      assert Step(p, data[0]) == Next(q, []);
      extension, rest := ExtensionShape(q, data[1..]);
      extension := [data[0]] + extension;
      assert data == [data[0]] + data[1..];
    }
  }

  lemma LineFeedShape(p: Parser, data: seq<byte>) returns (rest: seq<byte>)
    requires p.Valid() && (p.state.ChunkSize? || p.state.ChunkParameters?)
    requires data != [] && data[0] == CR && Run(p, data).events != []
    ensures data == [CR, LF] + rest && p.nread + 2 <= MAX_HEADER_SIZE
  {
    RunFirst(p, data);
    var q := p.(nread := p.nread + 1, state := ChunkSizeAlmostDone);
    assert Step(p, data[0]) == Next(q, []);
    assert data[1..] != [];
    RunFirst(q, data[1..]);
    assert Step(q, data[1]).Next?;
    rest := data[2..];
  }

  /** Bytes of a size line from inside its digits on: digits, an extension, the line end, and the rest. */
  predicate SizeParts(nread: nat, data: seq<byte>, digits: seq<byte>, extension: seq<byte>, rest: seq<byte>) {
    && data == digits + extension + [CR, LF] + rest
    && (forall i :: 0 <= i < |digits| ==> Unhex(digits[i]) != -1)
    && (extension != [] ==> extension[0] == 59 || extension[0] == SP)
    && (forall i :: 0 <= i < |extension| ==> extension[i] != CR)
    && nread + |digits| + |extension| + 2 <= MAX_HEADER_SIZE
  }

  lemma DigitBefore(nread: nat, data: seq<byte>, digits: seq<byte>, extension: seq<byte>, rest: seq<byte>)
    requires data != [] && Unhex(data[0]) != -1 && SizeParts(nread + 1, data[1..], digits, extension, rest)
    ensures SizeParts(nread, data, [data[0]] + digits, extension, rest)
  {
    assert data == [data[0]] + data[1..];
  }

  lemma ExtensionBefore(nread: nat, data: seq<byte>, extension: seq<byte>, rest: seq<byte>)
    requires data != [] && (data[0] == 59 || data[0] == SP) && data[1..] == extension + [CR, LF] + rest
    requires (forall i :: 0 <= i < |extension| ==> extension[i] != CR) && nread + 1 + |extension| + 2 <= MAX_HEADER_SIZE
    ensures SizeParts(nread, data, [], [data[0]] + extension, rest)
  {
    assert data == [data[0]] + data[1..];
  }

  lemma {:induction false} SizeShape(p: Parser, data: seq<byte>)
      returns (digits: seq<byte>, extension: seq<byte>, rest: seq<byte>)
    requires p.Valid() && p.state.ChunkSize? && Run(p, data).events != []
    ensures SizeParts(p.nread, data, digits, extension, rest)
    decreases |data|
  {
    assert data != [];
    RunFirst(p, data);
    if data[0] == CR {
      rest := LineFeedShape(p, data);
      digits, extension := [], [];
    } else {
      hide Run, SizeParts;
      var q := SizeNext(p, data[0]);
      if Unhex(data[0]) == -1 {
        extension, rest := ExtensionShape(q, data[1..]);
        ExtensionBefore(p.nread, data, extension, rest);
        digits, extension := [], [data[0]] + extension;
      } else {
        digits, extension, rest := SizeShape(q, data[1..]);
        DigitBefore(p.nread, data, digits, extension, rest);
        digits := [data[0]] + digits;
      }
    }
  }

  /** A byte after the digits that lets the line go on. */
  lemma SizeNext(p: Parser, c: byte) returns (q: Parser)
    requires p.Valid() && p.state.ChunkSize? && Step(p, c).Next? && c != CR
    ensures Step(p, c) == Next(q, []) && q.Valid() && q.nread == p.nread + 1
    ensures if Unhex(c) == -1 then q.state.ChunkParameters? && (c == 59 || c == SP) else q.state.ChunkSize?
  {
    StepKeepsValid(p, c);
    q := Step(p, c).p;
  }

  lemma SizeLineShape(p: Parser, data: seq<byte>) returns (line: SizeLine, rest: seq<byte>)
    requires AtChunkStart(p) && Run(p, data).events != []
    ensures line.Valid() && data == line.Bytes() + rest
  {
    assert data != [];
    RunFirst(p, data);
    var q := FirstSizeByte(p, data[0]);
    hide Run, Step, SizeParts;
    var digits, extension, rest' := SizeShape(q, data[1..]);
    DigitBefore(0, data, digits, extension, rest');
    line, rest := SizeLine([data[0]] + digits, extension), rest';
    PartsAreLine(data, line, rest);
  }

  lemma FirstSizeByte(p: Parser, c: byte) returns (q: Parser)
    requires AtChunkStart(p) && Step(p, c).Next?
    ensures Step(p, c) == Next(q, []) && q.Valid() && q.state.ChunkSize? && q.nread == 1 && Unhex(c) != -1
  {
    StepKeepsValid(p, c);
    q := Step(p, c).p;
  }

  lemma PartsAreLine(data: seq<byte>, line: SizeLine, rest: seq<byte>)
    requires line.digits != [] && SizeParts(0, data, line.digits, line.extension, rest)
    ensures line.Valid() && data == line.Bytes() + rest
  {
  }

  lemma TrailerShape(p: Parser, data: seq<byte>) returns (bareLf: bool, rest: seq<byte>)
    requires p.Valid() && p.state.HeaderFieldStart? && Run(p, data).events != []
    ensures data == (if bareLf then [LF] else [CR, LF]) + rest
  {
    assert data != [];
    RunFirst(p, data);
    bareLf := data[0] == LF;
    if bareLf {
      rest := data[1..];
    } else {
      var q := p.(nread := p.nread + 1, state := HeadersAlmostDone);
      assert Step(p, data[0]) == Next(q, []);
      assert data[1..] != [];
      RunFirst(q, data[1..]);
      assert data[1] == LF;
      rest := data[2..];
    }
  }

  lemma ChunkTailShape(p: Parser, data: seq<byte>) returns (rest: seq<byte>)
    requires p.Valid() && p.state.ChunkDataAlmostDone? && Run(p, data).events != []
    ensures data == [CR, LF] + rest
  {
    assert data != [];
    RunFirst(p, data);
    var q := p.(state := ChunkDataDone);
    assert Step(p, data[0]) == Next(q, []);
    assert data[1..] != [];
    RunFirst(q, data[1..]);
    assert data[1] == LF;
    rest := data[2..];
  }

  /** A chunk whose size line has been read: its data and CRLF follow, if anything is to come after. */
  lemma ChunkShape(p: Parser, data: seq<byte>) returns (block: seq<byte>, rest: seq<byte>)
    requires p.Valid() && p.state.ChunkData? && MessageComplete in Run(p, data).events
    ensures data == block + [CR, LF] + rest && |block| == p.contentLength
  {
    hide Run, Step;
    var n := p.contentLength;
    if |data| <= n {
      if data == [] {
        RunNothing(p);
      } else {
        ChunkBlock(p, data);
      }
      assert false;
    }
    block := data[..n];
    ChunkBlock(p, block);
    RunSplit(p, block, data[n..]);
    assert block + data[n..] == data;
    var q := p.(contentLength := 0, state := ChunkDataAlmostDone);
    rest := ChunkTailShape(q, data[n..]);
  }

  lemma RunNothing(p: Parser)
    ensures Run(p, []) == Result(p, [], 0, Ok)
  {
  }

  /** The converse of RoundTrip: a stream on which the automaton completes a chunked message starts
      with an encoding of some list of non-empty chunks. */
  lemma {:induction false} OnlyEncodingsComplete(p: Parser, data: seq<byte>)
      returns (chunks: seq<Chunk>, ending: Ending, rest: seq<byte>)
    requires AtChunkStart(p) && MessageComplete in Run(p, data).events
    ensures ending.Valid() && forall i :: 0 <= i < |chunks| ==> chunks[i].Valid()
    ensures data == Encode(chunks, ending) + rest
    decreases |data|
  {
    hide Run, Step;
    var line, rest1 := SizeLineShape(p, data);
    var v := HexValue(line.digits);
    SizeLineAccepted(p, line);
    RunSplit(p, line.Bytes(), rest1);
    var q := Announced(p, v);
    if v == 0 {
      var bareLf, rest2 := TrailerShape(q, rest1);
      chunks, ending, rest := [], Ending(line, bareLf), rest2;
    } else {
      var block, rest2 := ChunkShape(q, rest1);
      var c := Chunk(line, block);
      assert data == c.Bytes() + rest2;
      ChunkFirst(p, c, rest2);
      var more, ending', rest' := OnlyEncodingsComplete(p.(contentLength := 0, nread := 0), rest2);
      chunks, ending, rest := [c] + more, ending', rest';
    }
  }

  // ---------------------------------------------------------------- sizes in the RFC's own terms

  const UPPER: seq<byte> := [48, 49, 50, 51, 52, 53, 54, 55, 56, 57, 65, 66, 67, 68, 69, 70]
  const LOWER: seq<byte> := [48, 49, 50, 51, 52, 53, 54, 55, 56, 57, 97, 98, 99, 100, 101, 102]

  /** HEXDIG of RFC 5234, in either case, and its value. */
  predicate HexDig(c: byte, v: nat) {
    v < 16 && (UPPER[v] == c || LOWER[v] == c)
  }

  /** chunk-size of section 4.1 of RFC 7230, one or more HEXDIG, spelling `n`. */
  predicate ChunkSizeOf(digits: seq<byte>, n: nat) {
    digits != [] && Spells(digits, n)
  }

  predicate Spells(digits: seq<byte>, n: nat) {
    if digits == [] then n == 0
    else HexDig(digits[|digits| - 1], n % 16) && Spells(digits[..|digits| - 1], n / 16)
  }

  predicate Ascii(digits: seq<byte>) {
    forall i :: 0 <= i < |digits| ==> digits[i] < 128
  }

  lemma HexDigIff(c: byte, v: nat)
    requires Unhex(c) != -1
    ensures HexDig(c, v) <==> c < 128 && v == Unhex(c)
  {
    if v < 16 {
      assert UPPER[v] == if v < 10 then 48 + v else 55 + v;
      assert LOWER[v] == if v < 10 then 48 + v else 87 + v;
    }
  }

  /** Digits the parser takes are a chunk-size iff none is 128 or more, and then of the parser's value. */
  lemma {:induction false} SpellsIff(digits: seq<byte>, n: nat)
    requires forall i :: 0 <= i < |digits| ==> Unhex(digits[i]) != -1
    ensures Spells(digits, n) <==> Ascii(digits) && n == HexValue(digits)
  {
    hide Unhex, HexDig;
    if digits != [] {
      var k := |digits| - 1;
      HexDigIff(digits[k], n % 16);
      SpellsIff(digits[..k], n / 16);
      var v, front := Unhex(digits[k]), HexValue(digits[..k]);
      assert HexValue(digits) == front * 16 + v;
      assert n == front * 16 + v <==> n / 16 == front && n % 16 == v;
      assert Ascii(digits) <==> Ascii(digits[..k]) && digits[k] < 128;
    }
  }

  /** Every size of an encoding is a chunk-size of the RFC and spells the length of its chunk. */
  predicate RfcSizes(chunks: seq<Chunk>, ending: Ending) {
    && (forall i :: 0 <= i < |chunks| ==> ChunkSizeOf(chunks[i].line.digits, |chunks[i].data|))
    && ChunkSizeOf(ending.line.digits, 0)
  }

  /** The encodings the parser takes have sizes of the RFC exactly when no size byte is 128 or more. */
  lemma RfcSizesIff(chunks: seq<Chunk>, ending: Ending)
    requires ending.Valid() && forall i :: 0 <= i < |chunks| ==> chunks[i].Valid()
    ensures RfcSizes(chunks, ending) <==>
            (forall i :: 0 <= i < |chunks| ==> Ascii(chunks[i].line.digits)) && Ascii(ending.line.digits)
  {
    hide Spells, Ascii;
    forall i | 0 <= i < |chunks|
      ensures ChunkSizeOf(chunks[i].line.digits, |chunks[i].data|) <==> Ascii(chunks[i].line.digits)
    {
      assert chunks[i].Valid();
      SpellsIff(chunks[i].line.digits, |chunks[i].data|);
    }
    SpellsIff(ending.line.digits, 0);
  }

  /** A byte of 128 in place of a size: the parser completes the message, but that is no chunk-size. */
  lemma HighByteCompletes(p: Parser)
    requires AtChunkStart(p)
    ensures MessageComplete in Run(p, [128, CR, LF, CR, LF]).events
    ensures forall n: nat :: !ChunkSizeOf([128], n)
  {
    var ending := Ending(SizeLine([128], []), false);
    assert [128][..0] == [] && HexValue([128]) == 0;
    assert ending.Bytes() == [128, CR, LF, CR, LF];
    hide Run;
    LastChunk(p, ending);
    forall n: nat ensures !ChunkSizeOf([128], n) {
      SpellsIff([128], n);
      assert [128][0] >= 128;
    }
  }
}
