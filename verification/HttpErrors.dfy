/** When and why the framing automaton stops: each error by the one thing that causes it, an upgrade by
    the message that ends on it, and the bytes that belong to the rest of the parser. */
module HttpErrors {
  import opened Bytes
  import opened HttpFraming

  /** The one byte that may come next, in the states that leave no choice. */
  function Expected(s: State): int {
    match s
    case HeadersAlmostDone => LF
    case ChunkSizeAlmostDone => LF
    case ChunkDataAlmostDone => CR
    case ChunkDataDone => LF
    case _ => -1
  }

  /** The header section has used up its limit of bytes. */
  predicate TooLong(p: Parser) {
    p.state.Header() && p.nread >= MAX_HEADER_SIZE
  }

  /** A byte ends the headers of a message, not its trailer. */
  predicate EndsHeaders(p: Parser, c: byte) {
    c == LF && (p.state.HeadersAlmostDone? || p.state.HeaderFieldStart?) && !p.flags.trailing
  }

  /** A byte that is no part of a size line where it stands. */
  predicate NoSizeByte(s: State, c: byte) {
    Unhex(c) == -1 && (s.ChunkSizeStart? || (s.ChunkSize? && c != CR && c != 59 && c != SP))
  }

  /** The error a byte causes, if any. */
  predicate Causes(p: Parser, c: byte, e: Errno) {
    match e
    case HeaderOverflow => TooLong(p)
    case Strict => !TooLong(p) && Expected(p.state) != -1 && c != Expected(p.state)
    case ClosedConnection => !TooLong(p) && p.state.Dead? && c != CR && c != LF
    case UnexpectedContentLength => !TooLong(p) && EndsHeaders(p, c) && p.flags.chunked && p.flags.contentLength
    case InvalidChunkSize => !TooLong(p) && NoSizeByte(p.state, c)
    case InvalidContentLength =>
      !TooLong(p) && p.state.ChunkSize? && Unhex(c) != -1 && p.contentLength * 16 + Unhex(c) > MAX_CHUNK
    case InvalidEofState => false
  }

  /** What the end of a header section may do. */
  lemma EndCases(q: Parser, c: byte)
    ensures var o := EndOfHeaders(q, c);
            && (o.Fail? <==> c != LF || (!q.flags.trailing && q.flags.chunked && q.flags.contentLength))
            && (o.Fail? ==> o.error == if c != LF then Strict else UnexpectedContentLength)
            && !o.HandOff? && (o.Next? || o.Exit? ==> o.events != [])
            && (o.Exit? <==> (o.Next? || o.Exit?) && MessageComplete in o.events && o.p.upgrade)
  {
    DoneCases(Replied(q));
    hide HeadersDone, Replied;
  }

  lemma DoneCases(q: Parser)
    ensures var o := HeadersDone(q);
            (o.Next? || o.Exit?) && o.events != [] && (o.Exit? <==> MessageComplete in o.events && o.p.upgrade)
  {
  }

  /** A byte is refused with an error exactly when it causes that error, in every state. */
  lemma ErrorIff(p: Parser, c: byte, e: Errno)
    requires p.Valid()
    ensures Step(p, c) == Fail(e) <==> Causes(p, c, e)
  {
    if p.state.HeaderFieldStart? || p.state.HeadersAlmostDone? {
      HeaderErrorIff(p, c, e);
    } else if p.state.ChunkSizeStart? || p.state.ChunkSize? {
      SizeErrorIff(p, c, e);
    } else {
      OtherErrorIff(p, c, e);
    }
  }

  lemma HeaderErrorIff(p: Parser, c: byte, e: Errno)
    requires p.Valid() && (p.state.HeaderFieldStart? || p.state.HeadersAlmostDone?)
    ensures Step(p, c) == Fail(e) <==> Causes(p, c, e)
  {
    EndCases(p.(nread := p.nread + 1), c);
    hide EndOfHeaders, Unhex;
  }

  lemma SizeErrorIff(p: Parser, c: byte, e: Errno)
    requires p.Valid() && (p.state.ChunkSizeStart? || p.state.ChunkSize?)
    ensures Step(p, c) == Fail(e) <==> Causes(p, c, e)
  {
    hide EndOfHeaders;
    if p.state.ChunkSize? && Unhex(c) != -1 {
      AddDigitIsExact(p.(nread := p.nread + 1), c);
    }
  }

  lemma OtherErrorIff(p: Parser, c: byte, e: Errno)
    requires p.Valid() && !p.state.HeaderFieldStart? && !p.state.HeadersAlmostDone?
    requires !p.state.ChunkSizeStart? && !p.state.ChunkSize?
    ensures Step(p, c) == Fail(e) <==> Causes(p, c, e)
  {
    hide EndOfHeaders, NewMessage, Unhex;
  }

  /** The start line and header fields belong to the rest of the parser, and nothing else does. */
  lemma HandedOffIff(p: Parser, c: byte)
    requires p.Valid()
    ensures Step(p, c) == HandOff <==>
            !TooLong(p) &&
            (p.state.StartReq? || p.state.StartRes? || (p.state.HeaderFieldStart? && c != CR && c != LF))
  {
    EndCases(p.(nread := p.nread + 1), c);
    hide EndOfHeaders, NewMessage, Unhex;
  }

  /** The call returns early exactly when a message completes on a connection that is being upgraded. */
  lemma UpgradedIff(p: Parser, c: byte)
    requires p.Valid()
    ensures var o := Step(p, c);
            o.Exit? <==> (o.Next? || o.Exit?) && MessageComplete in o.events && o.p.upgrade
  {
    if p.state.HeaderFieldStart? || p.state.HeadersAlmostDone? {
      HeaderUpgradedIff(p, c);
    } else {
      OtherUpgradedIff(p, c);
    }
  }

  lemma HeaderUpgradedIff(p: Parser, c: byte)
    requires p.Valid() && (p.state.HeaderFieldStart? || p.state.HeadersAlmostDone?)
    ensures var o := Step(p, c);
            o.Exit? <==> (o.Next? || o.Exit?) && MessageComplete in o.events && o.p.upgrade
  {
    EndCases(p.(nread := p.nread + 1), c);
    hide EndOfHeaders, Unhex, AddDigit;
  }

  lemma OtherUpgradedIff(p: Parser, c: byte)
    requires p.Valid() && !p.state.HeaderFieldStart? && !p.state.HeadersAlmostDone?
    ensures var o := Step(p, c);
            o.Exit? <==> (o.Next? || o.Exit?) && MessageComplete in o.events && o.p.upgrade
  {
    hide EndOfHeaders, Unhex, ShouldKeepAlive;
  }

  /** Bytes of the header states are counted one by one, and the count starts again only with a
      notification. */
  lemma Counts(p: Parser, c: byte)
    requires p.Valid() && Step(p, c).Next? && Step(p, c).events == []
    ensures Step(p, c).p.nread == p.nread + if p.state.Header() then 1 else 0
  {
    EndCases(p.(nread := p.nread + 1), c);
    hide EndOfHeaders, NewMessage, Unhex;
  }

  /** Over whole buffers: the first byte that causes an error, after a prefix without one, is where the
      call stops, with that error and what was reported before it. */
  lemma StopsIff(p: Parser, front: seq<byte>, c: byte, rest: seq<byte>, e: Errno)
    requires p.Valid() && Run(p, front).status.Ok?
    ensures var q, r := Run(p, front), Run(p, front + [c] + rest);
            Causes(q.p, c, e) <==> r.consumed == |front| && r.status == Failed(e)
    ensures Causes(Run(p, front).p, c, e) ==> Run(p, front + [c] + rest).events == Run(p, front).events
  {
    var q := Run(p, front);
    RunKeepsValid(p, front);
    ErrorIff(q.p, c, e);
    RunSplit(p, front, [c] + rest);
    assert front + [c] + rest == front + ([c] + rest);
    assert ([c] + rest)[0] == c && ([c] + rest)[1..] == rest;
    hide Step, Causes;
    assert q.events + [] == q.events;
  }

  /** A call that starts on a byte: it consumes nothing and fails exactly when that byte causes an error. */
  lemma FailsAtOnceIff(p: Parser, data: seq<byte>, e: Errno)
    requires p.Valid() && data != []
    ensures Causes(p, data[0], e) <==> Run(p, data).consumed == 0 && Run(p, data).status == Failed(e)
    ensures Causes(p, data[0], e) ==> Run(p, data).p == p && Run(p, data).events == []
  {
    ErrorIff(p, data[0], e);
    hide Step, Causes;
  }

  /** A chunk extension of any length: read on exactly up to the limit, and refused there. */
  lemma {:induction false} ExtensionLimit(p: Parser, extension: seq<byte>)
    requires p.Valid() && p.state.ChunkParameters? && forall i :: 0 <= i < |extension| ==> extension[i] != CR
    ensures var r, room := Run(p, extension), MAX_HEADER_SIZE - p.nread;
            && r.events == [] && r.consumed == (if |extension| <= room then |extension| else room)
            && r.status == if |extension| <= room then Ok else Failed(HeaderOverflow)
    decreases |extension|
  {
    if extension != [] && p.nread < MAX_HEADER_SIZE {
      var q := p.(nread := p.nread + 1);
      assert Step(p, extension[0]) == Next(q, []);
      ExtensionLimit(q, extension[1..]);
    }
  }
}
