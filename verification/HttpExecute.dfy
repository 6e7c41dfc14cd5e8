/** http_parser_execute on the body-framing states: whole blocks of body bytes are skipped at once
    and reported late, through a mark into the caller's buffer. The contract ties each call to the
    byte-at-a-time semantics of HttpFraming. */
module HttpExecute {
  import opened Bytes
  import opened HttpErrors
  import opened HttpFraming
  import opened Wrappers

  /** A callback invocation: a notification, or on_body with a slice of the buffer. */
  datatype Callback = Notify(event: Event) | OnBody(bytes: seq<byte>)

  function Bodies(bytes: seq<byte>): (events: seq<Event>)
    ensures |events| == |bytes|
  {
    seq(|bytes|, i requires 0 <= i < |bytes| => Body(bytes[i]))
  }

  /** The callbacks with every on_body spread into its bytes. */
  function Flatten(log: seq<Callback>): seq<Event> {
    if log == [] then []
    else Flatten(log[..|log| - 1]) +
         match log[|log| - 1] case Notify(e) => [e] case OnBody(bytes) => Bodies(bytes)
  }

  lemma FlattenAppend(log: seq<Callback>, c: Callback)
    ensures Flatten(log + [c]) == Flatten(log) + match c case Notify(e) => [e] case OnBody(bytes) => Bodies(bytes)
  {
    assert (log + [c])[..|log|] == log;
  }

  function Notifications(events: seq<Event>): (log: seq<Callback>)
    ensures |log| == |events|
  {
    seq(|events|, i requires 0 <= i < |events| => Notify(events[i]))
  }

  lemma {:induction false} FlattenNotifications(log: seq<Callback>, events: seq<Event>)
    ensures Flatten(log + Notifications(events)) == Flatten(log) + events
  {
    hide Flatten;
    var n := |events|;
    if n == 0 {
      assert log + Notifications(events) == log;
    } else {
      var front := events[..n - 1];
      FlattenNotifications(log, front);
      assert log + Notifications(events) == (log + Notifications(front)) + [Notify(events[n - 1])];
      FlattenAppend(log + Notifications(front), Notify(events[n - 1]));
      assert events == front + [events[n - 1]];
    }
  }

  // ---------------------------------------------------------------- one call

  /** The length of the events without their closing run of body bytes. */
  function LastNotice(events: seq<Event>): (n: nat)
    ensures n <= |events|
    ensures forall i :: n <= i < |events| ==> events[i].Body?
    ensures n > 0 ==> !events[n - 1].Body?
  {
    if events == [] || !events[|events| - 1].Body? then |events|
    else LastNotice(events[..|events| - 1])
  }

  /** The error leaves a chunk's bytes marked but not yet reported: the byte after them is not CR. */
  predicate BreaksChunkEnd(r: Result) {
    r.status.Failed? && r.p.state.ChunkDataAlmostDone?
  }

  /** What one call of http_parser_execute does, as its callers see it. */
  function Call(p: Parser, data: seq<byte>): Result {
    var r := Run(p, data);
    if BreaksChunkEnd(r) then r.(events := r.events[..LastNotice(r.events)]) else r
  }

  /** Successive calls on consecutive pieces of the stream, until one does not return Ok. */
  function Calls(p: Parser, pieces: seq<seq<byte>>): Result
    decreases |pieces|
  {
    if pieces == [] then Result(p, [], 0, Ok)
    else
      var r := Call(p, pieces[0]);
      if r.status.Ok? then Prepend(r.events, r.consumed, Calls(r.p, pieces[1..])) else r
  }

  // ---------------------------------------------------------------- cutting the stream into calls

  /** Split invariance: a stream that one call accepts gives, however it is cut into non-empty
      pieces, the same parser, the same notifications and the same body bytes in the same order. */
  lemma {:induction false} AcceptedCutsAgree(p: Parser, pieces: seq<seq<byte>>)
    requires forall i :: 0 <= i < |pieces| ==> pieces[i] != []
    requires Accepted(Run(p, Concat(pieces)), Concat(pieces))
    ensures Calls(p, pieces) == Call(p, Concat(pieces)) == Run(p, Concat(pieces))
    decreases |pieces|
  {
    hide Step;
    if pieces != [] {
      var rest := pieces[1..];
      RunSplit(p, pieces[0], Concat(rest));
      var r := Run(p, pieces[0]);
      if r.status.Ok? {
        AcceptedCutsAgree(r.p, rest);
      } else if rest != [] {
        NonEmptyConcat(rest);
        assert false;
      }
    }
  }

  lemma NonEmptyConcat(pieces: seq<seq<byte>>)
    requires pieces != [] && pieces[0] != []
    ensures Concat(pieces) != []
  {
  }

  /** The byte after the current chunk's data is in `b`, and is not the CR it should be. */
  predicate BadEndAhead(q: Parser, b: seq<byte>) {
    (q.state.ChunkData? || q.state.ChunkDataAlmostDone?) && q.contentLength < |b| && b[q.contentLength] != CR
  }

  /** The first call ends inside or right after a chunk's data, some of which it reports, and the data is
      followed by a wrong byte. */
  predicate CutLosesLess(p: Parser, a: seq<byte>, b: seq<byte>) {
    var r := Run(p, a);
    r.events != [] && r.events[|r.events| - 1].Body? && BadEndAhead(r.p, b)
  }

  /** Split invariance exactly, rejected streams included: two calls report what one call reports,
      except when the byte after a chunk's data is wrong and the cut fell inside that data. One call
      then never reports the data; two calls report the part before the cut. */
  lemma CutsAgreeIff(p: Parser, a: seq<byte>, b: seq<byte>)
    requires p.Valid() && a != [] && b != [] && Run(p, a).status.Ok?
    ensures Calls(p, [a, b]) == Call(p, a + b) <==> !CutLosesLess(p, a, b)
  {
    hide Run, Step, BadEndAhead;
    var r, s := Run(p, a), Run(Run(p, a).p, b);
    RunSplit(p, a, b);
    TwoCalls(p, a, b);
    LastNoticeOfSum(r.events, s.events);
    RunKeepsValid(p, a);
    BadEndIff(r.p, b);
    if BreaksChunkEnd(s) {
      var n := LastNotice(r.events + s.events);
      if LastNotice(s.events) > 0 || LastNotice(r.events) == |r.events| {
        assert (r.events + s.events)[..n] == r.events + s.events[..LastNotice(s.events)];
      } else {
        assert |(r.events + s.events)[..n]| != |r.events + s.events[..LastNotice(s.events)]|;
      }
    }
  }

  /** A run fails after a chunk's data without having reported anything else. */
  predicate OnlyLosesData(r: Result) {
    BreaksChunkEnd(r) && LastNotice(r.events) == 0
  }

  /** It does so exactly when the wrong byte is ahead. */
  lemma BadEndIff(q: Parser, b: seq<byte>)
    requires q.Valid()
    ensures OnlyLosesData(Run(q, b)) <==> BadEndAhead(q, b)
  {
    hide Run, Step;
    var n := q.contentLength;
    if q.state.ChunkDataAlmostDone? {
      EndIff(q, b);
    } else if !q.state.ChunkData? {
      ElsewhereKeeps(q, b);
    } else if |b| <= n {
      if b != [] {
        ChunkBlock(q, b);
      } else {
        RunEmpty(q);
      }
    } else {
      var q' := q.(contentLength := 0, state := ChunkDataAlmostDone);
      ChunkBlock(q, b[..n]);
      assert b[..n] + b[n..] == b;
      RunSplit(q, b[..n], b[n..]);
      LastNoticeOfSum(Bodies(b[..n]), Run(q', b[n..]).events);
      EndIff(q', b[n..]);
    }
  }

  lemma RunEmpty(q: Parser)
    ensures Run(q, []) == Result(q, [], 0, Ok)
  {
  }

  /** Right after the data. */
  lemma EndIff(q: Parser, b: seq<byte>)
    requires q.state.ChunkDataAlmostDone? && q.contentLength == 0
    ensures OnlyLosesData(Run(q, b)) <==> BadEndAhead(q, b)
  {
    if b == [] {
      RunEmpty(q);
    } else {
      assert [b[0]] + b[1..] == b;
      assert Step(q, b[0]) == if b[0] == CR then Next(q.(state := ChunkDataDone), []) else Fail(Strict);
      hide Run, Step;
      RunOne(q, b[0]);
      RunSplit(q, [b[0]], b[1..]);
      if b[0] == CR {
        ElsewhereKeeps(q.(state := ChunkDataDone), b[1..]);
        assert [] + Run(q.(state := ChunkDataDone), b[1..]).events == Run(q.(state := ChunkDataDone), b[1..]).events;
      }
    }
  }

  /** From any other state a chunk's data is announced before it is read. */
  lemma {:induction false} ElsewhereKeeps(q: Parser, b: seq<byte>)
    requires !q.state.ChunkData? && !q.state.ChunkDataAlmostDone?
    ensures !OnlyLosesData(Run(q, b))
    decreases |b|
  {
    hide Run, Step;
    if b == [] {
      RunEmpty(q);
    } else {
      var o := Step(q, b[0]);
      assert [b[0]] + b[1..] == b;
      RunOne(q, b[0]);
      RunSplit(q, [b[0]], b[1..]);
      if o.Next? {
        DataAnnounced(q, b[0]);
        LastNoticeOfSum(o.events, Run(o.p, b[1..]).events);
        if LastNotice(o.events) == 0 {
          ElsewhereKeeps(o.p, b[1..]);
        }
      }
    }
  }

  lemma DataAnnounced(p: Parser, c: byte)
    requires !p.state.ChunkData? && !p.state.ChunkDataAlmostDone? && Step(p, c).Next?
    ensures var o := Step(p, c);
            LastNotice(o.events) == 0 ==> !o.p.state.ChunkData? && !o.p.state.ChunkDataAlmostDone?
  {
    NoticeBeforeData(p, c, []);
    var o := Step(p, c);
    assert [] + o.events == o.events;
    if p.state.HeaderFieldStart? || p.state.HeadersAlmostDone? {
      HeadersLeadElsewhere(p, c);
    }
  }

  lemma TwoCalls(p: Parser, a: seq<byte>, b: seq<byte>)
    requires Run(p, a).status.Ok?
    ensures var r, s := Run(p, a), Call(Run(p, a).p, b);
            Calls(p, [a, b]) == Prepend(r.events, r.consumed, s)
  {
    hide Run, Step;
    var s := Call(Run(p, a).p, b);
    assert [a, b][1..] == [b] && [b][1..] == [];
    assert Calls(Run(p, a).p, [b]) == s by {
      assert s.events + [] == s.events;
      if s.status.Ok? {
        assert Calls(s.p, []) == Result(s.p, [], 0, Ok);
      }
    }
  }

  lemma {:induction false} LastNoticeOfSum(a: seq<Event>, b: seq<Event>)
    ensures LastNotice(a + b) == if LastNotice(b) > 0 then |a| + LastNotice(b) else LastNotice(a)
  {
    if b == [] {
      assert a + b == a;
    } else {
      var front := b[..|b| - 1];
      assert (a + b)[..|a + b| - 1] == a + front;
      if b[|b| - 1].Body? {
        LastNoticeOfSum(a, front);
      }
    }
  }

  /** A chunk of one byte followed by 'X': cut before the 'X', the byte is reported; in one call it is not. */
  lemma CutInsideBadChunk(p: Parser)
    requires p.state.ChunkData? && p.contentLength == 1
    ensures Calls(p, [[65], [88]]).events == [Body(65)]
    ensures Call(p, [65] + [88]).events == []
  {
    hide Run, Step;
    OneByteChunk(p);
    TwoCalls(p, [65], [88]);
    RunSplit(p, [65], [88]);
    LastNoticeOfSum([], [Body(65)]);
    assert [Body(65)] + [] == [Body(65)] && [] + [Body(65)] == [Body(65)];
  }

  lemma OneByteChunk(p: Parser)
    requires p.state.ChunkData? && p.contentLength == 1
    ensures var q := p.(contentLength := 0, state := ChunkDataAlmostDone);
            Run(p, [65]) == Result(q, [Body(65)], 1, Ok) && Run(q, [88]) == Result(q, [], 0, Failed(Strict))
  {
    hide Run;
    RunOne(p, 65);
    RunOne(p.(contentLength := 0, state := ChunkDataAlmostDone), 88);
  }

  // ---------------------------------------------------------------- blocks of body bytes

  lemma {:induction false} ChunkBlock(p: Parser, block: seq<byte>)
    requires p.state.ChunkData? && 0 < |block| <= p.contentLength
    ensures Run(p, block) ==
            Result(p.(contentLength := p.contentLength - |block|,
                      state := if |block| == p.contentLength then ChunkDataAlmostDone else ChunkData),
                   Bodies(block), |block|, Ok)
    decreases |block|
  {
    assert Step(p, block[0]) == TakeBody(p, block[0], ChunkDataAlmostDone);
    if |block| == 1 {
      assert block[1..] == [];
      assert Bodies(block) == [Body(block[0])];
    } else {
      ChunkBlock(Step(p, block[0]).p, block[1..]);
      assert Bodies(block) == [Body(block[0])] + Bodies(block[1..]);
    }
  }

  lemma {:induction false} IdentityBlock(p: Parser, block: seq<byte>)
    requires p.state.BodyIdentity? && |block| < p.contentLength
    ensures Run(p, block) == Result(p.(contentLength := p.contentLength - |block|), Bodies(block), |block|, Ok)
    decreases |block|
  {
    if |block| == 0 {
      assert Bodies(block) == [];
    } else {
      assert Step(p, block[0]) == TakeBody(p, block[0], BodyIdentity);
      IdentityBlock(Step(p, block[0]).p, block[1..]);
      assert Bodies(block) == [Body(block[0])] + Bodies(block[1..]);
    }
  }

  /** The last block of a counted body: every byte is delivered, then the message completes. */
  lemma {:induction false} IdentityEnd(p: Parser, block: seq<byte>)
    requires p.state.BodyIdentity? && 0 < |block| == p.contentLength
    ensures Run(p, block) ==
            Result(NewMessage(p.(contentLength := 0)), Bodies(block) + [MessageComplete], |block|,
                   if p.upgrade then Upgraded else Ok)
  {
    hide Run, Step, NewMessage;
    var n := |block| - 1;
    var q := p.(contentLength := 1);
    IdentityBlock(p, block[..n]);
    RunSplit(p, block[..n], block[n..]);
    assert block[..n] + block[n..] == block;
    assert block[n..] == [block[n]];
    LastIdentityByte(q, block[n]);
    assert Bodies(block) == Bodies(block[..n]) + [Body(block[n])];
    assert Bodies(block[..n]) + [Body(block[n]), MessageComplete] == Bodies(block) + [MessageComplete];
  }

  lemma LastIdentityByte(p: Parser, c: byte)
    requires p.state.BodyIdentity? && p.contentLength == 1
    ensures Run(p, [c]) == Result(NewMessage(p.(contentLength := 0)), [Body(c), MessageComplete], 1,
                                  if p.upgrade then Upgraded else Ok)
  {
    assert Step(p, c) == MessageDone(p.(contentLength := 0), [Body(c)]);
    hide Run, Step;
    RunOne(p, c);
    assert [Body(c)] + [MessageComplete] == [Body(c), MessageComplete];
  }

  lemma {:induction false} EofBlock(p: Parser, block: seq<byte>)
    requires p.state.BodyIdentityEof?
    ensures Run(p, block) == Result(p, Bodies(block), |block|, Ok)
  {
    if block == [] {
      assert Bodies(block) == [];
    } else {
      assert Step(p, block[0]) == Next(p, [Body(block[0])]);
      EofBlock(p, block[1..]);
      assert Bodies(block) == [Body(block[0])] + Bodies(block[1..]);
    }
  }

  // ---------------------------------------------------------------- the call itself

  datatype Mark = NoMark | At(pos: nat)

  function Pending(data: seq<byte>, mark: Mark, i: nat): seq<Event>
    requires i <= |data| && (mark.At? ==> mark.pos <= i)
  {
    if mark.NoMark? then [] else Bodies(data[mark.pos..i])
  }

  /** A call in progress: the parser and the flattened log it began with, and its buffer. */
  datatype Progress = Progress(start: Parser, before: seq<Event>, data: seq<byte>)

  /** The parser is `p` after the first `i` bytes, and the callbacks so far amount to `flat`; body
      bytes from the mark on are still to be reported. */
  ghost predicate Reached(run: Progress, i: nat, p: Parser, flat: seq<Event>, mark: Mark) {
    && i <= |run.data| && (mark.At? ==> mark.pos < i)
    && var r := Run(run.start, run.data[..i]);
    && r.status.Ok? && r.p == p && p.Valid()
    && run.before + r.events == flat + Pending(run.data, mark, i)
    && (p.state.ChunkData? || p.state.ChunkDataAlmostDone? ==>
          LastNotice(r.events) == if mark.At? then |r.events| - (i - mark.pos) else |r.events|)
  }

  /** The call returns after `n` bytes with the given status. */
  ghost predicate Finished(run: Progress, n: nat, status: Status, p: Parser, flat: seq<Event>) {
    var r := Call(run.start, run.data);
    && n == r.consumed && status == r.status && p == r.p
    && flat == run.before + r.events
  }

  function OneByte(p: Parser, o: Outcome): Result {
    match o
    case Next(q, events) => Result(q, events, 1, Ok)
    case Exit(q, events) => Result(q, events, 1, Upgraded)
    case Fail(e) => Result(p, [], 0, Failed(e))
    case HandOff => Result(p, [], 0, HandedOff)
  }

  lemma RunOne(p: Parser, c: byte)
    ensures Run(p, [c]) == OneByte(p, Step(p, c))
  {
    hide Step;
  }

  /** Resuming after the first `i` bytes with the next `j - i`. */
  lemma RunOn(run: Progress, i: nat, j: nat)
    requires i <= j <= |run.data| && Run(run.start, run.data[..i]).status.Ok?
    ensures var r := Run(run.start, run.data[..i]);
            Run(run.start, run.data[..j]) == Prepend(r.events, i, Run(r.p, run.data[i..j]))
  {
    RunSplit(run.start, run.data[..i], run.data[i..j]);
    assert run.data[..i] + run.data[i..j] == run.data[..j];
  }

  /** A prefix that stops early stops the whole buffer. */
  lemma Stop(run: Progress, j: nat)
    requires j <= |run.data| && !Run(run.start, run.data[..j]).status.Ok?
    ensures Run(run.start, run.data) == Run(run.start, run.data[..j])
  {
    RunSplit(run.start, run.data[..j], run.data[j..]);
    assert run.data[..j] + run.data[j..] == run.data;
  }

  lemma {:induction false} TrailingBodies(done: seq<Event>, block: seq<byte>)
    requires LastNotice(done) == |done|
    ensures LastNotice(done + Bodies(block)) == |done|
  {
    if block == [] {
      assert done + Bodies(block) == done;
    } else {
      var front := block[..|block| - 1];
      TrailingBodies(done, front);
      assert (done + Bodies(block))[..|done| + |front|] == done + Bodies(front);
    }
  }

  /** Marking a block leaves the report of everything before it unchanged. */
  lemma Report(run: Progress, i: nat, j: nat, done: seq<Event>, flat: seq<Event>)
    requires i <= j <= |run.data| && run.before + done == flat + []
    ensures run.before + (done + Bodies(run.data[i..j])) == flat + Bodies(run.data[i..j])
  {
    assert run.before + (done + Bodies(run.data[i..j])) == (run.before + done) + Bodies(run.data[i..j]);
  }

  lemma AfterChunkBlock(run: Progress, i: nat, j: nat, p: Parser, flat: seq<Event>)
    requires Reached(run, i, p, flat, NoMark) && i < j <= |run.data|
    requires p.state.ChunkData? && j - i <= p.contentLength
    ensures Reached(run, j, p.(contentLength := p.contentLength - (j - i),
                               state := if j - i == p.contentLength then ChunkDataAlmostDone else ChunkData),
                    flat, At(i))
  {
    var done := Run(run.start, run.data[..i]).events;
    RunOn(run, i, j);
    ChunkBlock(p, run.data[i..j]);
    TrailingBodies(done, run.data[i..j]);
    Report(run, i, j, done, flat);
  }

  lemma AfterIdentityBlock(run: Progress, i: nat, j: nat, p: Parser, flat: seq<Event>)
    requires Reached(run, i, p, flat, NoMark) && i < j <= |run.data|
    requires p.state.BodyIdentity? && j - i < p.contentLength
    ensures Reached(run, j, p.(contentLength := p.contentLength - (j - i)), flat, At(i))
  {
    RunOn(run, i, j);
    IdentityBlock(p, run.data[i..j]);
    Report(run, i, j, Run(run.start, run.data[..i]).events, flat);
  }

  lemma AfterIdentityEnd(run: Progress, i: nat, j: nat, p: Parser, flat: seq<Event>)
    requires Reached(run, i, p, flat, NoMark) && i < j <= |run.data|
    requires p.state.BodyIdentity? && j - i == p.contentLength
    ensures var q := NewMessage(p.(contentLength := 0));
            var flat' := flat + Bodies(run.data[i..j]) + [MessageComplete];
            if q.upgrade then Finished(run, j, Upgraded, q, flat') else Reached(run, j, q, flat', NoMark)
  {
    var q := NewMessage(p.(contentLength := 0));
    RunOn(run, i, j);
    IdentityEnd(p, run.data[i..j]);
    var done := Run(run.start, run.data[..i]).events;
    Report(run, i, j, done, flat);
    assert run.before + (done + (Bodies(run.data[i..j]) + [MessageComplete])) ==
           flat + Bodies(run.data[i..j]) + [MessageComplete];
    NewMessageValid(p.(contentLength := 0));
    if q.upgrade {
      Stop(run, j);
    }
  }

  lemma AfterEofBlock(run: Progress, i: nat, p: Parser, flat: seq<Event>)
    requires Reached(run, i, p, flat, NoMark) && i < |run.data| && p.state.BodyIdentityEof?
    ensures Reached(run, |run.data|, p, flat, At(i))
  {
    RunOn(run, i, |run.data|);
    EofBlock(p, run.data[i..|run.data|]);
    Report(run, i, |run.data|, Run(run.start, run.data[..i]).events, flat);
  }

  /** A chunk's data ends as it should: the pending bytes are reported. */
  lemma AfterChunkEnd(run: Progress, i: nat, p: Parser, flat: seq<Event>, mark: Mark)
    requires Reached(run, i, p, flat, mark) && i < |run.data| && p.state.ChunkDataAlmostDone? && run.data[i] == CR
    ensures Reached(run, i + 1, p.(state := ChunkDataDone), flat + Pending(run.data, mark, i), NoMark)
  {
    hide Run;
    var r := Run(run.start, run.data[..i]);
    RunOn(run, i, i + 1);
    RunOne(p, run.data[i]);
    assert run.data[i..i + 1] == [run.data[i]];
    assert r.events + [] == r.events;
    assert flat + Pending(run.data, mark, i) + [] == flat + Pending(run.data, mark, i);
  }

  /** A chunk's data is followed by a wrong byte: the pending bytes are never reported. */
  lemma BadChunkEnd(run: Progress, i: nat, p: Parser, flat: seq<Event>, mark: Mark)
    requires Reached(run, i, p, flat, mark) && i < |run.data| && p.state.ChunkDataAlmostDone? && run.data[i] != CR
    ensures Finished(run, i, Failed(Strict), p, flat)
  {
    hide Run;
    var r := Run(run.start, run.data[..i]);
    RunOn(run, i, i + 1);
    RunOne(p, run.data[i]);
    assert run.data[i..i + 1] == [run.data[i]];
    Stop(run, i + 1);
    assert r.events + [] == r.events;
    DropPending(run.before, r.events, flat, Pending(run.data, mark, i));
  }

  lemma AtEnd(run: Progress, p: Parser, flat: seq<Event>, mark: Mark)
    requires Reached(run, |run.data|, p, flat, mark)
    ensures Finished(run, |run.data|, Ok, p, flat + Pending(run.data, mark, |run.data|))
  {
    assert run.data[..|run.data|] == run.data;
  }

  ghost predicate ByteTaken(run: Progress, i: nat, p: Parser, flat: seq<Event>, o: Outcome) {
    match o
    case Next(q, events) => Reached(run, i + 1, q, flat + events, NoMark)
    case Exit(q, events) => Finished(run, i + 1, Upgraded, q, flat + events)
    case Fail(e) => Finished(run, i, Failed(e), p, flat)
    case HandOff => Finished(run, i, HandedOff, p, flat)
  }

  /** Any other state takes one byte through the automaton. */
  lemma AfterByte(run: Progress, i: nat, p: Parser, flat: seq<Event>)
    requires Reached(run, i, p, flat, NoMark) && i < |run.data|
    requires !p.state.ChunkData? && !p.state.ChunkDataAlmostDone?
    ensures ByteTaken(run, i, p, flat, Step(p, run.data[i]))
  {
    hide Run, Step;
    var r := Run(run.start, run.data[..i]);
    var o := Step(p, run.data[i]);
    StepKeepsValid(p, run.data[i]);
    RunOn(run, i, i + 1);
    RunOne(p, run.data[i]);
    assert run.data[i..i + 1] == [run.data[i]];
    if o.Next? || o.Exit? {
      assert run.before + (r.events + o.events) == (run.before + r.events) + o.events ==
             (flat + []) + o.events == flat + o.events;
    }
    if !o.Next? {
      Stop(run, i + 1);
      assert r.events + [] == r.events && flat + [] == flat;
    } else {
      NoticeBeforeData(p, run.data[i], r.events);
    }
  }

  lemma NoticeBeforeData(p: Parser, c: byte, events: seq<Event>)
    requires !p.state.ChunkData? && !p.state.ChunkDataAlmostDone? && Step(p, c).Next?
    ensures var o := Step(p, c);
            && !o.p.state.ChunkDataAlmostDone?
            && (o.p.state.ChunkData? ==> LastNotice(events + o.events) == |events + o.events|)
  {
    if p.state.HeaderFieldStart? || p.state.HeadersAlmostDone? {
      HeadersLeadElsewhere(p, c);
    }
  }

  lemma HeadersLeadElsewhere(p: Parser, c: byte)
    requires (p.state.HeaderFieldStart? || p.state.HeadersAlmostDone?) && Step(p, c).Next?
    ensures !Step(p, c).p.state.ChunkData? && !Step(p, c).p.state.ChunkDataAlmostDone?
  {
    var q := p.(nread := p.nread + 1);
    if p.state.HeadersAlmostDone? || c == LF {
      assert Step(p, c) == EndOfHeaders(q, c);
    }
  }

  lemma DropPending(before: seq<Event>, events: seq<Event>, flat: seq<Event>, pending: seq<Event>)
    requires before + events == flat + pending && |pending| <= |events|
    ensures before + events[..|events| - |pending|] == flat
  {
    var n := |before| + |events| - |pending|;
    assert (before + events)[..n] == before + events[..|events| - |pending|];
    assert (flat + pending)[..n] == flat;
  }

  class Connection {
    var p: Parser
    var errno: Option<Errno>
    var log: seq<Callback>

    constructor (start: Parser)
      ensures p == start && errno == None && log == []
    {
      p, errno, log := start, None, [];
    }

    /** Feed the next bytes of the stream. `status` says why the call returned; HandedOff stands for
        entering start-line or header-field code at byte `n`. */
    method Execute(data: seq<byte>) returns (n: nat, status: Status)
      requires p.Valid()
      modifies this
      ensures p.Valid()
      ensures old(errno).Some? ==> n == 0 && p == old(p) && log == old(log) && errno == old(errno)
      ensures old(errno).None? && data != [] ==>
                var r := Call(old(p), data);
                && n == r.consumed && status == r.status && p == r.p
                && errno == (if r.status.Failed? then Some(r.status.error) else None)
                && Flatten(log) == Flatten(old(log)) + r.events
      ensures old(errno).None? && data != [] ==>
                forall e :: Causes(old(p), data[0], e) <==> n == 0 && errno == Some(e)
      ensures n == 0 ==> old(p) == p
      ensures old(errno).None? && data == [] ==>
                && p == old(p)
                && (p.state.BodyIdentityEof? ==> n == 0 && errno == None && log == old(log) + [Notify(MessageComplete)])
                && (p.state.Dead? || p.state.StartReq? || p.state.StartRes? ==>
                      n == 0 && errno == None && log == old(log))
                && (!p.state.BodyIdentityEof? && !p.state.Dead? && !p.state.StartReq? && !p.state.StartRes? ==>
                      n == 1 && errno == Some(InvalidEofState) && log == old(log))
    {
      if errno.Some? {
        return 0, Failed(errno.value);
      }
      if data == [] {
        n, status := AtEof();
        return;
      }
      ghost var run := Progress(p, Flatten(log), data);
      assert data[..0] == [];
      n, status := Scan(run, data);
      RunKeepsValid(run.start, data);
      forall e ensures Causes(run.start, data[0], e) <==> n == 0 && errno == Some(e) {
        FailsAtOnceIff(run.start, data, e);
      }
      hide Run;
    }

    /** The byte loop, then the callback for a mark left over when the buffer runs out. */
    method Scan(ghost run: Progress, data: seq<byte>) returns (n: nat, status: Status)
      requires run.data == data && errno.None? && Reached(run, 0, p, Flatten(log), NoMark)
      modifies this
      ensures Finished(run, n, status, p, Flatten(log))
      ensures errno == if status.Failed? then Some(status.error) else None
    {
      var i, mark := 0, NoMark;
      while i < |data|
        invariant i <= |data| && errno.None?
        invariant Reached(run, i, p, Flatten(log), mark)
        invariant i < |data| && mark.At? ==> p.state.ChunkDataAlmostDone?
      {
        status := Ok;
        match p.state {
          case ChunkData => i, mark := SkipChunkData(run, data, i);
          case BodyIdentity => i, mark, status := SkipIdentity(run, data, i);
          case BodyIdentityEof =>
            AfterEofBlock(run, i, p, Flatten(log));
            i, mark := |data|, At(i);
          case ChunkDataAlmostDone => i, mark, status := EndChunkData(run, data, i, mark);
          case _ => i, status := Byte(run, data, i);
        }
        if !status.Ok? {
          return i, status;
        }
      }
      AtEnd(run, p, Flatten(log), mark);
      if mark.At? {
        FlattenAppend(log, OnBody(data[mark.pos..i]));
        log := log + [OnBody(data[mark.pos..i])];
      }
      return |data|, Ok;
    }

    method SkipChunkData(ghost run: Progress, data: seq<byte>, i: nat) returns (j: nat, mark: Mark)
      requires run.data == data && i < |data| && p.state.ChunkData? && errno.None?
      requires Reached(run, i, p, Flatten(log), NoMark)
      modifies this`p
      ensures i < j <= |data| && mark == At(i) && Reached(run, j, p, Flatten(log), mark)
      ensures p.state.ChunkDataAlmostDone? || j == |data|
    {
      var toRead := if p.contentLength < |data| - i then p.contentLength else |data| - i;
      j, mark := i + toRead, At(i);
      AfterChunkBlock(run, i, j, p, Flatten(log));
      p := p.(contentLength := p.contentLength - toRead);
      if p.contentLength == 0 {
        p := p.(state := ChunkDataAlmostDone);
      }
    }

    method SkipIdentity(ghost run: Progress, data: seq<byte>, i: nat) returns (j: nat, mark: Mark, status: Status)
      requires run.data == data && i < |data| && p.state.BodyIdentity? && errno.None?
      requires Reached(run, i, p, Flatten(log), NoMark)
      modifies this`p, this`log
      ensures i < j <= |data| && (mark.At? ==> j == |data|)
      ensures status.Ok? ==> Reached(run, j, p, Flatten(log), mark)
      ensures !status.Ok? ==> status.Upgraded? && Finished(run, j, status, p, Flatten(log))
    {
      var toRead := if p.contentLength < |data| - i then p.contentLength else |data| - i;
      j, mark, status := i + toRead, At(i), Ok;
      if toRead < p.contentLength {
        AfterIdentityBlock(run, i, j, p, Flatten(log));
        p := p.(contentLength := p.contentLength - toRead);
      } else {
        AfterIdentityEnd(run, i, j, p, Flatten(log));
        p := NewMessage(p.(contentLength := 0));
        FlattenAppend(log, OnBody(data[i..j]));
        FlattenAppend(log + [OnBody(data[i..j])], Notify(MessageComplete));
        log, mark := log + [OnBody(data[i..j])] + [Notify(MessageComplete)], NoMark;
        if p.upgrade {
          status := Upgraded;
        }
      }
    }

    method EndChunkData(ghost run: Progress, data: seq<byte>, i: nat, mark: Mark)
        returns (j: nat, mark': Mark, status: Status)
      requires run.data == data && i < |data| && p.state.ChunkDataAlmostDone? && errno.None?
      requires Reached(run, i, p, Flatten(log), mark)
      modifies this
      ensures mark'.NoMark?
      ensures status.Ok? ==> j == i + 1 && errno.None? && Reached(run, j, p, Flatten(log), mark')
      ensures !status.Ok? ==> status.Failed? && errno == Some(status.error) && Finished(run, j, status, p, Flatten(log))
    {
      hide Run;
      j, mark' := i, NoMark;
      if data[i] != CR {
        BadChunkEnd(run, i, p, Flatten(log), mark);
        errno, status := Some(Strict), Failed(Strict);
      } else {
        AfterChunkEnd(run, i, p, Flatten(log), mark);
        p := p.(state := ChunkDataDone);
        if mark.At? {
          FlattenAppend(log, OnBody(data[mark.pos..i]));
          log := log + [OnBody(data[mark.pos..i])];
        }
        j, status := i + 1, Ok;
      }
    }

    method Byte(ghost run: Progress, data: seq<byte>, i: nat) returns (j: nat, status: Status)
      requires run.data == data && i < |data| && Reached(run, i, p, Flatten(log), NoMark) && errno.None?
      requires !p.state.ChunkData? && !p.state.ChunkDataAlmostDone?
      requires !p.state.BodyIdentity? && !p.state.BodyIdentityEof?
      modifies this
      ensures status.Ok? ==> j == i + 1 && errno.None? && Reached(run, j, p, Flatten(log), NoMark)
      ensures !status.Ok? ==> Finished(run, j, status, p, Flatten(log))
      ensures !status.Ok? ==> errno == if status.Failed? then Some(status.error) else None
    {
      AfterByte(run, i, p, Flatten(log));
      match Step(p, data[i])
      case Next(q, events) =>
        FlattenNotifications(log, events);
        p, log := q, log + Notifications(events);
        j, status := i + 1, Ok;
      case Exit(q, events) =>
        FlattenNotifications(log, events);
        p, log := q, log + Notifications(events);
        j, status := i + 1, Upgraded;
      case Fail(e) =>
        errno := Some(e);
        j, status := i, Failed(e);
      case HandOff =>
        j, status := i, HandedOff;
    }

    method AtEof() returns (n: nat, status: Status)
      requires errno.None?
      modifies this
      ensures p == old(p)
      ensures p.state.BodyIdentityEof? ==> n == 0 && errno == None && log == old(log) + [Notify(MessageComplete)]
      ensures p.state.Dead? || p.state.StartReq? || p.state.StartRes? ==> n == 0 && errno == None && log == old(log)
      ensures !p.state.BodyIdentityEof? && !p.state.Dead? && !p.state.StartReq? && !p.state.StartRes? ==>
                n == 1 && errno == Some(InvalidEofState) && log == old(log)
    {
      match p.state
      case BodyIdentityEof =>
        log := log + [Notify(MessageComplete)];
        n, status := 0, Ok;
      case Dead => n, status := 0, Ok;
      case StartReq => n, status := 0, Ok;
      case StartRes => n, status := 0, Ok;
      case _ =>
        errno := Some(InvalidEofState);
        n, status := 1, Failed(InvalidEofState);
    }
  }
}
