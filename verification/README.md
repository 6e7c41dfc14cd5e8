# Verified models of qumios components

Dafny models of the parts of the qumios C components that carry real logic, with proofs about them.
`dafny verify dfyconfig.toml` checks the whole project.

| file | what it models |
|---|---|
| `HttpFraming.dfy` | the body-framing states of the HTTP/1.x parser (strict mode), one byte at a time |
| `HttpErrors.dfy` | when those states refuse a byte, and with which error |
| `HttpExecute.dfy` | `http_parser_execute` on those states: blocks of body bytes skipped at once, reported late through a mark |
| `ChunkedCoding.dfy` | the chunked coding of section 4.1 of RFC 7230 that those states decode |
| `MessageLength.dfy` | how the end of a body is found after the headers, and whether the connection is kept |
| `HttpMethods.dfy` | the request-method recogniser, which changes its guess in mid-word |
| `Labelling.dfy`, `HttpUrl.dfy` | the URL splitter: two byte automata and the loops that turn their labels into slices |
| `UrlChars.dfy` | its character classes against the bit table and the character lists |
| `UrlPartition.dfy`, `UrlRoundTrip.dfy`, `UrlConverse.dfy` | what the splitter's slices are, and that printing and parsing are inverse in both directions |
| `ThreadPool.dfy` | the worker pool as a step system: lock, ring, semaphore tokens, shutdown |
| `VarRing.dfy`, `EventBus.dfy` | the length-prefixed ring buffer and the two-ring event bus that dispatches from it |
| `TopicMatcher.dfy` | the MQTT topic-filter loop and the filter check |
| `TopicCheck.dfy` | what that check, which walks over tokens, means for the bytes of a topic |
| `MqttConnection.dfy` | keep-alive, loss detection and reconnection with back-off |
| `PubWaitList.dfy` | the list of published messages waiting for their acknowledgement |
| `SoftDimming.dfy` | the multi-channel dimming controller and its integer square root |
| `StepDelta.dfy` | step-delta interpolation in Q14 with carried fractions |
| `Base64Enc.dfy` | the streaming base64 encoder |
| `Arithmetic.dfy`, `Bytes.dfy`, `Wrappers.dfy` | shared arithmetic, byte classes, `Option` |

State that the C code updates in place is a class whose methods are proved against functions over
values; the theorems about runs, round trips and conservation are lemmas about those functions.
What the network, the clock, the random generator, callbacks and event handlers do is a parameter, so
every theorem holds for all of it.

## Where the code does not do what one would expect

Each of these is proved as an exact condition, named first, with a lemma at a concrete input, named after
it.

- The table `unhex` has 256 entries and writes out 128, so a byte of 128 or more in a chunk size counts
  as the digit 0: `ChunkedCoding.RfcSizesIff`, `ChunkedCoding.HighByteCompletes`.
- When the byte after a chunk's data is wrong, a single call never reports that data, while a call cut
  inside it reports the part before the cut: `HttpExecute.CutsAgreeIff`, `HttpExecute.CutInsideBadChunk`.
- A 1xx, 204 or 304 response that carries a length or the chunked coding is read with a body, against
  section 4.4 of RFC 2616, which the code cites: `MessageLength.ChosenIff`, `MessageLength.BodyOfNoContent`.
- HTTP versions 2.0, 3.0 and so on are treated like 1.0 for keep-alive: `MessageLength.KeepAliveIff`,
  `MessageLength.VersionTwoCloses`.
- A fragment directly after the server part of a URL is rejected: `UrlRoundTrip.RoundTrip`,
  `UrlConverse.BareFragmentIsRefused`. A CONNECT target may carry an empty query after
  its port: `UrlConverse.OnlyPrintingsParse`, `UrlConverse.ConnectWithQuestionMark`.
- A worker that has not yet waited once can take a task without its token, and the ring then
  underflows in some interleaving: `ThreadPool.UnderflowIff`, `ThreadPool.UnderflowRun` (the run, from any
  such pool). A graceful destroy of a pool whose count is negative never ends: `ThreadPool.ShutdownIff`,
  `ThreadPool.GracefulHangs`. `threadpool_add` returns success for a task it drops because the pool is
  shutting down: `ThreadPool.ThreadPool.AddLocked` (reply `Dropped`), `ThreadPool.ShutdownDrops`.
- The event bus cuts an event size to 8 bits: `EventBus.RecordIsWholeIff`, `EventBus.LongEventIsCut`.
- A pop into a buffer shorter than the record leaves the ring without framing: `VarRing.CircBuf.Pop`,
  `VarRing.ShortPop` (every such pop).
- The matcher finds no match for `a/#` against `a`, nor for a wildcard against an empty level:
  `TopicMatcher.MatchesIffMqtt`, `TopicMatcher.ParentIsMissed`. The filter check lets `#/a` pass:
  `TopicMatcher.HashLastIff`, `TopicMatcher.HashFirstPasses`. It does not look at the last byte of a
  128-byte filter: `TopicMatcher.PassingIsWholeIff`, `TopicMatcher.LongFilterPasses`.
- The count of unanswered pings is not reset when a connection is lost by an error, so a new connection can
  be dropped on its first ping: `MqttConnection.LossResetsIff`, `MqttConnection.NewConnectionInheritsProbes`.
- The limit for a publish is twice the request timeout only while that fits 32 bits: `PubWaitList.LimitIff`
  (every timeout from 2^31 on fails).
- The curve value of a dimming step is cut to 32 bits, so a bright leader can ask for a short step:
  `SoftDimming.StepIff`, `SoftDimming.WrappedCurve`.
- `_int_sqrt` divides by zero for 2^32 - 1 and for nothing else: `SoftDimming.IntSqrt`.
- A fade of 2^32 - 1 timer ticks in one step is not immediate after a set, although the code resets its
  counter for that: `SoftDimming.SetArrives`, `SoftDimming.LongestFadeWaits`. The interval is the quotient
  rounded up, as its comment says, unless the sum before the division wraps: `SoftDimming.RoundsUpIff`,
  `SoftDimming.LongFadeHurries`. The header says that `qm_softdim_run` returns true while channels are
  moving; the code returns false on every call that only counts: `SoftDimming.Handle.Run`,
  `SoftDimming.CountingCall`.
- A falling step-delta fade loses a unit of the exact sum for each fraction and can come out one below
  its end, because `>>` rounds down and `%` rounds towards zero: `StepDelta.ConservedIff`,
  `StepDelta.FallingRun`, `StepDelta.FallingOvershoots`. The comment in the code asks for fewer than 260000
  steps; the exact limit is 262144: `StepDelta.ProgressExactIff`, `StepDelta.OneStepTooMany`.
- Where plain `char` is signed, a byte of 128 or more overwrites bits of the byte before it in the
  base64 register: `Base64Enc.WrittenIff`, `Base64Enc.HighByteSpoils`.

## Model

| member | source | states |
|---|---|---|
| `HttpFraming.Unhex` | components/http_parser/http_parser.c:201-211 | a byte reads as a digit exactly when it is a hexadecimal digit or at least 128, and then, from 128 on, as 0 |
| `HttpFraming.StepKeepsValid` | components/http_parser/http_parser.c:1776-2053 | every byte keeps what the assert() calls of each state demand; chunk sizes never wrap and never reach the no-length mark |
| `HttpFraming.AddDigitIsExact` | components/http_parser/http_parser.c:1951-1985 | a digit is accepted iff the exact value stays within 2^64 - 17, and then the 64-bit value is the exact one |
| `HttpFraming.RunKeepsValid` | components/http_parser/http_parser.c:1776-2053 | the same for every buffer |
| `HttpFraming.RunSplit` | components/http_parser/http_parser.c:682-2053 | a buffer cut in two: the second part resumes where the first stopped, or the first stop is final |
| `HttpFraming.PiecesAreOneRun` | components/http_parser/http_parser.c:682-2053 | any cutting of the stream gives one run's parser, events and status |
| `HttpErrors.ErrorIff` | components/http_parser/http_parser.c:1776-2053 | in every state, a byte is refused with an error exactly when it causes that error: too long a header, a wrong byte where only one is allowed, a byte on a closed connection, both lengths together, no size digit, too large a size |
| `HttpErrors.StopsIff` | components/http_parser/http_parser.c:682-2092 | over whole buffers: the first byte that causes an error is where the call stops, with that error and what was reported before it |
| `HttpErrors.FailsAtOnceIff` | components/http_parser/http_parser.c:682-2092 | a call fails with nothing consumed and nothing reported exactly when its first byte causes the error |
| `HttpErrors.HandedOffIff` | components/http_parser/http_parser.c:749-1266 | only start lines and header fields belong to the rest of the parser |
| `HttpErrors.UpgradedIff` | components/http_parser/http_parser.c:1776-1933 | a call returns early exactly when a message completes on a connection that is being upgraded |
| `HttpErrors.Counts` | components/http_parser/http_parser.c:685-700 | header bytes are counted one by one, and the count restarts only with a notification |
| `HttpErrors.ExtensionLimit` | components/http_parser/http_parser.c:1988-1997 | a chunk extension is read exactly up to the header limit and refused there |
| `HttpExecute.AcceptedCutsAgree` | components/http_parser/http_parser.c:1883-2084 | split invariance: an accepted stream gives, however cut, the same parser, notifications and body bytes as one call |
| `HttpExecute.CutsAgreeIff` | components/http_parser/http_parser.c:2039-2092 | for rejected streams too: two calls report what one reports iff the first does not end with reported data of a chunk whose end, in the second buffer, is wrong; the condition looks at the parser after the first call and one byte of the second buffer |
| `HttpExecute.BadEndIff` | components/http_parser/http_parser.c:2039-2045 | that one byte decides: a call loses marked data and does nothing else iff the byte after the chunk's data is in its buffer and is not CR |
| `HttpExecute.CutInsideBadChunk` | components/http_parser/http_parser.c:2039-2045 | a concrete chunk reported by two calls and not by one |
| `HttpExecute.ChunkBlock` | components/http_parser/http_parser.c:2016-2037 | skipping a block of chunk data equals taking its bytes one by one |
| `HttpExecute.IdentityBlock` | components/http_parser/http_parser.c:1883-1917 | the same inside a counted body |
| `HttpExecute.IdentityEnd` | components/http_parser/http_parser.c:1883-1933 | the last block of a counted body: all its bytes, then message-complete |
| `HttpExecute.EofBlock` | components/http_parser/http_parser.c:1920-1924 | a body that ends with the connection: every byte is delivered |
| `HttpExecute.Connection.constructor` | components/http_parser/http_parser.c:2146-2154 | a parser without error and with nothing reported |
| `HttpExecute.Connection.Execute` | components/http_parser/http_parser.c:614-2092 | one call does what the byte-wise semantics says: bytes consumed, errno, parser, and callbacks whose bodies concatenate to its events; it fails with nothing consumed exactly when its first byte causes that error; an empty buffer is end of file; a parser in error does nothing |
| `HttpExecute.Connection.Scan` | components/http_parser/http_parser.c:682-2084 | the byte loop with its body mark, and the callback for a mark left over at the end |
| `HttpExecute.Connection.SkipChunkData` | components/http_parser/http_parser.c:2016-2037 | reads the smaller of what the chunk and the buffer hold, leaving a mark |
| `HttpExecute.Connection.SkipIdentity` | components/http_parser/http_parser.c:1883-1917 | the same for a counted body, which completes on its last byte |
| `HttpExecute.Connection.EndChunkData` | components/http_parser/http_parser.c:2039-2045 | reports the marked data iff CR follows, and otherwise never |
| `HttpExecute.Connection.Byte` | components/http_parser/http_parser.c:685-700 | any other state takes one byte |
| `HttpExecute.Connection.AtEof` | components/http_parser/http_parser.c:635-655 | end of file completes a body of unknown length, is quiet between messages, and is an error elsewhere |
| `ChunkedCoding.Digits` | components/http_parser/http_parser.c:1935-1985 | the digits of a size line accumulate to their exact value, accepted iff it is at most 2^64 - 17 |
| `ChunkedCoding.SizeLineAccepted` | components/http_parser/http_parser.c:1935-2014 | a whole size line with extension is accepted iff its value is at most 2^64 - 17, and then announced exactly |
| `ChunkedCoding.OneChunk` | components/http_parser/http_parser.c:1935-2053 | an encoded chunk is delivered byte for byte and the parser is back at a size line |
| `ChunkedCoding.LastChunk` | components/http_parser/http_parser.c:1776-1785 | the last chunk with an empty trailer completes the message once |
| `ChunkedCoding.RoundTrip` | components/http_parser/http_parser.c:1926-2053 | every list of non-empty chunks, in any spelling of its sizes, is delivered chunk by chunk and followed by one message-complete |
| `ChunkedCoding.OnlyEncodingsComplete` | components/http_parser/http_parser.c:1926-2053 | the converse: whatever completes a chunked message begins with an encoding of some chunks whose size lines the parser's digit table accepts |
| `ChunkedCoding.SpellsIff` | components/http_parser/http_parser.c:201-211 | digits the table accepts spell a number by the hexadecimal digits of the RFC iff none is 128 or more, and then the value the parser computes |
| `ChunkedCoding.RfcSizesIff` | components/http_parser/http_parser.c:1926-2014 | the size lines of an accepted encoding are chunk sizes of section 4.1 of RFC 7230 iff no digit byte is 128 or more |
| `ChunkedCoding.HighByteCompletes` | components/http_parser/http_parser.c:1926-1985 | a concrete stream with such a byte completes a message and is no chunk size |
| `MessageLength.ChosenIff` | components/http_parser/http_parser.c:1776-1881 | for every message: what the parser does on the line feed that ends the headers (rejects it, switches protocol, or chooses a body framing) and what it reports is what the rules say iff the status does not forbid a body the headers announce, and that body is read otherwise |
| `MessageLength.BothLengthsIff` | components/http_parser/http_parser.c:1787-1793 | the call that ends the headers returns the unexpected-content-length error, with nothing consumed or reported, iff the chunked coding and a length are both there |
| `MessageLength.UpgradeIsKept` | components/http_parser/http_parser.c:1797-1801 | after the headers the parser remembers an upgrade iff CONNECT, the two upgrade headers or the application asked for it |
| `MessageLength.BodyOfNoContent` | components/http_parser/http_parser.c:1846-1876 | a 204 response with a length of 3: no body by the rules, three bytes awaited by the parser |
| `MessageLength.CountedMessage` | components/http_parser/http_parser.c:1776-1933 | from the end of the headers, a counted body is delivered exactly and completes the message |
| `MessageLength.ChunkedMessage` | components/http_parser/http_parser.c:1776-2053 | the same for a chunked body |
| `MessageLength.KeepAliveIff` | components/http_parser/http_parser.c:2119-2136 | the keep-alive decision is that of section 8.1 of RFC 2616 iff the version is not n.0 with n above 1, or the flags make no difference |
| `MessageLength.VersionTwoCloses` | components/http_parser/http_parser.c:2119-2136 | a concrete 2.0 response that should persist and is closed |
| `MessageLength.AfterMessage` | components/http_parser/http_parser.c:436-702 | what follows a message: if the connection is kept the next request or response is parsed, and otherwise line ends are skipped and any other byte is the closed-connection error |
| `HttpMethods.MethodStrings` | components/http_parser/http_parser.h:74-114 | the 33 strings in the order of their numbers |
| `HttpMethods.ChangeFits` | components/http_parser/http_parser.c:1014-1041 | each change of guess leads to a method that shares the letters read so far and continues with the new one |
| `HttpMethods.StepKeepsMatch` | components/http_parser/http_parser.c:956-1053 | one byte keeps the invariant |
| `HttpMethods.RunMatches` | components/http_parser/http_parser.c:956-1053 | in every run the bytes consumed are the index-long prefix of the current guess |
| `HttpMethods.ReadsMethod` | components/http_parser/http_parser.c:970-1041 | reading any method of the table, the guesses lead to it |
| `HttpMethods.RecognisesTable` | components/http_parser/http_parser.c:956-1053 | the state after a method and its space is reached iff the word is that method's string |
| `HttpMethods.ReadsExactlyPrefixes` | components/http_parser/http_parser.c:956-1053 | the parser is inside a method iff what it read is a prefix of one of the 33 strings: it fails at the first hopeless byte |
| `HttpMethods.Recogniser.constructor` | components/http_parser/http_parser.c:2146-2154 | a request parser before its first byte |
| `HttpMethods.Recogniser.Feed` | components/http_parser/http_parser.c:956-1053 | fed piece by piece, the recogniser is where the run over the bytes says |
| `Labelling.Resumed` | components/http_parser/http_parser.c:2401-2411 | a field met again was the field of the byte just before |
| `Labelling.Pieces` | components/http_parser/http_parser.c:2356-2412 | the bytes of each field form one piece, and the pieces stand in URL order |
| `UrlChars.UrlCharTable` | components/http_parser/http_parser.c:220-253 | the ordinary URL characters are those whose bit is set in the table |
| `UrlChars.ServerChars` | components/http_parser/http_parser.c:393-409 | the classes of user info, host, zone and port, by their characters |
| `UrlChars.PrintedIsRead` | components/http_parser/http_parser.c:2432-2434 | reading a printed port gives the number back |
| `HttpUrl.BothLayered` | components/http_parser/http_parser.c:466-612 | both automata move through the fields in one direction |
| `HttpUrl.ScanFields` | components/http_parser/http_parser.c:2356-2412 | the first loop finds the slices of the labelling, or fails iff the automaton dies |
| `HttpUrl.ScanByte` | components/http_parser/http_parser.c:2356-2411 | one turn of that loop keeps: state, slices, at-sign flag and last field are those of the bytes read |
| `HttpUrl.Note` | components/http_parser/http_parser.c:2401-2411 | extending the last field or opening a new one keeps the slices |
| `HttpUrl.HostEntered` | components/http_parser/http_parser.c:2275-2322 | a field of the server part starts where the automaton enters it, and nowhere else |
| `HttpUrl.ScanHost` | components/http_parser/http_parser.c:2256-2336 | the second loop replaces the server part by user info, host and port, or fails iff the automaton refuses it |
| `HttpUrl.NoteHost` | components/http_parser/http_parser.c:2280-2322 | its switch keeps the slices of the labelling |
| `HttpUrl.SliceInBounds` | components/http_parser/http_parser.c:2407-2410 | stored slices lie in the buffer, even when cut to 16 bits |
| `HttpUrl.Parse` | components/http_parser/http_parser.c:2343-2445 | the whole parse is the splitting that the theorems below are about |
| `UrlPartition.FirstPassDivides` | components/http_parser/http_parser.c:2356-2412 | the first pass divides the buffer into fields and delimiters |
| `UrlPartition.SecondPassDivides` | components/http_parser/http_parser.c:2256-2336 | the second pass divides the server part |
| `UrlPartition.PortIsRead` | components/http_parser/http_parser.c:2432-2434 | strtoul started at the port reads the port slice and no more |
| `UrlPartition.HostPartition` | components/http_parser/http_parser.c:2256-2336 | both passes together divide the buffer, and the port value is that of its digits |
| `UrlPartition.Partition` | components/http_parser/http_parser.c:2343-2445 | for every buffer of at most 65535 bytes that parses: fields non-empty, in bounds, disjoint, in URL order, all other bytes delimiters; a schema has a host; the port is the value of its slice; CONNECT has host and port only |
| `UrlRoundTrip.ServerReads` | components/http_parser/http_parser.c:2174-2254 | the host automaton reads a printed server part with exactly its pieces |
| `UrlRoundTrip.ServerField` | components/http_parser/http_parser.c:466-612 | the URL automaton reads it as one field and finds an at sign iff there is user info |
| `UrlRoundTrip.TailReads` | components/http_parser/http_parser.c:466-612 | path, query and fragment are read as printed |
| `UrlRoundTrip.RoundTrip` | components/http_parser/http_parser.c:2343-2445 | printing parts (with a schema or as a CONNECT target; names, IPv6 literals and zones; empty user info, query and fragment) and parsing gives back exactly their slices and port; refused are exactly a fragment right after the server, a CONNECT target with more than host and port, and a port above 65535 |
| `UrlConverse.HostShape` | components/http_parser/http_parser.c:2174-2254 | a server part the host automaton does not refuse has the shape of user info, host, zone and port, one byte after the other |
| `UrlConverse.UrlShape` | components/http_parser/http_parser.c:466-612 | a buffer the URL automaton does not refuse has the shape of schema, server, path, query and fragment, with exactly its labels |
| `UrlConverse.OnlyPrintingsParse` | components/http_parser/http_parser.c:2343-2445 | the converse of the round trip: every buffer that parses and has a host is the printing of some parts, and the result is what those parts say |
| `UrlConverse.ReferenceParses` | components/http_parser/http_parser.c:2343-2445 | a path with optional query and fragment parses to exactly its slices |
| `UrlConverse.OnlyReferencesParse` | components/http_parser/http_parser.c:2343-2445 | the converse: every buffer that parses without a host is such a reference or empty |
| `UrlConverse.BareFragmentIsRefused` | components/http_parser/http_parser.c:526-544 | `a://b#c` is refused |
| `UrlConverse.ConnectWithQuestionMark` | components/http_parser/http_parser.c:2414-2442 | `b:1?` is taken as a CONNECT target |
| `ThreadPool.ThreadPool.constructor` | components/threadpool/threadpool.c:74-162 | an empty ring that is not shutting down |
| `ThreadPool.ThreadPool.AddLocked` | components/threadpool/threadpool.c:176-202 | the critical section of add: the full error exactly when count equals the queue size, a signal to send exactly when the task was stored, 0 in every other case; the ring after each |
| `ThreadPool.ThreadPool.CheckLocked` | components/threadpool/threadpool.c:220-224 | a worker waits once it has found the ring of a running pool empty, and from then on always |
| `ThreadPool.ShutdownDrops` | components/threadpool/threadpool.c:176-202 | a task added during shutdown is dropped and the ring unchanged |
| `ThreadPool.ThreadPool.GrabLocked` | components/threadpool/threadpool.c:233-247 | a worker leaves exactly on immediate shutdown, or graceful shutdown with count 0; otherwise it takes the task at the head |
| `ThreadPool.FreshInv` | components/threadpool/threadpool.c:74-162 | a new pool satisfies the invariant |
| `ThreadPool.AddAppends` | components/threadpool/threadpool.c:192-196 | adding puts the task at the end of the pending ones |
| `ThreadPool.GrabTakesFirst` | components/threadpool/threadpool.c:240-244 | grabbing from a non-empty ring takes the first pending task |
| `ThreadPool.StepKeepsInv` | components/threadpool/threadpool.c:164-257 | every step of every thread keeps: tokens, held tokens and unsent signals pay exactly for pending tasks, skipped tokens and owed exits; the ring is a queue until it underflows |
| `ThreadPool.AddAnswers` | components/threadpool/threadpool.c:164-204 | in every reachable state add returns the full error iff the tasks accepted and not yet taken are as many as the ring holds; otherwise it returns 0, and the task is accepted, last, unless the pool is shutting down |
| `ThreadPool.PendingIsPaid` | components/threadpool/threadpool.c:192-204 | while a task is pending in a running pool, a signal is under way, a token is free, or a worker holds one |
| `ThreadPool.WaitsIff` | components/threadpool/threadpool.c:218-231 | a worker that checks goes to wait iff it has ever found a running pool empty |
| `ThreadPool.ParkedPoolIsFair` | components/threadpool/threadpool.c:164-251 | with all workers parked before the first add, in every interleaving: tokens in flight equal count (plus owed exits), tail is head + count modulo the size, no grab from an empty ring, tasks taken once each in the order added |
| `ThreadPool.UnderflowRun` | components/threadpool/threadpool.c:220-244 | the run: from any idle pool with a worker that has not parked, steps that leave the count at -1 |
| `ThreadPool.UnparkedUnderflows` | components/threadpool/threadpool.c:220-244 | from an idle pool with a worker that has not parked, some run grabs from an empty ring |
| `ThreadPool.UnderflowIff` | components/threadpool/threadpool.c:220-244 | from an idle pool no run underflows iff every worker has parked |
| `ThreadPool.GracefulExit` | components/threadpool/threadpool.c:235-239 | under graceful destroy a worker leaves only when as many tasks have been taken as accepted, and those very tasks in order unless the ring had underflowed |
| `ThreadPool.NoWorkerStuck` | components/threadpool/threadpool.c:290-306 | once all signals are sent, a waiting worker finds a token, in either kind of shutdown; only a graceful one on a negative count is not covered, which the next rows show never ends |
| `ThreadPool.DrainStep` | components/threadpool/threadpool.c:218-256 | every step of a shutdown brings it closer to its end |
| `ThreadPool.ShutdownFinishes` | components/threadpool/threadpool.c:280-321 | such shutdown runs are bounded, and when no step is left every worker has exited |
| `ThreadPool.NeverLeaves` | components/threadpool/threadpool.c:233-247 | during a graceful destroy on a negative count no worker exits in any run |
| `ThreadPool.ShutdownIff` | components/threadpool/threadpool.c:280-321 | a shutdown can end iff it is immediate or the count is not negative |
| `ThreadPool.GracefulHangs` | components/threadpool/threadpool.c:220-321 | from any idle pool with a worker that has not parked, a run into a graceful destroy that cannot end |
| `VarRing.CountFits` | components/qm_eventbus_static/circbuf_var.c:126-153 | each record takes at least two bytes |
| `VarRing.CircBuf.CountFitsInt16` | components/qm_eventbus_static/circbuf_var.c:126-153 | the record count of every ring fits 16 signed bits |
| `VarRing.RingGrows` | components/qm_eventbus_static/circbuf_var.c:143-149 | writing a byte at the push index extends the stored bytes by it |
| `VarRing.WithoutFirst` | components/qm_eventbus_static/circbuf_var.c:97-107 | moving the pop index past a record leaves the encoding of the others |
| `VarRing.CircBuf.constructor` | components/qm_eventbus_static/qm_eventbus_static.c:13-13 | a ring of static storage is empty and has no room |
| `VarRing.CircBuf.Init` | components/qm_eventbus_static/circbuf_var.c:12-27 | an empty queue over the region given, its size cut to 16 bits; a size of zero or less changes nothing |
| `VarRing.CircBuf.UsedBytes` | components/qm_eventbus_static/circbuf_var.c:227-234 | the length of the encoding of the queue |
| `VarRing.CircBuf.FreeSpace` | components/qm_eventbus_static/circbuf_var.c:211-218 | size less that less one: one byte always stays free |
| `VarRing.CircBuf.Push` | components/qm_eventbus_static/circbuf_var.c:126-153 | appends the record, or refuses iff it is empty, the ring has no room at all, or size + 1 exceeds the free space; bytes outside the region are untouched; the count stays within 16 signed bits |
| `VarRing.CircBuf.PutBytes` | components/qm_eventbus_static/circbuf_var.c:145-149 | the copy loop appends exactly the record's bytes |
| `VarRing.CircBuf.Pop` | components/qm_eventbus_static/circbuf_var.c:37-89 | copies the front of the first record; peeking changes nothing; a consuming pop moves on by what it copied, and the ring is still framed iff that was the whole record |
| `VarRing.ShortPop` | components/qm_eventbus_static/circbuf_var.c:65-87 | after a shorter pop, what lies from the new index up to the push index is not the encoding of the remaining records |
| `VarRing.CircBuf.CopyOut` | components/qm_eventbus_static/circbuf_var.c:65-77 | the copy loop delivers the record's bytes across the wrap |
| `VarRing.CircBuf.Drop` | components/qm_eventbus_static/circbuf_var.c:97-107 | removes the first record |
| `VarRing.CircBuf.CurElemSize` | components/qm_eventbus_static/circbuf_var.c:109-117 | the first record's length with its length byte |
| `EventBus.MatchesIff` | components/qm_eventbus_static/qm_eventbus_static.h:15-22 | a row serves an event of its module iff it serves all, or the ids are the same but for the emergency bit |
| `EventBus.RecordIsWholeIff` | components/qm_eventbus_static/qm_eventbus_static.c:51-88 | the stored record is the whole event iff its size is below 256 |
| `EventBus.LongEventIsCut` | components/qm_eventbus_static/qm_eventbus_static.c:51-88 | an event of 258 bytes is stored as its first two |
| `EventBus.RowsAreTheMatches` | components/qm_eventbus_static/qm_eventbus_static.c:111-122 | the rows due a call are exactly the matching ones, once each, in table order |
| `EventBus.EventBus.constructor` | components/qm_eventbus_static/qm_eventbus_static.c:13-13 | a bus without table and with empty rings |
| `EventBus.EventBus.EmergencyShare` | components/qm_eventbus_static/qm_eventbus_static.c:31-41 | the emergency share is the percentage rounded up to a multiple of four, and fits the buffer iff the percentage of it does |
| `EventBus.EventBus.Init` | components/qm_eventbus_static/qm_eventbus_static.c:16-49 | two empty rings at the two ends of the buffer; a ring without a share stays as it was, and the bus is valid iff it does not collide with the new one |
| `EventBus.EventBus.HasHandler` | components/qm_eventbus_static/qm_eventbus_static.c:66-79 | finds a row iff one matches |
| `EventBus.EventBus.PostEvent` | components/qm_eventbus_static/qm_eventbus_static.c:51-88 | the exact reply in every case; an accepted event, its size cut to 8 bits, is appended to the ring of its kind and the other ring is not disturbed |
| `EventBus.EventBus.PeekEventData` | components/qm_eventbus_static/qm_eventbus_static.c:155-172 | gives the front of the event being handled and changes nothing |
| `EventBus.EventBus.CallHandlers` | components/qm_eventbus_static/qm_eventbus_static.c:111-122 | every matching row is called once, in order, whatever handlers post; each peek sees the event's own bytes, and each handler's posts are made in order |
| `EventBus.EventBus.HandleFront` | components/qm_eventbus_static/qm_eventbus_static.c:104-125 | one turn: peek, dispatch, drop; events are conserved |
| `EventBus.EventBus.DrainEmergency` | components/qm_eventbus_static/qm_eventbus_static.c:103-125 | the emergency loop ends with its ring empty and all of it dispatched in order |
| `EventBus.EventBus.DrainNormal` | components/qm_eventbus_static/qm_eventbus_static.c:127-150 | the same for the normal loop |
| `EventBus.EventBus.ProcessEvents` | components/qm_eventbus_static/qm_eventbus_static.c:90-153 | every event reaches every matching row exactly once, in row order and per-queue posting order, emergency events before normal ones; every post of every handler is made, the new events are those of the accepted posts, and what stays are exactly the emergency events posted by handlers of normal ones |
| `TopicMatcher.MatchesIffMqtt` | components/mqtt/iot_mqtt_client.c:847-879 | the matches are those of section 4.7.1 of MQTT 3.1.1 in which no wildcard stands against nothing, both directions |
| `TopicMatcher.ParentIsMissed` | components/mqtt/iot_mqtt_client.c:847-879 | `a/#` matches `a` by the standard and not by the loop |
| `TopicMatcher.ScansIsMatches` | components/mqtt/iot_mqtt_client.c:847-879 | for a filter with its wildcards on whole levels, the byte-wise scan is the level-wise relation |
| `TopicMatcher.IsTopicMatched` | components/mqtt/iot_mqtt_client.c:847-879 | the two-cursor loop computes the byte-wise scan for every filter, and, with wildcards on whole levels, accepts iff levels agree pairwise, `+` taking one non-empty level and a final `#` a non-empty rest |
| `TopicMatcher.CheckRule` | components/mqtt/iot_mqtt_client.c:29-61 | a token passes iff it is printable and a wildcard stands alone in a filter |
| `TopicMatcher.CheckTopic` | components/mqtt/iot_mqtt_client.c:66-115 | a topic passes iff it is short enough, has a token, all tokens pass, and no `#` but the very first is followed |
| `TopicCheck.PassesIff` | components/mqtt/iot_mqtt_client.c:66-115 | byte by byte: a topic passes iff it has at most 128 bytes and its first 127 are not only separators, printable, with wildcards on levels of their own (in a filter) or none (in a name), and a `#` followed by separators only unless nothing but separators comes before it |
| `TopicMatcher.PassingIsWholeIff` | components/mqtt/iot_mqtt_client.c:66-115 | a filter that passes has its wildcards on whole levels iff it is shorter than 128 bytes or its last byte may follow the one before |
| `TopicMatcher.LongFilterPasses` | components/mqtt/iot_mqtt_client.c:66-115 | 127 letters and a `+` pass the check |
| `TopicMatcher.HashLastIff` | components/mqtt/iot_mqtt_client.c:66-115 | `#` is the last level iff no `#` comes before the last byte |
| `TopicMatcher.HashFirstPasses` | components/mqtt/iot_mqtt_client.c:85-110 | `#/a` passes the check and matches nothing |
| `MqttConnection.MqttClient.constructor` | components/mqtt/iot_mqtt_client.c:2311-2343 | a client whose first connect succeeded |
| `MqttConnection.MqttClient.KeepaliveSub` | components/mqtt/iot_mqtt_client.c:2270-2307 | one ping when due: the probes grow by exactly the ping sent, to at most 4, and the connection is lost exactly on a network error |
| `MqttConnection.MqttClient.HandleReconnect` | components/mqtt/iot_mqtt_client.c:2140-2184 | connected exactly by an attempt that is due, authenticated and successful; a failure keeps the invariant and draws at most one delay |
| `MqttConnection.MqttClient.KeepAlive` | components/mqtt/iot_mqtt_client.c:1888-1937 | the state machine's step with the events it reports; the invariant survives but for the probes, which reach at most 4, and only while connected |
| `MqttConnection.MqttClient.CycleOnce` | components/mqtt/iot_mqtt_client.c:1292-1330 | restores the invariant: four probes or a read error lose the connection, a packet resets the probes, and nothing else changes the state |
| `MqttConnection.BackoffValues` | components/mqtt/iot_mqtt_client.c:2164-2172 | after k failures the stored interval is 2^k seconds for k up to 6 and one minute from 7 on |
| `MqttConnection.DelayIsGood` | components/mqtt/iot_mqtt_client.c:2164-2179 | each delay lies between 2^k seconds and twice that, both at most a minute, whatever is drawn |
| `MqttConnection.DelayIs` | components/mqtt/iot_mqtt_client.c:2164-2179 | the delay after a failed attempt is that interval plus what was drawn, at most a minute |
| `MqttConnection.KeepaliveKeeps` | components/mqtt/iot_mqtt_client.c:1888-1937 | within a turn the probes reach at most 4, and only while connected |
| `MqttConnection.StepKeepsInv` | components/mqtt/iot_mqtt_client.c:1292-1330 | every turn, request and release keeps the invariant |
| `MqttConnection.TurnIs` | components/mqtt/iot_mqtt_client.c:1292-1937 | the state and the count of unanswered pings after a turn, from what the network did in it |
| `MqttConnection.TurnReports` | components/mqtt/iot_mqtt_client.c:1888-1937 | the events reported and the attempts scheduled in a turn |
| `MqttConnection.RequestIs` | components/mqtt/iot_mqtt_client.c:1435-1570 | a request loses the connection exactly when it fails on a live one |
| `MqttConnection.ProbesAre` | components/mqtt/iot_mqtt_client.c:1305-1330 | in every run, losses and reconnects included, the count is the number of pings sent since the last packet read or fourth unanswered ping |
| `MqttConnection.StaysConnectedIff` | components/mqtt/iot_mqtt_client.c:1305-1330 | a connection on which nothing breaks stays up exactly as long as no fourth ping goes unanswered |
| `MqttConnection.SilentPeer` | components/mqtt/iot_mqtt_client.c:1305-1310 | with k pings open, 4 - k turns that send one and read nothing lose the connection, and the next turn reports it |
| `MqttConnection.AnsweringPeer` | components/mqtt/iot_mqtt_client.c:1325-1330 | a peer that answers in every turn is never dropped |
| `MqttConnection.LossResetsIff` | components/mqtt/iot_mqtt_client.c:1305-1330 | a loss leaves no pings counted iff there were none, a packet was read in that turn, or the fourth ping caused it |
| `MqttConnection.NewConnectionInheritsProbes` | components/mqtt/iot_mqtt_client.c:1305-1318 | after three open pings, a read error and a reconnect, the first ping ends the new connection |
| `MqttConnection.Outage` | components/mqtt/iot_mqtt_client.c:2140-2184 | while attempts fail each schedules the next, numbered from the loss on, with the interval of the failures so far |
| `MqttConnection.EveryRun` | components/mqtt/iot_mqtt_client.c:2357-2402 | in every run from construction: disconnects and successful reconnects alternate strictly, probes stay within 3 between turns, the interval within 64000, every delay is as above |
| `MqttConnection.ReconnectingIsLeft` | components/mqtt/iot_mqtt_client.c:1888-1937 | the reconnecting state is left exactly by a successful connect, which is then reported, or by release |
| `MqttConnection.LossIsReported` | components/mqtt/iot_mqtt_client.c:1922-1934 | after a loss and any number of requests, the next turn reports it exactly once and starts reconnecting |
| `PubWaitList.WaitList.constructor` | components/mqtt/iot_mqtt_client.c:1648-1788 | an empty list |
| `PubWaitList.WaitList.Push` | components/mqtt/iot_mqtt_client.c:520-570 | appends iff the packet fits, fewer than eight wait and memory is found |
| `PubWaitList.WaitList.Mask` | components/mqtt/iot_mqtt_client.c:473-515 | marks the last node with the identifier, if any |
| `PubWaitList.WaitList.Sweep` | components/mqtt/iot_mqtt_client.c:1960-2059 | despite the removal put off by one turn, each node goes iff it is acknowledged or found connected and older than twice the timeout, and is reported iff it is the latter and not acknowledged |
| `PubWaitList.LimitIff` | components/mqtt/iot_mqtt_client.c:2016-2018 | the limit is twice the timeout iff that fits 32 bits |
| `PubWaitList.SweepSplits` | components/mqtt/iot_mqtt_client.c:1960-2059 | every node stays or goes, not both; timed-out nodes are unacknowledged ones that go |
| `PubWaitList.KeptInOrder` | components/mqtt/iot_mqtt_client.c:1960-2059 | the nodes kept stand in their old order |
| `PubWaitList.PublishKeeps` | components/mqtt/iot_mqtt_client.c:224-246 | a publish, taken back when sending fails, keeps the invariant |
| `PubWaitList.AcknowledgeKeeps` | components/mqtt/iot_mqtt_client.c:982-1021 | so does an acknowledgement |
| `PubWaitList.SweepKeeps` | components/mqtt/iot_mqtt_client.c:1960-2059 | so does a sweep |
| `PubWaitList.NodeFate` | components/mqtt/iot_mqtt_client.c:473-570 | in every step a waiting message stays, is marked by an acknowledgement of its packet, or is swept away, reported iff it was not acknowledged |
| `PubWaitList.PublishWaitsIff` | components/mqtt/iot_mqtt_client.c:224-246 | a publish waits iff there is room and memory and it was sent |
| `PubWaitList.AcknowledgeMarks` | components/mqtt/iot_mqtt_client.c:473-515 | an acknowledgement marks the last message under its identifier and no other |
| `PubWaitList.EveryRun` | components/mqtt/iot_mqtt_client.c:473-570 | in every run from the empty list: at most eight wait, every node made waits or has left once, none is timed out twice or after its acknowledgement |
| `SoftDimming.NewtonBound` | components/qm_soft_dimming/qm_soft_dimming.c:15-15 | Newton's step never falls below the square root |
| `SoftDimming.IntSqrt` | components/qm_soft_dimming/qm_soft_dimming.c:12-17 | the loop, in 32 bits, gives the floor of the square root; its divisor becomes zero iff the argument is 2^32 - 1 |
| `SoftDimming.StepBounds` | components/qm_soft_dimming/qm_soft_dimming.c:181-217 | every step is between 100 and the cap, and a brightening leader's grows by at most a quarter |
| `SoftDimming.StepIff` | components/qm_soft_dimming/qm_soft_dimming.c:181-217 | the step is the square curve at the leader's level, at least the minimum, at most the cap and a quarter above the last when rising, iff the curve value fits 32 bits or what is left of it reaches the limit anyway |
| `SoftDimming.StepFollowsCurve` | components/qm_soft_dimming/qm_soft_dimming.c:181-217 | without wrap, a step strictly between its limits times the divisor is 100 times the squared level, rounded down; at a limit the curve is on its far side |
| `SoftDimming.StepGrows` | components/qm_soft_dimming/qm_soft_dimming.c:181-217 | the brighter the leader, the longer the step |
| `SoftDimming.WrappedCurve` | components/qm_soft_dimming/qm_soft_dimming.c:187-190 | a concrete leader whose curve value wraps to less than the cap |
| `SoftDimming.DimmingStep` | components/qm_soft_dimming/qm_soft_dimming.c:187-190 | from 2000 down with a divisor of 10000 the step is 400 units |
| `SoftDimming.MoveIs` | components/qm_soft_dimming/qm_soft_dimming.c:219-255 | a channel moves by exactly the step in hundredths, but not past its target |
| `SoftDimming.MoveApproaches` | components/qm_soft_dimming/qm_soft_dimming.c:220-255 | a moving channel gets at least one unit closer and never passes its target |
| `SoftDimming.LeaderFound` | components/qm_soft_dimming/qm_soft_dimming.c:143-176 | the search finds the farthest channel, dimming ones first and then the earliest, or none iff all have arrived |
| `SoftDimming.CounterIs` | components/qm_soft_dimming/qm_soft_dimming.c:137-141 | a call changes nothing of the pace but its counter and last step |
| `SoftDimming.QuietCall` | components/qm_soft_dimming/qm_soft_dimming.c:137-176 | a call that only counts, or finds all channels arrived, moves nothing |
| `SoftDimming.MovingCall` | components/qm_soft_dimming/qm_soft_dimming.c:143-255 | any other call moves every channel by the leader's step and remembers it |
| `SoftDimming.OnlyEveryNth` | components/qm_soft_dimming/qm_soft_dimming.c:139-141 | with an interval of n only every n-th call is effective |
| `SoftDimming.TickApproaches` | components/qm_soft_dimming/qm_soft_dimming.c:219-255 | an effective tick shortens the longest distance by at least one and moves no target |
| `SoftDimming.CallApproaches` | components/qm_soft_dimming/qm_soft_dimming.c:137-258 | every call keeps the controller valid and brings the arrival one call closer |
| `SoftDimming.Arrives` | components/qm_soft_dimming/qm_soft_dimming.c:137-258 | after the calls needed, and for ever after, every channel is on its target |
| `SoftDimming.RepaceKeepsValid` | components/qm_soft_dimming/qm_soft_dimming.c:42-69 | a new pace is valid whatever the fade |
| `SoftDimming.RoundsUpIff` | components/qm_soft_dimming/qm_soft_dimming.c:53-58 | the interval is the rounded-up quotient of ticks and steps, at least one, iff the sum before the division fits 32 bits or there are no more ticks than steps |
| `SoftDimming.LongFadeHurries` | components/qm_soft_dimming/qm_soft_dimming.c:53-58 | a fade of 2^32 - 1 ms in two steps gets interval 1 instead of 2^31 |
| `SoftDimming.LongestIff` | components/qm_soft_dimming/qm_soft_dimming.c:53-65 | the interval is 2^32 - 1 iff the period is 1, the steps at most one and the fade 2^32 - 1 |
| `SoftDimming.SetArrives` | components/qm_soft_dimming/qm_soft_dimming.c:42-119 | after a set all channels are on their targets, which have not moved, for every number of calls from 1 + (D - 1) * interval on; the next call already moves them, iff the fade is not 2^32 - 1 ticks in one step, which takes one interval more |
| `SoftDimming.LongestFadeWaits` | components/qm_soft_dimming/qm_soft_dimming.c:57-65 | a concrete fade after which the next call does nothing |
| `SoftDimming.CountingCall` | components/qm_soft_dimming/qm_soft_dimming.c:137-142 | a controller on the way whose next call moves nothing |
| `SoftDimming.InitialIff` | components/qm_soft_dimming/qm_soft_dimming.c:85-102 | no leader ever asks for less than one unit iff the 32-bit minimum step has not wrapped below 100 |
| `SoftDimming.Handle.constructor` | components/qm_soft_dimming/qm_soft_dimming.c:71-103 | the state after initialisation: divisor, step limits and counters from the parameters, in 32 bits |
| `SoftDimming.Handle.Elect` | components/qm_soft_dimming/qm_soft_dimming.c:143-174 | the search loop finds the leader of the specification |
| `SoftDimming.Handle.NextStep` | components/qm_soft_dimming/qm_soft_dimming.c:181-217 | the step is the square curve at the level between minimum and limit whenever that fits 32 bits; always between one unit and the cap, and for a rising leader at most a quarter above the last |
| `SoftDimming.Handle.Advance` | components/qm_soft_dimming/qm_soft_dimming.c:219-255 | the update loop moves every channel as specified |
| `SoftDimming.Handle.Run` | components/qm_soft_dimming/qm_soft_dimming.c:137-258 | one call is one step of the controller; true iff it was effective and something was left to move |
| `SoftDimming.Handle.Retime` | components/qm_soft_dimming/qm_soft_dimming.c:42-69 | a new pace: validity kept, speed memory back to the minimum step, and the next call effective iff the fade is not the longest one |
| `SoftDimming.Handle.SetTarget` | components/qm_soft_dimming/qm_soft_dimming.c:105-111 | one target changes, if the index is active, and the pace always |
| `SoftDimming.Handle.SetAll` | components/qm_soft_dimming/qm_soft_dimming.c:113-119 | every active target changes, and the pace |
| `StepDelta.ProgressBelow` | components/qm_step_delta/qm_step_delta.c:44-46 | progress stays below one before the end, wrapped or not |
| `StepDelta.ProgressExactIff` | components/qm_step_delta/qm_step_delta.c:44-46 | no progress overflows 32 bits iff there are at most 262144 steps |
| `StepDelta.OneStepTooMany` | components/qm_step_delta/qm_step_delta.c:44-46 | in a fade of 262145 steps the last progress before the end is 0 instead of 16383 |
| `StepDelta.SmootherBelow` | components/qm_step_delta/qm_step_delta.c:53-70 | the smootherstep polynomial stays below one, by 1 - s(t) = (1 - t)^3 (6 t^2 + 3 t + 1) |
| `StepDelta.CurveBelow` | components/qm_step_delta/qm_step_delta.c:48-87 | no 32-bit term of any curve overflows and every curve value is below 2^14 |
| `StepDelta.CurveClose` | components/qm_step_delta/qm_step_delta.c:48-87 | every curve value is its polynomial, rounded down by at most 22 units of 2^-14 |
| `StepDelta.DeltaShort` | components/qm_step_delta/qm_step_delta.c:89-91 | before the end the exact distance is strictly short of the whole way and fits 32 bits |
| `StepDelta.DeltaNear` | components/qm_step_delta/qm_step_delta.c:44-91 | with at most 262144 steps, the distance of a call is that of the polynomial of the fade's own curve at its progress, rounded towards the start by at most 22 units of 2^-14 of the way |
| `StepDelta.ValueNear` | components/qm_step_delta/qm_step_delta.c:33-126 | every output before the end is within that rounding and one unit (rising) or two (falling) of the polynomial |
| `StepDelta.SquareStarts` | components/qm_step_delta/qm_step_delta.c:72-75 | 0 to 1000 in four steps on the square curve starts with 62 |
| `StepDelta.RisingCall` | components/qm_step_delta/qm_step_delta.c:93-125 | a rising call stays in start..end and carries on exactly what it rounds off |
| `StepDelta.FallingCall` | components/qm_step_delta/qm_step_delta.c:93-125 | a falling call is below the end iff it has rounded down to it and the carry is due; each fraction costs one unit |
| `StepDelta.LastCall` | components/qm_step_delta/qm_step_delta.c:93-125 | the last call before the end carries nothing in or on: its output is the exact distance rounded down, and never leaves the way |
| `StepDelta.Accounting` | components/qm_step_delta/qm_step_delta.c:89-125 | over any run until the last step, outputs and carried fraction make up the exact curve sum less the units lost plus those clamped |
| `StepDelta.ConservedIff` | components/qm_step_delta/qm_step_delta.c:89-125 | a new fade conserves the exact sum until its last step iff it rises or every distance is a whole number of units |
| `StepDelta.SumNear` | components/qm_step_delta/qm_step_delta.c:44-91 | the exact sum of a run is the sum of the polynomial, up to the rounding of the curve |
| `StepDelta.RisingSumNear` | components/qm_step_delta/qm_step_delta.c:33-126 | the outputs of a rising fade together are within one unit and that rounding of the sum of the polynomial |
| `StepDelta.FallingSumNear` | components/qm_step_delta/qm_step_delta.c:33-126 | so are those of a falling fade with the units it lost put back |
| `StepDelta.RisingRun` | components/qm_step_delta/qm_step_delta.c:33-126 | every output of a rising fade is in start..end and the running sum is within one unit of the exact one |
| `StepDelta.FallingRun` | components/qm_step_delta/qm_step_delta.c:33-126 | a falling output is in end..start iff the call does not overshoot, or the end is zero; it is never more than one below |
| `StepDelta.FallingOvershoots` | components/qm_step_delta/qm_step_delta.c:93-111 | from 101 to 100 in five linear steps the third output is 99 |
| `StepDelta.EndIsKept` | components/qm_step_delta/qm_step_delta.c:37-42 | after steps - 1 calls the output is the end for ever |
| `StepDelta.Stepper.constructor` | components/qm_step_delta/qm_step_delta.c:9-32 | the initial state for any arguments, over at once if start equals end, valid for values in 0..65535 |
| `StepDelta.Stepper.GetNext` | components/qm_step_delta/qm_step_delta.c:33-126 | the output and the next state of the specification, whose outputs `StepDelta.ValueNear` ties to the curve |
| `StepDelta.Stepper.LeftSteps` | components/qm_step_delta/qm_step_delta.c:263-274 | exactly the number of calls until the end is reached |
| `Base64Enc.LetterIs` | components/http/util_httpc.c:45-45 | the 64 letters are those of the code table |
| `Base64Enc.TextLength` | components/http/util_httpc.c:43-62 | the text of n bytes has 4 * ceil(n / 3) letters |
| `Base64Enc.RoundTrip` | components/http/util_httpc.c:43-62 | decoding the block coding of section 4 of RFC 4648 gives the bytes back |
| `Base64Enc.OnlyTextDecodes` | components/http/util_httpc.c:43-62 | the converse: whatever decodes is the text of what it decodes to |
| `Base64Enc.StreamIsBlocks` | components/http/util_httpc.c:48-57 | what the register gives out, filled up, is that block coding |
| `Base64Enc.LowBits` | components/http/util_httpc.c:49-49 | the twelve bits still in use after a byte, whatever stale bits are above them |
| `Base64Enc.ByteDrains` | components/http/util_httpc.c:49-52 | one byte makes the inner loop give out the right sextets |
| `Base64Enc.CleanIff` | components/http/util_httpc.c:48-53 | with signed char the sextets are right iff no byte of 128 or more meets pending bits that are not all ones |
| `Base64Enc.WrittenIff` | components/http/util_httpc.c:43-62 | the encoder writes the base64 text iff char is unsigned or the string is clean, as every string of bytes below 128 is |
| `Base64Enc.DecodesIff` | components/http/util_httpc.c:43-62 | decoding what the encoder writes gives the input back in exactly those cases |
| `Base64Enc.HighByteSpoils` | components/http/util_httpc.c:48-53 | a concrete string that is encoded wrongly |
| `Base64Enc.Drain` | components/http/util_httpc.c:50-52 | the inner loop writes exactly the letters of the bits present |
| `Base64Enc.TakeByte` | components/http/util_httpc.c:49-52 | one byte: the register takes it in and the letters it completes are written |
| `Base64Enc.Stream` | components/http/util_httpc.c:48-53 | the outer loop, up to the terminator |
| `Base64Enc.Flush` | components/http/util_httpc.c:54-57 | the bits left over, filled up with zeros |
| `Base64Enc.Pad` | components/http/util_httpc.c:58-61 | padding to a multiple of four and the terminator |
| `Base64Enc.Encode` | components/http/util_httpc.c:43-62 | the whole text and its terminator at the front of the output, nothing else changed |

## Left out

- HTTP start lines (but for the method), header fields and their values; byte counting there depends on how the stream is cut, so no split invariance is claimed for them.
- ChunkedCoding.OnlyEncodingsComplete: says nothing of the grammar of chunk extensions, which the code skips unread up to the line end.
- Callbacks that fail or pause the parser, and non-strict parsing.
- URLs of more than 65535 bytes are parsed as the code does, with 16-bit slices, but `UrlPartition.Partition`, `UrlRoundTrip.RoundTrip` and `UrlConverse.OnlyPrintingsParse` are about shorter ones; strtoul is modelled on the buffer only, so what follows the buffer's end in memory is not part of it.
- Creating and freeing the threads of the pool, and a second call of `threadpool_destroy`, which frees a pool it did not shut down.
- ThreadPool.ThreadPool.constructor: requires a queue size above zero, because the ring is indexed modulo the size.
- EventBus.EventBus.EmergencyShare: does not model the overflow of size times percentage in 32 bits.
- EventBus.EventBus.Init: requires an emergency share that fits the buffer, because the code otherwise lays the emergency ring over memory before it.
- EventBus.EventBus.ProcessEvents: requires stored and posted events with an event id, because dispatching a one-byte record reads an id that was never written.
- EventBus.EventBus.CallHandlers: a handler posts and peeks; handlers that process events themselves, and `qm_eventbus_call_event`, are not part of the model. The bus index is left out.
- MqttConnection.EveryRun: one thread yields and the random draw stays in the range asked for; subscriptions and removal of handlers are not part of it.
- PubWaitList.WaitList.Sweep: republishing a lapsed message is not part of the model; the clock is an input, as milliseconds since the publish.
- SoftDimming.Handle.constructor: the speed limit comes from a float and the estimate of total steps from `_calc_phys_total_steps`, both are parameters; a hardware resolution of zero or a curve divisor of zero would divide by zero and is excluded.
- StepDelta.Stepper.GetNext: requires start and end in 0..65535, because the 32-bit product may overflow outside.
- Base64Enc.Encode: requires a terminated input and an output with room for the text, as the code does.
- MQTT packet coding, list library, timers, sockets and TLS; the rest of the HTTP client; button drivers, work and event queues, command line and other small components, which would only add easy members.
