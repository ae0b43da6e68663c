# Verified models of a robot control stack

The repository steers a robot over the network: a serial link with a check sum and a watchdog, an MPEG-1 decoder in
JavaScript that shows the camera picture, and a copy of node that serves the pages. This project models the parts of it
whose correctness is not visible from any single function, and proves what they are for:

- **HTTP pipelining** (`HttpMessage`, `TextCoding`, `ChunkedCoding`, `ResponseCalls`, `ResponseForm`, `HttpPipeline`).
  Requests arrive on one socket while handlers write and end responses in any order. For every run, the bytes on the wire are
  the responses that the calls ask for, in request order, each finished one being the header that its handler chose first, the
  body that this header calls for and the closing piece, exactly if no write spoils it, and the assertions in the code never
  fail. A chunked body is decoded by section 3.6.1 of RFC 2616 to the written bytes, again exactly if no write spoils it.
- **Readable streams** (`ReadableStream`). For every interleaving of pushes, unshifts, reads, end of input, event loop turns and
  user code called back from events and from `_read`, provided that outside object mode nothing calls `read` while `_read`
  runs: every piece of user code does all its actions in order, what comes out is exactly what was accepted of them, neither
  lost, repeated nor reordered, and 'end' comes at most once and after all data. It does come: when the event loop has nothing
  left to do, a flowing stream has passed on everything and, once the input has ended, emitted 'end', unless something was
  unshifted after the end of input; and a reader who asked for more than there was after it has got 'end'.
- **The syntax highlighter** (`HtmlTree`, `TagStreams`, `TagMerge`, `Highlighter`). Extracting tags, merging the styles into
  them and rebuilding the tree keeps the text, gives each character its style, and keeps the structure exactly if there are no
  line break elements.
- **The debugger protocol** (`TurnParser`, `DebuggerProtocol`, `DebuggerHeaders`, `DebuggerNumbers`). For every text and every
  content length, below zero and infinite ones included: what one call delivers, exactly when a text can be continued in a
  later call, exactly which headers the parser waits at forever, and when its recursion ends. Messages with any header fields
  around their content length, serialized frames among them, are parsed back, however they are cut.
- **The video decoder** (`BitReader`, `SeekIndex`, `SocketRing`, `PrefixCode`, `VideoTables`, `VideoCodes`, `MotionVectors`,
  `MotionCompensation`, `Idct`, `BlockDecoder`, `Recorder`). Each fast form is proved against a simple rule: bit fields at
  every alignment, the seek index against a linear scan, the ring buffer against the received stream, table-driven prefix
  codes against code words, packed 32-bit pixel loops against the plane at half-pixel points, the DC shortcut against the full
  transform, and the transform against sums of cosines.
- **The robot link** (`RobotLink`, `Watchdog`). The check sum detects every change within two adjacent bytes, the receiver's
  test is exactly a zero residue, and the motors stop after a silence of known length.
- **Intrusive lists** (`IdleList`). Any number of circular doubly linked rings in the heap refine a set of queues, each of which
  holds its items in the order in which they were appended last.

Code that updates objects in place is modelled by classes and methods on arrays and fields, each proved against a function
of the old state; the laws are lemmas about these functions. `Seqs` holds sequence facts, `Common` the types that several
modules use. An invariant with several clauses is often stated as a quantifier over the names of its clauses, with a lemma
that opens it: the verifier then looks into it only where a proof asks for it.

## Where the code falls short of what one might expect

- A string written in a two-byte encoding (UCS-2) turns the header or the chunk framing around it into two-byte text as
  well, because string and framing are joined before encoding. A string in the 'hex' or 'base64' encoding is announced with a
  size computed from its length: a lone padding sign announces zero bytes and so ends the body, a line break inside base64
  text announces more bytes than are sent, and so do characters that are no hexadecimal digits.
  `ResponseForm.ResponseDecodes` and `ResponseForm.FinishedForm` hold if and only if there is no such write;
  `ResponseForm.FailingWrites`, `ResponseForm.NoDigitsAreAnnounced` and `ResponseForm.OneFaultyWrite` show it at the smallest
  ones.
- `addTrailers` accepts lines that are empty or contain CR LF; the trailer is read back exactly if there are none
  (`ChunkedCoding.DecodeTrailerLines`).
- A `_read` that calls `read` spoils the stream's length: how much the outer call takes was decided before.
  `ReadableStream.Readable.ReadInsideRead` says exactly when the length stays right, for any number of calls, and
  `ReadableStream.NestedReadMiscounts` reaches -1. `ReadableStream.Simulate` therefore asks that nothing calls `read` while
  `_read` runs, except in object mode, where the code does not miscount.
- A chunk that is unshifted after the end of input, before 'end' is emitted, can stay in the buffer of a flowing stream for
  good, without 'end': `ReadableStream.LateUnshift` reaches such a state on a stream whose `_read` was never called, and no
  turn of the event loop changes it. `ReadableStream.Simulate` therefore has this exception.
- The highlighter turns each line break element into a character and does not turn it back. `Highlighter.HighlightElement`
  gives back the document, up to joining text and dropping comments, if and only if there are none;
  `TagStreams.BreakIsLost` shows one.
- `seekToFrame` dereferences null when the first intra picture lies after the requested frame; `SeekIndex.Player.SeekToFrame`
  says exactly when, and `SeekIndex.SeekCrashes` loads a file of two pictures where it happens. The index is shared by all
  players, and after a second load the search stays among the first file's entries unless the frame lies at or behind the last
  of them (`SeekIndex.AfterSecondLoad`).
- `shift` on an empty list unlinks the list head itself, which is then no list any more (`IdleList.Shift`).
- A debugger message whose content length is missing, not a number or infinite makes the parser wait at its header for good,
  and only such a one does (`DebuggerProtocol.StuckExactly`); a missing blank after the colon is enough
  (`DebuggerProtocol.StuckInput`).
- A content length below zero delivers a body at once and makes the parser take up part of the header again. With -4 it then
  waits forever at the blank line (`DebuggerProtocol.MinusFour`). With -23 the rest is the same text again, and the call never
  returns (`DebuggerProtocol.EndlessInput`); for ASCII text that is the only way in which it does not return
  (`DebuggerProtocol.EndlessExactly`). With -40 the rest is counted from the end of what has arrived, so that it matters how the
  text is cut (`DebuggerProtocol.CutMatters`); `DebuggerProtocol.ComposesExactly` says exactly when a text can be continued.
- The fudged sequence header of a recording holds the picture size exactly if both numbers are below 4096
  (`Recorder.RecordedHeaderDecodes`).
- While the player waits for its first intra picture it may read the picture type from bytes that have not arrived yet. It
  starts at an intra picture of the stream if the type had arrived (`SocketRing.Play`), and in `SocketRing.StaleStart` it
  starts at a predicted picture because an older message left the right byte in the ring.

## Model

| member | source | states |
|---|---|---|
| `HttpMessage.EncodeConcat` | node-v0.12.9/lib/_http_outgoing.js:125-142 | encoding a joined string is joining the encodings, in every encoding that a write can name |
| `HttpMessage.EncodeAscii` | node-v0.12.9/lib/_http_outgoing.js:125-142 | header and framing text has the same bytes in every encoding but the two-byte one |
| `TextCoding.Utf8RoundTrip` | node-v0.12.9/src/string_bytes.cc:293-352 | text in UTF-8 is read back by the rules of section 3 of RFC 3629, for every text without lone surrogates |
| `TextCoding.Utf16RoundTrip` | node-v0.12.9/src/string_bytes.cc:293-352 | text in the two-byte encoding is read back by the rules of section 2 of RFC 2781, lower byte first |
| `TextCoding.BytesAreUtf8` | node-v0.12.9/lib/_debugger.js:106-106 | the byte length that the debugger protocol counts is that of the text in UTF-8 |
| `HttpMessage.StepKeepsConsistent` | node-v0.12.9/lib/_http_outgoing.js:409-592 | every call a handler can make keeps: nothing sent before a header is stored, output only after the header |
| `ChunkedCoding.HexDigitsParse` | node-v0.12.9/lib/_http_outgoing.js:441-470 | the chunk size line reads back as the number of bytes |
| `ChunkedCoding.DecodeChunks` | node-v0.12.9/lib/_http_outgoing.js:441-470 | a decoder following section 3.6.1 of RFC 2616 returns the payloads of any sequence of chunks and goes on after them |
| `ChunkedCoding.DecodeTrailerLines` | node-v0.12.9/lib/_http_outgoing.js:479-499 | the trailer is decoded to its lines and ends the body if and only if no line is empty or contains CR LF |
| `ChunkedCoding.CodedRun` | node-v0.12.9/lib/_http_outgoing.js:409-476 | as long as the message is not finished, for any sequence of calls that none of them spoils, the output is the header followed by the coded non-empty writes |
| `ChunkedCoding.FaultyRunBreaks` | node-v0.12.9/lib/_http_outgoing.js:436-470 | once a two-byte string, or a 'hex' or 'base64' string announced with zero bytes or with another number than it has, is written into a chunked body, nothing that follows makes the body decode to the writes |
| `ChunkedCoding.ChunkedRoundTrip` | node-v0.12.9/lib/_http_outgoing.js:409-567 | for every sequence of calls ended by end, header then body decodes to exactly the non-empty writes, one zero-length chunk and the trailer last, whatever follows untouched, if and only if no write is faulty in this sense and each trailer line is one line |
| `ResponseCalls.FollowsCalls` | node-v0.12.9/lib/_http_outgoing.js:271-291 | for every sequence of calls: the stored header is that of the first writeHead, or else the implicit one; whether the body is chunked, whether there is one and whether the response is the last are what this header says, together with whether the request allows a body; what is offered, kept and finished follows from the calls alone |
| `ResponseForm.FinishedForm` | node-v0.12.9/lib/_http_outgoing.js:409-592 | for every sequence of calls, in chunked and plain bodies: once they have ended the response, it is the header that they chose, the data that they offered, in chunks exactly if that header says so, and the closing piece with the last trailer, if and only if nothing offered is spoiled by the framing |
| `ResponseForm.UnfinishedForm` | node-v0.12.9/lib/_http_outgoing.js:409-476 | before that it is the header that they chose and the body so far, if and only if nothing is spoiled, or nothing yet |
| `ResponseForm.ResponseDecodes` | node-v0.12.9/lib/_http_outgoing.js:409-592 | for every sequence of calls up to the first end: if the header that they choose says chunked and there is a body, a decoder finds behind the header exactly the data offered, in order, then the trailer, and leaves what follows untouched, if and only if no offered write is faulty and each trailer line is one line |
| `ResponseForm.PaddingIsNothing` | node-v0.12.9/src/string_bytes.cc:122-150 | a lone base64 padding sign is a string of one character, announced with no bytes and decoded to none |
| `ResponseForm.LineBreakIsAnnounced` | node-v0.12.9/src/string_bytes.cc:122-256 | base64 text with a line break is announced with two bytes and decoded to one |
| `ResponseForm.NoDigitsAreAnnounced` | node-v0.12.9/src/string_bytes.cc:122-256 | two characters that are no hexadecimal digits are announced with one byte and decoded to none |
| `ResponseForm.OneFaultyWrite` | node-v0.12.9/lib/_http_outgoing.js:436-470 | one write of any faulty data and an end, and the response is not read back, whatever follows |
| `ResponseForm.FailingWrites` | node-v0.12.9/lib/_http_outgoing.js:436-470 | concrete faulty writes: a letter in UCS-2, a padding sign, base64 with a line break |
| `HttpPipeline.ServerResponse.WriteRaw` | node-v0.12.9/lib/_http_outgoing.js:145-192 | with a usable socket, queued output and then the data reach the wire; with a destroyed one the data is dropped; otherwise it is queued; nothing else is lost or reordered |
| `HttpPipeline.ServerResponse.Send` | node-v0.12.9/lib/_http_outgoing.js:125-142 | the header goes out exactly once, before the first data |
| `HttpPipeline.ServerResponse.Write` | node-v0.12.9/lib/_http_outgoing.js:409-476 | a write changes the response exactly as its byte-level meaning says, on the wire or in the queue |
| `HttpPipeline.ServerResponse.End` | node-v0.12.9/lib/_http_outgoing.js:502-592 | end completes the response once, with its last chunk, and keeps its bytes on the wire or in the queue |
| `HttpPipeline.ServerResponse.TakeSocket` | node-v0.12.9/lib/_http_outgoing.js:595-613 | a response that gets the socket puts all its queued bytes on the wire in order |
| `HttpPipeline.Connection.Incoming` | node-v0.12.9/lib/_http_server.js:421-452 | an arriving request gets the socket or a place at the back of the queue, and the queue invariant is kept |
| `HttpPipeline.Connection.ResOnFinish` | node-v0.12.9/lib/_http_server.js:454-479 | a finished response leaves both queues from the front, its request being the oldest, and hands the socket to the next one, or closes it |
| `HttpPipeline.ResponsesAreIndependent` | node-v0.12.9/lib/_http_server.js:421-479 | each response's bytes are those of its own calls alone, whatever the other handlers do in between |
| `HttpPipeline.HeaderFirst` | node-v0.12.9/lib/_http_server.js:421-479 | over every run, each response has the form that its own calls ask for, with the header they choose first: unfinished or whole, chunked or plain, exactly if no write spoils it |
| `HttpPipeline.WireOnlyGrows` | node-v0.12.9/lib/_http_server.js:421-479 | what is on the wire after some events is a prefix of what is there after more events |
| `HttpPipeline.WireIsExpected` | node-v0.12.9/lib/_http_server.js:421-479 | in every reachable state the wire holds the finished responses in request order followed by the part of the next one |
| `HttpPipeline.Serve` | node-v0.12.9/lib/_http_server.js:421-479 | for every run of arrivals and calls up to the first finished last response, the wire is the responses in request order, each whole, never interleaved, and each in the form of HeaderFirst; if nothing is spoiled, it is what the calls ask for and nothing else; no assertion in the code fails on the way |
| `ReadableStream.FromList` | node-v0.12.9/lib/_stream_readable.js:829-891 | takes the first n units off the buffer, or everything if there is less, and leaves the others in order |
| `ReadableStream.TakeAcross` | node-v0.12.9/lib/_stream_readable.js:862-886 | reading part of a list of buffers takes exactly the first n units and leaves the others in order |
| `ReadableStream.Readable.HowMuchToRead` | node-v0.12.9/lib/_stream_readable.js:225-260 | how much a read takes, in both modes, for every argument: what was asked for if it is there, nothing if it is not, everything after the end of input; a request above the high water mark raises it to the next power of two, up to its maximum |
| `ReadableStream.Readable.AddChunk` | node-v0.12.9/lib/_stream_readable.js:139-184 | an added chunk is accepted exactly once, emitted directly or buffered, or refused; nobody waiting, it only goes into the buffer; conservation, size and the order of events are kept, with user code run by every listener |
| `ReadableStream.Readable.ReadN` | node-v0.12.9/lib/_stream_readable.js:263-376 | read(0) on an idle stream calls `_read`; read keeps conservation, size and the order of events, whatever `_read` and the listeners do, as long as they do not call read inside `_read` or the stream is in object mode; without user code it returns and emits exactly its portion of the buffer |
| `ReadableStream.Readable.ReadInsideRead` | node-v0.12.9/lib/_stream_readable.js:263-376 | a read whose `_read` calls read any number of times: what is left, the length that results, and that it is the size of the buffer if and only if the nested calls leave at least what the outer one takes, or nothing |
| `ReadableStream.NestedReadMiscounts` | node-v0.12.9/lib/_stream_readable.js:263-376 | ten bytes, read(5) and read(6) inside it: the length is -1 |
| `ReadableStream.Readable.FillBuffer` | node-v0.12.9/lib/_stream_readable.js:316-349 | `_read` is called exactly if data is needed or the rest would be below the high water mark, and neither the input has ended nor a read is under way |
| `ReadableStream.Readable.EmitReadable` | node-v0.12.9/lib/_stream_readable.js:407-425 | 'readable' is emitted or put off unless it was announced before, and afterwards a flowing stream has passed on what it has, or has a task that will |
| `ReadableStream.Readable.ListenReadable` | node-v0.12.9/lib/_stream_readable.js:680-697 | the first listener for 'readable' makes the stream read or announce what it has, later ones do nothing |
| `ReadableStream.Readable.Pause` | node-v0.12.9/lib/_stream_readable.js:735-743 | the stream stops flowing and 'pause' is emitted, once |
| `ReadableStream.Readable.OnEofChunk` | node-v0.12.9/lib/_stream_readable.js:390-404 | end of input marks the stream as ended, and a flowing stream passes on what it has and emits 'end', now or by a task |
| `ReadableStream.Readable.EmitEnd` | node-v0.12.9/lib/_stream_readable.js:893-912 | the deferred part of endReadable emits 'end' exactly if nothing is buffered and it was not emitted before |
| `ReadableStream.Readable.Flow` | node-v0.12.9/lib/_stream_readable.js:745-752 | whatever user code does, a stream that is flowing afterwards has an empty buffer, and 'end' put off if the input has ended, or a task that will flow again |
| `ReadableStream.Readable.Tick` | node-v0.12.9/lib/_stream_readable.js:407-460 | one turn of the event loop does what was put off: 'end' is emitted if nothing is buffered, 'readable' is emitted, after that or a resume a flowing stream has passed on what was buffered, otherwise `_read` is called; and no duty of the stream is dropped |
| `ReadableStream.Readable.ResumeNow` | node-v0.12.9/lib/_stream_readable.js:722-733 | resuming reads, announces itself and passes on everything buffered |
| `ReadableStream.Readable.EndNow` | node-v0.12.9/lib/_stream_readable.js:893-912 | with nothing buffered 'end' is emitted, once, and otherwise nothing happens |
| `ReadableStream.Simulate` | node-v0.12.9/lib/_stream_readable.js:139-460 | for every interleaving of actions, event loop turns and user code that does not call read inside `_read`, or does so in object mode: every piece of user code called does exactly its actions in order, every event calls a listener as long as there is user code left, emitted data followed by buffered data is what the stream accepts of these actions in their order, the length is the size of the buffer (its count in object mode), 'end' fires at most once, after everything, and no data follows it; when no task is left, a flowing stream has an empty buffer and, if the input has ended, has emitted 'end', unless something was unshifted after the end of input, and 'end' has been emitted if a read asked for more than there was after the end of input and nothing was accepted since |
| `ReadableStream.LateUnshift` | node-v0.12.9/lib/_stream_readable.js:139-184 | end of input, resume, two turns of the event loop and an unshift: after any number of further turns the chunk is still buffered in a flowing stream, and 'end' has not been emitted |
| `ReadableStream.WholeOfPushes` | node-v0.12.9/lib/_stream_readable.js:115-127 | without unshift, what was accepted is the concatenation of the pushes |
| `ReadableStream.UnshiftedComesNext` | node-v0.12.9/lib/_stream_readable.js:130-133 | in every run, what is emitted after an accepted unshift followed by what is buffered begins with that chunk, unless another one was unshifted before it was out |
| `HtmlTree.SameMarkupSameTree` | node-v0.12.9/doc/sh_main.js:401-445 | trees with the same tokens are the same up to joining adjacent text |
| `HtmlTree.UnstyledMarkup` | node-v0.12.9/doc/sh_main.js:342-399 | deleting style elements from a tree is deleting their tokens |
| `TagStreams.ExtractedSorted` | node-v0.12.9/doc/sh_main.js:286-324 | the tags of a document come in order of position |
| `TagStreams.ExtractedBalanced` | node-v0.12.9/doc/sh_main.js:286-324 | the tags of a document are well nested |
| `TagStreams.ExtractedMarkup` | node-v0.12.9/doc/sh_main.js:286-324 | text and tags woven together give back the document's tokens, with each line break element read as a character and without comments |
| `TagStreams.PlainExactly` | node-v0.12.9/doc/sh_main.js:286-324 | that is the document, up to joining adjacent text and dropping comments, if and only if it has no line break element |
| `TagStreams.BreakIsLost` | node-v0.12.9/doc/sh_main.js:292-301 | one line break element becomes a character |
| `TagStreams.Extraction.AddNodes` | node-v0.12.9/doc/sh_main.js:286-324 | the recursive walk appends exactly the tags and the text of the nodes |
| `TagStreams.InsertTags` | node-v0.12.9/doc/sh_main.js:401-445 | for any sorted, well-nested tags the loop terminates with a tree whose tokens are the tags woven into the text |
| `TagMerge.MergeTags` | node-v0.12.9/doc/sh_main.js:342-399 | the loop that overwrites highlight entries computes the merge that splits spans at every original tag |
| `TagMerge.MergeSorted` | node-v0.12.9/doc/sh_main.js:342-399 | merging keeps the order of positions |
| `TagMerge.MergeBalanced` | node-v0.12.9/doc/sh_main.js:342-399 | merging keeps the nesting |
| `TagMerge.MergeMeaning` | node-v0.12.9/doc/sh_main.js:342-399 | every character keeps its elements and gains the style of its span, and without the styles the tokens are the original ones |
| `Highlighter.Output.Put` | node-v0.12.9/doc/sh_main.js:93-131 | one output call extends the styles of the characters and keeps the spans sorted and disjoint |
| `Highlighter.HighlightString` | node-v0.12.9/doc/sh_main.js:62-250 | over any sequence of output calls and line ends the tags are sorted, disjoint spans that give each character its last style |
| `Highlighter.HighlightElement` | node-v0.12.9/doc/sh_main.js:453-463 | the text is unchanged, each character is in its elements and its style, and deleting the styles gives back the document, up to joining adjacent text and dropping comments, if and only if it has no line break element (otherwise the document with these read as characters) |
| `DebuggerProtocol.RestShorter` | node-v0.12.9/lib/_debugger.js:123-141 | the rest of a message is shorter than the text if and only if it does not begin at the beginning and the character that is cut, if one is, does not become more characters than there are before it |
| `DebuggerProtocol.NaturalHalts` | node-v0.12.9/lib/_debugger.js:95-148 | with content lengths that are not below zero the recursion ends, after no more messages than there are characters |
| `DebuggerProtocol.EndlessExactly` | node-v0.12.9/lib/_debugger.js:95-148 | for ASCII text the recursion ends if and only if it never comes to a message whose rest is the same text again |
| `DebuggerProtocol.EndlessInput` | node-v0.12.9/lib/_debugger.js:123-141 | after a header with the length -23 the call does not return, whatever follows |
| `DebuggerProtocol.MinusFour` | node-v0.12.9/lib/_debugger.js:123-141 | a header with the length -4 delivers an empty body, and the parser waits forever at the blank line |
| `TurnParser.ParseMore` | node-v0.12.9/lib/_debugger.js:95-148 | if each message ends within what has arrived, counted from the front, parsing text and then more text is parsing all of it, also where the call does not return |
| `DebuggerProtocol.ComposesExactly` | node-v0.12.9/lib/_debugger.js:95-148 | a text can be continued in a later call, whatever follows, if and only if each message that it delivers ends within what has arrived, counted from the front |
| `DebuggerProtocol.CutMatters` | node-v0.12.9/lib/_debugger.js:123-141 | after a header with the length -40 the outcome depends on where the text is cut |
| `DebuggerProtocol.ChunkingInvariance` | node-v0.12.9/lib/_debugger.js:95-148 | however a text is split across calls, bodies, state and remaining text are those of one call, provided that no message ends at a place that depends on how much has arrived |
| `DebuggerProtocol.StuckExactly` | node-v0.12.9/lib/_debugger.js:109-131 | exactly if the content length is not a number or infinite does the parser wait at the header forever, whatever follows; with any other length, one below zero included, some continuation makes it deliver a body |
| `DebuggerProtocol.StuckInput` | node-v0.12.9/lib/_debugger.js:109-131 | a content length without a blank after the colon blocks the parser under every continuation |
| `DebuggerProtocol.OtherNotations` | node-v0.12.9/lib/_debugger.js:113-113 | hexadecimal, padded and negative lengths are the numbers that JavaScript reads |
| `DebuggerProtocol.FrameRoundTrip` | node-v0.12.9/lib/_debugger.js:151-157 | a serialized frame is parsed back to its body and the parser goes on after it |
| `DebuggerProtocol.ChunkedFramesDelivered` | node-v0.12.9/lib/_debugger.js:95-157 | any sequence of frames, cut in any way, delivers exactly its bodies |
| `DebuggerProtocol.ReadLength` | node-v0.12.9/lib/_debugger.js:109-115 | the loop over the lines finds the number that the last content length stands for: blanks, signs, fractions, exponents, hexadecimal and Infinity as in JavaScript, and not a number for anything else |
| `DebuggerHeaders.LinesExactly` | node-v0.12.9/lib/_debugger.js:107-107 | the lines of a header are the only ones whose CR LF join is the header and none of which contains CR LF |
| `DebuggerHeaders.FieldReads` | node-v0.12.9/lib/_debugger.js:108-111 | a name, a colon, any positive number of blanks and a value are read as the name and the value, up to the next separator |
| `DebuggerHeaders.LengthAmong` | node-v0.12.9/lib/_debugger.js:107-113 | in a header of any lines the content length is the number in the last field of that name, at whatever place it stands |
| `DebuggerHeaders.NoLengthAmong` | node-v0.12.9/lib/_debugger.js:107-113 | a header of any lines without such a field has no content length |
| `DebuggerHeaders.MessageRoundTrip` | node-v0.12.9/lib/_debugger.js:95-148 | a message with any other fields before and after its content length is parsed to its body, and the parser goes on after it |
| `DebuggerHeaders.ChunkedMessagesDelivered` | node-v0.12.9/lib/_debugger.js:95-148 | any sequence of such messages, cut in any way, delivers exactly its bodies |
| `DebuggerHeaders.Greeting` | node-v0.12.9/lib/_debugger.js:231-231 | the debugger's greeting, whose content length comes second, delivers an empty body |
| `DebuggerNumbers.NumberIsReal` | node-v0.12.9/lib/_debugger.js:118-126 | text of n bytes reaches a length exactly if n is not below it as a real number |
| `DebuggerNumbers.FractionReads` | node-v0.12.9/lib/_debugger.js:113-113 | a decimal fraction is read as a number with the whole part before the point, and as whole exactly if only zeros follow |
| `DebuggerNumbers.ExponentReads` | node-v0.12.9/lib/_debugger.js:113-113 | an exponent multiplies by that power of ten |
| `DebuggerNumbers.HexadecimalReads` | node-v0.12.9/lib/_debugger.js:113-113 | hexadecimal digits are read as the number they stand for |
| `DebuggerProtocol.Protocol.NewRes` | node-v0.12.9/lib/_debugger.js:87-92 | a new response starts with the remaining text, which is parsed at once |
| `DebuggerProtocol.Protocol.Execute` | node-v0.12.9/lib/_debugger.js:95-148 | one call returns exactly if the stack has room for its messages, and then has delivered exactly those that the text so far completes; otherwise it has delivered as many as there was room for and one more |
| `DebuggerProtocol.Protocol.Serialize` | node-v0.12.9/lib/_debugger.js:151-157 | the frame is the content length in bytes, a blank line and the body; the sequence number grows |
| `DebuggerProtocol.Feed` | node-v0.12.9/lib/_debugger.js:95-148 | feeding pieces one by one succeeds exactly if each call has room, and ends in the state of these calls; if no message ends at a place that depends on how much has arrived, this is the state of parsing the whole text |
| `BitReader.BitsJoin` | jsmpeg-master/jsmpg.js:2439-2474 | reading a + b bits is reading a bits, then b bits, and joining them |
| `BitReader.Reader.NextBits` | jsmpeg-master/jsmpg.js:2439-2470 | for up to 31 bits, the big-endian value of the bits at the position, at every alignment |
| `BitReader.Reader.GetBits` | jsmpeg-master/jsmpg.js:2470-2474 | the same, and the position moves on by the count |
| `BitReader.Reader.FindNextMPEGStartCode` | jsmpeg-master/jsmpg.js:2413-2426 | stops after the first start code prefix at or after the position, or at the end |
| `BitReader.FirstPrefixIsFirst` | jsmpeg-master/jsmpg.js:2413-2426 | no start code prefix lies before the one found |
| `SeekIndex.ScanComplete` | jsmpeg-master/jsmpg.js:427-436 | every start code is met by the scan unless it begins inside the bytes skipped after another one |
| `SeekIndex.PicturesAreStops` | jsmpeg-master/jsmpg.js:427-436 | the pictures found one after another are the picture codes among the stops of a linear scan |
| `SeekIndex.IntraExactly` | jsmpeg-master/jsmpg.js:341-356 | an entry is in the index exactly if it is an intra picture, with its number and position |
| `SeekIndex.IndexIncreases` | jsmpeg-master/jsmpg.js:341-356 | frame numbers and positions in the index strictly increase |
| `SeekIndex.Player.FindStartCode` | jsmpeg-master/jsmpg.js:427-436 | terminates at the first start code with the given value |
| `SeekIndex.Player.CollectIntraFrames` | jsmpeg-master/jsmpg.js:341-356 | appends exactly the intra pictures of the scan and counts all pictures |
| `SeekIndex.Player.SeekToFrame` | jsmpeg-master/jsmpg.js:358-370 | on any list, takes the last entry before the first one behind the request, and says exactly when there is none and when the request is rejected; on an increasing list this is the greatest intra frame not after the request |
| `SeekIndex.AfterSecondLoad` | jsmpeg-master/jsmpg.js:269-269 | with a second file's entries behind the first's, the search stays among the first ones unless the request is at or behind the last of them |
| `SeekIndex.Load` | jsmpeg-master/jsmpg.js:314-320 | loading a file lists exactly its intra pictures and counts its pictures |
| `SeekIndex.SeekCrashes` | jsmpeg-master/jsmpg.js:358-370 | a file whose first picture is not intra coded: seeking to its first frame fails |
| `SocketRing.SocketClient.FindPicture` | jsmpeg-master/jsmpg.js:116-132 | stops after the first picture start code that has arrived completely, otherwise moves back three bytes |
| `SocketRing.SocketClient.AcceptIntra` | jsmpeg-master/jsmpg.js:136-144 | the first chunk starts after a picture start code exactly if the bytes in the ring say intra; if the type has arrived, the picture is intra coded in the stream |
| `SocketRing.KindArrived` | jsmpeg-master/jsmpg.js:136-144 | once the two bytes after the start code have arrived, the ring and the stream agree on the picture's type |
| `SocketRing.SocketClient.Search` | jsmpeg-master/jsmpg.js:116-176 | a chunk is emitted exactly if a complete picture start code is found, and ends there |
| `SocketRing.SocketClient.Receive` | jsmpeg-master/jsmpg.js:97-176 | a message extends the stream; the chunk copied out is the stream between the last two cuts, across a wrap or not |
| `SocketRing.PartitionConserves` | jsmpeg-master/jsmpg.js:154-171 | chunks between consecutive cuts concatenate to the stream from the first to the last cut |
| `SocketRing.Play` | jsmpeg-master/jsmpg.js:97-176 | for any messages that fit, the chunks are the stream from the first accepted picture to the last cut, every cut lies just after 00 00 01 00, and the first accepted picture is intra coded if its type had arrived when it was accepted |
| `SocketRing.StaleStart` | jsmpeg-master/jsmpg.js:136-144 | three messages after which the client has started at a picture that is not intra coded |
| `PrefixCode.PrefixFree` | jsmpeg-master/jsmpg.js:419-425 | in every table of the shape no code word is a prefix of another |
| `PrefixCode.ScanMeaning` | jsmpeg-master/jsmpg.js:419-425 | stopping at a leaf is having read exactly one code word |
| `PrefixCode.ReadCode` | jsmpeg-master/jsmpg.js:419-425 | terminates, consumes exactly the code word at the position and returns its symbol; without one it returns the table's second entry |
| `PrefixCode.ReadCodes` | jsmpeg-master/jsmpg.js:419-425 | repeated calls over the concatenated code words of any symbol sequence return that sequence |
| `PrefixCode.EverySymbolHasWord` | jsmpeg-master/jsmpg.js:419-425 | if every row has a parent, every leaf's symbol has a code word |
| `VideoTables.ShippedTables` | jsmpeg-master/jsmpg.js:1720-2334 | the nine shipped tables have the shape, and each of their symbols has a code word |
| `VideoCodes.ShippedCodes` | jsmpeg-master/jsmpg.js:1720-2334 | in each of the nine tables every symbol has the code word of Annex B of ISO/IEC 11172-2, bit by bit |
| `MotionVectors.DeltaRoundTrip` | jsmpeg-master/jsmpg.js:1053-1065 | every difference up to 16f in size is coded by some code and residual |
| `MotionVectors.CodeRoundTrip` | jsmpeg-master/jsmpg.js:1053-1065 | no two readable pairs of code and residual stand for the same difference |
| `MotionVectors.RunIsSum` | jsmpeg-master/jsmpg.js:1049-1111 | over any run the predictors stay in [-16f, 16f - 1] and are the sum of the differences since the last reset modulo 32f |
| `MotionVectors.EverySequenceIsCoded` | jsmpeg-master/jsmpg.js:1049-1111 | for any sequence of vectors in the range some codes and residuals decode to exactly it |
| `MotionVectors.MotionDecoder.Component` | jsmpeg-master/jsmpg.js:1053-1079 | reads code and residual where they stand in the stream, moves the predictor by their difference and corrects it, on any input |
| `MotionVectors.MotionDecoder.DecodeMotionVectors` | jsmpeg-master/jsmpg.js:1049-1111 | both components, doubled for vectors in full pixels, the reset in P-pictures and the untouched vectors in B-pictures |
| `MotionVectors.MotionDecoder.Reset` | jsmpeg-master/jsmpg.js:914-925 | vectors and predictors become zero |
| `MotionCompensation.Little2` | jsmpeg-master/jsmpg.js:1161-1180 | the packed word holds four rounded averages of two in its bytes |
| `MotionCompensation.Little4` | jsmpeg-master/jsmpg.js:1140-1159 | the packed word holds four rounded averages of four in its bytes |
| `MotionCompensation.RowBothOdd` | jsmpeg-master/jsmpg.js:1139-1159 | one row of the loop for two odd displacements writes the averages of four |
| `MotionCompensation.RowOddH` | jsmpeg-master/jsmpg.js:1160-1181 | one row of the loop for an odd horizontal displacement writes the averages of two neighbours |
| `MotionCompensation.RowOddV` | jsmpeg-master/jsmpg.js:1183-1195 | one row of the loop for an odd vertical displacement writes the averages of two rows |
| `MotionCompensation.RowEven` | jsmpeg-master/jsmpg.js:1196-1208 | one row of the loop for whole displacements copies |
| `MotionCompensation.CopyPlane` | jsmpeg-master/jsmpg.js:1137-1209 | the loops write exactly the block and nothing else |
| `MotionCompensation.AverageInterpolates` | jsmpeg-master/jsmpg.js:1125-1133 | the average that the loops compute at the displaced address is the plane at the displaced point: the rounded mean of the pixels before and after it in both directions |
| `MotionCompensation.ChromaInPlane` | jsmpeg-master/jsmpg.js:1211-1223 | a displaced luminance block inside its plane has its chrominance blocks inside theirs, with vectors halved towards zero |
| `MotionCompensation.CopyMacroblock` | jsmpeg-master/jsmpg.js:1113-1341 | in all three planes and all odd and even cases each pixel of the macroblock is the plane at its point displaced by the vector, counted in half pixels (section 2.4.4.2 of ISO/IEC 11172-2), and every other pixel is unchanged; the chrominance vector h for m satisfies 2 abs(h) <= abs(m) < 2 abs(h) + 2 and has the sign of m or is 0 |
| `Idct.TransformOfDc` | jsmpeg-master/jsmpg.js:1591-1660 | the full transform of a block with only a DC coefficient d is constantly (d + 128) >> 8 |
| `Idct.CosinesAdd` | jsmpeg-master/jsmpg.js:1591-1593 | the matrix of cosines is determined, up to rounding, by the formula for sums of angles |
| `Idct.WeightsAreCosines` | jsmpeg-master/jsmpg.js:1604-1625 | in each result of a pass number n has the weight cos((2k + 1) n pi / 16) / cos(n pi / 16), up to 0.00031 divided by cos(n pi / 16) |
| `Idct.PassIsWeighted` | jsmpeg-master/jsmpg.js:1604-1625 | for all inputs each of the eight results of a pass is the weighted sum of the inputs, up to one and a half |
| `Idct.TransformIsWeighted` | jsmpeg-master/jsmpg.js:1591-1660 | for all blocks each of the 64 results is the doubly weighted sum of the block over 256, up to 0.573 |
| `Idct.IDCT` | jsmpeg-master/jsmpg.js:1591-1660 | the in-place loops transform columns and then rows, each from the values before it, and the results are these sums up to 0.573 |
| `BlockDecoder.ZigZagPermutes` | jsmpeg-master/jsmpg.js:1673-1682 | the zig-zag order is a permutation of the block |
| `BlockDecoder.ZigZagSteps` | jsmpeg-master/jsmpg.js:1673-1682 | the order begins at 0 and each step goes along the diagonals, upwards and downwards in turn, and along the edges |
| `BlockDecoder.PremultiplierIsScale` | jsmpeg-master/jsmpg.js:1704-1713 | the premultiplier of row i and column j is 32 times the scales of both, to the nearest integer |
| `BlockDecoder.ScaleIsCosine` | jsmpeg-master/jsmpg.js:1704-1713 | these scales are 1 and the square root of 2 times the cosines |
| `BlockDecoder.DequantizedIsOdd` | jsmpeg-master/jsmpg.js:1447-1461 | a dequantised coefficient is the odd number next to its value on the side of zero, 1 for values around 0, within 12 bits |
| `BlockDecoder.ShippedOrder` | jsmpeg-master/jsmpg.js:1673-1713 | the shipped zig-zag order and premultipliers are sound for every matrix |
| `BlockDecoder.ReadToken` | jsmpeg-master/jsmpg.js:1412-1444 | reads an end of block, a coefficient or an escape exactly as coded, with the special meaning of the first code |
| `BlockDecoder.EscapeDecodes` | jsmpeg-master/jsmpg.js:1421-1434 | every level from -255 to 255 but 0 is read back from its escape form |
| `BlockDecoder.DecodeCoefficients` | jsmpeg-master/jsmpg.js:1410-1465 | on a well-formed block the loop terminates, fills in exactly its coefficients and counts their places |
| `BlockDecoder.OnePlace` | jsmpeg-master/jsmpg.js:1410-1465 | n == 1 is reached only when no index other than 0 was written |
| `BlockDecoder.DcDifferenceCodes` | jsmpeg-master/jsmpg.js:1375-1387 | every difference that needs a number of bits is coded by exactly one value of them |
| `BlockDecoder.PaintedInside` | jsmpeg-master/jsmpg.js:1516-1566 | each pixel of the block's square holds the clamped value, or the clamped sum |
| `BlockDecoder.PaintedOutside` | jsmpeg-master/jsmpg.js:1516-1566 | every pixel outside the square is unchanged |
| `BlockDecoder.PaintBlock` | jsmpeg-master/jsmpg.js:1516-1540 | copying or adding a block paints it |
| `BlockDecoder.PaintValue` | jsmpeg-master/jsmpg.js:1542-1566 | copying or adding a value paints a constant block |
| `BlockDecoder.MoveBlock` | jsmpeg-master/jsmpg.js:1490-1511 | with or without the shortcut the plane gets the full inverse transform, and the block buffer is cleared |
| `BlockDecoder.PlaceIsQuarter` | jsmpeg-master/jsmpg.js:1467-1488 | luminance blocks fill the quarters of the macroblock, chrominance blocks their 8 x 8 square |
| `BlockDecoder.BlockLayer.DecodeDc` | jsmpeg-master/jsmpg.js:1359-1404 | the DC coefficient is the predictor moved by the coded difference, only that predictor moves |
| `BlockDecoder.BlockLayer.DecodeBlock` | jsmpeg-master/jsmpg.js:1352-1514 | entered with a zero buffer, every well-formed block leaves it zero, leaves the reader after the block, and paints the inverse transform of its coefficients, shortcut or not |
| `Recorder.LoadMatrix` | jsmpeg-master/jsmpg.js:538-541 | a custom matrix holds the 64 bytes in zig-zag order |
| `Recorder.DecodeSequenceHeader` | jsmpeg-master/jsmpg.js:529-550 | width, height, rate and matrices are the bits at their places |
| `Recorder.RecordedHeaderDecodes` | jsmpeg-master/jsmpg.js:214-228 | the recorder's header starts a sequence and decodes to its width and height if and only if both are below 4096, without custom matrices |
| `RobotLink.AdjacentBytesDetected` | raw_server/simple_server_main.c:542-565 | messages of any equal length that differ only within two adjacent bytes have different check sums |
| `RobotLink.OneByteDetected` | raw_server/simple_server_main.c:542-565 | a single changed byte is detected at any length |
| `RobotLink.ZeroResidue` | raw_server/simple_server_main.c:542-565 | exactly the check sum's low byte and then its high byte drive the register to zero |
| `RobotLink.AcceptedIffZero` | raw_server/simple_server_main.c:176-176 | the receiver accepts a frame if and only if the register over bytes 1 to 8 is zero |
| `RobotLink.Crc16` | raw_server/simple_server_main.c:542-565 | the nested loops compute the register after the message |
| `RobotLink.CheckValue` | raw_server/simple_server_main.c:542-565 | the check sum of 123456789 is 0x4B37, the check value of CRC-16/MODBUS |
| `RobotLink.MotorFrame` | raw_server/simple_server_main.c:307-329 | every motor frame has its bytes in order and passes the receiver's test |
| `Watchdog.WatchdogInRange` | raw_server/simple_server_main.c:412-444 | in every run 0 <= watchdog <= cycles <= 3 |
| `Watchdog.SilentRun` | raw_server/simple_server_main.c:412-444 | what any stretch without commands does, exactly |
| `Watchdog.StopsAfterSilence` | raw_server/simple_server_main.c:293-304 | after any history, once more than cycles ticks pass without a write to the command buffer, every frame sent has zero speed bytes |
| `Watchdog.CommandHolds` | raw_server/simple_server_main.c:171-189 | an accepted command is sent unchanged for three ticks of silence and with zero speeds afterwards |
| `Watchdog.KeysDoNothing` | raw_server/simple_server_main.c:77-83 | the key that raises a speed never changes what is sent |
| `Watchdog.Robot.Dog` | raw_server/simple_server_main.c:412-426 | a round of the watchdog thread is a tick |
| `Watchdog.Robot.ReceiveDatagram` | raw_server/simple_server_main.c:171-189 | a datagram is a command if its check sum is right, otherwise nothing changes |
| `Watchdog.Robot.ReceiveStream` | raw_server/simple_server_main.c:126-149 | bytes from TCP overwrite the start of the command; only without debugging do they restart the watchdog |
| `Watchdog.Robot.PressKey` | raw_server/simple_server_main.c:77-83 | the key changes the speed variable alone, which wraps at 256 |
| `Watchdog.Session` | raw_server/simple_server_main.c:293-304 | the frames sent during a session of ticks, datagrams, TCP bytes and key presses are those of the step machine |
| `IdleList.RingRemove` | node-v0.12.9/lib/_linklist.js:47-58 | taking any item out closes the ring behind it |
| `IdleList.RingInsert` | node-v0.12.9/lib/_linklist.js:63-69 | inserting puts the item behind the last one |
| `IdleList.RemoveKeepsWorld` | node-v0.12.9/lib/_linklist.js:47-58 | from any well-formed set of lists an item leaves whatever list it was in, and all rings stay mutually inverse and disjoint |
| `IdleList.InsertKeepsWorld` | node-v0.12.9/lib/_linklist.js:63-69 | a free item joins a list at the back, and all rings stay mutually inverse and disjoint |
| `IdleList.Init` | node-v0.12.9/lib/_linklist.js:22-25 | a free object becomes an empty list |
| `IdleList.Peek` | node-v0.12.9/lib/_linklist.js:30-33 | the most idle item, or null for an empty list |
| `IdleList.Shift` | node-v0.12.9/lib/_linklist.js:38-42 | takes out and returns the front of the queue; on an empty list it destroys the list |
| `IdleList.Remove` | node-v0.12.9/lib/_linklist.js:47-58 | in the heap, the item leaves its list and nothing else changes |
| `IdleList.Append` | node-v0.12.9/lib/_linklist.js:63-69 | in the heap, the item leaves any list it was in and goes to the back of the given one |
| `IdleList.IsEmpty` | node-v0.12.9/lib/_linklist.js:73-75 | true exactly for lists without items |
| `IdleList.Session` | node-v0.12.9/lib/_linklist.js:22-76 | over every session of init, append, remove and shift on any number of lists the rings stay well formed, shift returns what the queues return, and each queue is what was left alone in it followed by the items that were appended to it last, in that order |
| `IdleList.OrderOfLastAppend` | node-v0.12.9/lib/_linklist.js:38-69 | after every session each queue is the items whose last operation appended them to it, in the order of these operations, behind those left alone from before |
| `IdleList.ShiftTakesOldest` | node-v0.12.9/lib/_linklist.js:38-42 | after every session a shift returns the item whose last append to that list was the earliest |

## Left out

- HTTP: `writeContinue` on a queued response, calling `writeHead` twice, and requests that arrive after a response marked as
  last has finished: the code does not keep header order or the queue invariant there.
- HTTP: how `_storeHeader` renders the header lines; a header is its text, which is ASCII and starts with the HTTP version,
  together with the decisions that the code derives from it. Strings with lone surrogates, 'hex' strings of odd length, for
  which the code throws, sockets that fail or close during a session, aborted requests, timeouts and drain events.
- HTTP: `Serve` covers runs in which a handler that calls `writeHead` does so before its first write.
- Streams: `pipe`, `unpipe`, `wrap` and `setEncoding` with its string decoder.
- `ReadableStream.Simulate`: user code that calls `read` while `_read` runs is excluded outside object mode, because the code
  miscounts there; `ReadableStream.Readable.ReadInsideRead` covers `_read` methods that only read. Exceptions thrown by user
  code. The value that `push` and `unshift` return.
- Highlighter: matching regular expressions is reduced to the calls of `output` and the ends of lines; links (`sh_setHref`)
  and the DOM objects behind the nodes are not modelled.
- `TagStreams.InsertTags`: the tree is built as a value; the identity of cloned and re-used DOM nodes is not captured.
- Debugger protocol: JSON stays text, and an exception from parsing it is not modelled. Lone surrogates. Which replacement
  text a cut character becomes is a parameter.
- `DebuggerProtocol.Protocol.Execute`: after the exception for a full stack nothing is said about the parser's state. Texts of
  2^31 bytes and more.
- `DebuggerProtocol.EndlessExactly`: for text that is not ASCII a cut character can become several, so that the text grows;
  `DebuggerProtocol.RestShorter` says when, and no exact condition for the end of the recursion is given.
- `DebuggerProtocol.ReadLength`: numbers are exact, without the rounding of doubles.
- `SocketRing.Play`: the field that records a wrap since the last cut is added for the proof; a message that would overwrite
  the unfinished picture or wrap twice ends the run, because the code loses data there. Decoding between messages is not
  modelled; it reads only the other buffer.
- `BitReader.Reader.FindNextMPEGStartCode`: positions are unbounded integers; the 32-bit shifts of the code limit buffers to
  a quarter of a gigabyte.
- `SeekIndex.Player.CollectIntraFrames`: entries are appended to those already in the list, as in the code, whose list
  belongs to the prototype and is shared.
- `MotionCompensation.CopyMacroblock`: the chrominance loops of the code handle both planes in one pass, and the four odd and
  even cases are four copies of the outer loop; the model runs one outer loop for each plane. Vectors pointing outside the
  reference plane are excluded, as the code does not check them. Words are stored low byte first.
- `Idct.IDCT`: the 32-bit truncation of `>>` for sums beyond 2^31, which only out-of-range coefficients reach. The premultipliers
  are rounded to integers, so that for high frequencies the decoder is not close to an exact cosine transform, and no bound is
  given for both together.
- `BlockDecoder.BlockLayer.DecodeBlock`: blocks whose coefficients run past the end of the block are excluded; the code does
  not stop there. Agreement of the dequantisation with the standard is not claimed: the code rounds down and turns zero into
  one. Planes that do not clamp.
- `MotionVectors.MotionDecoder.DecodeMotionVectors`: macroblock addresses and types, and backward vectors, which the decoder
  does not use.
- `Watchdog.Session`: ticks, arrivals and serial writes are atomic; closing and restarting the TCP thread, and the check sum
  of a frame whose speeds the watchdog cleared, which the code does not update.
- WebGL, canvas, timers, sockets and the other foreign interfaces; the remaining node libraries; the user interface, joystick,
  GPS and streaming programs: they would only add easy members.
