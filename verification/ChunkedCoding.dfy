/** The chunked transfer coding of a response body, against a decoder for section 3.6.1 of RFC 2616. */
module ChunkedCoding {
  import opened Common
  import opened HttpMessage
  import opened Seqs

  // ---- The decoder

  predicate IsHex(b: byte) { 48 <= b <= 57 || 65 <= b <= 70 || 97 <= b <= 102 }

  function HexValue(b: byte): (v: nat)
    requires IsHex(b)
    ensures v < 16
  {
    if b <= 57 then b - 48 else if b <= 70 then b - 55 else b - 87
  }

  function HexRun(bs: seq<byte>): (k: nat)
    ensures k <= |bs|
    ensures forall i :: 0 <= i < k ==> IsHex(bs[i])
    ensures k < |bs| ==> !IsHex(bs[k])
  {
    if bs == [] || !IsHex(bs[0]) then 0 else 1 + HexRun(bs[1..])
  }

  function HexNumber(bs: seq<byte>): nat
    requires forall i :: 0 <= i < |bs| ==> IsHex(bs[i])
  {
    if bs == [] then 0 else 16 * HexNumber(bs[..|bs| - 1]) + HexValue(bs[|bs| - 1])
  }

  /** The position of the first CR LF. */
  function FirstCrlf(bs: seq<byte>): (r: Option<nat>)
    ensures r.Some? ==> r.value + 2 <= |bs| && bs[r.value] == 13 && bs[r.value + 1] == 10
  {
    if |bs| < 2 then None
    else if bs[..2] == CRLF_BYTES then Some(0)
    else match FirstCrlf(bs[1..]) case None => None case Some(i) => Some(i + 1)
  }

  datatype Decoded = Decoded(chunks: seq<seq<byte>>, trailer: seq<seq<byte>>, rest: seq<byte>)

  function DecodeTrailer(bs: seq<byte>): Option<Decoded>
    decreases |bs|
  {
    match FirstCrlf(bs)
    case None => None
    case Some(i) =>
      if i == 0 then Some(Decoded([], [], bs[2..]))
      else
        match DecodeTrailer(bs[i + 2..])
        case None => None
        case Some(d) => Some(d.(trailer := [bs[..i]] + d.trailer))
  }

  /** Bytes taken by an optional chunk extension and the CR LF after a chunk size. */
  function SizeLineEnd(bs: seq<byte>): (r: Option<nat>)
    ensures r.Some? ==> 2 <= r.value <= |bs|
  {
    if |bs| >= 2 && bs[..2] == CRLF_BYTES then Some(2)
    else if |bs| >= 1 && bs[0] == 59 then
      match FirstCrlf(bs) case None => None case Some(i) => Some(i + 2)
    else None
  }

  /** Decodes one chunked body; what follows it is `rest`. */
  function Decode(bs: seq<byte>): Option<Decoded>
    decreases |bs|
  {
    var k := HexRun(bs);
    var e := SizeLineEnd(bs[k..]);
    if k == 0 || e.None? then None
    else
      var n := HexNumber(bs[..k]);
      var data := bs[k + e.value..];
      if n == 0 then DecodeTrailer(data)
      else if |data| < n + 2 || data[n..n + 2] != CRLF_BYTES then None
      else
        match Decode(data[n + 2..])
        case None => None
        case Some(d) => Some(d.(chunks := [data[..n]] + d.chunks))
  }

  // ---- The reference form of a response

  function Chunk(payload: seq<byte>): seq<byte>
  {
    AsciiBytes(Hex(|payload|)) + CRLF_BYTES + payload + CRLF_BYTES
  }

  function Payloads(log: seq<Data>): seq<seq<byte>>
  {
    seq(|log|, i requires 0 <= i < |log| => log[i].Wire())
  }

  function Chunks(payloads: seq<seq<byte>>): seq<byte>
  {
    if payloads == [] then [] else Chunks(payloads[..|payloads| - 1]) + Chunk(payloads[|payloads| - 1])
  }

  function Plain(payloads: seq<seq<byte>>): seq<byte>
  {
    if payloads == [] then [] else Plain(payloads[..|payloads| - 1]) + payloads[|payloads| - 1]
  }

  /** The coded form of everything written so far, without the closing piece. */
  function Body(chunked: bool, log: seq<Data>): seq<byte>
  {
    if chunked then Chunks(Payloads(log)) else Plain(Payloads(log))
  }

  predicate AnyFaulty(log: seq<Data>) { exists i :: 0 <= i < |log| && log[i].Faulty() }

  predicate AllNonEmpty(log: seq<Data>) { forall i :: 0 <= i < |log| ==> !log[i].Empty() }

  /** The last chunk, the trailer and the closing empty line. */
  function Closing(lines: seq<string>): string { "0" + CRLF + TrailerText(lines) + CRLF }

  function HeadBytes(m: Message): (r: seq<byte>)
    requires m.head.Some?
    ensures |r| == |m.head.value.text|
  {
    AsciiBytes(m.head.value.text)
  }

  // ---- What a call adds to the body

  /** The non-empty data that a call adds to the body of `m`. */
  function Accepted(m: Message, op: Op): (log: seq<Data>)
    ensures AllNonEmpty(log)
  {
    var d := if op.Write? then Some(op.d) else if op.End? then op.data else None;
    if d.Some? && !m.finished && ImplicitHead(m).hasBody && !d.value.Empty() then [d.value] else []
  }

  function Run(m: Message, ops: seq<Op>): Message
  {
    if ops == [] then m else Step(Run(m, ops[..|ops| - 1]), ops[|ops| - 1])
  }

  predicate AllAllowed(m: Message, ops: seq<Op>)
  {
    ops == [] || (AllAllowed(m, ops[..|ops| - 1]) && Allowed(Run(m, ops[..|ops| - 1]), ops[|ops| - 1]))
  }

  function Log(m: Message, ops: seq<Op>): (log: seq<Data>)
    ensures AllNonEmpty(log)
  {
    if ops == [] then [] else Log(m, ops[..|ops| - 1]) + Accepted(Run(m, ops[..|ops| - 1]), ops[|ops| - 1])
  }

  /** Does the call put something else on the wire than the header and the coded payload? In a chunked body that is a
      misframed chunk; otherwise only a two-byte string that takes the header with it. */
  predicate Spoils(m: Message, op: Op)
  {
    var m' := ImplicitHead(m);
    Accepted(m, op) != [] && var d := Accepted(m, op)[0];
        if m'.chunked then d.Misframed() else d.Wide() && !m'.headerSent
  }

  /** No call of the run does. */
  predicate Clean(m: Message, ops: seq<Op>)
  {
    ops == [] || (Clean(m, ops[..|ops| - 1]) && !Spoils(Run(m, ops[..|ops| - 1]), ops[|ops| - 1]))
  }

  /** Everything an unfinished message has sent: nothing at all, or the header and then the coded body. */
  ghost predicate CodedUpTo(m: Message, log: seq<Data>)
  {
    && Consistent(m) && AllNonEmpty(log) && !m.finished
    && (!m.headerSent ==> log == [])
    && (m.headerSent ==> m.bytes == HeadBytes(m) + Body(m.chunked, log))
  }

  lemma BodyAppend(chunked: bool, log: seq<Data>, d: Data)
    ensures Body(chunked, log + [d]) == Body(chunked, log) + if chunked then Chunk(d.Wire()) else d.Wire()
  {
    assert Payloads(log + [d])[..|log|] == Payloads(log);
  }

  lemma BodyEmpty(chunked: bool)
    ensures Body(chunked, []) == []
  {
    assert Payloads([]) == [];
  }

  lemma AsciiConcat(s: string, t: string)
    requires IsAscii(s) && IsAscii(t)
    ensures AsciiBytes(s + t) == AsciiBytes(s) + AsciiBytes(t)
  {
  }

  /** A text chunk, framed in its own encoding, is the framed payload unless the encoding is two bytes wide. */
  lemma TextChunkWire(s: string, enc: Encoding)
    requires !enc.Ucs2?
    ensures Encode(Hex(|Encode(s, enc)|) + CRLF + s + CRLF, enc) == Chunk(Encode(s, enc))
  {
    var h := Hex(|Encode(s, enc)|);
    EncodeConcat(h + CRLF + s, CRLF, enc);
    EncodeConcat(h + CRLF, s, enc);
    EncodeConcat(h, CRLF, enc);
    EncodeAscii(h, enc);
    CrlfBytes(enc);
  }

  /** What `_send` adds for the pieces of one chunk. */
  function PieceBytes(ds: seq<Data>): seq<byte>
  {
    if ds == [] then [] else ds[0].Wire() + PieceBytes(ds[1..])
  }

  lemma {:induction false} SendAllBytes(m: Message, ds: seq<Data>)
    requires m.head.Some? && m.headerSent
    ensures SendAll(m, ds) == m.(bytes := m.bytes + PieceBytes(ds))
    decreases |ds|
  {
    if ds != [] {
      SendAllBytes(Send(m, ds[0]), ds[1..]);
      Assoc(m.bytes, ds[0].Wire(), PieceBytes(ds[1..]));
    }
  }

  lemma PieceBytesCons(d: Data, ds: seq<Data>)
    ensures PieceBytes([d] + ds) == d.Wire() + PieceBytes(ds)
  {
    assert ([d] + ds)[1..] == ds;
  }

  lemma FourPieces(a: Data, b: Data, c: Data, d: Data)
    ensures PieceBytes([a, b, c, d]) == a.Wire() + b.Wire() + c.Wire() + d.Wire()
  {
    PieceBytesCons(d, []);
    Unit(d.Wire());
    PieceBytesCons(c, [d]);
    PieceBytesCons(b, [c, d]);
    PieceBytesCons(a, [b, c, d]);
    assert [d] + [] == [d] && [c] + [d] == [c, d] && [b] + [c, d] == [b, c, d] && [a] + [b, c, d] == [a, b, c, d];
    Assoc(b.Wire(), c.Wire(), d.Wire());
    Assoc(a.Wire(), b.Wire(), c.Wire() + d.Wire());
    Assoc(a.Wire() + b.Wire(), c.Wire(), d.Wire());
  }

  /** Text that can take a header with it, and everything that is no text. */
  predicate Narrow(d: Data) { d.Text? ==> !d.enc.Ucs2? }

  lemma ChunkPieceBytes(chunked: bool, d: Data)
    requires !d.Empty() && (chunked ==> !d.Misframed())
    ensures PieceBytes(ChunkPieces(chunked, d)) == if chunked then Chunk(d.Wire()) else d.Wire()
    ensures chunked || !d.Wide() ==> Narrow(ChunkPieces(chunked, d)[0])
  {
    var ds := ChunkPieces(chunked, d);
    if !chunked {
      assert ds[1..] == [];
      Unit(d.Wire());
    } else if d.Text? && !d.enc.Binary? {
      TextChunkWire(d.s, d.enc);
      assert ds[1..] == [];
    } else {
      EncodeAscii(Hex(|d.Wire()|), Binary);
      FourPieces(Text(Hex(|d.Wire()|), Binary), Bytes(CRLF_BYTES), d, Bytes(CRLF_BYTES));
    }
  }

  /** The header goes out once, in front of the first piece. */
  lemma FirstSend(m: Message, d: Data)
    requires m.head.Some? && !m.headerSent && m.bytes == [] && Narrow(d)
    ensures Send(m, d) == m.(headerSent := true, bytes := HeadBytes(m) + d.Wire())
  {
    if d.Text? {
      EncodeConcat(m.head.value.text, d.s, d.enc);
      EncodeAscii(m.head.value.text, d.enc);
    } else {
      EncodeAscii(m.head.value.text, Binary);
    }
  }

  lemma SendPieces(m: Message, ds: seq<Data>)
    requires m.head.Some? && Consistent(m) && ds != [] && (m.headerSent || Narrow(ds[0]))
    ensures SendAll(m, ds) ==
            m.(headerSent := true, bytes := (if m.headerSent then m.bytes else HeadBytes(m)) + PieceBytes(ds))
  {
    if m.headerSent {
      SendAllBytes(m, ds);
    } else {
      FirstSend(m, ds[0]);
      SendAllBytes(Send(m, ds[0]), ds[1..]);
      Assoc(HeadBytes(m), ds[0].Wire(), PieceBytes(ds[1..]));
    }
  }

  lemma CodedWrite(m: Message, log: seq<Data>, d: Data)
    requires CodedUpTo(m, log) && !Spoils(m, Write(d))
    ensures CodedUpTo(WriteData(m, d), log + Accepted(m, Write(d)))
  {
    var m' := ImplicitHead(m);
    if m'.hasBody && !d.Empty() {
      assert Accepted(m, Write(d))[0] == d;
      ChunkPieceBytes(m'.chunked, d);
      CodedSend(m', log, d, ChunkPieces(m'.chunked, d));
    } else {
      assert log + [] == log;
    }
  }

  lemma CodedSend(m: Message, log: seq<Data>, d: Data, pieces: seq<Data>)
    requires CodedUpTo(m, log) && m.head.Some? && !d.Empty()
    requires pieces != [] && (m.headerSent || Narrow(pieces[0]))
    requires PieceBytes(pieces) == if m.chunked then Chunk(d.Wire()) else d.Wire()
    ensures CodedUpTo(SendAll(m, pieces), log + [d])
  {
    var head, body, extra := HeadBytes(m), Body(m.chunked, log), PieceBytes(pieces);
    var m' := m.(headerSent := true, bytes := head + (body + extra));
    assert SendAll(m, pieces) == m' by {
      SendPieces(m, pieces);
      BodyEmpty(m.chunked);
      Unit(extra);
      Assoc(head, body, extra);
    }
    assert Body(m.chunked, log + [d]) == body + extra by {
      BodyAppend(m.chunked, log, d);
    }
  }

  /** Every call other than `end` keeps the header-first form, unless it spoils it. */
  lemma CodedStep(m: Message, log: seq<Data>, op: Op)
    requires CodedUpTo(m, log) && Allowed(m, op) && !op.End? && !Spoils(m, op)
    ensures CodedUpTo(Step(m, op), log + Accepted(m, op))
  {
    if op.Write? {
      CodedWrite(m, log, op.d);
    } else {
      assert log + [] == log;
      if op.FlushHeaders? && m.head.None? {
        FirstSend(ImplicitHead(m), Text("", Utf8));
        BodyEmpty(m.implicitHead.chunked);
      }
    }
  }

  lemma AnyFaultyConcat(a: seq<Data>, b: seq<Data>)
    ensures AnyFaulty(a + b) <==> AnyFaulty(a) || AnyFaulty(b)
  {
    if AnyFaulty(a) {
      var i :| 0 <= i < |a| && a[i].Faulty();
      assert (a + b)[i].Faulty();
    }
    if AnyFaulty(b) {
      var i :| 0 <= i < |b| && b[i].Faulty();
      assert (a + b)[|a| + i].Faulty();
    }
  }

  lemma {:induction false} FinishedStays(m: Message, ops: seq<Op>)
    requires Consistent(m) && AllAllowed(m, ops)
    ensures Consistent(Run(m, ops))
    ensures ops != [] && !Run(m, ops).finished ==> !Run(m, ops[..|ops| - 1]).finished && !ops[|ops| - 1].End?
  {
    if ops != [] {
      var before := Run(m, ops[..|ops| - 1]);
      FinishedStays(m, ops[..|ops| - 1]);
      StepKeepsConsistent(before, ops[|ops| - 1]);
    }
  }

  /** Over every run that no call spoils, an unfinished message has sent its header and then its coded body. */
  lemma {:induction false} CodedRun(m: Message, ops: seq<Op>)
    requires CodedUpTo(m, []) && AllAllowed(m, ops) && !Run(m, ops).finished && Clean(m, ops)
    ensures CodedUpTo(Run(m, ops), Log(m, ops))
  {
    if ops != [] {
      var init, op := ops[..|ops| - 1], ops[|ops| - 1];
      FinishedStays(m, ops);
      CodedRun(m, init);
      CodedStep(Run(m, init), Log(m, init), op);
    }
  }

  /** `end` closes the body, after its own data if it has any. */
  lemma CodedFinish(m: Message, log: seq<Data>, d: Option<Data>)
    requires CodedUpTo(m, log) && !Spoils(m, End(d))
    ensures var m' := Finish(m, d); var log' := log + Accepted(m, End(d));
            && m'.head.Some? && m'.finished
            && m'.bytes == HeadBytes(m') + Body(m'.chunked, log') + LastPiece(ImplicitHead(m)).Wire()
  {
    var m0 := ImplicitHead(m);
    var m1 := WriteOptional(m0, d);
    var log' := log + Accepted(m, End(d));
    assert CodedUpTo(m1, log') && m1.hasBody == m0.hasBody && m1.chunked == m0.chunked && m1.trailer == m0.trailer by {
      if d.Some? && m0.hasBody {
        assert Accepted(m0, Write(d.value)) == Accepted(m, End(d));
        CodedWrite(m0, log, d.value);
        WriteKeepsConsistent(m0, d.value);
      } else {
        assert log + [] == log;
      }
    }
    CodedClose(m1, log', LastPiece(m0));
  }

  lemma CodedClose(m: Message, log: seq<Data>, piece: Data)
    requires CodedUpTo(m, log) && m.head.Some? && Narrow(piece)
    ensures Send(m, piece) == m.(headerSent := true, bytes := HeadBytes(m) + Body(m.chunked, log) + piece.Wire())
  {
    BodyEmpty(m.chunked);
    if !m.headerSent {
      FirstSend(m, piece);
      Unit(HeadBytes(m));
    }
  }

  // ---- Decoding what was coded

  lemma {:induction false} HexDigitsParse(n: nat)
    ensures forall b :: b in AsciiBytes(Hex(n)) ==> IsHex(b)
    ensures HexNumber(AsciiBytes(Hex(n))) == n
  {
    var s := Hex(n);
    if n >= 16 {
      HexDigitsParse(n / 16);
      AsciiConcat(Hex(n / 16), [HexDigit(n % 16)]);
      var bs := AsciiBytes(s);
      assert bs[..|bs| - 1] == AsciiBytes(Hex(n / 16));
    } else {
      assert AsciiBytes(s)[..0] == [];
    }
  }

  lemma {:induction false} HexRunStops(digits: seq<byte>, rest: seq<byte>)
    requires forall b :: b in digits ==> IsHex(b)
    requires rest != [] && !IsHex(rest[0])
    ensures HexRun(digits + rest) == |digits|
  {
    if digits == [] {
      assert digits + rest == rest;
    } else {
      assert (digits + rest)[1..] == digits[1..] + rest;
      HexRunStops(digits[1..], rest);
    }
  }

  /** A size line announcing `n`, followed by anything. */
  lemma SizeLine(n: nat, rest: seq<byte>)
    ensures var bs := AsciiBytes(Hex(n)) + CRLF_BYTES + rest; var k := |Hex(n)|;
            HexRun(bs) == k && k > 0 && HexNumber(bs[..k]) == n && SizeLineEnd(bs[k..]) == Some(2)
                && bs[k + 2..] == rest
  {
    var digits := AsciiBytes(Hex(n));
    HexDigitsParse(n);
    HexRunStops(digits, CRLF_BYTES + rest);
    Assoc(digits, CRLF_BYTES, rest);
    var bs := digits + (CRLF_BYTES + rest);
    assert bs[..|digits|] == digits && bs[|digits|..] == CRLF_BYTES + rest;
    assert (CRLF_BYTES + rest)[..2] == CRLF_BYTES;
  }

  function AfterChunks(payloads: seq<seq<byte>>, r: Option<Decoded>): Option<Decoded>
  {
    match r case None => None case Some(d) => Some(d.(chunks := payloads + d.chunks))
  }

  lemma AfterChunksConcat(a: seq<seq<byte>>, b: seq<seq<byte>>, r: Option<Decoded>)
    ensures AfterChunks(a, AfterChunks(b, r)) == AfterChunks(a + b, r)
    ensures AfterChunks([], r) == r
  {
    if r.Some? {
      Assoc(a, b, r.value.chunks);
      Unit(r.value.chunks);
    }
  }

  lemma DecodeChunk(payload: seq<byte>, rest: seq<byte>)
    requires payload != []
    ensures Decode(Chunk(payload) + rest) == AfterChunks([payload], Decode(rest))
  {
    var n := |payload|;
    var data := payload + CRLF_BYTES + rest;
    var bs := AsciiBytes(Hex(n)) + CRLF_BYTES + data;
    assert Chunk(payload) + rest == bs;
    SizeLine(n, data);
    assert data[..n] == payload && data[n..n + 2] == CRLF_BYTES && data[n + 2..] == rest;
  }

  lemma {:induction false} DecodeChunks(payloads: seq<seq<byte>>, rest: seq<byte>)
    requires forall i :: 0 <= i < |payloads| ==> payloads[i] != []
    ensures Decode(Chunks(payloads) + rest) == AfterChunks(payloads, Decode(rest))
  {
    if payloads == [] {
      Unit(rest);
      AfterChunksConcat([], [], Decode(rest));
    } else {
      var init, last := payloads[..|payloads| - 1], payloads[|payloads| - 1];
      Assoc(Chunks(init), Chunk(last), rest);
      DecodeChunks(init, Chunk(last) + rest);
      DecodeChunk(last, rest);
      AfterChunksConcat(init, [last], Decode(rest));
      assert payloads == init + [last];
    }
  }

  /** A trailer line that is one line on the wire: not empty, and without a line end inside. */
  predicate GoodLine(line: string) { line != "" && FirstCrlf(Encode(line, Binary)) == None }

  predicate GoodLines(lines: seq<string>) { forall i :: 0 <= i < |lines| ==> GoodLine(lines[i]) }

  function LineBytes(lines: seq<string>): seq<seq<byte>>
  {
    seq(|lines|, i requires 0 <= i < |lines| => Encode(lines[i], Binary))
  }

  lemma LineBytesCons(lines: seq<string>)
    requires lines != []
    ensures LineBytes(lines) == [Encode(lines[0], Binary)] + LineBytes(lines[1..])
  {
  }

  lemma {:induction false} FirstCrlfFound(line: seq<byte>, rest: seq<byte>)
    requires FirstCrlf(line) == None
    ensures FirstCrlf(line + (CRLF_BYTES + rest)) == Some(|line|)
  {
    var bs := line + (CRLF_BYTES + rest);
    if line == [] {
      assert bs[..2] == CRLF_BYTES;
    } else {
      assert bs[1..] == line[1..] + (CRLF_BYTES + rest);
      assert bs[..2] != CRLF_BYTES by {
        if |line| >= 2 {
          assert bs[..2] == line[..2];
        } else {
          assert bs[..2][1] == 13;
        }
      }
      FirstCrlfFound(line[1..], rest);
    }
  }

  lemma {:induction false} FirstCrlfStable(line: seq<byte>, rest: seq<byte>)
    requires FirstCrlf(line).Some?
    ensures FirstCrlf(line + rest) == FirstCrlf(line)
  {
    assert (line + rest)[..2] == line[..2] && (line + rest)[1..] == line[1..] + rest;
    if line[..2] != CRLF_BYTES { FirstCrlfStable(line[1..], rest); }
  }

  lemma DecodeTrailerLine(line: seq<byte>, more: seq<byte>)
    requires FirstCrlf(line) == None
    ensures DecodeTrailer(line + (CRLF_BYTES + more)) ==
            if line == [] then Some(Decoded([], [], more))
            else match DecodeTrailer(more) case None => None case Some(d) => Some(d.(trailer := [line] + d.trailer))
  {
    var bs := line + (CRLF_BYTES + more);
    FirstCrlfFound(line, more);
    Split(line, CRLF_BYTES + more);
    assert bs[|line| + 2..] == more;
  }

  /** A line with a line end inside is not read back. */
  lemma BadTrailerLine(line: seq<byte>, more: seq<byte>)
    requires line == [] || FirstCrlf(line).Some?
    ensures var r := DecodeTrailer(line + (CRLF_BYTES + more));
              r.Some? ==> r.value.trailer == [] || r.value.trailer[0] != line
  {
    var bs := line + (CRLF_BYTES + more);
    if line == [] {
      Unit(CRLF_BYTES + more);
      DecodeTrailerLine([], more);
    } else {
      FirstCrlfStable(line, CRLF_BYTES + more);
      var i := FirstCrlf(line).value;
      assert bs[..i] == line[..i] && |line[..i]| < |line|;
    }
  }

  lemma CrlfBytes(enc: Encoding)
    requires !enc.Ucs2?
    ensures Encode(CRLF, enc) == CRLF_BYTES
  {
    EncodeAscii(CRLF, enc);
  }

  lemma TrailerTextBytes(lines: seq<string>, rest: seq<byte>)
    requires lines != []
    ensures Encode(TrailerText(lines) + CRLF, Binary) + rest
         == Encode(lines[0], Binary) + (CRLF_BYTES + (Encode(TrailerText(lines[1..]) + CRLF, Binary) + rest))
  {
    var line, tail := lines[0], TrailerText(lines[1..]) + CRLF;
    Assoc(line + CRLF, TrailerText(lines[1..]), CRLF);
    Assoc(line, CRLF, tail);
    EncodeConcat(line, CRLF + tail, Binary);
    EncodeConcat(CRLF, tail, Binary);
    CrlfBytes(Binary);
    Assoc(Encode(line, Binary), CRLF_BYTES + Encode(tail, Binary), rest);
    Assoc(CRLF_BYTES, Encode(tail, Binary), rest);
  }

  /** The trailer is read back exactly if each of its lines is one line on the wire. */
  lemma {:induction false} DecodeTrailerLines(lines: seq<string>, rest: seq<byte>)
    ensures DecodeTrailer(Encode(TrailerText(lines) + CRLF, Binary) + rest) == Some(Decoded([], LineBytes(lines), rest))
            <==> GoodLines(lines)
    ensures var r := DecodeTrailer(Encode(TrailerText(lines) + CRLF, Binary) + rest); r.Some? ==> r.value.chunks == []
  {
    TrailerHasNoChunks(Encode(TrailerText(lines) + CRLF, Binary) + rest);
    if lines == [] {
      DecodeNoTrailer(rest);
      assert LineBytes(lines) == [];
    } else {
      var line, more := Encode(lines[0], Binary), Encode(TrailerText(lines[1..]) + CRLF, Binary) + rest;
      TrailerTextBytes(lines, rest);
      LineBytesCons(lines);
      if GoodLine(lines[0]) {
        DecodeTrailerLines(lines[1..], rest);
        DecodeTrailerLine(line, more);
        GoodLinesCons(lines);
        AddLine(DecodeTrailer(more), line, LineBytes(lines[1..]), rest);
      } else {
        BadTrailerLine(line, more);
        assert LineBytes(lines)[0] == line;
      }
    }
  }

  lemma AddLine(r: Option<Decoded>, line: seq<byte>, lines: seq<seq<byte>>, rest: seq<byte>)
    ensures (match r case None => None case Some(d) => Some(d.(trailer := [line] + d.trailer))) ==
              Some(Decoded([], [line] + lines, rest))
            <==> r == Some(Decoded([], lines, rest))
  {
    if r.Some? && [line] + r.value.trailer == [line] + lines {
      Split([line], r.value.trailer);
      Split([line], lines);
    }
  }

  lemma GoodLinesCons(lines: seq<string>)
    requires lines != []
    ensures GoodLines(lines) <==> GoodLine(lines[0]) && GoodLines(lines[1..])
  {
    if GoodLine(lines[0]) && GoodLines(lines[1..]) {
      forall i | 0 <= i < |lines| ensures GoodLine(lines[i]) {
        if i > 0 { assert lines[1..][i - 1] == lines[i]; }
      }
    }
  }

  lemma {:induction false} TrailerHasNoChunks(bs: seq<byte>)
    ensures DecodeTrailer(bs).Some? ==> DecodeTrailer(bs).value.chunks == []
    decreases |bs|
  {
    var r := FirstCrlf(bs);
    if r.Some? && r.value > 0 { TrailerHasNoChunks(bs[r.value + 2..]); }
  }

  lemma DecodeNoTrailer(rest: seq<byte>)
    ensures DecodeTrailer(Encode(TrailerText([]) + CRLF, Binary) + rest) == Some(Decoded([], [], rest))
  {
    assert TrailerText([]) + CRLF == CRLF;
    CrlfBytes(Binary);
    DecodeTrailerLine([], rest);
    Unit(CRLF_BYTES + rest);
  }

  lemma ClosingBytes(lines: seq<string>)
    ensures Encode(Closing(lines), Binary) == AsciiBytes(Hex(0)) + CRLF_BYTES
              + Encode(TrailerText(lines) + CRLF, Binary)
  {
    var zero, tail := Hex(0), TrailerText(lines) + CRLF;
    assert Closing(lines) == zero + CRLF + tail;
    EncodeConcat(zero + CRLF, tail, Binary);
    EncodeConcat(zero, CRLF, Binary);
    EncodeAscii(zero, Binary);
    CrlfBytes(Binary);
  }

  lemma DecodeClosing(lines: seq<string>, rest: seq<byte>)
    ensures Decode(Encode(Closing(lines), Binary) + rest) == Some(Decoded([], LineBytes(lines), rest)) <==>
              GoodLines(lines)
    ensures var r := Decode(Encode(Closing(lines), Binary) + rest); r.Some? ==> r.value.chunks == []
  {
    var coded := Encode(TrailerText(lines) + CRLF, Binary);
    ClosingBytes(lines);
    Assoc(AsciiBytes(Hex(0)) + CRLF_BYTES, coded, rest);
    DecodeTrailerLines(lines, rest);
    DecodeSizeZero(coded + rest);
  }

  lemma DecodeSizeZero(rest: seq<byte>)
    ensures Decode(AsciiBytes(Hex(0)) + CRLF_BYTES + rest) == DecodeTrailer(rest)
  {
    SizeLine(0, rest);
  }

  lemma PayloadsNonEmpty(log: seq<Data>)
    requires !AnyFaulty(log)
    ensures forall i :: 0 <= i < |log| ==> Payloads(log)[i] != []
  {
    forall i | 0 <= i < |log| ensures Payloads(log)[i] != [] {
      assert !log[i].Faulty();
    }
  }

  // ---- Chunks that do not carry their payload

  /** The bytes after the header do not decode to chunks that start with `want`, whatever follows them. */
  ghost predicate Misses(head: seq<byte>, bs: seq<byte>, more: seq<byte>, want: seq<seq<byte>>)
  {
    !(head <= bs + more) || Without(Decode((bs + more)[|head|..]), want)
  }

  ghost predicate Without(r: Option<Decoded>, want: seq<seq<byte>>) { r.None? || !(want <= r.value.chunks) }

  ghost predicate Broken(m: Message, want: seq<seq<byte>>)
  {
    m.head.Some? && Ruined(HeadBytes(m), m.bytes, want)
  }

  ghost predicate Ruined(head: seq<byte>, bs: seq<byte>, want: seq<seq<byte>>)
  {
    forall more :: Misses(head, bs, more, want)
  }

  lemma GrowsMisses(head: seq<byte>, bs: seq<byte>, delta: seq<byte>, more: seq<byte>, want: seq<seq<byte>>)
    requires Misses(head, bs, delta + more, want)
    ensures Misses(head, bs + delta, more, want)
  {
    Assoc(bs, delta, more);
  }

  lemma BrokenExtends(head: seq<byte>, bs: seq<byte>, delta: seq<byte>, want: seq<seq<byte>>)
    requires Ruined(head, bs, want)
    ensures Ruined(head, bs + delta, want)
  {
    forall more ensures Misses(head, bs + delta, more, want) {
      GrowsMisses(head, bs, delta, more, want);
    }
  }

  lemma BrokenGrows(m: Message, m': Message, want: seq<seq<byte>>)
    requires Broken(m, want) && m'.head == m.head && m.bytes <= m'.bytes
    ensures Broken(m', want)
  {
    var delta := m'.bytes[|m.bytes|..];
    BrokenExtends(HeadBytes(m), m.bytes, delta, want);
    assert m'.bytes == m.bytes + delta;
  }

  /** A zero byte where a chunk size should start or end. */
  lemma DecodeZero(bs: seq<byte>)
    requires |bs| >= 2 && (bs[0] == 0 || bs[1] == 0)
    ensures Decode(bs) == None
  {
    if IsHex(bs[0]) {
      assert HexRun(bs) == 1;
      assert bs[1..][0] == 0;
    }
  }

  lemma ZeroAt(w: seq<byte>, more: seq<byte>, k: nat)
    requires k + 2 <= |w| && (w[k] == 0 || w[k + 1] == 0)
    ensures Decode((w + more)[k..]) == None
  {
    DecodeZero((w + more)[k..]);
  }

  lemma {:induction false} WideZeros(s: string)
    requires IsAscii(s)
    ensures |Encode(s, Ucs2)| == 2 * |s|
    ensures forall i :: 0 <= i < |s| ==> Encode(s, Ucs2)[2 * i + 1] == 0
  {
    if s != "" {
      var rest := Encode(s[1..], Ucs2);
      WideZeros(s[1..]);
      assert EncodeChar(s[0], Ucs2) == [s[0] as int, 0];
      forall i | 0 <= i < |s| ensures Encode(s, Ucs2)[2 * i + 1] == 0 {
        if i > 0 { assert rest[2 * (i - 1) + 1] == 0; }
      }
    }
  }

  lemma WideZeroNear(s: string, k: nat)
    requires IsAscii(s) && k < |s|
    ensures var w := Encode(s, Ucs2); k + 2 <= |w| && (w[k] == 0 || w[k + 1] == 0)
  {
    var w, i := Encode(s, Ucs2), k / 2;
    WideZeros(s);
    assert w[2 * i + 1] == 0;
    assert 2 * i + 1 == k || 2 * i + 1 == k + 1;
  }

  /** The first character of two-byte text has a zero byte. */
  lemma WideStart(s: string)
    requires s != "" && IsAscii(s[..1])
    ensures |Encode(s, Ucs2)| >= 2 && Encode(s, Ucs2)[1] == 0
  {
    assert s == s[..1] + s[1..];
    EncodeConcat(s[..1], s[1..], Ucs2);
    WideZeros(s[..1]);
    assert Encode(s[..1], Ucs2)[2 * 0 + 1] == 0;
  }

  function Framed(d: Data): string
    requires d.Text?
  {
    Hex(d.Size()) + CRLF + d.s + CRLF
  }

  lemma FramedStart(d: Data)
    requires d.Text?
    ensures Framed(d) != "" && IsAscii(Framed(d)[..1])
  {
    assert Framed(d)[..1] == Hex(d.Size())[..1];
  }

  /** What two-byte text puts on the wire: all of it, and the header if it has not gone out yet, in two bytes. */
  lemma WideBytes(m: Message, log: seq<Data>, d: Data)
    requires CodedUpTo(m, log) && m.head.Some? && m.chunked && d.Wide()
    ensures SendAll(m, ChunkPieces(true, d)) == m.(headerSent := true,
              bytes := if m.headerSent then HeadBytes(m) + Chunks(Payloads(log)) + Encode(Framed(d), Ucs2)
                       else Encode(m.head.value.text + Framed(d), Ucs2))
  {
    var piece := Text(Framed(d), Ucs2);
    assert ChunkPieces(true, d) == [piece] && [piece][1..] == [];
    assert SendAll(m, [piece]) == Send(m, piece);
    Unit(Encode(m.head.value.text + Framed(d), Ucs2));
  }

  /** A two-byte text chunk sent by a chunked message, first or later, makes the rest undecodable. */
  lemma WideBreaks(m: Message, log: seq<Data>, d: Data, want: seq<seq<byte>>)
    requires CodedUpTo(m, log) && !AnyFaulty(log) && m.head.Some? && m.chunked && d.Wide()
    ensures Broken(SendAll(m, ChunkPieces(true, d)), want)
  {
    WideBytes(m, log, d);
    FramedStart(d);
    WideRuins(m, log, Framed(d), SendAll(m, ChunkPieces(true, d)).bytes, want);
  }

  lemma WideRuins(m: Message, log: seq<Data>, framed: string, bs: seq<byte>, want: seq<seq<byte>>)
    requires m.head.Some? && !AnyFaulty(log) && framed != "" && IsAscii(framed[..1])
    requires bs == if m.headerSent then HeadBytes(m) + Chunks(Payloads(log)) + Encode(framed, Ucs2)
               else Encode(m.head.value.text + framed, Ucs2)
    ensures Ruined(HeadBytes(m), bs, want)
  {
    forall more ensures Misses(HeadBytes(m), bs, more, want) {
      WideFails(m, log, framed, bs, more);
      FailsMisses(HeadBytes(m), bs, more, want);
    }
  }

  lemma WideFails(m: Message, log: seq<Data>, framed: string, bs: seq<byte>, more: seq<byte>)
    requires m.head.Some? && !AnyFaulty(log) && framed != "" && IsAscii(framed[..1])
    requires bs == if m.headerSent then HeadBytes(m) + Chunks(Payloads(log)) + Encode(framed, Ucs2)
               else Encode(m.head.value.text + framed, Ucs2)
    ensures Fails(HeadBytes(m), bs, more)
  {
    if m.headerSent {
      LateWideFails(HeadBytes(m), log, framed, more);
    } else {
      FirstWideFails(m.head.value.text, framed, more);
    }
  }

  lemma FailsMisses(head: seq<byte>, bs: seq<byte>, more: seq<byte>, want: seq<seq<byte>>)
    requires Fails(head, bs, more)
    ensures Misses(head, bs, more, want)
  {
  }

  ghost predicate Fails(head: seq<byte>, bs: seq<byte>, more: seq<byte>)
  {
    !(head <= bs + more) || Decode((bs + more)[|head|..]) == None
  }

  lemma LateWideFails(head: seq<byte>, log: seq<Data>, framed: string, more: seq<byte>)
    requires !AnyFaulty(log) && framed != "" && IsAscii(framed[..1])
    ensures Fails(head, head + Chunks(Payloads(log)) + Encode(framed, Ucs2), more)
  {
    var w := Encode(framed, Ucs2);
    WideStart(framed);
    DecodeZero(w + more);
    AfterGoodChunks(head, log, w, more);
  }

  lemma FirstWideFails(head: string, framed: string, more: seq<byte>)
    requires IsAscii(head) && framed != "" && IsAscii(framed[..1])
    ensures Fails(AsciiBytes(head), Encode(head + framed, Ucs2), more)
  {
    var k, start := |head|, head + framed[..1];
    var w := Encode(start, Ucs2);
    var all := Encode(head + framed, Ucs2) + more;
    assert all == w + (Encode(framed[1..], Ucs2) + more) by {
      Regroup(head, framed, 1);
      EncodeConcat(start, framed[1..], Ucs2);
      Assoc(w, Encode(framed[1..], Ucs2), more);
    }
    WideZeroNear(start, k);
    ZeroAt(w, Encode(framed[1..], Ucs2) + more, k);
  }

  /** Decoding after the header and some good chunks. */
  lemma AfterGoodChunks(head: seq<byte>, log: seq<Data>, w: seq<byte>, more: seq<byte>)
    requires !AnyFaulty(log)
    ensures var bs := head + Chunks(Payloads(log)) + w;
            head <= bs + more && Decode((bs + more)[|head|..]) == AfterChunks(Payloads(log), Decode(w + more))
  {
    var chunks := Chunks(Payloads(log));
    PayloadsNonEmpty(log);
    DecodeChunks(Payloads(log), w + more);
    Assoc(head + chunks, w, more);
    Assoc(head, chunks, w + more);
    Split(head, chunks + (w + more));
  }

  /** The first chunk has the announced size, or there is none. */
  lemma AnnouncedSize(n: nat, data: seq<byte>)
    ensures var r := Decode(AsciiBytes(Hex(n)) + CRLF_BYTES + data);
            r.Some? && r.value.chunks != [] ==> n > 0 && |r.value.chunks[0]| == n
  {
    SizeLine(n, data);
    if n == 0 { TrailerHasNoChunks(data); }
  }

  /** A chunk whose announced size is not the number of its bytes, or is zero. */
  lemma MissizedBreaks(m: Message, log: seq<Data>, d: Data)
    requires CodedUpTo(m, log) && !AnyFaulty(log) && m.head.Some? && m.chunked && d.Faulty() && !d.Wide() && !d.Empty()
    ensures Broken(SendAll(m, ChunkPieces(true, d)), Payloads(log) + [d.Wire()])
  {
    var m' := SendAll(m, ChunkPieces(true, d));
    var w := AsciiBytes(Hex(d.Size())) + CRLF_BYTES + d.Wire() + CRLF_BYTES;
    MissizedBytes(m, log, d);
    forall more ensures Misses(HeadBytes(m), m'.bytes, more, Payloads(log) + [d.Wire()]) {
      AfterGoodChunks(HeadBytes(m), log, w, more);
      Assoc5(AsciiBytes(Hex(d.Size())), CRLF_BYTES, d.Wire(), CRLF_BYTES, more);
      Assoc(AsciiBytes(Hex(d.Size())), CRLF_BYTES, d.Wire() + (CRLF_BYTES + more));
      AnnouncedSize(d.Size(), d.Wire() + (CRLF_BYTES + more));
      NotNext(Payloads(log), d.Wire(), Decode(w + more));
    }
  }

  lemma NotNext(before: seq<seq<byte>>, p: seq<byte>, r: Option<Decoded>)
    requires r.Some? && r.value.chunks != [] ==> r.value.chunks[0] != p
    ensures Without(AfterChunks(before, r), before + [p])
  {
    if r.Some? && before + [p] <= before + r.value.chunks {
      assert (before + [p])[|before|] == p;
      assert |r.value.chunks| > 0 && (before + r.value.chunks)[|before|] == r.value.chunks[0];
    }
  }

  /** What such a chunk puts on the wire. */
  lemma MissizedBytes(m: Message, log: seq<Data>, d: Data)
    requires CodedUpTo(m, log) && m.head.Some? && m.chunked && d.Faulty() && !d.Wide() && !d.Empty()
    ensures d.Coded?
    ensures SendAll(m, ChunkPieces(true, d)) == m.(headerSent := true,
              bytes := HeadBytes(m) + Chunks(Payloads(log))
                  + (AsciiBytes(Hex(d.Size())) + CRLF_BYTES + d.Wire() + CRLF_BYTES))
  {
    var a, b := Text(Hex(d.Size()), Binary), Bytes(CRLF_BYTES);
    var ds := [a, b, d, b];
    assert ChunkPieces(true, d) == ds;
    EncodeAscii(Hex(d.Size()), Binary);
    FourPieces(a, b, d, b);
    SendPieces(m, ds);
    BodyEmpty(true);
    Unit(HeadBytes(m));
  }

  /** The index of the first faulty chunk. */
  ghost function FirstFault(log: seq<Data>): (k: nat)
    requires AnyFaulty(log)
    ensures k < |log| && log[k].Faulty() && !AnyFaulty(log[..k])
  {
    if AnyFaulty(log[..|log| - 1]) then
      assert log[..|log| - 1][..FirstFault(log[..|log| - 1])] == log[..FirstFault(log[..|log| - 1])];
      FirstFault(log[..|log| - 1])
    else
      AnyFaultyConcat(log[..|log| - 1], [log[|log| - 1]]);
      assert log == log[..|log| - 1] + [log[|log| - 1]];
      |log| - 1
  }

  lemma FinishKeepsHead(m: Message, d: Option<Data>)
    requires Consistent(m) && !m.finished
    ensures var m0, m' := ImplicitHead(m), Finish(m, d);
              m'.head == m0.head && m'.chunked == m0.chunked && m'.hasBody == m0.hasBody
  {
    if d.Some? { WriteKeepsConsistent(ImplicitHead(m), d.value); }
  }

  lemma StepKeepsHead(m: Message, op: Op)
    requires Consistent(m) && Allowed(m, op)
    ensures m.head.Some? ==>
              Step(m, op).head == m.head && Step(m, op).chunked == m.chunked && Step(m, op).hasBody == m.hasBody
    ensures Accepted(m, op) != [] ==>
              Step(m, op).head == ImplicitHead(m).head && Step(m, op).chunked == ImplicitHead(m).chunked
  {
    match op
    case Write(d) => WriteKeepsConsistent(ImplicitHead(m), d);
    case End(d) => if !m.finished { FinishKeepsHead(m, d); }
    case _ =>
  }

  lemma FaultyStepBreaks(m: Message, log: seq<Data>, op: Op)
    requires CodedUpTo(m, log) && !AnyFaulty(log) && Allowed(m, op) && AnyFaulty(Accepted(m, op)) && Step(m, op).chunked
    ensures Broken(Step(m, op), Payloads(log + Accepted(m, op)))
  {
    var d := if op.Write? then op.d else op.data.value;
    var m0 := ImplicitHead(m);
    assert Accepted(m, op) == [d] && [d][0] == d;
    StepKeepsHead(m, op);
    var want := Payloads(log) + [d.Wire()];
    assert Payloads(log + [d]) == want;
    if d.Wide() {
      WideBreaks(m0, log, d, want);
    } else {
      MissizedBreaks(m0, log, d);
    }
    var m1 := WriteData(m0, d);
    assert m1 == SendAll(m0, ChunkPieces(true, d));
    if op.End? {
      WriteKeepsConsistent(m0, d);
      BrokenGrows(m1, Step(m, op), want);
    }
  }

  /** The payloads up to the first faulty one. */
  ghost function Want(log: seq<Data>): seq<seq<byte>>
    requires AnyFaulty(log)
  {
    Payloads(log[..FirstFault(log) + 1])
  }

  lemma WantOf(log: seq<Data>, more: seq<Data>)
    requires AnyFaulty(log + more) && |more| <= 1
    ensures Want(log + more) == if AnyFaulty(log) then Want(log) else Payloads(log + more)
  {
    var all := log + more;
    if more == [] {
      Unit(log);
      assert AnyFaulty(log);
    } else {
      assert all[..|all| - 1] == log;
      if AnyFaulty(log) {
        assert all[..FirstFault(all) + 1] == log[..FirstFault(log) + 1];
      } else {
        assert all[..|all|] == all;
      }
    }
  }

  /** Once a faulty chunk was written into a chunked body, nothing that follows makes the body decode to the writes. */
  lemma {:induction false} FaultyRunBreaks(m: Message, ops: seq<Op>)
    requires CodedUpTo(m, []) && AllAllowed(m, ops) && AnyFaulty(Log(m, ops))
    ensures Run(m, ops).head.Some?
    ensures Run(m, ops).chunked ==> Broken(Run(m, ops), Want(Log(m, ops)))
  {
    var init := ops[..|ops| - 1];
    if AnyFaulty(Log(m, init)) {
      FaultyRunBreaks(m, init);
      StaysBroken(m, ops);
    } else {
      BreaksNow(m, ops);
    }
  }

  lemma StaysBroken(m: Message, ops: seq<Op>)
    requires Consistent(m) && AllAllowed(m, ops) && ops != [] && AnyFaulty(Log(m, ops[..|ops| - 1]))
    requires var before := Run(m, ops[..|ops| - 1]);
               before.head.Some? && (before.chunked ==> Broken(before, Want(Log(m, ops[..|ops| - 1]))))
    ensures AnyFaulty(Log(m, ops)) && Run(m, ops).head.Some?
            && (Run(m, ops).chunked ==> Broken(Run(m, ops), Want(Log(m, ops))))
  {
    var init, op := ops[..|ops| - 1], ops[|ops| - 1];
    var before := Run(m, init);
    FinishedStays(m, init);
    StepKeepsHead(before, op);
    StepKeepsConsistent(before, op);
    AnyFaultyConcat(Log(m, init), Accepted(before, op));
    WantOf(Log(m, init), Accepted(before, op));
    if before.chunked { BrokenGrows(before, Step(before, op), Want(Log(m, init))); }
  }

  lemma BreaksNow(m: Message, ops: seq<Op>)
    requires CodedUpTo(m, []) && AllAllowed(m, ops) && ops != [] && AnyFaulty(Log(m, ops))
             && !AnyFaulty(Log(m, ops[..|ops| - 1]))
    ensures Run(m, ops).head.Some? && (Run(m, ops).chunked ==> Broken(Run(m, ops), Want(Log(m, ops))))
  {
    var init, op := ops[..|ops| - 1], ops[|ops| - 1];
    var before := Run(m, init);
    FinishedStays(m, init);
    StepKeepsHead(before, op);
    AnyFaultyConcat(Log(m, init), Accepted(before, op));
    WantOf(Log(m, init), Accepted(before, op));
    if Step(before, op).chunked {
      NoFaultClean(m, init, true);
      CodedRun(m, init);
      FaultyStepBreaks(before, Log(m, init), op);
    }
  }

  /** In a chunked body only faulty chunks spoil a run. */
  lemma {:induction false} NoFaultClean(m: Message, ops: seq<Op>, chunked: bool)
    requires Consistent(m) && AllAllowed(m, ops) && !AnyFaulty(Log(m, ops)) && chunked
    requires Run(m, ops).head.Some? ==> Run(m, ops).chunked == chunked
    ensures Clean(m, ops)
  {
    if ops != [] {
      var init, op := ops[..|ops| - 1], ops[|ops| - 1];
      var before := Run(m, init);
      FinishedStays(m, init);
      StepKeepsHead(before, op);
      AnyFaultyConcat(Log(m, init), Accepted(before, op));
      NoFaultClean(m, init, chunked);
      if Accepted(before, op) != [] {
        assert !Accepted(before, op)[0].Faulty();
      }
    }
  }

  // ---- Main result

  /** For every sequence of calls ending in `end`, the bytes of a chunked response are its header followed by a body
      that decodes to exactly the non-empty writes, in order, with one final zero-length chunk and the trailer, leaving
      whatever follows on the wire untouched - if and only if no non-empty write is a two-byte string, or a string in
      the 'hex' or 'base64' encoding whose announced size is zero or not the number of its bytes, and each trailer line
      is one line. */
  lemma ChunkedRoundTrip(implicitHead: Head, hasBody: bool, ops: seq<Op>, data: Option<Data>, rest: seq<byte>)
    requires AllAllowed(NewMessage(implicitHead, hasBody), ops + [End(data)])
    requires !Run(NewMessage(implicitHead, hasBody), ops).finished
    requires var m := Run(NewMessage(implicitHead, hasBody), ops + [End(data)]); m.chunked && m.hasBody
    ensures var m0 := NewMessage(implicitHead, hasBody);
            var m := Run(m0, ops + [End(data)]);
            var log := Log(m0, ops + [End(data)]);
            && m.head.Some?
            && (!AnyFaulty(log) && GoodLines(Run(m0, ops).trailer) <==>
                && HeadBytes(m) <= m.bytes
                && Decode(m.bytes[|HeadBytes(m)|..] + rest)
                   == Some(Decoded(Payloads(log), LineBytes(Run(m0, ops).trailer), rest)))
  {
    var m0 := NewMessage(implicitHead, hasBody);
    var all := ops + [End(data)];
    assert all[..|all| - 1] == ops;
    var before, m := Run(m0, ops), Run(m0, all);
    var log := Log(m0, all);
    assert m == Finish(before, data);
    FinishedStays(m0, ops);
    FinishKeepsHead(before, data);
    if AnyFaulty(log) {
      FaultyRunBreaks(m0, all);
      BrokenFails(m, rest, log[..FirstFault(log) + 1], log);
    } else {
      NoFaultClean(m0, all, true);
      CodedRun(m0, ops);
      CodedFinish(before, Log(m0, ops), data);
      ClosedDecodes(m, before, log, rest, data);
    }
  }

  lemma BrokenFails(m: Message, rest: seq<byte>, some: seq<Data>, log: seq<Data>)
    requires Broken(m, Payloads(some)) && some <= log
    ensures HeadBytes(m) <= m.bytes ==>
              var r := Decode(m.bytes[|HeadBytes(m)|..] + rest); r.None? || r.value.chunks != Payloads(log)
  {
    if HeadBytes(m) <= m.bytes {
      var k := |HeadBytes(m)|;
      assert Misses(HeadBytes(m), m.bytes, rest, Payloads(some));
      assert (m.bytes + rest)[k..] == m.bytes[k..] + rest;
      assert HeadBytes(m) <= m.bytes + rest;
      assert Payloads(some) <= Payloads(log);
    }
  }

  lemma ClosedDecodes(m: Message, before: Message, log: seq<Data>, rest: seq<byte>, data: Option<Data>)
    requires m == Finish(before, data) && !before.finished && Consistent(before)
    requires m.head.Some? && m.chunked && m.hasBody && !AnyFaulty(log)
    requires m.bytes == HeadBytes(m) + Body(true, log) + LastPiece(ImplicitHead(before)).Wire()
    ensures HeadBytes(m) <= m.bytes
    ensures Decode(m.bytes[|HeadBytes(m)|..] + rest) == Some(Decoded(Payloads(log), LineBytes(before.trailer), rest))
            <==> GoodLines(before.trailer)
  {
    var m1 := ImplicitHead(before);
    FinishKeepsHead(before, data);
    assert LastPiece(m1).Wire() == Encode(Closing(before.trailer), Binary);
    CodedDecodes(HeadBytes(m), log, before.trailer, rest);
  }

  lemma CodedDecodes(head: seq<byte>, log: seq<Data>, lines: seq<string>, rest: seq<byte>)
    requires !AnyFaulty(log)
    ensures var bs := head + Body(true, log) + Encode(Closing(lines), Binary);
            head <= bs && (Decode(bs[|head|..] + rest) == Some(Decoded(Payloads(log), LineBytes(lines), rest)) <==>
                GoodLines(lines))
  {
    var chunks, closing := Chunks(Payloads(log)), Encode(Closing(lines), Binary);
    Assoc(head, chunks, closing);
    Split(head, chunks + closing);
    Assoc(chunks, closing, rest);
    PayloadsNonEmpty(log);
    DecodeChunks(Payloads(log), closing + rest);
    DecodeClosing(lines, rest);
    Unit(Payloads(log));
  }
}
