/** The exact bytes of a response: its header, its coded body and the closing piece, and when a run produces them. */
module ResponseForm {
  import opened Common
  import opened Seqs
  import opened HttpMessage
  import opened ChunkedCoding
  import opened ResponseCalls

  // ---- The form

  /** The trailer in force when `end` was called. */
  function EndTrailer(m: Message, ops: seq<Op>): seq<string>
  {
    if ops == [] then []
    else
      var before := Run(m, ops[..|ops| - 1]);
      if before.finished then EndTrailer(m, ops[..|ops| - 1]) else before.trailer
  }

  function ClosingPart(m: Message, lines: seq<string>): seq<byte>
  {
    if m.hasBody && m.chunked then Encode(Closing(lines), Binary) else []
  }

  /** Header first, then the coded form of everything written. */
  function HeadAndBody(m: Message, log: seq<Data>): seq<byte>
    requires m.head.Some?
  {
    HeadBytes(m) + Body(m.chunked, log)
  }

  function WholeForm(m: Message, log: seq<Data>, lines: seq<string>): seq<byte>
    requires m.head.Some?
  {
    HeadAndBody(m, log) + ClosingPart(m, lines)
  }

  // ---- Texts that differ for good

  /** The two differ at a place that both have. */
  ghost predicate Off(x: seq<byte>, y: seq<byte>) { exists p :: 0 <= p < |x| && p < |y| && x[p] != y[p] }

  lemma OffGrows(x: seq<byte>, y: seq<byte>, x': seq<byte>, y': seq<byte>)
    requires Off(x, y) && x <= x' && y <= y'
    ensures Off(x', y')
  {
    var p :| 0 <= p < |x| && p < |y| && x[p] != y[p];
    assert x'[p] == x[p] && y'[p] == y[p];
  }

  lemma OffAfter(a: seq<byte>, x: seq<byte>, y: seq<byte>)
    requires Off(x, y)
    ensures Off(a + x, a + y)
  {
    var p :| 0 <= p < |x| && p < |y| && x[p] != y[p];
    assert (a + x)[|a| + p] == x[p] && (a + y)[|a| + p] == y[p];
  }

  /** Different sizes are announced differently. */
  lemma HexOff(a: nat, b: nat, x: seq<byte>, y: seq<byte>)
    requires a != b
    ensures Off(AsciiBytes(Hex(a)) + (CRLF_BYTES + x), AsciiBytes(Hex(b)) + (CRLF_BYTES + y))
  {
    var u, v := AsciiBytes(Hex(a)), AsciiBytes(Hex(b));
    HexDigitsParse(a);
    HexDigitsParse(b);
    if |u| == |v| {
      assert u != v;
      var p :| 0 <= p < |u| && u[p] != v[p];
      assert (u + (CRLF_BYTES + x))[p] == u[p] && (v + (CRLF_BYTES + y))[p] == v[p];
    } else if |u| < |v| {
      EndsEarlier(u, v, x, y);
    } else {
      EndsEarlier(v, u, y, x);
    }
  }

  lemma EndsEarlier(u: seq<byte>, v: seq<byte>, x: seq<byte>, y: seq<byte>)
    requires |u| < |v| && forall b :: b in v ==> IsHex(b)
    ensures Off(u + (CRLF_BYTES + x), v + (CRLF_BYTES + y)) && Off(v + (CRLF_BYTES + y), u + (CRLF_BYTES + x))
  {
    var s, t, p := u + (CRLF_BYTES + x), v + (CRLF_BYTES + y), |u|;
    assert s[p] == 13 && t[p] == v[p] && v[p] in v;
  }

  // ---- Calls that spoil the form

  lemma HeadStart(m: Message)
    requires m.head.Some?
    ensures |HeadBytes(m)| >= 9 && HeadBytes(m)[1] == 'T' as int
  {
    assert m.head.value.text[1] == VERSION[1];
  }

  /** A header in two-byte text. */
  lemma WideHeadOff(m: Message, s: string, more: seq<byte>)
    requires m.head.Some?
    ensures Off(Encode(m.head.value.text + s, Ucs2), HeadBytes(m) + more)
  {
    var text := m.head.value.text;
    HeadStart(m);
    EncodeConcat(text, s, Ucs2);
    WideZeros(text);
    assert Encode(text, Ucs2)[2 * 0 + 1] == 0;
    var x, y := Encode(text + s, Ucs2), HeadBytes(m) + more;
    assert x[1] == 0 && y[1] == 'T' as int;
  }

  /** A chunk in two-byte text after a good start. */
  lemma WideChunkOff(framed: string, n: nat, x: seq<byte>)
    requires framed != "" && IsAscii(framed[..1])
    ensures Off(Encode(framed, Ucs2), AsciiBytes(Hex(n)) + (CRLF_BYTES + x))
  {
    WideStart(framed);
    HexDigitsParse(n);
    var u := AsciiBytes(Hex(n));
    var y := u + (CRLF_BYTES + x);
    if |u| > 1 {
      assert y[1] == u[1] && u[1] in u;
    } else {
      assert y[1] == 13;
    }
  }

  lemma ChunkRegroup(p: seq<byte>)
    ensures Chunk(p) == AsciiBytes(Hex(|p|)) + (CRLF_BYTES + (p + CRLF_BYTES))
  {
    Assoc(AsciiBytes(Hex(|p|)) + CRLF_BYTES, p, CRLF_BYTES);
    Assoc(AsciiBytes(Hex(|p|)), CRLF_BYTES, p + CRLF_BYTES);
  }

  /** What a spoiling write leaves on the wire differs from the form. */
  lemma SpoilOff(m: Message, log: seq<Data>, d: Data)
    requires CodedUpTo(m, log) && m.head.Some? && !d.Empty()
    requires if m.chunked then d.Misframed() else d.Wide() && !m.headerSent
    ensures Off(SendAll(m, ChunkPieces(m.chunked, d)).bytes, HeadAndBody(m, log + [d]))
  {
    BodyAppend(m.chunked, log, d);
    if !m.headerSent && d.Wide() {
      FirstWideOff(m, log, d);
    } else if d.Wide() {
      LateWideOff(m, log, d);
    } else {
      MissizedOff(m, log, d);
    }
  }

  lemma FirstWideOff(m: Message, log: seq<Data>, d: Data)
    requires CodedUpTo(m, log) && m.head.Some? && d.Wide() && !m.headerSent
    ensures Off(SendAll(m, ChunkPieces(m.chunked, d)).bytes, HeadAndBody(m, log + [d]))
  {
    var s := if m.chunked then Framed(d) else d.s;
    var piece := Text(s, Ucs2);
    assert ChunkPieces(m.chunked, d) == [piece] && [piece][1..] == [];
    assert SendAll(m, [piece]) == Send(m, piece);
    Unit(Encode(m.head.value.text + s, Ucs2));
    WideHeadOff(m, s, Body(m.chunked, log + [d]));
  }

  lemma LateWideOff(m: Message, log: seq<Data>, d: Data)
    requires CodedUpTo(m, log) && m.head.Some? && m.chunked && d.Wide() && m.headerSent
    ensures Off(SendAll(m, ChunkPieces(true, d)).bytes, HeadAndBody(m, log + [d]))
  {
    WideBytes(m, log, d);
    FramedStart(d);
    BodyAppend(true, log, d);
    ChunkRegroup(d.Wire());
    WideChunkOff(Framed(d), |d.Wire()|, d.Wire() + CRLF_BYTES);
    OffAfter(HeadBytes(m) + Chunks(Payloads(log)), Encode(Framed(d), Ucs2), Chunk(d.Wire()));
    Assoc(HeadBytes(m), Chunks(Payloads(log)), Chunk(d.Wire()));
  }

  lemma MissizedOff(m: Message, log: seq<Data>, d: Data)
    requires CodedUpTo(m, log) && m.head.Some? && m.chunked && d.Misframed() && !d.Wide() && !d.Empty()
    ensures Off(SendAll(m, ChunkPieces(true, d)).bytes, HeadAndBody(m, log + [d]))
  {
    var w := AsciiBytes(Hex(d.Size())) + CRLF_BYTES + d.Wire() + CRLF_BYTES;
    MissizedBytes(m, log, d);
    BodyAppend(true, log, d);
    ChunkRegroup(d.Wire());
    Assoc(AsciiBytes(Hex(d.Size())) + CRLF_BYTES, d.Wire(), CRLF_BYTES);
    Assoc(AsciiBytes(Hex(d.Size())), CRLF_BYTES, d.Wire() + CRLF_BYTES);
    HexOff(d.Size(), |d.Wire()|, d.Wire() + CRLF_BYTES, d.Wire() + CRLF_BYTES);
    OffAfter(HeadBytes(m) + Chunks(Payloads(log)), w, Chunk(d.Wire()));
    Assoc(HeadBytes(m), Chunks(Payloads(log)), Chunk(d.Wire()));
  }

  // ---- Whole runs

  lemma BodyGrows(chunked: bool, log: seq<Data>, more: seq<Data>)
    requires |more| <= 1
    ensures Body(chunked, log) <= Body(chunked, log + more)
  {
    if more == [] {
      Unit(log);
    } else {
      assert more == [more[0]];
      BodyAppend(chunked, log, more[0]);
    }
  }

  /** A run with a spoiling call leaves bytes that differ from header and body, whatever was called afterwards. */
  lemma {:induction false} SpoiledRunOff(m: Message, ops: seq<Op>)
    requires CodedUpTo(m, []) && AllAllowed(m, ops) && !Clean(m, ops)
    ensures Run(m, ops).head.Some? && Off(Run(m, ops).bytes, HeadAndBody(Run(m, ops), Log(m, ops)))
  {
    var init := ops[..|ops| - 1];
    if Clean(m, init) {
      SpoiledNow(m, ops);
    } else {
      SpoiledRunOff(m, init);
      StaysOff(m, ops);
    }
  }

  lemma StaysOff(m: Message, ops: seq<Op>)
    requires Consistent(m) && AllAllowed(m, ops) && ops != []
    requires var before := Run(m, ops[..|ops| - 1]);
             before.head.Some? && Off(before.bytes, HeadAndBody(before, Log(m, ops[..|ops| - 1])))
    ensures Run(m, ops).head.Some? && Off(Run(m, ops).bytes, HeadAndBody(Run(m, ops), Log(m, ops)))
  {
    var init, op := ops[..|ops| - 1], ops[|ops| - 1];
    var before, after := Run(m, init), Run(m, ops);
    FinishedStays(m, init);
    StepKeepsHead(before, op);
    StepKeepsConsistent(before, op);
    BodyGrows(before.chunked, Log(m, init), Accepted(before, op));
    OffGrows(before.bytes, HeadAndBody(before, Log(m, init)), after.bytes, HeadAndBody(after, Log(m, ops)));
  }

  lemma SpoiledNow(m: Message, ops: seq<Op>)
    requires CodedUpTo(m, []) && AllAllowed(m, ops) && ops != [] && Clean(m, ops[..|ops| - 1]) && !Clean(m, ops)
    ensures Run(m, ops).head.Some? && Off(Run(m, ops).bytes, HeadAndBody(Run(m, ops), Log(m, ops)))
  {
    var init, op := ops[..|ops| - 1], ops[|ops| - 1];
    var before := Run(m, init);
    var d := Accepted(before, op)[0];
    assert Accepted(before, op) == [d];
    CodedRun(m, init);
    SpoiledByCall(before, Log(m, init), op, d);
  }

  lemma SpoiledByCall(m: Message, log: seq<Data>, op: Op, d: Data)
    requires CodedUpTo(m, log) && Allowed(m, op) && Spoils(m, op) && Accepted(m, op) == [d]
    ensures Step(m, op).head.Some? && Off(Step(m, op).bytes, HeadAndBody(Step(m, op), log + [d]))
  {
    var m0 := ImplicitHead(m);
    SpoilOff(m0, log, d);
    StepKeepsHead(m, op);
    var m1 := WriteData(m0, d);
    assert m1 == SendAll(m0, ChunkPieces(m0.chunked, d));
    if op.End? {
      WriteKeepsConsistent(m0, d);
      OffGrows(m1.bytes, HeadAndBody(m0, log + [d]), Step(m, op).bytes, HeadAndBody(m0, log + [d]));
    }
  }

  lemma NewIsCoded(h: Head, hasBody: bool)
    ensures CodedUpTo(NewMessage(h, hasBody), [])
  {
  }

  /** A finished message in terms of its own state. */
  lemma FinishedState(h: Head, hasBody: bool, ops: seq<Op>)
    requires AllAllowed(NewMessage(h, hasBody), ops) && Run(NewMessage(h, hasBody), ops).finished
    ensures var m0 := NewMessage(h, hasBody); var m := Run(m0, ops);
            m.head.Some? && (m.bytes == WholeForm(m, Log(m0, ops), EndTrailer(m0, ops)) <==> Clean(m0, ops))
  {
    var m0 := NewMessage(h, hasBody);
    var m := Run(m0, ops);
    NewIsCoded(h, hasBody);
    FinishedStays(m0, ops);
    if Clean(m0, ops) {
      CleanForm(h, hasBody, ops);
    } else {
      SpoiledRunOff(m0, ops);
      OffGrows(m.bytes, HeadAndBody(m, Log(m0, ops)), m.bytes, WholeForm(m, Log(m0, ops), EndTrailer(m0, ops)));
    }
  }

  lemma {:induction false} CleanForm(h: Head, hasBody: bool, ops: seq<Op>)
    requires AllAllowed(NewMessage(h, hasBody), ops) && Run(NewMessage(h, hasBody), ops).finished
             && Clean(NewMessage(h, hasBody), ops)
    ensures var m0 := NewMessage(h, hasBody); var m := Run(m0, ops);
            m.head.Some? && m.bytes == WholeForm(m, Log(m0, ops), EndTrailer(m0, ops))
  {
    var m0 := NewMessage(h, hasBody);
    var init, op := ops[..|ops| - 1], ops[|ops| - 1];
    var before := Run(m0, init);
    NewIsCoded(h, hasBody);
    FinishedStays(m0, init);
    if before.finished {
      CleanForm(h, hasBody, init);
      FinishedStep(before, op);
      Unit(Log(m0, init));
    } else {
      CodedRun(m0, init);
      ClosedForm(before, Log(m0, init), op);
    }
  }

  /** Nothing that is called after `end` matters. */
  lemma FinishedStep(m: Message, op: Op)
    requires Consistent(m) && Allowed(m, op) && m.finished
    ensures var m' := Step(m, op);
            m'.bytes == m.bytes && m'.head == m.head && m'.chunked == m.chunked && m'.hasBody == m.hasBody
                && Accepted(m, op) == []
  {
    StepKeepsConsistent(m, op);
    StepKeepsHead(m, op);
  }

  lemma ClosedForm(m: Message, log: seq<Data>, op: Op)
    requires CodedUpTo(m, log) && Allowed(m, op) && Step(m, op).finished && !Spoils(m, op)
    ensures var m' := Step(m, op); m'.head.Some? && m'.bytes == WholeForm(m', log + Accepted(m, op), m.trailer)
  {
    assert op.End? by {
      if op.Write? { WriteKeepsConsistent(m, op.d); }
    }
    CodedFinish(m, log, op.data);
    FinishKeepsHead(m, op.data);
  }

  lemma UnfinishedState(h: Head, hasBody: bool, ops: seq<Op>)
    requires AllAllowed(NewMessage(h, hasBody), ops) && !Run(NewMessage(h, hasBody), ops).finished
    ensures var m0 := NewMessage(h, hasBody); var m := Run(m0, ops);
            if m.headerSent then m.head.Some? && (m.bytes == HeadAndBody(m, Log(m0, ops)) <==> Clean(m0, ops))
            else m.bytes == []
  {
    var m0 := NewMessage(h, hasBody);
    NewIsCoded(h, hasBody);
    FinishedStays(m0, ops);
    if Clean(m0, ops) { CodedRun(m0, ops); } else { SpoiledRunOff(m0, ops); }
  }

  // ---- In terms of the calls

  lemma {:induction false} TrailerFollows(implicitHead: Head, hasBody: bool, ops: seq<Op>)
    requires AllAllowed(NewMessage(implicitHead, hasBody), ops) && Ended(ops)
    ensures EndTrailer(NewMessage(implicitHead, hasBody), ops) == LastTrailer(ops)
  {
    var init := ops[..|ops| - 1];
    FollowsCalls(implicitHead, hasBody, init);
    if Ended(init) { TrailerFollows(implicitHead, hasBody, init); }
  }

  /** A finished response is the header that its calls chose, the body that they offered and the closing piece, in
      this order and whole, exactly if nothing that they offered is spoiled: no two-byte string carries the header or a
      chunk, and no chunk announces another size than it has. */
  lemma FinishedForm(implicitHead: Head, hasBody: bool, ops: seq<Op>)
    requires AllAllowed(NewMessage(implicitHead, hasBody), ops) && Ended(ops)
    ensures var h, m := ChosenHead(implicitHead, ops), Run(NewMessage(implicitHead, hasBody), ops);
            && h.Some? && m.finished && m.last == h.value.last
            && (m.bytes == Response(h.value, hasBody, ops) <==> Unspoiled(implicitHead, hasBody, ops))
  {
    FollowsCalls(implicitHead, hasBody, ops);
    TrailerFollows(implicitHead, hasBody, ops);
    FinishedState(implicitHead, hasBody, ops);
  }

  /** Before that it is the header and the body so far, exactly if nothing is spoiled, or nothing as long as no
      header was flushed and no body was offered. */
  lemma UnfinishedForm(implicitHead: Head, hasBody: bool, ops: seq<Op>)
    requires AllAllowed(NewMessage(implicitHead, hasBody), ops) && !Ended(ops)
    ensures var h, m := ChosenHead(implicitHead, ops), Run(NewMessage(implicitHead, hasBody), ops);
            && !m.finished
            && if h.Some? && (FlushedFirst(implicitHead, ops) || BodyData(h.value, hasBody, ops) != []) then
                 m.bytes == SoFar(h.value, hasBody, ops) <==> Unspoiled(implicitHead, hasBody, ops)
               else m.bytes == []
  {
    FollowsCalls(implicitHead, hasBody, ops);
    UnfinishedState(implicitHead, hasBody, ops);
  }

  /** For every sequence of calls up to the first `end`: if the header that they choose says chunked and the
      response has a body, then behind the header a decoder finds exactly the data that they offered, in order, and the
      last trailer, and leaves whatever follows untouched - if and only if nothing offered is a two-byte string, or a
      string in the 'hex' or 'base64' encoding whose announced size is zero or not the number of its bytes, and each
      trailer line is one line. */
  lemma ResponseDecodes(implicitHead: Head, hasBody: bool, ops: seq<Op>, data: Option<Data>, rest: seq<byte>)
    requires AllAllowed(NewMessage(implicitHead, hasBody), ops + [End(data)]) && !Ended(ops) && hasBody
    requires var h := ChosenHead(implicitHead, ops + [End(data)]); h.Some? ==> h.value.chunked && !h.value.noBody
    ensures var all := ops + [End(data)];
            var h, bytes := ChosenHead(implicitHead, all), Run(NewMessage(implicitHead, hasBody), all).bytes;
            && h.Some?
            && (!AnyFaulty(Offered(all)) && GoodLines(LastTrailer(ops)) <==>
                && AsciiBytes(h.value.text) <= bytes
                && Decode(bytes[|h.value.text|..] + rest)
                   == Some(Decoded(Payloads(Offered(all)), LineBytes(LastTrailer(ops)), rest)))
  {
    var m0, all := NewMessage(implicitHead, hasBody), ops + [End(data)];
    assert all[..|all| - 1] == ops;
    FollowsCalls(implicitHead, hasBody, ops);
    FollowsCalls(implicitHead, hasBody, all);
    ChunkedRoundTrip(implicitHead, hasBody, ops, data, rest);
  }

  // ---- Witnesses

  /** A padding sign is text, but no bytes: its chunk is the end of the body. */
  lemma PaddingIsNothing()
    ensures Base64("=") == Coded(1, 0, [])
  {
    UnitsCons('=', "");
    assert ['='] + "" == "=";
    OnePadding(Units("="));
  }

  lemma OnePadding(u: seq<int>)
    requires |u| == 1 && u[0] == 61
    ensures Sextets(u) == [] && Base64Size(u) == 0 && FromSextets([]) == []
  {
    assert u[1..] == [];
  }

  lemma UnitsCons(c: char, s: string)
    requires c as int < 0x1_0000
    ensures Units([c] + s) == [c as int] + Units(s) && Units("") == []
  {
    assert ([c] + s)[1..] == s;
  }

  /** Two characters that are no digits are announced as a byte, but not sent. */
  lemma NoDigitsAreAnnounced()
    ensures |Units("zz")| == 2 && Hexed("zz") == Coded(2, 1, []) && Hexed("zz").Faulty()
  {
    UnitsCons('z', "");
    UnitsCons('z', "z");
    assert ['z'] + "" == "z" && ['z'] + "z" == "zz";
    NoPairs(Units("zz"));
  }

  lemma NoPairs(u: seq<int>)
    requires |u| == 2 && u[0] == 122
    ensures HexBytes(u) == []
  {
  }

  lemma LineUnits()
    ensures Units("AA\n") == [65, 65, 10]
  {
    UnitsCons('\n', "");
    UnitsCons('A', "\n");
    UnitsCons('A', "A\n");
    assert ['\n'] + "" == "\n" && ['A'] + "\n" == "A\n" && ['A'] + "A\n" == "AA\n";
  }

  lemma LineSextets(u: seq<int>)
    requires |u| == 3 && u[0] == 65 && u[1] == 65 && u[2] == 10
    ensures |Sextets(u)| == 2 && Sextets(u)[0] == 0 && Sextets(u)[1] == 0
  {
    var u1 := u[1..];
    var u2 := u1[1..];
    assert u2[1..] == [] && Sextets(u2) == [] + Sextets(u2[1..]);
    assert Sextets(u1) == [0] + Sextets(u2);
  }

  lemma SizeOfThree(u: seq<int>)
    requires |u| == 3 && u[2] != 61
    ensures Base64Size(u) == 2
  {
  }

  lemma OneByteOf(v: seq<int>)
    requires |v| == 2 && v[0] == 0 && v[1] == 0
    ensures FromSextets(v) == [0]
  {
  }

  /** A line break in base64 text is announced but not sent. */
  lemma LineBreakIsAnnounced()
    ensures Base64("AA\n") == Coded(3, 2, [0])
  {
    var u := Units("AA\n");
    LineUnits();
    LineSextets(u);
    SizeOfThree(u);
    OneByteOf(Sextets(u));
  }

  lemma TwoCalls(m: Message, a: Op, b: Op)
    ensures Run(m, [a]) == Step(m, a) && Run(m, [a, b]) == Step(Step(m, a), b)
    ensures AllAllowed(m, [a, b]) <==> Allowed(m, a) && Allowed(Step(m, a), b)
    ensures Log(m, [a, b]) == Accepted(m, a) + Accepted(Step(m, a), b)
  {
    var one, two := [a], [a, b];
    assert one[..0] == [] && two[..1] == one && one[0] == a && two[1] == b;
    assert Run(m, one) == Step(Run(m, one[..0]), a) && Run(m, two) == Step(Run(m, two[..1]), b);
    assert AllAllowed(m, one) <==> Allowed(m, a);
    assert Log(m, one) == Accepted(m, a);
  }

  /** One write of any faulty data, and the response is not read back. */
  lemma OneFaultyWrite(h: Head, d: Data, rest: seq<byte>)
    requires h.chunked && !h.noBody && !d.Empty() && d.Faulty()
    ensures var m := Run(NewMessage(h, true), [Write(d), End(None)]);
            m.head.Some? && !(HeadBytes(m) <= m.bytes
                              && Decode(m.bytes[|HeadBytes(m)|..] + rest) == Some(Decoded([d.Wire()], [], rest)))
  {
    var m0 := NewMessage(h, true);
    WriteThenEnd(h, d);
    FaultyLog(d);
    ChunkedRoundTrip(h, true, [Write(d)], None, rest);
    assert [Write(d)] + [End(None)] == [Write(d), End(None)];
  }

  lemma WriteThenEnd(h: Head, d: Data)
    requires h.chunked && !h.noBody && !d.Empty()
    ensures var m0, ops := NewMessage(h, true), [Write(d), End(None)];
            && AllAllowed(m0, ops) && Log(m0, ops) == [d] && !Run(m0, [Write(d)]).finished
            && Run(m0, ops).chunked && Run(m0, ops).hasBody && Run(m0, [Write(d)]).trailer == []
  {
    var m0 := NewMessage(h, true);
    TwoCalls(m0, Write(d), End(None));
    WriteKeepsConsistent(m0, d);
    WriteKeepsConsistent(ImplicitHead(m0), d);
    FinishKeepsHead(WriteData(m0, d), None);
    assert Accepted(m0, Write(d)) == [d] && Accepted(WriteData(m0, d), End(None)) == [];
    Unit([d]);
  }

  lemma FaultyLog(d: Data)
    requires d.Faulty()
    ensures AnyFaulty([d]) && Payloads([d]) == [d.Wire()] && LineBytes([]) == []
  {
    assert [d][0].Faulty();
  }

  /** The smallest failing writes apart from that: a letter in a two-byte encoding, and the two base64 texts. */
  lemma FailingWrites()
    ensures Text("a", Ucs2).Faulty() && Base64("=").Faulty() && Base64("AA\n").Faulty()
  {
    PaddingIsNothing();
    LineBreakIsAnnounced();
  }
}
