/** What the calls on a response ask for, without looking at the response, and that the response follows them. */
module ResponseCalls {
  import opened Common
  import opened Seqs
  import opened HttpMessage
  import opened ChunkedCoding

  // ---- The calls

  predicate Ended(ops: seq<Op>) { ops != [] && (Ended(ops[..|ops| - 1]) || ops[|ops| - 1].End?) }

  /** The header of the first call that needs one: the one given to `writeHead`, or else the implicit one. */
  function ChosenHead(implicitHead: Head, ops: seq<Op>): Option<Head>
  {
    if ops == [] then None
    else
      var before := ChosenHead(implicitHead, ops[..|ops| - 1]);
      if before.Some? then before
      else match ops[|ops| - 1]
        case WriteHead(h) => Some(h)
        case AddTrailers(_) => None
        case _ => Some(implicitHead)
  }

  /** Was that call `flushHeaders`? */
  predicate FlushedFirst(implicitHead: Head, ops: seq<Op>)
  {
    ops != [] &&
    if ChosenHead(implicitHead, ops[..|ops| - 1]).Some? then FlushedFirst(implicitHead, ops[..|ops| - 1])
    else ops[|ops| - 1].FlushHeaders?
  }

  /** The data of the writes and of `end`, up to the first `end`, without empty ones. */
  function Offered(ops: seq<Op>): seq<Data>
  {
    if ops == [] then []
    else
      var init, op := ops[..|ops| - 1], ops[|ops| - 1];
      Offered(init) + if Ended(init) then [] else NonEmpty(op)
  }

  function NonEmpty(op: Op): seq<Data>
  {
    if op.Write? && !op.d.Empty() then [op.d]
    else if op.End? && op.data.Some? && !op.data.value.Empty() then [op.data.value]
    else []
  }

  /** The last trailer that was given before the first `end`. */
  function LastTrailer(ops: seq<Op>): seq<string>
  {
    if ops == [] then []
    else
      var init, op := ops[..|ops| - 1], ops[|ops| - 1];
      if !Ended(init) && op.AddTrailers? then op.lines else LastTrailer(init)
  }

  /** The body of a response with the header `h`, where `hasBody` says what the request admits. */
  function BodyData(h: Head, hasBody: bool, ops: seq<Op>): seq<Data>
  {
    if hasBody && !h.noBody then Offered(ops) else []
  }

  /** Nothing is written that the framing spoils: in chunks nothing that is not framed as announced, and otherwise no
      two-byte string that takes the header with it. */
  predicate WellFramed(h: Head, flushed: bool, log: seq<Data>)
  {
    if h.chunked then forall i :: 0 <= i < |log| ==> !log[i].Misframed() else flushed || log == [] || !log[0].Wide()
  }

  /** The response that the calls ask for, up to the closing piece and with it. */
  function SoFar(h: Head, hasBody: bool, ops: seq<Op>): seq<byte>
  {
    AsciiBytes(h.text) + Body(h.chunked, BodyData(h, hasBody, ops))
  }

  function Response(h: Head, hasBody: bool, ops: seq<Op>): seq<byte>
  {
    SoFar(h, hasBody, ops) + if hasBody && !h.noBody && h.chunked then Encode(Closing(LastTrailer(ops)), Binary) else []
  }

  // ---- The response follows them

  /** The state of a response is what its calls say. */
  ghost predicate Follows(implicitHead: Head, hasBody: bool, ops: seq<Op>, m: Message)
  {
    && m.implicitHead == implicitHead && m.head == ChosenHead(implicitHead, ops) && m.finished == Ended(ops)
    && (!m.finished ==> m.trailer == LastTrailer(ops))
    && match m.head
       case None => m.hasBody == hasBody && !m.last && !m.headerSent && !m.finished && Offered(ops) == []
       case Some(h) =>
         && m.chunked == h.chunked && m.hasBody == (hasBody && !h.noBody) && m.last == h.last
         && (m.headerSent <==> FlushedFirst(implicitHead, ops) || BodyData(h, hasBody, ops) != [] || m.finished)
  }

  lemma Snoc(ops: seq<Op>, op: Op)
    ensures (ops + [op])[..|ops|] == ops && (ops + [op])[|ops|] == op
  {
  }

  lemma SendsHeader(m: Message, ds: seq<Data>)
    requires m.head.Some? && ds != []
    ensures SendAll(m, ds) == m.(headerSent := true, bytes := SendAll(m, ds).bytes)
  {
    SendAllAppends(Send(m, ds[0]), ds[1..]);
  }

  lemma WriteState(m: Message, d: Data)
    requires !m.finished
    ensures var m' := ImplicitHead(m);
            WriteData(m, d) == m'.(headerSent := m'.headerSent
                                   || (m'.hasBody && !d.Empty()), bytes := WriteData(m, d).bytes)
  {
    var m' := ImplicitHead(m);
    if m'.hasBody && !d.Empty() { SendsHeader(m', ChunkPieces(m'.chunked, d)); }
  }

  lemma FinishState(m: Message, d: Option<Data>)
    requires !m.finished
    ensures var m' := ImplicitHead(m);
            Finish(m, d) == m'.(headerSent := true, finished := true, bytes := Finish(m, d).bytes)
  {
    var m' := ImplicitHead(m);
    if d.Some? { WriteState(m', d.value); }
  }

  lemma FollowsStep(implicitHead: Head, hasBody: bool, ops: seq<Op>, m: Message, op: Op)
    requires Follows(implicitHead, hasBody, ops, m) && Allowed(m, op)
    ensures Follows(implicitHead, hasBody, ops + [op], Step(m, op))
    ensures Accepted(m, op) == if Ended(ops) || !ImplicitHead(m).hasBody then [] else NonEmpty(op)
  {
    Snoc(ops, op);
    Unit(Offered(ops));
    if !m.finished {
      match op
      case Write(d) => WriteState(m, d);
      case End(d) => FinishState(m, d);
      case _ =>
    }
  }

  /** What is written to the body: what the calls offered, if the response has one. */
  function WrittenBody(implicitHead: Head, hasBody: bool, ops: seq<Op>): seq<Data>
  {
    match ChosenHead(implicitHead, ops) case None => [] case Some(h) => BodyData(h, hasBody, ops)
  }

  lemma LogStep(implicitHead: Head, hasBody: bool, ops: seq<Op>, op: Op, m: Message)
    requires Follows(implicitHead, hasBody, ops, m) && Allowed(m, op)
    ensures WrittenBody(implicitHead, hasBody, ops + [op]) == WrittenBody(implicitHead, hasBody, ops) + Accepted(m, op)
  {
    FollowsStep(implicitHead, hasBody, ops, m, op);
    Snoc(ops, op);
    Unit(Offered(ops));
  }

  predicate Unspoiled(implicitHead: Head, hasBody: bool, ops: seq<Op>)
  {
    var h := ChosenHead(implicitHead, ops);
    h.Some? ==> WellFramed(h.value, FlushedFirst(implicitHead, ops), WrittenBody(implicitHead, hasBody, ops))
  }

  /** The header before and after a call, and what the call finds. */
  lemma HeadStep(implicitHead: Head, hasBody: bool, ops: seq<Op>, op: Op, m: Message)
    requires Follows(implicitHead, hasBody, ops, m) && Allowed(m, op)
    ensures var h, h' := ChosenHead(implicitHead, ops), ChosenHead(implicitHead, ops + [op]);
            && (h.Some? ==> h == h' && FlushedFirst(implicitHead, ops + [op]) == FlushedFirst(implicitHead, ops))
            && (h.None? ==> WrittenBody(implicitHead, hasBody, ops) == [])
            && (Accepted(m, op) != [] ==>
                  && h'.Some? && h'.value.chunked == ImplicitHead(m).chunked
                  && (h.None? ==> !FlushedFirst(implicitHead, ops + [op]))
                  && (ImplicitHead(m).headerSent <==>
                        h.Some? && (FlushedFirst(implicitHead, ops) || WrittenBody(implicitHead, hasBody, ops) != [])))
  {
    Snoc(ops, op);
  }

  lemma FramedStep(h: Option<Head>, h': Option<Head>, flushed: bool, flushed': bool, log: seq<Data>, more: seq<Data>,
                   chunked: bool, sent: bool)
    requires |more| <= 1 && (h.Some? ==> h == h' && flushed == flushed') && (h.None? ==> log == [])
    requires more != [] ==> h'.Some? && h'.value.chunked == chunked && (h.None? ==> !flushed')
    requires more != [] ==> (sent <==> h.Some? && (flushed || log != []))
    ensures (h'.Some? ==> WellFramed(h'.value, flushed', log + more)) <==>
            && (h.Some? ==> WellFramed(h.value, flushed, log))
            && (more != [] ==> if chunked then !more[0].Misframed() else sent || !more[0].Wide())
  {
    if h'.Some? { FramedAppend(h'.value, flushed', log, more); }
  }

  lemma FramedAppend(h: Head, flushed: bool, log: seq<Data>, more: seq<Data>)
    requires |more| <= 1
    ensures WellFramed(h, flushed, log + more) <==>
            && WellFramed(h, flushed, log)
            && (more != [] ==> if h.chunked then !more[0].Misframed() else flushed || log != [] || !more[0].Wide())
  {
    if more == [] {
      Unit(log);
    } else {
      var all := log + more;
      assert all[|log|] == more[0] && forall i :: 0 <= i < |log| ==> all[i] == log[i];
    }
  }

  lemma CleanStep(implicitHead: Head, hasBody: bool, ops: seq<Op>, op: Op, m: Message)
    requires Follows(implicitHead, hasBody, ops, m) && Allowed(m, op)
    ensures Unspoiled(implicitHead, hasBody, ops + [op]) <==> Unspoiled(implicitHead, hasBody, ops) && !Spoils(m, op)
  {
    LogStep(implicitHead, hasBody, ops, op, m);
    HeadStep(implicitHead, hasBody, ops, op, m);
    FramedStep(ChosenHead(implicitHead, ops), ChosenHead(implicitHead, ops + [op]), FlushedFirst(implicitHead, ops),
               FlushedFirst(implicitHead, ops + [op]), WrittenBody(implicitHead, hasBody, ops), Accepted(m, op),
               ImplicitHead(m).chunked, ImplicitHead(m).headerSent);
  }

  /** A response, what was written to its body, and whether a call spoiled it, are what the calls say. */
  lemma {:induction false} FollowsCalls(implicitHead: Head, hasBody: bool, ops: seq<Op>)
    requires AllAllowed(NewMessage(implicitHead, hasBody), ops)
    ensures var m0 := NewMessage(implicitHead, hasBody);
            && Follows(implicitHead, hasBody, ops, Run(m0, ops))
            && Log(m0, ops) == WrittenBody(implicitHead, hasBody, ops)
            && (Clean(m0, ops) <==> Unspoiled(implicitHead, hasBody, ops))
  {
    if ops != [] {
      var init, op := ops[..|ops| - 1], ops[|ops| - 1];
      var m := Run(NewMessage(implicitHead, hasBody), init);
      FollowsCalls(implicitHead, hasBody, init);
      assert init + [op] == ops;
      FollowsStep(implicitHead, hasBody, init, m, op);
      LogStep(implicitHead, hasBody, init, op, m);
      CleanStep(implicitHead, hasBody, init, op, m);
    }
  }
}
