/** HTTP pipelining: one socket, many requests, and handlers that answer them in any order. */
module HttpPipeline {
  import opened Common
  import opened HttpMessage
  import opened Seqs
  import ChunkedCoding
  import ResponseForm
  import opened ResponseCalls

  // ---- The specification: responses serialised in request order

  datatype Event = Arrive(implicitHead: Head, hasBody: bool) | Call(res: nat, op: Op)

  /** Handlers call methods of responses they were given, `writeHead` only where it is documented to be legal, and
      no request arrives once a finished response has closed the connection. */
  predicate Admissible(msgs: seq<Message>, e: Event)
  {
    match e
    case Arrive(_, _) => !Closed(msgs)
    case Call(i, op) => i < |msgs| && Allowed(msgs[i], op)
  }

  /** Every response on its own, as if it had the socket to itself. */
  function Next(msgs: seq<Message>, e: Event): seq<Message>
    requires Admissible(msgs, e)
  {
    match e
    case Arrive(h, b) => msgs + [NewMessage(h, b)]
    case Call(i, op) => msgs[i := Step(msgs[i], op)]
  }

  function Replay(events: seq<Event>): seq<Message>
    requires WellFormed(events)
    decreases |events|, 1
  {
    if events == [] then [] else Next(Replay(events[..|events| - 1]), events[|events| - 1])
  }

  predicate WellFormed(events: seq<Event>)
    decreases |events|, 0
  {
    events == [] ||
    (WellFormed(events[..|events| - 1]) && Admissible(Replay(events[..|events| - 1]), events[|events| - 1]))
  }

  /** The first response that is not finished, or that closes the connection, is the last one to reach the wire. */
  function ExpectedWire(msgs: seq<Message>): seq<byte>
  {
    if msgs == [] then []
    else if msgs[0].finished && !msgs[0].last then msgs[0].bytes + ExpectedWire(msgs[1..])
    else msgs[0].bytes
  }

  predicate Closed(msgs: seq<Message>)
  {
    msgs != [] && msgs[0].finished && (msgs[0].last || Closed(msgs[1..]))
  }

  function Whole(msgs: seq<Message>): seq<byte>
  {
    if msgs == [] then [] else msgs[0].bytes + Whole(msgs[1..])
  }

  lemma {:induction false} WholeAppend(msgs: seq<Message>, m: Message)
    ensures Whole(msgs + [m]) == Whole(msgs) + m.bytes
  {
    if msgs == [] {
      assert msgs + [m] == [m] && [m][1..] == [];
      Unit(m.bytes);
    } else {
      assert (msgs + [m])[1..] == msgs[1..] + [m];
      WholeAppend(msgs[1..], m);
      Assoc(msgs[0].bytes, Whole(msgs[1..]), m.bytes);
    }
  }

  /** Changing a response other than in its bytes, or one further on, does not change what the first `k` sent. */
  lemma {:induction false} WholeUpdate(msgs: seq<Message>, i: nat, m: Message, k: nat)
    requires i < |msgs| && k <= |msgs| && (i < k ==> m.bytes == msgs[i].bytes)
    ensures Whole(msgs[i := m][..k]) == Whole(msgs[..k])
  {
    Update(msgs, i, m, k);
    if i < k {
      var before, after := msgs[..k], msgs[i := m][..k];
      if i == 0 {
        assert after[1..] == before[1..];
      } else {
        WholeUpdate(msgs[1..], i - 1, m, k - 1);
        assert after[1..] == msgs[1..][i - 1 := m][..k - 1] && before[1..] == msgs[1..][..k - 1];
      }
    }
  }

  predicate PassedOn(m: Message) { m.finished && !m.last }

  /** The expected wire when the first `k` responses are finished and passed the socket on. */
  lemma {:induction false} ExpectedAfter(msgs: seq<Message>, k: nat)
    requires k <= |msgs| && forall i :: 0 <= i < k ==> PassedOn(msgs[i])
    ensures ExpectedWire(msgs) == Whole(msgs[..k]) + ExpectedWire(msgs[k..])
    ensures Closed(msgs) == Closed(msgs[k..])
  {
    if k == 0 {
      assert msgs[..0] == [] && msgs[0..] == msgs;
      Unit(ExpectedWire(msgs));
    } else {
      ExpectedAfter(msgs[1..], k - 1);
      assert PassedOn(msgs[0]);
      assert msgs[1..][..k - 1] == msgs[..k][1..] && msgs[1..][k - 1..] == msgs[k..];
      assert msgs[..k][0] == msgs[0];
      Assoc(msgs[0].bytes, Whole(msgs[1..][..k - 1]), ExpectedWire(msgs[k..]));
    }
  }

  // ---- What the specification says about whole runs

  /** The calls made on the `i`-th response, in order. */
  function Calls(events: seq<Event>, i: nat): seq<Op>
  {
    if events == [] then []
    else
      var e := events[|events| - 1];
      Calls(events[..|events| - 1], i) + if e.Call? && e.res == i then [e.op] else []
  }

  /** The requests in order: the header that a response gets if its handler gives none, and whether it may have a
      body. */
  function Arrivals(events: seq<Event>): seq<(Head, bool)>
  {
    if events == [] then []
    else
      var e := events[|events| - 1];
      Arrivals(events[..|events| - 1]) + if e.Arrive? then [(e.implicitHead, e.hasBody)] else []
  }

  function Fresh(events: seq<Event>): seq<Message>
  {
    if events == [] then []
    else
      var e := events[|events| - 1];
      Fresh(events[..|events| - 1]) + if e.Arrive? then [NewMessage(e.implicitHead, e.hasBody)] else []
  }

  lemma {:induction false} NoCallsYet(events: seq<Event>, i: nat)
    requires WellFormed(events) && i >= |Replay(events)|
    ensures Calls(events, i) == []
  {
    if events != [] { NoCallsYet(events[..|events| - 1], i); }
  }

  /** `m` is what the calls `ops`, all of them legal, make of the new response `m0`. */
  ghost predicate Outcome(m0: Message, ops: seq<Op>, m: Message)
  {
    ChunkedCoding.AllAllowed(m0, ops) && m == ChunkedCoding.Run(m0, ops) && Consistent(m)
  }

  lemma OutcomeStep(m0: Message, ops: seq<Op>, m: Message, op: Op)
    requires Outcome(m0, ops, m) && Allowed(m, op)
    ensures Outcome(m0, ops + [op], Step(m, op))
  {
    assert (ops + [op])[..|ops|] == ops;
    StepKeepsConsistent(m, op);
  }

  lemma LastEvent(events: seq<Event>, i: nat)
    requires events != []
    ensures var init, e := events[..|events| - 1], events[|events| - 1];
            && Calls(events, i) == (if e.Call? && e.res == i then Calls(init, i) + [e.op] else Calls(init, i))
            && (i < |Fresh(init)| ==> i < |Fresh(events)| && Fresh(events)[i] == Fresh(init)[i])
  {
    Unit(Calls(events[..|events| - 1], i));
  }

  /** Responses do not influence each other: each one is the outcome of its own calls. */
  lemma {:induction false} ResponsesAreIndependent(events: seq<Event>, i: nat)
    requires WellFormed(events) && i < |Replay(events)|
    ensures |Fresh(events)| == |Replay(events)|
    ensures Outcome(Fresh(events)[i], Calls(events, i), Replay(events)[i])
  {
    var init := events[..|events| - 1];
    FreshLength(init);
    FreshLength(events);
    ReplayLength(events);
    if i < |Replay(init)| {
      ResponsesAreIndependent(init, i);
      OutcomeOfLast(events, i);
    } else {
      NoCallsYet(init, i);
      OutcomeOfNew(events);
    }
  }

  lemma ReplayLength(events: seq<Event>)
    requires WellFormed(events) && events != []
    ensures |Replay(events)| == |Replay(events[..|events| - 1])| + if events[|events| - 1].Arrive? then 1 else 0
  {
  }

  lemma LastArrival(events: seq<Event>)
    requires WellFormed(events) && events != [] && events[|events| - 1].Arrive?
    ensures var init, e := events[..|events| - 1], events[|events| - 1];
            var m := NewMessage(e.implicitHead, e.hasBody);
            Replay(events) == Replay(init) + [m] && Fresh(events) == Fresh(init) + [m]
  {
  }

  lemma OutcomeOfNew(events: seq<Event>)
    requires WellFormed(events) && events != [] && events[|events| - 1].Arrive?
    requires var init := events[..|events| - 1]; |Replay(init)| == |Fresh(init)| && Calls(init, |Replay(init)|) == []
    ensures var i := |Replay(events)| - 1;
            i >= 0 && |Fresh(events)| == i + 1 && Outcome(Fresh(events)[i], Calls(events, i), Replay(events)[i])
  {
    var e := events[|events| - 1];
    LastArrival(events);
    assert Calls(events, |Replay(events)| - 1) == [] by { LastEvent(events, |Replay(events)| - 1); }
    NewOutcome(e.implicitHead, e.hasBody);
  }

  lemma NewOutcome(h: Head, hasBody: bool)
    ensures Outcome(NewMessage(h, hasBody), [], NewMessage(h, hasBody))
  {
  }

  lemma OutcomeOfLast(events: seq<Event>, i: nat)
    requires WellFormed(events) && events != []
    requires var init := events[..|events| - 1];
             i < |Replay(init)| == |Fresh(init)| && Outcome(Fresh(init)[i], Calls(init, i), Replay(init)[i])
    ensures i < |Replay(events)| && i < |Fresh(events)|
    ensures Outcome(Fresh(events)[i], Calls(events, i), Replay(events)[i])
  {
    var init, e := events[..|events| - 1], events[|events| - 1];
    LastEvent(events, i);
    if e.Call? && e.res == i {
      OutcomeStep(Fresh(init)[i], Calls(init, i), Replay(init)[i], e.op);
    }
  }

  lemma {:induction false} FreshLength(events: seq<Event>)
    requires WellFormed(events)
    ensures |Fresh(events)| == |Replay(events)|
  {
    if events != [] { FreshLength(events[..|events| - 1]); }
  }

  lemma {:induction false} FreshIsNew(events: seq<Event>, i: nat)
    requires i < |Fresh(events)|
    ensures |Arrivals(events)| == |Fresh(events)|
    ensures Fresh(events)[i] == NewMessage(Arrivals(events)[i].0, Arrivals(events)[i].1)
  {
    var init := events[..|events| - 1];
    ArrivalsLength(init);
    if i < |Fresh(init)| { FreshIsNew(init, i); }
  }

  lemma {:induction false} ArrivalsLength(events: seq<Event>)
    ensures |Arrivals(events)| == |Fresh(events)|
  {
    if events != [] { ArrivalsLength(events[..|events| - 1]); }
  }

  /** What the calls `ops` make of a response. When they have ended it, it is finished, closes the connection if its
      header says so, and is the header, the body and the closing piece that they ask for, exactly if nothing is
      spoiled. Before that it is as much of it as there is to be sent. */
  ghost predicate InForm(implicitHead: Head, hasBody: bool, ops: seq<Op>, m: Message)
  {
    var h := ChosenHead(implicitHead, ops);
    && m.finished == Ended(ops)
    && if Ended(ops) then
         && h.Some? && m.last == h.value.last
         && (m.bytes == Response(h.value, hasBody, ops) <==> Unspoiled(implicitHead, hasBody, ops))
       else if h.Some? && (FlushedFirst(implicitHead, ops) || BodyData(h.value, hasBody, ops) != []) then
         m.bytes == SoFar(h.value, hasBody, ops) <==> Unspoiled(implicitHead, hasBody, ops)
       else m.bytes == []
  }

  /** Over every run, each response is header first and whole. */
  lemma HeaderFirst(events: seq<Event>, i: nat)
    requires WellFormed(events) && i < |Replay(events)|
    ensures |Arrivals(events)| == |Replay(events)|
    ensures InForm(Arrivals(events)[i].0, Arrivals(events)[i].1, Calls(events, i), Replay(events)[i])
  {
    ResponsesAreIndependent(events, i);
    FreshIsNew(events, i);
    var (h, b) := Arrivals(events)[i];
    FormOfCalls(h, b, Calls(events, i));
  }

  lemma FormOfCalls(h: Head, b: bool, ops: seq<Op>)
    requires ChunkedCoding.AllAllowed(NewMessage(h, b), ops)
    ensures InForm(h, b, ops, ChunkedCoding.Run(NewMessage(h, b), ops))
  {
    if Ended(ops) {
      ResponseForm.FinishedForm(h, b, ops);
    } else {
      ResponseForm.UnfinishedForm(h, b, ops);
    }
  }

  /** What the calls ask to be on the wire, from request `i` on: whole responses up to the first one that is not
      ended or that closes the connection. */
  function Asked(events: seq<Event>, i: nat): seq<byte>
    decreases |Arrivals(events)| - i
  {
    if i >= |Arrivals(events)| then []
    else
      var (implicitHead, hasBody) := Arrivals(events)[i];
      var ops := Calls(events, i);
      var h := ChosenHead(implicitHead, ops);
      if h.None? then []
      else if Ended(ops) then Response(h.value, hasBody, ops) + if h.value.last then [] else Asked(events, i + 1)
      else if FlushedFirst(implicitHead, ops) || BodyData(h.value, hasBody, ops) != [] then SoFar(h.value, hasBody, ops)
      else []
  }

  predicate NothingSpoiled(events: seq<Event>)
  {
    forall i :: 0 <= i < |Arrivals(events)| ==>
        Unspoiled(Arrivals(events)[i].0, Arrivals(events)[i].1, Calls(events, i))
  }

  lemma AskedStep(events: seq<Event>, i: nat, m: Message)
    requires i < |Arrivals(events)| && Unspoiled(Arrivals(events)[i].0, Arrivals(events)[i].1, Calls(events, i))
    requires InForm(Arrivals(events)[i].0, Arrivals(events)[i].1, Calls(events, i), m)
    ensures Asked(events, i) == m.bytes + if m.finished && !m.last then Asked(events, i + 1) else []
  {
    Unit(m.bytes);
  }

  lemma ExpectedStep(msgs: seq<Message>, i: nat)
    requires i < |msgs|
    ensures ExpectedWire(msgs[i..]) ==
            msgs[i].bytes + if msgs[i].finished && !msgs[i].last then ExpectedWire(msgs[i + 1..]) else []
  {
    Shift(msgs, i);
    Unit(msgs[i].bytes);
  }

  lemma {:induction false} ExpectedIsAsked(events: seq<Event>, i: nat)
    requires WellFormed(events) && NothingSpoiled(events) && i <= |Replay(events)| == |Arrivals(events)|
    ensures ExpectedWire(Replay(events)[i..]) == Asked(events, i)
    decreases |Replay(events)| - i
  {
    if i < |Replay(events)| {
      HeaderFirst(events, i);
      ExpectedIsAsked(events, i + 1);
      ExpectedStep(Replay(events), i);
      AskedStep(events, i, Replay(events)[i]);
    }
  }

  lemma {:induction false} ExpectedGrows(msgs: seq<Message>, i: nat, m: Message)
    requires i < |msgs| && msgs[i].bytes <= m.bytes
    requires msgs[i].finished ==> m.bytes == msgs[i].bytes && m.finished && m.last == msgs[i].last
    ensures ExpectedWire(msgs) <= ExpectedWire(msgs[i := m])
  {
    if i == 0 {
      assert msgs[0 := m][1..] == msgs[1..];
    } else {
      ExpectedGrows(msgs[1..], i - 1, m);
      assert msgs[i := m][1..] == msgs[1..][i - 1 := m];
    }
  }

  lemma {:induction false} ExpectedGrowsOnArrival(msgs: seq<Message>, m: Message)
    ensures ExpectedWire(msgs) <= ExpectedWire(msgs + [m])
  {
    if msgs != [] {
      ExpectedGrowsOnArrival(msgs[1..], m);
      assert (msgs + [m])[1..] == msgs[1..] + [m];
    }
  }

  /** Nothing that was put on the wire is ever taken back or changed. */
  lemma {:induction false} WireOnlyGrows(events: seq<Event>, n: nat)
    requires WellFormed(events) && n <= |events|
    ensures WellFormed(events[..n]) && ExpectedWire(Replay(events[..n])) <= ExpectedWire(Replay(events))
    decreases |events|
  {
    if n == |events| {
      assert events[..n] == events;
    } else {
      var init, e := events[..|events| - 1], events[|events| - 1];
      WireOnlyGrows(init, n);
      assert init[..n] == events[..n];
      var msgs := Replay(init);
      match e
      case Arrive(h, b) => ExpectedGrowsOnArrival(msgs, NewMessage(h, b));
      case Call(i, op) =>
        ResponsesAreIndependent(init, i);
        StepKeepsConsistent(msgs[i], op);
        ExpectedGrows(msgs, i, Step(msgs[i], op));
    }
  }

  // ---- The implementation

  class Socket {
    var httpMessage: ServerResponse?
    var wire: seq<byte>
    var writable: bool
    var destroyed: bool

    constructor ()
      ensures httpMessage == null && wire == [] && writable && !destroyed
    {
      httpMessage, wire, writable, destroyed := null, [], true, false;
    }

    method Write(d: Data)
      modifies `wire
      ensures wire == old(wire) + d.Wire()
    {
      wire := wire + d.Wire();
    }

    method DestroySoon()
      modifies `writable
      ensures !writable
    {
      writable := false;
    }
  }

  function Flat(output: seq<Data>): seq<byte>
  {
    if output == [] then [] else output[0].Wire() + Flat(output[1..])
  }

  lemma {:induction false} FlatAppend(output: seq<Data>, d: Data)
    ensures Flat(output + [d]) == Flat(output) + d.Wire()
  {
    if output == [] {
      assert output + [d] == [d] && [d][1..] == [];
      Unit(d.Wire());
    } else {
      assert (output + [d])[1..] == output[1..] + [d];
      FlatAppend(output[1..], d);
      Assoc(output[0].Wire(), Flat(output[1..]), d.Wire());
    }
  }

  class ServerResponse {
    const req: nat
    const implicitHead: Head
    var head: Option<Head>
    var hasBody: bool
    var chunkedEncoding: bool
    var last: bool
    var headerSent: bool
    var finished: bool
    var trailer: seq<string>
    var output: seq<Data>
    var connection: Socket?
    ghost var base: seq<byte>  // what was on the wire when this response got the socket
    ghost var sent: seq<byte>  // what this response has put on the wire

    constructor (req: nat, implicitHead: Head, hasBody: bool)
      ensures this.req == req && this.implicitHead == implicitHead
      ensures Valid() && Abs() == NewMessage(implicitHead, hasBody) && connection == null && output == []
    {
      this.req, this.implicitHead, this.hasBody := req, implicitHead, hasBody;
      head, chunkedEncoding, last, headerSent, finished := None, false, false, false, false;
      trailer, output, connection, base, sent := [], [], null, [], [];
    }

    /** The response on its own: everything it has sent or still holds back. */
    ghost function Abs(): Message
      reads this
    {
      Message(implicitHead, head, hasBody, chunkedEncoding, last, headerSent, finished, trailer, sent + Flat(output))
    }

    ghost predicate Valid()
      reads this, connection
    {
      && Consistent(Abs())
      && (!headerSent ==> output == [] && sent == [])
      && (connection != null ==>
            && connection.httpMessage == this && connection.writable && !connection.destroyed && output == []
            && connection.wire == base + sent)
      && (connection == null ==> Queued() || Done())
    }

    /** Waiting for the socket: everything is held back, and if there is anything then `output` is not empty. */
    ghost predicate Queued()
      reads this
    {
      sent == [] && (headerSent ==> output != [])
    }

    ghost predicate Done()
      reads this
    {
      finished && output == []
    }

    method Buffer(d: Data)
      modifies `output
      ensures output == old(output) + [d]
    {
      output := output + [d];
    }

    /** The socket, if there is one. */
    ghost function Line(): set<Socket>
      reads this
    {
      if connection == null then {} else {connection}
    }

    /** The response has the socket and can write to it. */
    ghost predicate Owning()
      reads this, connection
    {
      connection != null && connection.httpMessage == this && connection.writable && !connection.destroyed
    }

    /** Straight to the socket, after whatever was held back, or to the end of the buffer; a destroyed socket loses
        it. */
    method WriteRaw(d: Data)
      requires Owning() ==> connection.wire == base + sent
      modifies `output, `sent, Line()`wire
      ensures d.Empty() ==> output == old(output) && sent == old(sent)
      ensures Owning() ==> connection.wire == base + sent
      ensures Owning() && !d.Empty() ==> output == [] && sent == old(sent) + Flat(old(output)) + d.Wire()
      ensures !d.Empty() && (Owning() || connection == null) ==>
                sent + Flat(output) == old(sent) + Flat(old(output)) + d.Wire()
      ensures !Owning() ==> sent == old(sent) && (connection != null ==> connection.wire == old(connection.wire))
      ensures !Owning() && !d.Empty() ==>
                output == old(output) + if connection != null && connection.destroyed then [] else [d]
    {
      if d.Empty() {
        return;
      }
      if connection != null && connection.httpMessage == this && connection.writable && !connection.destroyed {
        ghost var all := sent + Flat(output);
        while |output| > 0
          modifies `output, `sent, connection`wire
          invariant connection.wire == base + sent
          invariant sent + Flat(output) == all
        {
          var c := output[0];
          Assoc(sent, c.Wire(), Flat(output[1..]));
          Assoc(base, sent, c.Wire());
          output := output[1..];
          connection.Write(c);
          sent := sent + c.Wire();
        }
        Unit(sent);
        Assoc(base, sent, d.Wire());
        connection.Write(d);
        sent := sent + d.Wire();
        Unit(sent);
      } else if connection != null && connection.destroyed {
        return;
      } else {
        FlatAppend(output, d);
        Assoc(sent, Flat(output), d.Wire());
        Buffer(d);
      }
    }

    /** The first data takes the header with it. */
    method Send(d: Data)
      requires Valid() && !finished && head.Some? && (!d.Text? ==> !d.Empty())
      modifies `output, `sent, `headerSent, Line()`wire
      ensures Valid() && Abs() == HttpMessage.Send(old(Abs()), d)
      ensures connection == null && headerSent ==> output != []
    {
      SendUpTo(d, HttpMessage.Send(Abs(), d).bytes);
    }

    /** The same, where `all` is what the response has sent or holds back in the end. */
    method SendUpTo(d: Data, ghost all: seq<byte>)
      requires Valid() && !finished && head.Some? && (!d.Text? ==> !d.Empty())
      requires all == HttpMessage.Send(Abs(), d).bytes
      modifies `output, `sent, `headerSent, Line()`wire
      ensures Valid() && Abs() == old(Abs()).(headerSent := true, bytes := all)
      ensures connection == null ==> output != []
    {
      var data := TakeHeader(d, all);
      Put(data, all);
    }

    /** Sends data that completes the bytes to `all`. */
    method Put(d: Data, ghost all: seq<byte>)
      requires Owning() ==> connection.wire == base + sent
      requires (Owning() || connection == null) && sent + Flat(output) + d.Wire() == all
               && (d.Empty() ==> d.Wire() == [])
      modifies `output, `sent, Line()`wire
      ensures sent + Flat(output) == all && (connection == null ==> sent == old(sent))
      ensures Owning() ==> connection.wire == base + sent
      ensures if d.Empty() then output == old(output) else if connection == null then output != [] else output == []
    {
      WriteRaw(d);
      if d.Empty() {
        Unit(sent + Flat(output));
      }
    }

    /** Puts the header in front: into the data, or into what is held back. */
    method TakeHeader(d: Data, ghost all: seq<byte>) returns (data: Data)
      requires Valid() && !finished && head.Some? && (!d.Text? ==> !d.Empty())
      requires all == HttpMessage.Send(Abs(), d).bytes
      modifies `output, `headerSent
      ensures headerSent && sent + Flat(output) + data.Wire() == all
      ensures data.Empty() ==> old(headerSent) && output == old(output) && data.Wire() == []
    {
      data := d;
      if !headerSent {
        if d.Text? {
          data := Text(head.value.text + d.s, d.enc);
        } else {
          output := [Text(head.value.text, Binary)] + output;
          assert output[1..] == [];
          Unit(Encode(head.value.text, Binary));
        }
        headerSent := true;
      }
    }


    method WriteHead(h: Head)
      requires Valid() && Allowed(Abs(), HttpMessage.WriteHead(h))
      modifies `head, `hasBody, `chunkedEncoding, `last, `headerSent
      ensures Valid() && Abs() == StoreHead(old(Abs()), h)
    {
      head := Some(h);
      hasBody := hasBody && !h.noBody;
      chunkedEncoding := h.chunked;
      last := last || h.last;
      headerSent := false;
    }

    method ImplicitHeader()
      requires Valid() && !finished
      modifies `head, `hasBody, `chunkedEncoding, `last, `headerSent
      ensures Valid() && Abs() == ImplicitHead(old(Abs()))
    {
      if head.None? {
        WriteHead(implicitHead);
      }
    }

    method Write(d: Data)
      requires Valid()
      modifies `head, `hasBody, `chunkedEncoding, `last, `headerSent, `output, `sent, Line()`wire
      ensures Valid() && Abs() == WriteData(old(Abs()), d)
      ensures old(finished) ==> unchanged(this)
    {
      if finished {
        return;
      }
      ImplicitHeader();
      if !hasBody || d.Empty() {
        return;
      }
      ghost var m := Abs();
      if chunkedEncoding {
        var len := d.Size();
        if d.Text? && !d.enc.Binary? {
          Send(Text(Hex(len) + CRLF + d.s + CRLF, d.enc));
          SendAllOne(m, Text(Hex(len) + CRLF + d.s + CRLF, d.enc));
        } else {
          Send(Text(Hex(len), Binary));
          Send(Bytes(CRLF_BYTES));
          Send(d);
          Send(Bytes(CRLF_BYTES));
          SendAllFour(m, Text(Hex(len), Binary), Bytes(CRLF_BYTES), d, Bytes(CRLF_BYTES));
        }
      } else {
        Send(d);
        SendAllOne(m, d);
      }
    }

    method AddTrailers(lines: seq<string>)
      requires Valid()
      modifies `trailer
      ensures Valid() && Abs() == old(Abs()).(trailer := lines)
    {
      trailer := lines;
    }

    method FlushHeaders()
      requires Valid()
      modifies `head, `hasBody, `chunkedEncoding, `last, `headerSent, `output, `sent, Line()`wire
      ensures Valid() && Abs() == Step(old(Abs()), HttpMessage.FlushHeaders)
      ensures old(finished) ==> unchanged(this)
    {
      if head.None? {
        ImplicitHeader();
        Send(Text("", Utf8));
      }
    }

    /** Any call but `end`. */
    method Perform(op: Op)
      requires Valid() && Allowed(Abs(), op) && !op.End?
      modifies `head, `hasBody, `chunkedEncoding, `last, `headerSent, `output, `sent, `trailer, Line()`wire
      ensures Valid() && Abs() == Step(old(Abs()), op)
      ensures connection == null && old(Queued()) ==> Queued()
      ensures old(Done()) ==> Done()
    {
      match op
      case WriteHead(h) => WriteHead(h);
      case Write(d) => Write(d);
      case AddTrailers(lines) => AddTrailers(lines);
      case FlushHeaders => FlushHeaders();
    }

    method WriteLast(data: Option<Data>)
      requires Valid() && !finished
      modifies `head, `hasBody, `chunkedEncoding, `last, `headerSent, `output, `sent, Line()`wire
      ensures Valid() && head.Some? && !finished && Abs() == WriteOptional(ImplicitHead(old(Abs())), data)
    {
      ImplicitHeader();
      if data.Some? && hasBody {
        Write(data.value);
      }
    }

    /** Everything `end` does before it looks whether the response can be retired. */
    method End(data: Option<Data>)
      requires Valid() && !finished
      modifies `head, `hasBody, `chunkedEncoding, `last, `headerSent, `output, `sent, `finished, Line()`wire
      ensures Valid() && Abs() == Finish(old(Abs()), data)
      ensures connection == null ==> output != []
    {
      ghost var all := Finish(Abs(), data);
      WriteLast(data);
      SendLast();
      assert all == Abs().(finished := true) && headerSent;
      finished := true;
    }

    method SendLast()
      requires Valid() && !finished && head.Some?
      modifies `output, `sent, `headerSent, Line()`wire
      ensures Valid() && headerSent && Abs() == HttpMessage.Send(old(Abs()), LastPiece(old(Abs())))
      ensures connection == null ==> output != []
    {
      if hasBody && chunkedEncoding {
        Send(Text("0" + CRLF + TrailerText(trailer) + CRLF, Binary));
      } else {
        Send(Text("", Binary));
      }
    }

    /** `assignSocket` up to the end of its `_flush` loop. */
    method TakeSocket(socket: Socket)
      requires Valid() && connection == null && Queued()
      requires socket.httpMessage == null && socket.writable && !socket.destroyed
      modifies `connection, `base, `sent, `output, socket`httpMessage, socket`wire
      ensures Valid() && connection == socket && Abs() == old(Abs())
      ensures base == old(socket.wire)
    {
      socket.httpMessage := this;
      connection := socket;
      base := socket.wire;
      Unit(base);
      ghost var all := Flat(output);
      while |output| > 0
        modifies `output, `sent, socket`wire
        invariant socket.wire == base + sent
        invariant sent + Flat(output) == all
      {
        var c := output[0];
        Assoc(sent, c.Wire(), Flat(output[1..]));
        Assoc(base, sent, c.Wire());
        output := output[1..];
        socket.Write(c);
        sent := sent + c.Wire();
      }
    }

    method DetachSocket(socket: Socket)
      requires Valid() && connection == socket && finished
      modifies `connection, socket`httpMessage
      ensures Valid() && connection == null && Done() && socket.httpMessage == null && Abs() == old(Abs())
    {
      socket.httpMessage := null;
      connection := null;
    }
  }

  lemma SendAllOne(m: Message, d: Data)
    requires m.head.Some?
    ensures SendAll(m, [d]) == HttpMessage.Send(m, d)
  {
    assert [d][1..] == [];
  }

  lemma SendAllFour(m: Message, a: Data, b: Data, c: Data, d: Data)
    requires m.head.Some?
    ensures SendAll(m, [a, b, c, d]) ==
            HttpMessage.Send(HttpMessage.Send(HttpMessage.Send(HttpMessage.Send(m, a), b), c), d)
  {
    var m1 := HttpMessage.Send(m, a);
    var m2 := HttpMessage.Send(m1, b);
    var m3 := HttpMessage.Send(m2, c);
    assert [a, b, c, d][1..] == [b, c, d] && [b, c, d][1..] == [c, d] && [c, d][1..] == [d];
    SendAllOne(m3, d);
    assert SendAll(m2, [c, d]) == SendAll(m3, [d]);
    assert SendAll(m1, [b, c, d]) == SendAll(m2, [c, d]);
  }

  // ---- The connection invariant

  /** Where the connection stands: how many responses are retired, whether the next one owns the socket, and
      whether the last retired one has closed the connection. */
  datatype Stage = Stage(done: nat, owned: bool, closed: bool)

  datatype Pair = Pair(socket: Socket, r: ServerResponse)
  datatype Peers = Peers(socket: Socket, arrived: seq<ServerResponse>, outgoing: seq<ServerResponse>)

  /** The `i`-th response: retired, owning the socket, or waiting. */
  ghost predicate Slot(socket: Socket, r: ServerResponse, i: nat, m: Message, st: Stage)
    reads socket, r
  {
    && r.req == i && r.Abs() == m
    && r.connection == (if i == st.done && st.owned then socket else null)
    && r.Valid()
    && (i < st.done ==> r.Done())
    && (i >= st.done && r.connection == null ==> r.Queued())
    && LastOnly(i, m, st)
  }

  predicate LastOnly(i: nat, m: Message, st: Stage)
  {
    i < st.done ==> (m.last <==> (st.closed && i == st.done - 1))
  }

  ghost predicate Slots(socket: Socket, arrived: seq<ServerResponse>, msgs: seq<Message>, st: Stage)
    requires |arrived| == |msgs|
    reads socket, arrived
  {
    forall i :: 0 <= i < |arrived| ==> Slot(socket, arrived[i], i, msgs[i], st)
  }

  /** Some response owns the socket. */
  ghost predicate Busy(socket: Socket, arrived: seq<ServerResponse>, done: nat)
    reads socket
  {
    socket.writable && done < |arrived|
  }

  /** What is known about the two queues: the requests, the responses that wait, who owns the socket, and what was
      on the wire before. */
  datatype Aspect = Requests | Waiting | Owner | Wire

  ghost predicate QueueHolds(k: Aspect, socket: Socket, arrived: seq<ServerResponse>, msgs: seq<Message>, done: nat,
                             incoming: seq<nat>, outgoing: seq<ServerResponse>)
    requires done <= |arrived| == |msgs|
    reads socket, arrived
  {
    match k
    case Requests => |incoming| == |arrived| - done && forall i :: 0 <= i < |incoming| ==> incoming[i] == done + i
    case Waiting => outgoing == if Busy(socket, arrived, done) then arrived[done + 1..] else arrived[done..]
    case Owner =>
      && socket.httpMessage == (if Busy(socket, arrived, done) then arrived[done] else null)
      && (!socket.writable ==> done > 0) && !socket.destroyed
    case Wire => (if Busy(socket, arrived, done) then arrived[done].base else socket.wire) == Whole(msgs[..done])
  }

  ghost predicate Queues(socket: Socket, arrived: seq<ServerResponse>, msgs: seq<Message>, done: nat,
                         incoming: seq<nat>, outgoing: seq<ServerResponse>)
    requires done <= |arrived| == |msgs|
    reads socket, arrived
  {
    forall k :: QueueHolds(k, socket, arrived, msgs, done, incoming, outgoing)
  }

  lemma QueuesMean(socket: Socket, arrived: seq<ServerResponse>, msgs: seq<Message>, done: nat,
                   incoming: seq<nat>, outgoing: seq<ServerResponse>)
    requires done <= |arrived| == |msgs| && Queues(socket, arrived, msgs, done, incoming, outgoing)
    ensures |incoming| == |arrived| - done && forall i :: 0 <= i < |incoming| ==> incoming[i] == done + i
    ensures outgoing == if Busy(socket, arrived, done) then arrived[done + 1..] else arrived[done..]
    ensures socket.httpMessage == (if Busy(socket, arrived, done) then arrived[done] else null)
    ensures !socket.destroyed && (!socket.writable ==> done > 0)
    ensures (if Busy(socket, arrived, done) then arrived[done].base else socket.wire) == Whole(msgs[..done])
  {
    assert QueueHolds(Requests, socket, arrived, msgs, done, incoming, outgoing);
    assert QueueHolds(Waiting, socket, arrived, msgs, done, incoming, outgoing);
    assert QueueHolds(Owner, socket, arrived, msgs, done, incoming, outgoing);
    assert QueueHolds(Wire, socket, arrived, msgs, done, incoming, outgoing);
  }

  lemma SlotsEnqueue(socket: Socket, arrived: seq<ServerResponse>, msgs: seq<Message>, res: ServerResponse, st: Stage)
    requires |arrived| == |msgs| && Slots(socket, arrived, msgs, st) && st.done < |arrived| == res.req
    requires res.Valid() && res.connection == null && res.Queued()
    ensures Slots(socket, arrived + [res], msgs + [res.Abs()], st)
  {
  }

  /** With all responses retired it does not matter whether the socket counts as taken. */
  lemma SlotsIdle(socket: Socket, arrived: seq<ServerResponse>, msgs: seq<Message>, st: Stage, owned: bool)
    requires |arrived| == |msgs| == st.done && Slots(socket, arrived, msgs, st)
    ensures Slots(socket, arrived, msgs, st.(owned := owned))
  {
    forall j | 0 <= j < |arrived| ensures Slot(socket, arrived[j], j, msgs[j], st.(owned := owned)) {
      assert Slot(socket, arrived[j], j, msgs[j], st);
    }
  }

  lemma SlotsStart(socket: Socket, arrived: seq<ServerResponse>, msgs: seq<Message>, res: ServerResponse)
    requires |arrived| == |msgs| == res.req && Slots(socket, arrived, msgs, Stage(|arrived|, false, false))
    requires res.Valid() && res.connection == socket
    ensures Slots(socket, arrived + [res], msgs + [res.Abs()], Stage(|arrived|, true, false))
  {
    SlotsIdle(socket, arrived, msgs, Stage(|arrived|, false, false), true);
    assert Slots(socket, arrived, msgs, Stage(|arrived|, true, false));
  }

  lemma QueuesEmpty(socket: Socket, arrived: seq<ServerResponse>, msgs: seq<Message>, done: nat,
                    incoming: seq<nat>, outgoing: seq<ServerResponse>)
    requires done <= |arrived| == |msgs| && socket.writable && socket.httpMessage == null
    requires Queues(socket, arrived, msgs, done, incoming, outgoing)
    ensures done == |arrived| && incoming == [] && outgoing == [] && socket.wire == Whole(msgs) && !socket.destroyed
  {
    QueuesMean(socket, arrived, msgs, done, incoming, outgoing);
    assert msgs[..|msgs|] == msgs;
  }

  lemma QueuesStart(socket: Socket, arrived: seq<ServerResponse>, msgs: seq<Message>, res: ServerResponse)
    requires |arrived| == |msgs| == res.req && socket.writable && !socket.destroyed && socket.httpMessage == res
             && res.base == Whole(msgs)
    ensures Queues(socket, arrived + [res], msgs + [res.Abs()], |arrived|, [] + [res.req], [] + [])
  {
    Append(msgs, res.Abs(), |msgs|);
    assert msgs[..|msgs|] == msgs;
  }

  lemma QueuesEnqueue(socket: Socket, arrived: seq<ServerResponse>, msgs: seq<Message>, done: nat,
                      incoming: seq<nat>, outgoing: seq<ServerResponse>, res: ServerResponse)
    requires done < |arrived| == |msgs| && socket.writable && res.req == |arrived|
    requires Queues(socket, arrived, msgs, done, incoming, outgoing)
    ensures Queues(socket, arrived + [res], msgs + [res.Abs()], done, incoming + [res.req], outgoing + [res])
  {
    QueuesMean(socket, arrived, msgs, done, incoming, outgoing);
    var all, specs, requests, waiting := arrived + [res], msgs + [res.Abs()], incoming + [res.req], outgoing + [res];
    assert QueueHolds(Requests, socket, all, specs, done, requests, waiting);
    assert QueueHolds(Waiting, socket, all, specs, done, requests, waiting) by { Append(arrived, res, done + 1); }
    assert QueueHolds(Owner, socket, all, specs, done, requests, waiting);
    assert QueueHolds(Wire, socket, all, specs, done, requests, waiting) by { Append(msgs, res.Abs(), done); }
  }

  /** The closure state of `connectionListener`. */
  class Connection {
    const socket: Socket
    var incoming: seq<nat>
    var outgoing: seq<ServerResponse>
    ghost var arrived: seq<ServerResponse>
    ghost var msgs: seq<Message>
    ghost var done: nat  // responses finished and detached

    constructor ()
      ensures Valid() && arrived == [] && msgs == [] && fresh(socket) && socket.writable
    {
      socket := new Socket();
      incoming, outgoing, arrived, msgs, done := [], [], [], [], 0;
    }

    ghost function Now(): Stage
      reads this, socket
    {
      Stage(done, socket.writable, !socket.writable)
    }

    ghost predicate Settling()
      reads this, socket, arrived
    {
      && done <= |arrived| == |msgs|
      && Slots(socket, arrived, msgs, Now())
      && Queues(socket, arrived, msgs, done, incoming, outgoing)
    }

    /** Between events the response that owns the socket is not finished. */
    ghost predicate Valid()
      reads this, socket, arrived
    {
      Settling() && (Busy(socket, arrived, done) ==> !msgs[done].finished)
    }

    /** `parserOnIncoming`, up to handing the pair to the user. Requests are named by their arrival number. */
    method Incoming(req: nat, implicitHead: Head, hasBody: bool) returns (res: ServerResponse)
      requires Valid() && socket.writable && req == |arrived|
      modifies this, socket
      ensures Valid() && socket.writable && fresh(res)
      ensures arrived == old(arrived) + [res] && msgs == old(msgs) + [NewMessage(implicitHead, hasBody)]
    {
      res := new ServerResponse(req, implicitHead, hasBody);
      if socket.httpMessage != null {
        Enqueue(res);
      } else {
        Start(res);
      }
    }

    method Enqueue(res: ServerResponse)
      requires Valid() && socket.writable && socket.httpMessage != null
      requires res.req == |arrived| && res.Valid() && res.connection == null && res.output == [] && !res.headerSent
      modifies this
      ensures Valid() && arrived == old(arrived) + [res] && msgs == old(msgs) + [res.Abs()]
    {
      ghost var m := res.Abs();
      assert done < |arrived| by { QueuesMean(socket, arrived, msgs, done, incoming, outgoing); }
      QueuesEnqueue(socket, arrived, msgs, done, incoming, outgoing, res);
      SlotsEnqueue(socket, arrived, msgs, res, Now());
      Record(res, [res]);
      assert arrived == old(arrived) + [res] && msgs == old(msgs) + [m];
    }

    /** The bookkeeping of a new pair: `queued` is what joins `outgoing`. */
    method Record(res: ServerResponse, queued: seq<ServerResponse>)
      modifies `incoming, `outgoing, `arrived, `msgs
      ensures incoming == old(incoming) + [res.req] && outgoing == old(outgoing) + queued
      ensures arrived == old(arrived) + [res] && msgs == old(msgs) + [old(res.Abs())]
    {
      incoming := incoming + [res.req];
      outgoing := outgoing + queued;
      arrived, msgs := arrived + [res], msgs + [res.Abs()];
    }

    method Start(res: ServerResponse)
      requires Valid() && socket.writable && socket.httpMessage == null
      requires res.req == |arrived| && res.Valid() && res.connection == null && res.output == [] && !res.headerSent
      modifies this, socket, res
      ensures Valid() && socket.writable
      ensures arrived == old(arrived) + [res] && msgs == old(msgs) + [old(res.Abs())]
    {
      QueuesEmpty(socket, arrived, msgs, done, incoming, outgoing);
      SlotsIdle(socket, arrived, msgs, Now(), false);
      TakeFreeSocket(res);
      Record(res, []);
      assert incoming == [res.req] && outgoing == [];
    }

    /** The response gets the socket; everything before it is retired. */
    method TakeFreeSocket(res: ServerResponse)
      requires done == |arrived| == |msgs| && socket.writable && !socket.destroyed && socket.httpMessage == null
      requires socket.wire == Whole(msgs)
      requires Slots(socket, arrived, msgs, Stage(done, false, false))
      requires res.req == |arrived| && res.Valid() && res.connection == null && res.output == [] && !res.headerSent
      modifies socket, res
      ensures socket.writable && res.Abs() == old(res.Abs())
      ensures Slots(socket, arrived + [res], msgs + [res.Abs()], Stage(done, true, false))
      ensures Queues(socket, arrived + [res], msgs + [res.Abs()], done, [res.req], [])
    {
      res.TakeSocket(socket);
      SlotsKept(Peers(socket, arrived, []), msgs, Stage(done, false, false));
      SlotsStart(socket, arrived, msgs, res);
      QueuesStart(socket, arrived, msgs, res);
    }

    /** A handler calls a method other than `end` on its response. */
    method Call(res: ServerResponse, op: Op)
      requires Valid() && res.req < |arrived| && arrived[res.req] == res && Allowed(res.Abs(), op) && !op.End?
      modifies `msgs, socket, res
      ensures Valid() && socket.writable == old(socket.writable)
      ensures msgs == old(msgs)[res.req := Step(old(msgs)[res.req], op)]
    {
      ghost var i, specs := res.req, msgs;
      assert Slot(socket, res, i, specs[i], Now());
      msgs := specs[i := Step(specs[i], op)];
      TouchAmong(res, op, specs, Now());
    }

    /** The same, seen from all responses, which were `specs` before. */
    method TouchAmong(res: ServerResponse, op: Op, ghost specs: seq<Message>, ghost st: Stage)
      requires res.req < |arrived| == |specs| && arrived[res.req] == res && st.done <= |arrived|
      requires Slots(socket, arrived, specs, st) && Queues(socket, arrived, specs, st.done, incoming, outgoing)
      requires Allowed(specs[res.req], op) && !op.End?
      modifies socket, res
      ensures res.Abs() == Step(specs[res.req], op) && res.Abs().finished == specs[res.req].finished
      ensures socket.writable == old(socket.writable)
      ensures Slots(socket, arrived, specs[res.req := res.Abs()], st)
      ensures Queues(socket, arrived, specs[res.req := res.Abs()], st.done, incoming, outgoing)
    {
      assert Slot(socket, res, res.req, specs[res.req], st);
      Touch(res, op, specs[res.req], st);
      AfterUpdate(Peers(socket, arrived, outgoing), specs, incoming, res.req, res.Abs(), st);
    }

    /** The same, seen from the response alone: it stays retired, in possession of the socket, or waiting. */
    method Touch(res: ServerResponse, op: Op, ghost m: Message, ghost st: Stage)
      requires Slot(socket, res, res.req, m, st) && Allowed(m, op) && !op.End?
      modifies socket, res
      ensures Slot(socket, res, res.req, res.Abs(), st) && res.Abs() == Step(m, op)
      ensures res.req < st.done ==> res.Abs().bytes == m.bytes
      ensures res.Abs().finished == m.finished && res.base == old(res.base)
      ensures socket.writable == old(socket.writable) && socket.destroyed == old(socket.destroyed)
      ensures socket.httpMessage == old(socket.httpMessage)
      ensures unchanged(socket) || (socket.writable && res.req == st.done)
    {
      StepKeepsConsistent(m, op);
      res.Perform(op);
    }

    /** A handler ends its response; if it owns the socket and everything is out, the response is retired. */
    method End(res: ServerResponse, data: Option<Data>)
      requires Valid() && res.req < |arrived| && arrived[res.req] == res
      modifies this, socket, arrived
      ensures Valid() && arrived == old(arrived)
      ensures msgs == old(msgs)[res.req := Finish(old(msgs)[res.req], data)]
    {
      ghost var i, specs := res.req, msgs;
      assert Slot(socket, res, i, msgs[i], Now());
      if res.finished {
        return;
      }
      EndOnly(res, data);
      if |res.output| == 0 {
        assert res.connection != null;  // so the next test cannot dereference null
        if res.connection.httpMessage == res {
          ResOnFinish(res);
        }
      }
    }

    method EndOnly(res: ServerResponse, data: Option<Data>)
      requires Valid() && res.req < |arrived| && arrived[res.req] == res && !res.finished
      modifies `msgs, socket, res
      ensures Settling() && res.finished && msgs == old(msgs)[res.req := Finish(old(msgs)[res.req], data)]
      ensures socket.writable == old(socket.writable) && res.connection == old(res.connection)
      ensures res.connection == null ==> res.output != []
      ensures res.connection != null ==> res.req == done && res.output == []
      ensures socket.writable && res.req != done ==> res.connection == null
    {
      ghost var i, specs := res.req, msgs;
      assert Slot(socket, res, i, specs[i], Now());
      msgs := specs[i := Finish(specs[i], data)];
      EndAmong(res, data, specs, Now());
    }

    /** The same, seen from all responses, which were `specs` before. */
    method EndAmong(res: ServerResponse, data: Option<Data>, ghost specs: seq<Message>, ghost st: Stage)
      requires res.req < |arrived| == |specs| && arrived[res.req] == res && st.done <= |arrived| && !res.finished
      requires Slots(socket, arrived, specs, st) && Queues(socket, arrived, specs, st.done, incoming, outgoing)
      modifies socket, res
      ensures res.Abs() == Finish(specs[res.req], data) && res.finished
      ensures socket.writable == old(socket.writable) && res.connection == old(res.connection)
      ensures res.connection == null ==> res.output != []
      ensures Slots(socket, arrived, specs[res.req := res.Abs()], st)
      ensures Queues(socket, arrived, specs[res.req := res.Abs()], st.done, incoming, outgoing)
    {
      assert Slot(socket, res, res.req, specs[res.req], st);
      TouchEnd(res, data, specs[res.req], st);
      AfterUpdate(Peers(socket, arrived, outgoing), specs, incoming, res.req, res.Abs(), st);
    }

    /** The same, seen from the response alone. */
    method TouchEnd(res: ServerResponse, data: Option<Data>, ghost m: Message, ghost st: Stage)
      requires Slot(socket, res, res.req, m, st) && !res.finished
      modifies socket, res
      ensures Slot(socket, res, res.req, res.Abs(), st) && res.Abs() == Finish(m, data) && res.finished
      ensures res.base == old(res.base) && res.connection == old(res.connection)
      ensures res.connection == null ==> res.output != []
      ensures socket.writable == old(socket.writable) && socket.destroyed == old(socket.destroyed)
      ensures socket.httpMessage == old(socket.httpMessage)
      ensures unchanged(socket) || (socket.writable && res.req == st.done)
    {
      res.End(data);
    }

    /** `resOnFinish`: retire the response and pass the socket on, as often as the next one is finished too. */
    method ResOnFinish(res: ServerResponse)
      requires Settling() && Busy(socket, arrived, done) && arrived[done] == res && res.finished
      modifies this, socket, arrived
      ensures Valid() && arrived == old(arrived) && msgs == old(msgs)
      decreases |arrived| - done
    {
      FirstRequest(res);  // the assertion in the source
      Retire(res);
      if res.last {
        Close();
      } else if |outgoing| > 0 {
        var m := PassOn();
        if m.finished {
          ResOnFinish(m);
        }
      } else {
        StayIdle();
      }
    }

    lemma FirstRequest(res: ServerResponse)
      requires Settling() && Busy(socket, arrived, done) && arrived[done] == res
      ensures |incoming| == 0 || incoming[0] == res.req
    {
      QueuesMean(socket, arrived, msgs, done, incoming, outgoing);
      assert Slot(socket, res, done, msgs[done], Now());
    }

    /** The socket is free: the last response is retired and the next one has not been given it yet. */
    ghost predicate Between(closed: bool)
      reads this, socket, arrived
    {
      && done <= |arrived| == |msgs| && socket.writable && !socket.destroyed && socket.httpMessage == null
      && Slots(socket, arrived, msgs, Stage(done, false, closed))
      && |incoming| == |arrived| - done && (forall i :: 0 <= i < |incoming| ==> incoming[i] == done + i)
      && outgoing == arrived[done..] && socket.wire == Whole(msgs[..done]) && done > 0
    }

    method Retire(res: ServerResponse)
      requires Settling() && Busy(socket, arrived, done) && arrived[done] == res && res.finished
      modifies `incoming, `done, socket, res
      ensures done == old(done) + 1 && res.last == old(res.last) && Between(res.last)
    {
      ghost var st := Now();
      assert Slot(socket, res, done, msgs[done], st);
      QueuesMean(socket, arrived, msgs, done, incoming, outgoing);
      OwnerWire(socket, res, arrived, msgs, done, incoming, outgoing);
      res.DetachSocket(socket);
      incoming := incoming[1..];
      done := done + 1;
      SlotsMove(Peers(socket, arrived, outgoing), msgs, done - 1, st, Stage(done, false, res.last));
    }

    method Close()
      requires Between(true)
      modifies socket
      ensures Valid()
    {
      socket.DestroySoon();
      SlotsKept(Peers(socket, arrived, outgoing), msgs, Now());
    }

    /** No response is waiting, so the idle state already is the state between two events. */
    lemma StayIdle()
      requires Between(false) && outgoing == []
      ensures Valid()
    {
      SlotsIdle(socket, arrived, msgs, Stage(done, false, false), true);
    }

    method PassOn() returns (m: ServerResponse)
      requires Between(false) && |outgoing| > 0
      modifies `outgoing, socket, arrived
      ensures Settling() && Busy(socket, arrived, done) && m == arrived[done]
    {
      m := outgoing[0];
      assert Slot(socket, m, done, msgs[done], Stage(done, false, false));
      Shift(arrived, done);
      outgoing := outgoing[1..];
      assert socket.httpMessage == null;  // the assertion in assignSocket
      m.TakeSocket(socket);
      SlotsMove(Peers(socket, arrived, outgoing), msgs, done, Stage(done, false, false), Now());
    }
  }

  /** The connection moves to its next stage through one response; no other one was touched. */
  twostate lemma SlotsMove(p: Peers, new msgs: seq<Message>, new i: nat, new st: Stage, new st': Stage)
    requires i < |p.arrived| == |msgs| && old(Slots(p.socket, p.arrived, msgs, st))
    requires forall j :: 0 <= j < |p.arrived| && j != i ==> unchanged(p.arrived[j])
    requires st.owned ==> i == st.done
    requires st'.owned ==> i == st'.done
    requires !st.closed && (st.done == st'.done || st.done + 1 == st'.done == i + 1)
    requires st'.closed ==> st'.done == i + 1
    requires Slot(p.socket, p.arrived[i], i, msgs[i], st')
    ensures Slots(p.socket, p.arrived, msgs, st')
  {
    forall j | 0 <= j < |p.arrived| ensures Slot(p.socket, p.arrived[j], j, msgs[j], st') {
      if j != i {
        assert old(Slot(p.socket, p.arrived[j], j, msgs[j], st));
        SlotMove(Pair(p.socket, p.arrived[j]), j, msgs[j], st, st');
      }
    }
  }

  twostate lemma SlotsKept(p: Peers, new msgs: seq<Message>, new st: Stage)
    requires |p.arrived| == |msgs| && old(Slots(p.socket, p.arrived, msgs, st)) && !st.owned
    requires forall j :: 0 <= j < |p.arrived| ==> unchanged(p.arrived[j])
    ensures Slots(p.socket, p.arrived, msgs, st)
  {
    forall j | 0 <= j < |p.arrived| ensures Slot(p.socket, p.arrived[j], j, msgs[j], st) {
      assert old(Slot(p.socket, p.arrived[j], j, msgs[j], st));
      SlotFrame(Pair(p.socket, p.arrived[j]), j, msgs[j], st);
    }
  }

  /** When the response that owns the socket is finished, everything up to and including it is on the wire. */
  lemma OwnerWire(socket: Socket, res: ServerResponse, arrived: seq<ServerResponse>, msgs: seq<Message>, done: nat,
                  incoming: seq<nat>, outgoing: seq<ServerResponse>)
    requires done < |arrived| == |msgs| && arrived[done] == res && socket.writable
    requires Slot(socket, res, done, msgs[done], Stage(done, true, false))
    requires Queues(socket, arrived, msgs, done, incoming, outgoing)
    ensures socket.wire == Whole(msgs[..done + 1])
  {
    QueuesMean(socket, arrived, msgs, done, incoming, outgoing);
    Shift(msgs, done);
    WholeAppend(msgs[..done], msgs[done]);
    Unit(res.sent);
  }

  /** One response has moved on; no other one, and no socket of another one, was touched. */
  twostate lemma SlotsUpdate(p: Peers, new msgs: seq<Message>, new i: nat, new m: Message, new st: Stage)
    requires i < |p.arrived| == |msgs| && old(Slots(p.socket, p.arrived, msgs, st))
    requires forall j :: 0 <= j < |p.arrived| && j != i ==> unchanged(p.arrived[j])
    requires unchanged(p.socket) || i == st.done
    requires Slot(p.socket, p.arrived[i], i, m, st)
    ensures Slots(p.socket, p.arrived, msgs[i := m], st)
  {
    forall j | 0 <= j < |p.arrived| ensures Slot(p.socket, p.arrived[j], j, msgs[i := m][j], st) {
      if j != i {
        assert old(Slot(p.socket, p.arrived[j], j, msgs[j], st));
        SlotFrame(Pair(p.socket, p.arrived[j]), j, msgs[j], st);
      }
    }
  }

  twostate lemma AfterUpdate(p: Peers, new msgs: seq<Message>, new incoming: seq<nat>, new i: nat, new m: Message,
                             new st: Stage)
    requires i < |p.arrived| == |msgs| && st.done <= |p.arrived|
    requires old(Slots(p.socket, p.arrived, msgs, st))
             && old(Queues(p.socket, p.arrived, msgs, st.done, incoming, p.outgoing))
    requires forall j :: 0 <= j < |p.arrived| && j != i ==> unchanged(p.arrived[j])
    requires p.arrived[i].base == old(p.arrived[i].base)
    requires p.socket.writable == old(p.socket.writable) && p.socket.destroyed == old(p.socket.destroyed)
    requires p.socket.httpMessage == old(p.socket.httpMessage)
    requires unchanged(p.socket) || (p.socket.writable && i == st.done)
    requires Slot(p.socket, p.arrived[i], i, m, st)
    requires i < st.done ==> m.bytes == msgs[i].bytes
    ensures Slots(p.socket, p.arrived, msgs[i := m], st)
            && Queues(p.socket, p.arrived, msgs[i := m], st.done, incoming, p.outgoing)
  {
    SlotsUpdate(p, msgs, i, m, st);
    QueuesUpdate(p, msgs, incoming, i, m, st);
  }

  twostate lemma QueuesUpdate(p: Peers, new msgs: seq<Message>, new incoming: seq<nat>, new i: nat, new m: Message,
                              new st: Stage)
    requires i < |p.arrived| == |msgs| && st.done <= |p.arrived|
    requires old(Queues(p.socket, p.arrived, msgs, st.done, incoming, p.outgoing))
    requires forall j :: 0 <= j < |p.arrived| ==> p.arrived[j].base == old(p.arrived[j].base)
    requires p.socket.writable == old(p.socket.writable) && p.socket.destroyed == old(p.socket.destroyed)
    requires p.socket.httpMessage == old(p.socket.httpMessage)
    requires unchanged(p.socket) || (p.socket.writable && i == st.done)
    requires i < st.done ==> m.bytes == msgs[i].bytes
    ensures Queues(p.socket, p.arrived, msgs[i := m], st.done, incoming, p.outgoing)
  {
    assert old(QueueHolds(Requests, p.socket, p.arrived, msgs, st.done, incoming, p.outgoing));
    assert old(QueueHolds(Waiting, p.socket, p.arrived, msgs, st.done, incoming, p.outgoing));
    assert old(QueueHolds(Owner, p.socket, p.arrived, msgs, st.done, incoming, p.outgoing));
    assert old(QueueHolds(Wire, p.socket, p.arrived, msgs, st.done, incoming, p.outgoing));
    WholeUpdate(msgs, i, m, st.done);
  }

  /** A response that was not touched stays where it is, unless it owns a socket that was. */
  twostate lemma SlotFrame(p: Pair, new i: nat, new m: Message, new st: Stage)
    requires old(Slot(p.socket, p.r, i, m, st)) && unchanged(p.r)
    requires unchanged(p.socket) || i != st.done || !st.owned
    ensures Slot(p.socket, p.r, i, m, st)
  {
  }

  /** A response that does not own the socket, before or after, across a change of stage. */
  twostate lemma SlotMove(p: Pair, new i: nat, new m: Message, new st: Stage, new st': Stage)
    requires old(Slot(p.socket, p.r, i, m, st)) && unchanged(p.r)
    requires !(i == st.done && st.owned) && !(i == st'.done && st'.owned)
    requires i < st.done <==> i < st'.done
    requires LastOnly(i, m, st')
    ensures Slot(p.socket, p.r, i, m, st')
  {
  }

  // ---- Whole runs

  lemma WireIsExpected(c: Connection)
    requires c.Valid()
    ensures c.socket.wire == ExpectedWire(c.msgs)
    ensures c.socket.writable <==> !Closed(c.msgs)
  {
    var msgs, done := c.msgs, c.done;
    QueuesMean(c.socket, c.arrived, msgs, done, c.incoming, c.outgoing);
    var k := if c.socket.writable then done else done - 1;
    forall i | 0 <= i < k ensures PassedOn(msgs[i]) {
      assert Slot(c.socket, c.arrived[i], i, msgs[i], c.Now());
    }
    ExpectedAfter(msgs, k);
    if !c.socket.writable {
      assert Slot(c.socket, c.arrived[k], k, msgs[k], c.Now());
      Shift(msgs, k);
      WholeAppend(msgs[..k], msgs[k]);
    } else if done < |msgs| {
      assert Slot(c.socket, c.arrived[k], k, msgs[k], c.Now());
      Unit(c.arrived[k].sent);
    } else {
      Unit(Whole(msgs[..k]));
    }
  }

  method Handle(c: Connection, responses: seq<ServerResponse>, e: Event) returns (known: seq<ServerResponse>)
    requires c.Valid() && responses == c.arrived && Admissible(c.msgs, e)
    modifies c, c.socket, c.arrived
    ensures c.Valid() && known == c.arrived && c.msgs == Next(old(c.msgs), e)
    ensures forall i :: 0 <= i < |known| ==> known[i] in responses || fresh(known[i])
  {
    match e
    case Arrive(h, b) =>
      known := HandleArrival(c, responses, h, b);
    case Call(i, op) =>
      HandleCall(c, responses[i], i, op);
      known := responses;
  }

  method HandleArrival(c: Connection, responses: seq<ServerResponse>, h: Head,
                       b: bool) returns (known: seq<ServerResponse>)
    requires c.Valid() && responses == c.arrived && !Closed(c.msgs)
    modifies c, c.socket
    ensures c.Valid() && known == c.arrived && c.msgs == old(c.msgs) + [NewMessage(h, b)]
    ensures forall i :: 0 <= i < |known| ==> known[i] in responses || fresh(known[i])
  {
    WireIsExpected(c);
    var r := c.Incoming(|responses|, h, b);
    known := responses + [r];
  }

  method HandleCall(c: Connection, res: ServerResponse, i: nat, op: Op)
    requires c.Valid() && i < |c.arrived| && res == c.arrived[i] && Allowed(c.msgs[i], op)
    modifies c, c.socket, c.arrived
    ensures c.Valid() && c.arrived == old(c.arrived) && c.msgs == old(c.msgs)[i := Step(old(c.msgs)[i], op)]
  {
    assert Slot(c.socket, res, i, c.msgs[i], c.Now());
    assert op.End? ==> Step(c.msgs[i], op) == Finish(c.msgs[i], op.data);
    if op.End? {
      c.End(res, op.data);
    } else {
      c.Call(res, op);
    }
  }

  /** A connection after any sequence of events. */
  method After(events: seq<Event>) returns (c: Connection, responses: seq<ServerResponse>)
    requires WellFormed(events)
    ensures c.Valid() && c.msgs == Replay(events) && responses == c.arrived
    ensures fresh(c) && fresh(c.socket) && fresh(c.arrived)
    decreases |events|
  {
    if events == [] {
      c := new Connection();
      responses := [];
    } else {
      c, responses := After(events[..|events| - 1]);
      responses := Handle(c, responses, events[|events| - 1]);
    }
  }

  /** What is on the wire after any sequence of events is what the responses, taken one by one and in the order of
      the requests, would have sent: whole responses, then the one in progress, each with its header first. If nothing
      is spoiled, that is exactly what the calls ask for. */
  method Serve(events: seq<Event>) returns (wire: seq<byte>)
    requires WellFormed(events)
    ensures wire == ExpectedWire(Replay(events)) && |Arrivals(events)| == |Replay(events)|
    ensures forall i :: 0 <= i < |Arrivals(events)| ==>
              InForm(Arrivals(events)[i].0, Arrivals(events)[i].1, Calls(events, i), Replay(events)[i])
    ensures NothingSpoiled(events) ==> wire == Asked(events, 0)
  {
    FreshLength(events);
    ArrivalsLength(events);
    forall i | 0 <= i < |Arrivals(events)|
      ensures InForm(Arrivals(events)[i].0, Arrivals(events)[i].1, Calls(events, i), Replay(events)[i])
    {
      HeaderFirst(events, i);
    }
    if NothingSpoiled(events) {
      ExpectedIsAsked(events, 0);
      assert Replay(events)[0..] == Replay(events);
    }
    var c, responses := After(events);
    WireIsExpected(c);
    wire := c.socket.wire;
  }
}
