/** Parsers that work in turns: in each turn the parser waits for more text, or delivers a body and starts again
    with the rest of the text. */
module TurnParser {
  import opened Common
  import opened Seqs

  datatype Turn<+S> = Wait(state: S) | Deliver(body: string, rest: string)

  /** What a call makes of a text; `Endless` is a call that never returns. */
  datatype Outcome<+S> = Outcome(bodies: seq<string>, state: S, raw: string) | Endless

  /** The state to start in, the turns, which states belong to which texts, and the deliveries that more text leaves as
      they are. */
  datatype Machine<!S(!new)> = Machine(first: S, turn: (S, string) -> Turn<S>, legal: (S, string) -> bool,
                                       fixed: (S, string) -> bool)
  {
    /** Waiting loses nothing, and a delivery that counts as fixed does not depend on later text. */
    ghost predicate Lawful()
    {
      && (forall raw :: legal(first, raw))
      && (forall s, raw, d :: legal(s, raw) ==> legal(s, raw + d))
      && (forall s, raw, d :: legal(s, raw) ==> Stable(s, raw, d))
    }

    ghost predicate Stable(s: S, raw: string, d: string)
    {
      match turn(s, raw)
      case Wait(s') => legal(s', raw) && turn(s', raw + d) == turn(s, raw + d)
      case Deliver(body, rest) => fixed(s, raw) ==> turn(s, raw + d) == Deliver(body, rest + d)
    }
  }

  function Then<S>(bodies: seq<string>, o: Outcome<S>): Outcome<S>
  {
    if o.Endless? then o else Outcome(bodies + o.bodies, o.state, o.raw)
  }

  lemma ThenThen<S>(a: seq<string>, b: seq<string>, o: Outcome<S>)
    ensures Then(a, Then(b, o)) == Then(a + b, o) && Then([], o) == o
  {
    if o.Outcome? {
      Assoc(a, b, o.bodies);
      Unit(o.bodies);
    }
  }

  // ---- One call

  /** The outcome of a text, if no more than `n` bodies are delivered on the way. */
  ghost function ParseIn<S(!new)>(m: Machine<S>, s: S, raw: string, n: nat): Option<Outcome<S>>
    decreases n
  {
    match m.turn(s, raw)
    case Wait(s') => Some(Outcome([], s', raw))
    case Deliver(body, rest) =>
      if n == 0 then None
      else match ParseIn(m, m.first, rest, n - 1) case None => None case Some(o) => Some(Then([body], o))
  }

  ghost predicate Halts<S(!new)>(m: Machine<S>, s: S, raw: string) { exists n: nat :: ParseIn(m, s, raw, n).Some? }

  /** The outcome of a text, however many bodies are delivered on the way. */
  ghost function Parse<S(!new)>(m: Machine<S>, s: S, raw: string): Outcome<S>
  {
    if Halts(m, s, raw) then var n: nat :| ParseIn(m, s, raw, n).Some?; ParseIn(m, s, raw, n).value else Endless
  }

  lemma {:induction false} MoreRoom<S(!new)>(m: Machine<S>, s: S, raw: string, n: nat, n': nat)
    requires n <= n' && ParseIn(m, s, raw, n).Some?
    ensures ParseIn(m, s, raw, n') == ParseIn(m, s, raw, n) && ParseIn(m, s, raw, n).value.Outcome?
    decreases n
  {
    var t := m.turn(s, raw);
    if t.Deliver? { MoreRoom(m, m.first, t.rest, n - 1, n' - 1); }
  }

  lemma ParseIs<S(!new)>(m: Machine<S>, s: S, raw: string, n: nat)
    requires ParseIn(m, s, raw, n).Some?
    ensures Halts(m, s, raw) && Parse(m, s, raw) == ParseIn(m, s, raw, n).value && Parse(m, s, raw).Outcome?
  {
    MoreRoom(m, s, raw, n, n);
    forall k: nat | ParseIn(m, s, raw, k).Some? ensures ParseIn(m, s, raw, k) == ParseIn(m, s, raw, n) {
      if k <= n { MoreRoom(m, s, raw, k, n); } else { MoreRoom(m, s, raw, n, k); }
    }
  }

  /** Parsing is one turn and then parsing the rest. */
  lemma Unfold<S(!new)>(m: Machine<S>, s: S, raw: string)
    ensures Parse(m, s, raw) == match m.turn(s, raw)
                                case Wait(s') => Outcome([], s', raw)
                                case Deliver(body, rest) => Then([body], Parse(m, m.first, rest))
  {
    var t := m.turn(s, raw);
    if t.Wait? {
      ParseIs(m, s, raw, 0);
    } else if Halts(m, m.first, t.rest) {
      var n: nat :| ParseIn(m, m.first, t.rest, n).Some?;
      ParseIs(m, m.first, t.rest, n);
      ParseIs(m, s, raw, n + 1);
    } else {
      forall n: nat ensures ParseIn(m, s, raw, n).None? {
        if n > 0 { assert ParseIn(m, m.first, t.rest, n - 1).None?; }
      }
    }
  }

  lemma SameTurnSameParse<S(!new)>(m: Machine<S>, s: S, raw: string, s': S)
    requires m.turn(s, raw) == m.turn(s', raw)
    ensures Parse(m, s, raw) == Parse(m, s', raw)
  {
    Unfold(m, s, raw);
    Unfold(m, s', raw);
  }

  /** A turn whose rest is the same text again never ends. */
  lemma {:induction false} SameAgain<S(!new)>(m: Machine<S>, raw: string, n: nat)
    requires m.turn(m.first, raw).Deliver? && m.turn(m.first, raw).rest == raw
    ensures ParseIn(m, m.first, raw, n).None?
  {
    if n > 0 { SameAgain(m, raw, n - 1); }
  }

  // ---- More text

  /** Parsing text and then more text is parsing all of it. */
  ghost predicate Composes<S(!new)>(m: Machine<S>, s: S, raw: string, d: string)
  {
    Parse(m, s, raw + d) == Executed(m, Parse(m, s, raw), d)
  }

  /** One more call, with the text `d`. */
  ghost function Executed<S(!new)>(m: Machine<S>, o: Outcome<S>, d: string): Outcome<S>
  {
    if o.Endless? then o else Then(o.bodies, Parse(m, o.state, o.raw + d))
  }

  /** The first `n` deliveries satisfy `p`. */
  ghost predicate AllIn<S(!new)>(p: (S, string) -> bool, m: Machine<S>, s: S, raw: string, n: nat)
    decreases n
  {
    n == 0 || match m.turn(s, raw)
              case Wait(_) => true
              case Deliver(_, rest) => p(s, raw) && AllIn(p, m, m.first, rest, n - 1)
  }

  ghost predicate All<S(!new)>(p: (S, string) -> bool, m: Machine<S>, s: S, raw: string)
  {
    forall n: nat :: AllIn(p, m, s, raw, n)
  }

  lemma AllRest<S(!new)>(p: (S, string) -> bool, m: Machine<S>, s: S, raw: string)
    requires All(p, m, s, raw) && m.turn(s, raw).Deliver?
    ensures p(s, raw) && All(p, m, m.first, m.turn(s, raw).rest)
  {
    assert AllIn(p, m, s, raw, 1);
    forall n: nat ensures AllIn(p, m, m.first, m.turn(s, raw).rest, n) {
      assert AllIn(p, m, s, raw, n + 1);
    }
  }

  lemma ComposesAtWait<S(!new)>(m: Machine<S>, s: S, raw: string, d: string)
    requires m.Lawful() && m.legal(s, raw) && m.turn(s, raw).Wait?
    ensures Composes(m, s, raw, d)
  {
    assert m.Stable(s, raw, d);
    Unfold(m, s, raw);
    SameTurnSameParse(m, m.turn(s, raw).state, raw + d, s);
    ThenThen([], [], Parse(m, s, raw + d));
  }

  lemma ComposesAfterTurn<S(!new)>(m: Machine<S>, s: S, raw: string, d: string)
    requires m.Lawful() && m.legal(s, raw) && m.turn(s, raw).Deliver? && m.fixed(s, raw)
    ensures Composes(m, s, raw, d) <==> Composes(m, m.first, m.turn(s, raw).rest, d)
  {
    var t := m.turn(s, raw);
    assert m.Stable(s, raw, d);
    Unfold(m, s, raw);
    Unfold(m, s, raw + d);
    var o := Parse(m, m.first, t.rest);
    if o.Outcome? {
      AfterFirst(t.body, o.bodies, Parse(m, m.first, t.rest + d), Parse(m, o.state, o.raw + d));
    }
  }

  /** Outcomes are equal if and only if they are with one more body in front. */
  lemma AfterFirst<S>(body: string, bodies: seq<string>, whole: Outcome<S>, last: Outcome<S>)
    ensures Then([body], whole) == Then([body] + bodies, last) <==> whole == Then(bodies, last)
  {
    if whole.Outcome? && last.Outcome? {
      Assoc([body], bodies, last.bodies);
      Split([body], whole.bodies);
      Split([body], bodies + last.bodies);
    }
  }

  lemma {:induction false} ComposesIn<S(!new)>(m: Machine<S>, s: S, raw: string, d: string, n: nat)
    requires m.Lawful() && m.legal(s, raw) && All(m.fixed, m, s, raw) && ParseIn(m, s, raw, n).Some?
    ensures Composes(m, s, raw, d)
    decreases n
  {
    var t := m.turn(s, raw);
    if t.Wait? {
      ComposesAtWait(m, s, raw, d);
    } else {
      AllRest(m.fixed, m, s, raw);
      ComposesIn(m, m.first, t.rest, d, n - 1);
      ComposesAfterTurn(m, s, raw, d);
    }
  }

  /** A call that does not return does not return with more text either. */
  lemma {:induction false} EndlessGrows<S(!new)>(m: Machine<S>, s: S, raw: string, d: string, n: nat)
    requires m.Lawful() && m.legal(s, raw) && All(m.fixed, m, s, raw) && ParseIn(m, s, raw, n).None?
    ensures ParseIn(m, s, raw + d, n).None?
    decreases n
  {
    AllRest(m.fixed, m, s, raw);
    assert m.Stable(s, raw, d);
    if n > 0 { EndlessGrows(m, m.first, m.turn(s, raw).rest, d, n - 1); }
  }

  /** If every delivery is fixed, parsing text and then more text is parsing all of it. */
  lemma ParseMore<S(!new)>(m: Machine<S>, s: S, raw: string, d: string)
    requires m.Lawful() && m.legal(s, raw) && All(m.fixed, m, s, raw)
    ensures Composes(m, s, raw, d)
  {
    if Halts(m, s, raw) {
      var n: nat :| ParseIn(m, s, raw, n).Some?;
      ComposesIn(m, s, raw, d, n);
    } else {
      forall n: nat ensures ParseIn(m, s, raw + d, n).None? {
        EndlessGrows(m, s, raw, d, n);
      }
    }
  }

  lemma Silent<S(!new)>(m: Machine<S>, s: S, raw: string)
    ensures var o := Parse(m, s, raw); o.Outcome? && o.bodies == [] ==> o.raw == raw
  {
    Unfold(m, s, raw);
  }

  /** More text turns the delivery into one that leaves nothing but this text, although something was left before. */
  lemma LeftoverShows<S(!new)>(m: Machine<S>, s: S, raw: string, d: string)
    requires m.turn(s, raw).Deliver? && m.turn(s, raw).rest != []
    requires m.turn(s, raw + d).Deliver? && m.turn(s, raw + d).rest == d && m.turn(m.first, d) == Wait(m.first)
    ensures !Composes(m, s, raw, d)
  {
    Unfold(m, s, raw + d);
    Unfold(m, m.first, d);
    Unfold(m, s, raw);
    var rest := m.turn(s, raw).rest;
    var p := Parse(m, m.first, rest);
    if p.Outcome? {
      var last := Parse(m, p.state, p.raw + d);
      Silent(m, m.first, rest);
      Silent(m, p.state, p.raw + d);
      assert |rest + d| > |d|;
      assert Parse(m, s, raw + d).Outcome? && |Parse(m, s, raw + d).bodies| == 1 && Parse(m, s, raw + d).raw == d;
      assert last.Outcome? ==> |Executed(m, Parse(m, s, raw), d).bodies| == 1 + |p.bodies| + |last.bodies|;
    }
  }

  /** The delivery takes all of the text, whatever follows. */
  lemma GreedShows<S(!new)>(m: Machine<S>, s: S, raw: string, d: string)
    requires d != [] && m.turn(s, raw).Deliver? && m.turn(s, raw + d).Deliver?
    requires m.turn(s, raw).rest == [] && m.turn(s, raw + d).rest == []
    requires m.turn(m.first, []) == Wait(m.first) && m.turn(m.first, d) == Wait(m.first)
    ensures !Composes(m, s, raw, d)
  {
    Unfold(m, s, raw);
    Unfold(m, s, raw + d);
    Unfold(m, m.first, []);
    Unfold(m, m.first, d);
    Unit(d);
  }

  // ---- Calls that return

  /** Deliveries that satisfy `p` shorten the text, as long as it satisfies `q`, and it goes on satisfying it. */
  ghost predicate Shortens<S(!new)>(p: (S, string) -> bool, q: string -> bool, m: Machine<S>)
  {
    forall s, raw :: m.legal(s, raw) && q(raw) && p(s, raw) && m.turn(s, raw).Deliver? ==>
      q(m.turn(s, raw).rest) && |m.turn(s, raw).rest| < |raw|
  }

  lemma {:induction false} ShorterHalts<S(!new)>(p: (S, string) -> bool, q: string -> bool, m: Machine<S>, s: S,
                                                 raw: string)
    requires m.Lawful() && Shortens(p, q, m) && m.legal(s, raw) && q(raw) && All(p, m, s, raw)
    ensures ParseIn(m, s, raw, |raw|).Some?
    decreases |raw|
  {
    var t := m.turn(s, raw);
    if t.Deliver? {
      AllRest(p, m, s, raw);
      ShorterHalts(p, q, m, m.first, t.rest);
      MoreRoom(m, m.first, t.rest, |t.rest|, |raw| - 1);
    }
  }

  /** Deliveries that do not satisfy `p` leave the whole text. */
  ghost predicate Repeats<S(!new)>(p: (S, string) -> bool, m: Machine<S>)
  {
    forall s, raw :: m.legal(s, raw) && !p(s, raw) && m.turn(s, raw).Deliver? ==>
      m.turn(s, raw).rest == raw && m.turn(m.first, raw).Deliver? && m.turn(m.first, raw).rest == raw
  }

  lemma {:induction false} RepeatsForever<S(!new)>(p: (S, string) -> bool, m: Machine<S>, s: S, raw: string, n: nat,
                                                   k: nat)
    requires m.Lawful() && Repeats(p, m) && m.legal(s, raw) && !AllIn(p, m, s, raw, n)
    ensures ParseIn(m, s, raw, k).None?
    decreases n
  {
    if k > 0 {
      if p(s, raw) {
        RepeatsForever(p, m, m.first, m.turn(s, raw).rest, n - 1, k - 1);
      } else {
        SameAgain(m, raw, k - 1);
      }
    }
  }

  /** If `p` decides whether a delivery shortens the text or repeats it, a call returns if and only if all satisfy
      it. */
  lemma HaltsExactly<S(!new)>(p: (S, string) -> bool, q: string -> bool, m: Machine<S>, raw: string)
    requires m.Lawful() && Shortens(p, q, m) && Repeats(p, m) && q(raw)
    ensures Halts(m, m.first, raw) <==> All(p, m, m.first, raw)
  {
    if All(p, m, m.first, raw) {
      ShorterHalts(p, q, m, m.first, raw);
    } else {
      var n: nat :| !AllIn(p, m, m.first, raw, n);
      forall k: nat ensures ParseIn(m, m.first, raw, k).None? {
        RepeatsForever(p, m, m.first, raw, n, k);
      }
    }
  }

  // ---- Chunks

  function Concat(chunks: seq<string>): string { if chunks == [] then [] else chunks[0] + Concat(chunks[1..]) }

  /** One call for each chunk. */
  ghost function Fed<S(!new)>(m: Machine<S>, o: Outcome<S>, chunks: seq<string>): Outcome<S>
    decreases |chunks|
  {
    if chunks == [] then o else Fed(m, Executed(m, o, chunks[0]), chunks[1..])
  }

  /** Deliveries that satisfy `p` with all of the text are fixed as soon as they are made. */
  ghost predicate Foresees<S(!new)>(p: (S, string) -> bool, m: Machine<S>)
  {
    forall s, raw, d :: m.legal(s, raw) && m.turn(s, raw).Deliver? && p(s, raw + d) && m.turn(s, raw + d).Deliver? ==>
      m.fixed(s, raw)
  }

  /** Once a text delivers, it delivers with more text. */
  ghost predicate Eager<S(!new)>(m: Machine<S>)
  {
    forall s, raw, d :: m.legal(s, raw) && m.turn(s, raw).Deliver? ==> m.turn(s, raw + d).Deliver?
  }

  lemma {:induction false} PrefixFixed<S(!new)>(p: (S, string) -> bool, m: Machine<S>, s: S, raw: string, d: string,
                                                n: nat)
    requires m.Lawful() && Eager(m) && Foresees(p, m) && m.legal(s, raw) && AllIn(p, m, s, raw + d, n)
    ensures AllIn(m.fixed, m, s, raw, n)
    decreases n
  {
    var t := m.turn(s, raw);
    if n > 0 && t.Deliver? {
      assert m.turn(s, raw + d).Deliver? && m.fixed(s, raw);
      assert m.Stable(s, raw, d);
      PrefixFixed(p, m, m.first, t.rest, d, n - 1);
    }
  }

  lemma {:induction false} FedIsParse<S(!new)>(p: (S, string) -> bool, m: Machine<S>, text: string, chunks: seq<string>)
    requires m.Lawful() && Eager(m) && Foresees(p, m) && All(p, m, m.first, text + Concat(chunks))
    ensures Fed(m, Parse(m, m.first, text), chunks) == Parse(m, m.first, text + Concat(chunks))
    decreases |chunks|
  {
    if chunks == [] {
      Unit(text);
    } else {
      forall n: nat ensures AllIn(m.fixed, m, m.first, text, n) {
        PrefixFixed(p, m, m.first, text, Concat(chunks), n);
      }
      ParseMore(m, m.first, text, chunks[0]);
      Assoc(text, chunks[0], Concat(chunks[1..]));
      FedIsParse(p, m, text + chunks[0], chunks[1..]);
    }
  }

  ghost function New<S(!new)>(m: Machine<S>): Outcome<S> { Outcome([], m.first, []) }

  /** However a text is cut, the bodies delivered, the state and the remaining text are those of one call. */
  lemma AnyCut<S(!new)>(p: (S, string) -> bool, m: Machine<S>, chunks: seq<string>)
    requires m.Lawful() && Eager(m) && Foresees(p, m) && All(p, m, m.first, Concat(chunks))
    requires m.turn(m.first, []) == Wait(m.first)
    ensures Fed(m, New(m), chunks) == Parse(m, m.first, Concat(chunks)) == Executed(m, New(m), Concat(chunks))
  {
    Unfold(m, m.first, []);
    Unit(Concat(chunks));
    FedIsParse(p, m, [], chunks);
    ThenThen([], [], Parse(m, m.first, Concat(chunks)));
  }

  // ---- A call with a stack of limited size

  /** The bodies that are delivered first, `n` of them at most. */
  ghost function FirstBodies<S(!new)>(m: Machine<S>, s: S, raw: string, n: nat): seq<string>
    decreases n
  {
    if n == 0 then []
    else match m.turn(s, raw)
      case Wait(_) => []
      case Deliver(body, rest) => [body] + FirstBodies(m, m.first, rest, n - 1)
  }

  /** No call comes to a body for which the stack has no room. */
  ghost predicate RoomFor<S(!new)>(m: Machine<S>, o: Outcome<S>, chunks: seq<string>, room: nat)
    decreases |chunks|
  {
    chunks == [] || (o.Outcome? && ParseIn(m, o.state, o.raw + chunks[0], room).Some?
                     && RoomFor(m, Executed(m, o, chunks[0]), chunks[1..], room))
  }

  /** A call with room for `room` bodies, after `bodies` have been delivered, ends in `now`: it returns exactly if
      there is enough room, and then with the outcome of the text; otherwise it throws, after delivering what there is
      room for and one more. */
  ghost predicate Served<S(!new)>(m: Machine<S>, bodies: seq<string>, s: S, raw: string, room: nat, ok: bool,
                                  now: Outcome<S>)
  {
    && now.Outcome? && ok == ParseIn(m, s, raw, room).Some?
    && (ok ==> m.legal(now.state, now.raw) && now == Then(bodies, Parse(m, s, raw)))
    && (!ok ==> now.bodies == bodies + FirstBodies(m, s, raw, room + 1))
  }

  lemma ServedWait<S(!new)>(m: Machine<S>, bodies: seq<string>, s: S, raw: string, room: nat, s': S)
    requires m.turn(s, raw) == Wait(s') && m.legal(s', raw)
    ensures Served(m, bodies, s, raw, room, true, Outcome(bodies, s', raw))
  {
    Unfold(m, s, raw);
    Unit(bodies);
  }

  lemma ServedOverflow<S(!new)>(m: Machine<S>, bodies: seq<string>, s: S, raw: string, body: string, now: Outcome<S>)
    requires m.turn(s, raw).Deliver? && m.turn(s, raw).body == body && now.Outcome? && now.bodies == bodies + [body]
    ensures Served(m, bodies, s, raw, 0, false, now)
  {
    assert FirstBodies(m, m.first, m.turn(s, raw).rest, 0) == [];
    Unit([body]);
  }

  lemma ServedOn<S(!new)>(m: Machine<S>, bodies: seq<string>, s: S, raw: string, body: string, rest: string, room: nat,
                          ok: bool, now: Outcome<S>)
    requires m.turn(s, raw) == Deliver(body, rest) && room > 0
    requires Served(m, bodies + [body], m.first, rest, room - 1, ok, now)
    ensures Served(m, bodies, s, raw, room, ok, now)
  {
    Unfold(m, s, raw);
    ThenThen(bodies, [body], Parse(m, m.first, rest));
    Assoc(bodies, [body], FirstBodies(m, m.first, rest, room));
  }

  lemma ServedFrom<S(!new)>(m: Machine<S>, bodies: seq<string>, s: S, s': S, raw: string, room: nat, ok: bool,
                            now: Outcome<S>)
    requires m.turn(s, raw) == m.turn(s', raw) && Served(m, bodies, s', raw, room, ok, now)
    ensures Served(m, bodies, s, raw, room, ok, now)
  {
    SameTurnSameParse(m, s, raw, s');
  }

  lemma TwoPieces<S(!new)>(m: Machine<S>, a: string, b: string)
    requires m.turn(m.first, []) == Wait(m.first)
    ensures Fed(m, New(m), [a + b]) == Parse(m, m.first, a + b)
    ensures Fed(m, New(m), [a, b]) == Executed(m, Parse(m, m.first, a), b)
  {
    Unit(a);
    Unit(a + b);
    ThenThen([], [], Parse(m, m.first, a));
    ThenThen([], [], Parse(m, m.first, a + b));
    var o := Executed(m, New(m), a);
    assert [a, b][1..] == [b] && [b][1..] == [] && [a + b][1..] == [];
    assert Fed(m, o, [b]) == Fed(m, Executed(m, o, b), []);
    assert Fed(m, New(m), [a + b]) == Fed(m, Executed(m, New(m), a + b), []);
  }

  /** A frame delivers its body, and leaves whatever follows. */
  ghost predicate Carries<S(!new)>(p: (S, string) -> bool, m: Machine<S>, frame: string, body: string)
  {
    forall more :: m.turn(m.first, frame + more) == Deliver(body, more) && p(m.first, frame + more)
  }

  lemma {:induction false} FramesDelivered<S(!new)>(p: (S, string) -> bool, m: Machine<S>, frames: seq<string>,
                                                    bodies: seq<string>)
    requires |frames| == |bodies| && forall i :: 0 <= i < |frames| ==> Carries(p, m, frames[i], bodies[i])
    requires m.turn(m.first, []) == Wait(m.first)
    ensures Parse(m, m.first, Concat(frames)) == Outcome(bodies, m.first, [])
  {
    Unfold(m, m.first, Concat(frames));
    if frames != [] {
      assert Carries(p, m, frames[0], bodies[0]);
      FramesDelivered(p, m, frames[1..], bodies[1..]);
      assert [bodies[0]] + bodies[1..] == bodies;
    }
  }

  lemma {:induction false} FramesAll<S(!new)>(p: (S, string) -> bool, m: Machine<S>, frames: seq<string>,
                                              bodies: seq<string>, n: nat)
    requires |frames| == |bodies| && forall i :: 0 <= i < |frames| ==> Carries(p, m, frames[i], bodies[i])
    requires m.turn(m.first, []) == Wait(m.first)
    ensures AllIn(p, m, m.first, Concat(frames), n)
    decreases n
  {
    if n > 0 && frames != [] {
      assert Carries(p, m, frames[0], bodies[0]);
      FramesAll(p, m, frames[1..], bodies[1..], n - 1);
    }
  }
}
