/** Readable streams: a buffer with two ways out, and user code that can call back in at every event. */
module ReadableStream {
  import opened Common
  import opened Seqs

  /** What `push` and `unshift` are given. A chunk is the sequence of its bytes; in object mode it is one object. */
  datatype Chunk<T> = Invalid | Null | Data(units: seq<T>)

  datatype Action<T> =
    | Add(chunk: Chunk<T>, toFront: bool)
    | Read(n: Option<int>)
    | Resume
    | Pause
    | ListenReadable

  /** 'error', 'readable', 'pause' and 'resume'. */
  datatype Sign = ErrorSign | ReadableSign | PauseSign | ResumeSign

  datatype Event<T> = DataEvent(units: seq<T>) | EndEvent | Signal(sign: Sign)

  /** Data that was accepted: at the back, or at the front of what had not been emitted yet. */
  datatype Entry<T> = Pushed(units: seq<T>) | Unshifted(units: seq<T>, at: nat)

  /** Who calls: code outside of any callback, a listener, or code that runs while `_read` does (`_read` itself, and
      listeners called from it). */
  datatype Origin = FromOutside | FromListener | FromRead

  /** One piece of user code: the actions that it performs in this order. */
  datatype Run<T> = Run(origin: Origin, acts: seq<Action<T>>)

  /** An action of run number `who`, begun when `at` events had been emitted. */
  datatype Did<T> = Did(who: nat, action: Action<T>, at: nat)

  /** A run in progress, and how many of its actions are done or begun. */
  datatype Frame<T> = Frame(id: nat, acts: seq<Action<T>>, done: nat)

  /** Work put off with `process.nextTick`. */
  datatype Task = EmitReadableTask | ReadMoreTask | ResumeTask | ReadZeroTask | EndTask

  function Flat<T>(chunks: seq<seq<T>>): seq<T>
  {
    if chunks == [] then [] else chunks[0] + Flat(chunks[1..])
  }

  function DataOf<T>(events: seq<Event<T>>): seq<T>
  {
    if events == [] then []
    else
      var e := events[|events| - 1];
      DataOf(events[..|events| - 1]) + if e.DataEvent? then e.units else []
  }

  /** The whole stream, emitted or not, that a sequence of accepted chunks makes up. */
  function Whole<T>(ledger: seq<Entry<T>>): seq<T>
  {
    if ledger == [] then []
    else
      var before, e := Whole(ledger[..|ledger| - 1]), ledger[|ledger| - 1];
      match e
      case Pushed(units) => before + units
      case Unshifted(units, at) => if at <= |before| then before[..at] + (units + before[at..]) else before
  }

  predicate HasEnd<T>(events: seq<Event<T>>) { exists i :: 0 <= i < |events| && events[i].EndEvent? }

  /** 'end' comes at most once, and no data after it. */
  predicate Proper<T>(events: seq<Event<T>>)
  {
    forall i, j :: 0 <= i < j < |events| && events[i].EndEvent? ==> events[j].Signal?
  }

  /** Every unshifted chunk was put somewhere into what had been accepted before. */
  predicate Placed<T>(ledger: seq<Entry<T>>)
  {
    ledger == []
    || (var before, e := ledger[..|ledger| - 1], ledger[|ledger| - 1];
        Placed(before) && (e.Unshifted? ==> e.at <= |Whole(before)|))
  }

  lemma DataOfSnoc<T>(events: seq<Event<T>>, e: Event<T>)
    ensures DataOf(events + [e]) == DataOf(events) + if e.DataEvent? then e.units else []
    ensures HasEnd(events + [e]) <==> HasEnd(events) || e.EndEvent?
    ensures Proper(events + [e]) <==> Proper(events) && (HasEnd(events) ==> e.Signal?)
  {
    var all := events + [e];
    assert all[..|events|] == events;
    if HasEnd(events) {
      var i :| 0 <= i < |events| && events[i].EndEvent?;
      assert all[i].EndEvent? && all[|events|] == e;
    }
    if e.EndEvent? {
      assert all[|events|].EndEvent?;
    }
    if Proper(all) {
      forall i, j | 0 <= i < j < |events| && events[i].EndEvent? ensures events[j].Signal? {
        assert all[i] == events[i] && all[j] == events[j];
      }
    }
  }

  lemma WholeSnoc<T>(ledger: seq<Entry<T>>, e: Entry<T>)
    ensures e.Pushed? ==> Whole(ledger + [e]) == Whole(ledger) + e.units
    ensures Placed(ledger) && (e.Unshifted? ==> e.at <= |Whole(ledger)|) ==> Placed(ledger + [e])
    ensures e.Unshifted? && e.at <= |Whole(ledger)| ==>
              Whole(ledger + [e]) == Whole(ledger)[..e.at] + (e.units + Whole(ledger)[e.at..])
  {
    assert (ledger + [e])[..|ledger|] == ledger;
  }

  lemma {:induction false} FlatConcat<T>(a: seq<seq<T>>, b: seq<seq<T>>)
    ensures Flat(a + b) == Flat(a) + Flat(b)
  {
    if a == [] {
      Unit(b);
      Unit(Flat(b));
    } else {
      assert (a + b)[0] == a[0] && (a + b)[1..] == a[1..] + b;
      FlatConcat(a[1..], b);
      Assoc(a[0], Flat(a[1..]), Flat(b));
    }
  }

  lemma FlatOne<T>(c: seq<T>)
    ensures Flat([c]) == c
  {
    assert [c][1..] == [];
    Unit(c);
  }

  lemma FlatCons<T>(c: seq<T>, rest: seq<seq<T>>)
    ensures Flat([c] + rest) == c + Flat(rest)
  {
    FlatConcat([c], rest);
    FlatOne(c);
  }

  /** Chunks in the buffer are never empty, and single objects in object mode. */
  predicate Sized<T>(objectMode: bool, buffer: seq<seq<T>>)
  {
    forall i :: 0 <= i < |buffer| ==> buffer[i] != [] && (objectMode ==> |buffer[i]| == 1)
  }

  predicate Fits<T>(objectMode: bool, a: Action<T>)
  {
    objectMode && a.Add? ==> !a.chunk.Invalid? && (a.chunk.Data? ==> |a.chunk.units| == 1)
  }

  predicate AllFit<T>(objectMode: bool, acts: seq<Action<T>>)
  {
    forall i :: 0 <= i < |acts| ==> Fits(objectMode, acts[i])
  }

  /** No reads, unless the stream is in object mode. */
  predicate Restrained<T>(objectMode: bool, acts: seq<Action<T>>)
  {
    forall i :: 0 <= i < |acts| && acts[i].Read? ==> objectMode
  }

  /** User code that fits the mode; what runs while `_read` does must not call `read`, except in object mode. */
  predicate AllPlanned<T>(objectMode: bool, plan: seq<seq<Action<T>>>, inside: bool)
  {
    forall i :: 0 <= i < |plan| ==> AllFit(objectMode, plan[i]) && (inside ==> Restrained(objectMode, plan[i]))
  }

  lemma EmptyBuffer<T>(objectMode: bool, buffer: seq<seq<T>>)
    requires Sized(objectMode, buffer) && |Flat(buffer)| == 0
    ensures buffer == []
  {
  }

  /** Everything accepted is either emitted or in the buffer, in order, and 'end' is the end. */
  ghost predicate Sound<T>(objectMode: bool, buffer: seq<seq<T>>, length: int, events: seq<Event<T>>,
                           ledger: seq<Entry<T>>,
                           ended: bool, endEmitted: bool)
  {
    && Sized(objectMode, buffer) && length == |Flat(buffer)|
    && DataOf(events) + Flat(buffer) == Whole(ledger) && Placed(ledger)
    && Proper(events) && (endEmitted <==> HasEnd(events))
    && (endEmitted ==> ended && buffer == [])
  }

  /** How an accepted chunk is entered in the ledger. */
  function EntryFor<T>(units: seq<T>, toFront: bool, events: seq<Event<T>>): Entry<T>
  {
    if toFront then Unshifted(units, |DataOf(events)|) else Pushed(units)
  }

  lemma SoundDirect<T>(objectMode: bool, buffer: seq<seq<T>>, events: seq<Event<T>>, ledger: seq<Entry<T>>, ended: bool,
                       units: seq<T>, toFront: bool)
    requires Sound(objectMode, buffer, 0, events, ledger, ended, false)
    ensures Sound(objectMode, buffer, 0, events + [DataEvent(units)], ledger + [EntryFor(units, toFront, events)],
                  ended, false)
  {
    WholeSnoc(ledger, EntryFor(units, toFront, events));
    DataOfSnoc(events, DataEvent(units));
    EmptyBuffer(objectMode, buffer);
    Unit(DataOf(events));
    Unit(units);
    Unit(DataOf(events) + units);
  }

  function Inserted<T>(buffer: seq<seq<T>>, units: seq<T>, toFront: bool): seq<seq<T>>
  {
    if toFront then [units] + buffer else buffer + [units]
  }

  lemma SoundBuffered<T>(objectMode: bool, buffer: seq<seq<T>>, length: int, events: seq<Event<T>>,
                         ledger: seq<Entry<T>>, ended: bool,
                         units: seq<T>, toFront: bool)
    requires Sound(objectMode, buffer, length, events, ledger, ended, false)
    requires units != [] && (objectMode ==> |units| == 1)
    ensures Sound(objectMode, Inserted(buffer, units, toFront), length + |units|, events,
                  ledger + [EntryFor(units, toFront, events)], ended, false)
  {
    WholeSnoc(ledger, EntryFor(units, toFront, events));
    if toFront {
      Split(DataOf(events), Flat(buffer));
      FlatCons(units, buffer);
    } else {
      FlatSnoc(buffer, units);
      Assoc(DataOf(events), Flat(buffer), units);
    }
  }

  lemma FlatSnoc<T>(a: seq<seq<T>>, c: seq<T>)
    ensures Flat(a + [c]) == Flat(a) + c
  {
    FlatConcat(a, [c]);
    FlatOne(c);
  }

  lemma SoundTaken<T>(objectMode: bool, buffer: seq<seq<T>>, length: int, events: seq<Event<T>>, ledger: seq<Entry<T>>,
                      ended: bool,
                      k: nat, rest: seq<seq<T>>)
    requires Sound(objectMode, buffer, length, events, ledger, ended, false)
    requires k <= |Flat(buffer)| && Flat(rest) == Flat(buffer)[k..] && Sized(objectMode, rest)
    ensures Sound(objectMode, rest, length - k, events + [DataEvent(Flat(buffer)[..k])], ledger, ended, false)
  {
    var all := Flat(buffer);
    DataOfSnoc(events, DataEvent(all[..k]));
    assert all == all[..k] + all[k..];
    Assoc(DataOf(events), all[..k], all[k..]);
  }

  lemma SoundEvent<T>(objectMode: bool, buffer: seq<seq<T>>, length: int, events: seq<Event<T>>, ledger: seq<Entry<T>>,
                      ended: bool, endEmitted: bool, sign: Sign)
    requires Sound(objectMode, buffer, length, events, ledger, ended, endEmitted)
    ensures Sound(objectMode, buffer, length, events + [Signal(sign)], ledger, ended, endEmitted)
    ensures !endEmitted && ended && length == 0 ==>
              Sound(objectMode, buffer, length, events + [EndEvent], ledger, ended, true)
    ensures !endEmitted ==> Sound(objectMode, buffer, length, events, ledger, true, endEmitted)
  {
    DataOfSnoc(events, Signal(sign));
    DataOfSnoc(events, EndEvent);
    Unit(DataOf(events));
  }

  /** `fromList`: takes `n` units off the front of the buffer, or everything if there is less. */
  method FromList<T>(list: seq<seq<T>>, length: nat, n: nat, objectMode: bool)
    returns (ret: Option<seq<T>>, rest: seq<seq<T>>)
    requires Sized(objectMode, list) && length == |Flat(list)| && n > 0
    requires objectMode ==> n == 1
    ensures list == [] ==> ret == None && rest == list
    ensures list != [] ==> ret == Some(Flat(list)[..Least(n, length)]) && (objectMode ==> n <= length)
    ensures list != [] ==> Flat(rest) == Flat(list)[Least(n, length)..] && Sized(objectMode, rest)
  {
    if |list| == 0 {
      return None, list;
    }
    FlatCons(list[0], list[1..]);
    assert list == [list[0]] + list[1..];
    if objectMode {
      ret, rest := Some(list[0]), list[1..];
    } else if n >= length {
      var whole := Concat(list);
      ret, rest := Some(whole), [];
    } else if n < |list[0]| {
      FlatCons(list[0][n..], list[1..]);
      ret, rest := Some(list[0][..n]), [list[0][n..]] + list[1..];
    } else if n == |list[0]| {
      ret, rest := Some(list[0]), list[1..];
    } else {
      var taken: seq<T>;
      taken, rest := TakeAcross(list, n);
      ret := Some(taken);
    }
    assert ret.value == Flat(list)[..Least(n, length)];
  }

  /** `Buffer.concat`. */
  method Concat<T>(list: seq<seq<T>>) returns (r: seq<T>)
    ensures r == Flat(list)
  {
    r := [];
    var i := 0;
    assert list[0..] == list;
    while i < |list|
      invariant 0 <= i <= |list| && r + Flat(list[i..]) == Flat(list)
    {
      Shift(list, i);
      Assoc(r, list[i], Flat(list[i + 1..]));
      r := r + list[i];
      i := i + 1;
    }
  }

  /** The loop for a request that spans several chunks. */
  method TakeAcross<T>(list: seq<seq<T>>, n: nat) returns (taken: seq<T>, rest: seq<seq<T>>)
    requires Sized(false, list) && n <= |Flat(list)|
    ensures taken == Flat(list)[..n] && Flat(rest) == Flat(list)[n..] && Sized(false, rest)
  {
    taken, rest := [], list;
    var c := 0;
    while c < n
      invariant 0 <= c <= n && |taken| == c && taken + Flat(rest) == Flat(list) && Sized(false, rest)
      decreases n - c
    {
      var buf := rest[0];
      assert rest == [buf] + rest[1..];
      var cpy := if n - c < |buf| then n - c else |buf|;
      TakeFront(taken, buf, rest[1..], cpy);
      taken := taken + buf[..cpy];
      if cpy < |buf| {
        rest := [buf[cpy..]] + rest[1..];
      } else {
        rest := rest[1..];
      }
      c := c + cpy;
    }
    Split(taken, Flat(rest));
  }

  lemma TakeFront<T>(taken: seq<T>, buf: seq<T>, others: seq<seq<T>>, k: nat)
    requires k <= |buf|
    ensures (taken + buf[..k]) + Flat([buf[k..]] + others) == taken + Flat([buf] + others)
    ensures k == |buf| ==> (taken + buf[..k]) + Flat(others) == taken + Flat([buf] + others)
  {
    FlatCons(buf, others);
    FlatCons(buf[k..], others);
    assert buf == buf[..k] + buf[k..];
    Assoc(buf[..k], buf[k..], Flat(others));
    Assoc(taken, buf[..k], buf[k..] + Flat(others));
    if k == |buf| {
      Unit(Flat(others));
    }
  }

  // ---- The stream

  predicate IsPower(p: nat) { p == 1 || (p > 0 && p % 2 == 0 && IsPower(p / 2)) }

  /** The least power of two that is not below `n`, as `roundUpToNextPowerOf2` computes it. */
  function PowerAtLeast(n: nat, p: nat): (q: nat)
    requires p < 2 * n && IsPower(p)
    ensures IsPower(q) && n <= q < 2 * n
    decreases n - p
  {
    if p >= n then p else PowerAtLeast(n, 2 * p)
  }

  /** The high water mark for a request that is above it. */
  ghost predicate Raised(mark: nat, n: int)
  {
    if n >= MAX_HWM then mark == MAX_HWM else IsPower(mark) && n <= mark < 2 * n
  }

  const MAX_HWM: nat := 0x80_0000

  /** What `read(n)` takes before the end of input, and what several reads leave. */
  function Taken(length: nat, n: int): (k: nat)
    ensures k <= length
  {
    if 0 < n <= length then n else 0
  }

  /** The last `rest` units without the first `n` of them. */
  function Remainder<T>(all: seq<T>, rest: nat, n: nat): seq<T>
    requires rest <= |all|
  {
    all[|all| - rest..][Least(n, rest)..]
  }

  function LeftAfter(length: nat, ns: seq<int>): (r: nat)
    ensures r <= length
    decreases |ns|
  {
    if ns == [] then length else LeftAfter(length - Taken(length, ns[0]), ns[1..])
  }

  // ---- The books: what user code did, and what was accepted of it

  /** The actions of one run, in order. */
  function By<T>(trace: seq<Did<T>>, id: nat): seq<Action<T>>
  {
    if trace == [] then []
    else
      var d := trace[|trace| - 1];
      By(trace[..|trace| - 1], id) + if d.who == id then [d.action] else []
  }

  function RunsOf<T>(runs: seq<Run<T>>, origin: Origin): seq<seq<Action<T>>>
  {
    if runs == [] then []
    else
      var r := runs[|runs| - 1];
      RunsOf(runs[..|runs| - 1], origin) + if r.origin == origin then [r.acts] else []
  }

  /** Has the end of input been pushed? */
  predicate HasNull<T>(trace: seq<Did<T>>)
  {
    exists i :: 0 <= i < |trace| && trace[i].action.Add? && trace[i].action.chunk.Null?
  }

  /** Does the stream accept the action as data, after the actions `before`? Empty chunks are ignored; a push is refused
      after the end of input, and an unshift after 'end'. */
  predicate Accepts<T>(objectMode: bool, before: seq<Did<T>>, d: Did<T>, events: seq<Event<T>>)
  {
    && d.action.Add? && d.action.chunk.Data? && (objectMode || d.action.chunk.units != [])
    && if d.action.toFront then !HasEnd(events[..Least(d.at, |events|)]) else !HasNull(before)
  }

  function Least(a: nat, b: nat): nat { if a <= b then a else b }

  /** The accepted chunks, in the order of the calls. */
  function LedgerOf<T>(objectMode: bool, trace: seq<Did<T>>, events: seq<Event<T>>): seq<Entry<T>>
  {
    if trace == [] then []
    else
      var before, d := trace[..|trace| - 1], trace[|trace| - 1];
      LedgerOf(objectMode, before, events) + LastEntry(objectMode, before, d, events)
  }

  function LastEntry<T>(objectMode: bool, before: seq<Did<T>>, d: Did<T>, events: seq<Event<T>>): seq<Entry<T>>
  {
    if Accepts(objectMode, before, d, events) then
      [EntryFor(d.action.chunk.units, d.action.toFront, events[..Least(d.at, |events|)])]
    else []
  }

  /** The ledger and the end of input are those of the actions so far. */
  ghost predicate Accounted<T>(objectMode: bool, trace: seq<Did<T>>, events: seq<Event<T>>, ledger: seq<Entry<T>>,
                               ended: bool)
  {
    && ledger == LedgerOf(objectMode, trace, events) && (ended <==> HasNull(trace))
    && forall i :: 0 <= i < |trace| ==> trace[i].at <= |events|
  }

  /** Runs in progress have done the first part of their actions, all others everything. */
  ghost predicate InOrder<T>(runs: seq<Run<T>>, trace: seq<Did<T>>, stack: seq<Frame<T>>)
  {
    && (forall k :: 0 <= k < |trace| ==> trace[k].who < |runs|)
    && (forall f :: 0 <= f < |stack| ==>
          stack[f].id < |runs| && stack[f].acts == runs[stack[f].id].acts
          && stack[f].done <= |stack[f].acts| && By(trace, stack[f].id) == stack[f].acts[..stack[f].done])
    && (forall f, g :: 0 <= f < g < |stack| ==> stack[f].id < stack[g].id)
    && (forall r :: 0 <= r < |runs| && !OnStack(stack, r) ==> By(trace, r) == runs[r].acts)
  }

  ghost predicate OnStack<T>(stack: seq<Frame<T>>, r: nat) { exists f :: 0 <= f < |stack| && stack[f].id == r }

  /** User code as scheduled: what listeners and `_read` do, call by call. */
  datatype Plan<T> = Plan(listeners: seq<seq<Action<T>>>, inside: seq<seq<Action<T>>>)

  /** The user code called so far and the rest of the plan are the plan. */
  ghost predicate Drawn<T>(runs: seq<Run<T>>, left: Plan<T>, plan: Plan<T>)
  {
    RunsOf(runs, FromListener) + left.listeners == plan.listeners && RunsOf(runs, FromRead) + left.inside == plan.inside
  }

  lemma {:induction false} ByAbove<T>(trace: seq<Did<T>>, id: nat)
    requires forall k :: 0 <= k < |trace| ==> trace[k].who < id
    ensures By(trace, id) == []
  {
    if trace != [] { ByAbove(trace[..|trace| - 1], id); }
  }

  lemma OpenInOrder<T>(runs: seq<Run<T>>, trace: seq<Did<T>>, stack: seq<Frame<T>>, run: Run<T>)
    requires InOrder(runs, trace, stack)
    ensures InOrder(runs + [run], trace, stack + [Frame(|runs|, run.acts, 0)])
  {
    var runs', stack' := runs + [run], stack + [Frame(|runs|, run.acts, 0)];
    ByAbove(trace, |runs|);
    forall r | 0 <= r < |runs'| && !OnStack(stack', r) ensures By(trace, r) == runs'[r].acts {
      assert stack'[|stack|].id == |runs|;
      assert forall f :: 0 <= f < |stack| ==> stack'[f] == stack[f];
      assert !OnStack(stack, r);
    }
  }

  lemma CloseInOrder<T>(runs: seq<Run<T>>, trace: seq<Did<T>>, stack: seq<Frame<T>>)
    requires InOrder(runs, trace, stack) && stack != [] && stack[|stack| - 1].done == |stack[|stack| - 1].acts|
    ensures InOrder(runs, trace, stack[..|stack| - 1])
  {
    var top, stack' := stack[|stack| - 1], stack[..|stack| - 1];
    forall r | 0 <= r < |runs| && !OnStack(stack', r) ensures By(trace, r) == runs[r].acts {
      if r == top.id {
        assert By(trace, top.id) == top.acts[..top.done];
      } else {
        forall f | 0 <= f < |stack| ensures stack[f].id != r {
          assert f < |stack| - 1 ==> stack'[f] == stack[f];
        }
      }
    }
  }

  /** The stack after the current run has begun its next action. */
  function Advanced<T>(stack: seq<Frame<T>>): seq<Frame<T>>
    requires stack != []
  {
    var top := stack[|stack| - 1]; stack[..|stack| - 1] + [top.(done := top.done + 1)]
  }

  /** `a` is the next action of the current run. */
  ghost predicate Due<T>(stack: seq<Frame<T>>, a: Action<T>)
  {
    stack != [] && var top := stack[|stack| - 1]; top.done < |top.acts| && top.acts[top.done] == a
  }

  lemma NoteInOrder<T>(runs: seq<Run<T>>, trace: seq<Did<T>>, stack: seq<Frame<T>>, a: Action<T>, at: nat)
    requires InOrder(runs, trace, stack) && Due(stack, a)
    ensures InOrder(runs, trace + [Did(stack[|stack| - 1].id, a, at)], Advanced(stack))
  {
    var top, d := stack[|stack| - 1], Did(stack[|stack| - 1].id, a, at);
    var trace', stack' := trace + [d], Advanced(stack);
    assert trace'[..|trace|] == trace;
    var acts := top.acts;
    assert By(trace', top.id) == acts[..top.done + 1] by {
      assert By(trace, top.id) == acts[..top.done] && acts[..top.done + 1] == acts[..top.done] + [a];
    }
    forall f | 0 <= f < |stack| - 1 ensures By(trace', stack'[f].id) == stack'[f].acts[..stack'[f].done] {
      assert stack'[f] == stack[f] && stack[f].id < top.id;
      Unit(By(trace, stack[f].id));
    }
    forall r | 0 <= r < |runs| && !OnStack(stack', r) ensures By(trace', r) == runs[r].acts {
      assert stack'[|stack| - 1].id == top.id;
      forall f | 0 <= f < |stack| ensures stack[f].id != r {
        assert f < |stack| - 1 ==> stack'[f] == stack[f];
      }
      Unit(By(trace, r));
    }
  }

  lemma OpenDrawn<T>(runs: seq<Run<T>>, left: Plan<T>, plan: Plan<T>, run: Run<T>, left': Plan<T>)
    requires Drawn(runs, left, plan)
    requires left.listeners == (if run.origin.FromListener? then [run.acts] else []) + left'.listeners
    requires left.inside == (if run.origin.FromRead? then [run.acts] else []) + left'.inside
    ensures Drawn(runs + [run], left', plan)
  {
    assert (runs + [run])[..|runs|] == runs;
    Assoc(RunsOf(runs, FromListener), if run.origin.FromListener? then [run.acts] else [], left'.listeners);
    Assoc(RunsOf(runs, FromRead), if run.origin.FromRead? then [run.acts] else [], left'.inside);
  }

  // ---- The account

  lemma HasNullSnoc<T>(trace: seq<Did<T>>, d: Did<T>)
    ensures HasNull(trace + [d]) <==> HasNull(trace) || (d.action.Add? && d.action.chunk.Null?)
  {
    var trace' := trace + [d];
    if HasNull(trace) {
      var i :| 0 <= i < |trace| && trace[i].action.Add? && trace[i].action.chunk.Null?;
      assert trace'[i] == trace[i];
    }
    if d.action.Add? && d.action.chunk.Null? { assert trace'[|trace|] == d; }
    if HasNull(trace') {
      var i :| 0 <= i < |trace'| && trace'[i].action.Add? && trace'[i].action.chunk.Null?;
      if i < |trace| { assert trace[i] == trace'[i]; }
    }
  }

  /** What has been accepted does not depend on later events. */
  lemma {:induction false} LedgerStable<T>(objectMode: bool, trace: seq<Did<T>>, events: seq<Event<T>>, e: Event<T>)
    requires forall i :: 0 <= i < |trace| ==> trace[i].at <= |events|
    ensures LedgerOf(objectMode, trace, events + [e]) == LedgerOf(objectMode, trace, events)
  {
    if trace != [] {
      var d := trace[|trace| - 1];
      LedgerStable(objectMode, trace[..|trace| - 1], events, e);
      assert (events + [e])[..d.at] == events[..d.at];
    }
  }

  lemma AccountEvent<T>(objectMode: bool, trace: seq<Did<T>>, events: seq<Event<T>>, ledger: seq<Entry<T>>, ended: bool,
                        e: Event<T>)
    requires Accounted(objectMode, trace, events, ledger, ended)
    ensures Accounted(objectMode, trace, events + [e], ledger, ended)
  {
    LedgerStable(objectMode, trace, events, e);
  }

  /** A new action that is not accepted data; null ends the input. */
  lemma AccountOther<T>(objectMode: bool, trace: seq<Did<T>>, events: seq<Event<T>>, ledger: seq<Entry<T>>, ended: bool,
                        endEmitted: bool, d: Did<T>)
    requires Accounted(objectMode, trace, events, ledger, ended) && d.at == |events| && (endEmitted <==> HasEnd(events))
    requires d.action.Add? && d.action.chunk.Data? ==>
               (!objectMode && d.action.chunk.units == []) || if d.action.toFront then endEmitted else ended
    ensures Accounted(objectMode, trace + [d], events, ledger, ended || (d.action.Add? && d.action.chunk.Null?))
  {
    HasNullSnoc(trace, d);
    assert (trace + [d])[..|trace|] == trace && events[..|events|] == events;
    Unit(ledger);
  }

  /** A new action that is accepted data. */
  lemma AccountData<T>(objectMode: bool, trace: seq<Did<T>>, events: seq<Event<T>>, ledger: seq<Entry<T>>, ended: bool,
                       endEmitted: bool, d: Did<T>)
    requires Accounted(objectMode, trace, events, ledger, ended) && d.at == |events| && (endEmitted <==> HasEnd(events))
    requires d.action.Add? && d.action.chunk.Data? && (objectMode || d.action.chunk.units != [])
             && if d.action.toFront then !endEmitted else !ended
    ensures Accounted(objectMode, trace + [d], events,
                      ledger + [EntryFor(d.action.chunk.units, d.action.toFront, events)], ended)
  {
    HasNullSnoc(trace, d);
    assert (trace + [d])[..|trace|] == trace && events[..|events|] == events;
  }

  // ---- The book: one record of everything that happened

  datatype Book<T> = Book(events: seq<Event<T>>, ledger: seq<Entry<T>>, runs: seq<Run<T>>, trace: seq<Did<T>>,
                          stack: seq<Frame<T>>, left: Plan<T>)

  /** The state of the stream, without the flags that only steer it. */
  datatype Core<T> = Core(book: Book<T>, buffer: seq<seq<T>>, length: int, flowing: bool, ended: bool, endEmitted: bool)

  /** The clauses of the invariant. */
  datatype Clause = Conservation | Acceptance | Order | Schedule

  ghost predicate Holds<T>(k: Clause, objectMode: bool, plan: Plan<T>, c: Core<T>)
  {
    match k
    case Conservation => Sound(objectMode, c.buffer, c.length, c.book.events, c.book.ledger, c.ended, c.endEmitted)
    case Acceptance => Accounted(objectMode, c.book.trace, c.book.events, c.book.ledger, c.ended)
    case Order => InOrder(c.book.runs, c.book.trace, c.book.stack)
    case Schedule =>
      && Drawn(c.book.runs, c.book.left, plan)
      && AllPlanned(objectMode, c.book.left.listeners, false) && AllPlanned(objectMode, c.book.left.inside, true)
  }

  ghost predicate Fine<T>(objectMode: bool, plan: Plan<T>, c: Core<T>)
  {
    forall k :: Holds(k, objectMode, plan, c)
  }

  lemma FineMeans<T>(objectMode: bool, plan: Plan<T>, c: Core<T>)
    requires Fine(objectMode, plan, c)
    ensures Sound(objectMode, c.buffer, c.length, c.book.events, c.book.ledger, c.ended, c.endEmitted)
    ensures Accounted(objectMode, c.book.trace, c.book.events, c.book.ledger, c.ended)
    ensures InOrder(c.book.runs, c.book.trace, c.book.stack) && Drawn(c.book.runs, c.book.left, plan)
    ensures AllPlanned(objectMode, c.book.left.listeners, false) && AllPlanned(objectMode, c.book.left.inside, true)
  {
    assert Holds(Conservation, objectMode, plan, c) && Holds(Acceptance, objectMode, plan, c);
    assert Holds(Order, objectMode, plan, c) && Holds(Schedule, objectMode, plan, c);
  }

  lemma FineIf<T>(objectMode: bool, plan: Plan<T>, c: Core<T>)
    requires Sound(objectMode, c.buffer, c.length, c.book.events, c.book.ledger, c.ended, c.endEmitted)
    requires Accounted(objectMode, c.book.trace, c.book.events, c.book.ledger, c.ended)
    requires InOrder(c.book.runs, c.book.trace, c.book.stack) && Drawn(c.book.runs, c.book.left, plan)
    requires AllPlanned(objectMode, c.book.left.listeners, false) && AllPlanned(objectMode, c.book.left.inside, true)
    ensures Fine(objectMode, plan, c)
  {
  }

  function Emit<T>(b: Book<T>, e: Event<T>): Book<T> { b.(events := b.events + [e]) }

  function Opened<T>(b: Book<T>, run: Run<T>, left: Plan<T>): Book<T>
  {
    b.(runs := b.runs + [run], stack := b.stack + [Frame(|b.runs|, run.acts, 0)], left := left)
  }

  function Noted<T>(b: Book<T>, a: Action<T>): Book<T>
    requires b.stack != []
  {
    b.(trace := b.trace + [Did(b.stack[|b.stack| - 1].id, a, |b.events|)], stack := Advanced(b.stack))
  }

  function Entered<T>(b: Book<T>, units: seq<T>, toFront: bool): Book<T>
    requires b.stack != []
  {
    Noted(b, Add(Data(units), toFront)).(ledger := b.ledger + [EntryFor(units, toFront, b.events)])
  }

  function Closed<T>(b: Book<T>): Book<T>
    requires b.stack != []
  {
    b.(stack := b.stack[..|b.stack| - 1])
  }

  lemma CheckOpened<T>(objectMode: bool, plan: Plan<T>, c: Core<T>, run: Run<T>, left: Plan<T>)
    requires Fine(objectMode, plan, c)
    requires c.book.left.listeners == (if run.origin.FromListener? then [run.acts] else []) + left.listeners
    requires c.book.left.inside == (if run.origin.FromRead? then [run.acts] else []) + left.inside
    ensures Fine(objectMode, plan, c.(book := Opened(c.book, run, left)))
    ensures run.origin.FromListener? ==> AllFit(objectMode, run.acts)
    ensures run.origin.FromRead? ==> AllFit(objectMode, run.acts) && Restrained(objectMode, run.acts)
  {
    FineMeans(objectMode, plan, c);
    OpenInOrder(c.book.runs, c.book.trace, c.book.stack, run);
    OpenDrawn(c.book.runs, c.book.left, plan, run, left);
    PlannedTail(objectMode, c.book.left.listeners, if run.origin.FromListener? then [run.acts]
        else [], left.listeners, false);
    PlannedTail(objectMode, c.book.left.inside, if run.origin.FromRead? then [run.acts] else [], left.inside, true);
    FineIf(objectMode, plan, c.(book := Opened(c.book, run, left)));
  }

  lemma PlannedTail<T>(objectMode: bool, all: seq<seq<Action<T>>>, first: seq<seq<Action<T>>>,
                       rest: seq<seq<Action<T>>>, inside: bool)
    requires AllPlanned(objectMode, all, inside) && all == first + rest
    ensures AllPlanned(objectMode, rest, inside)
    ensures first != [] ==> AllFit(objectMode, first[0]) && (inside ==> Restrained(objectMode, first[0]))
  {
    forall i | 0 <= i < |rest| ensures AllFit(objectMode, rest[i]) && (inside ==> Restrained(objectMode, rest[i])) {
      assert all[|first| + i] == rest[i];
    }
    if first != [] { assert all[0] == first[0]; }
  }

  lemma CheckClosed<T>(objectMode: bool, plan: Plan<T>, c: Core<T>)
    requires Fine(objectMode, plan, c) && c.book.stack != []
    requires var top := c.book.stack[|c.book.stack| - 1]; top.done == |top.acts|
    ensures Fine(objectMode, plan, c.(book := Closed(c.book)))
  {
    var now := c.(book := Closed(c.book));
    FineMeans(objectMode, plan, c);
    assert InOrder(now.book.runs, now.book.trace, now.book.stack) by {
      CloseInOrder(c.book.runs, c.book.trace, c.book.stack);
    }
    FineIf(objectMode, plan, now);
  }

  /** An action that is not accepted data; null ends the input. */
  lemma CheckNoted<T>(objectMode: bool, plan: Plan<T>, c: Core<T>, a: Action<T>)
    requires Fine(objectMode, plan, c) && Due(c.book.stack, a)
    requires a.Add? && a.chunk.Data? ==>
               (!objectMode && a.chunk.units == []) || if a.toFront then c.endEmitted else c.ended
    ensures Fine(objectMode, plan, c.(book := Noted(c.book, a), ended := c.ended || (a.Add? && a.chunk.Null?)))
  {
    FineMeans(objectMode, plan, c);
    NoteInOrder(c.book.runs, c.book.trace, c.book.stack, a, |c.book.events|);
    AccountOther(objectMode, c.book.trace, c.book.events, c.book.ledger, c.ended, c.endEmitted,
                 Did(c.book.stack[|c.book.stack| - 1].id, a, |c.book.events|));
    FineIf(objectMode, plan, c.(book := Noted(c.book, a), ended := c.ended || (a.Add? && a.chunk.Null?)));
  }

  /** Accepted data that goes straight to the listeners. */
  lemma CheckDirect<T>(objectMode: bool, plan: Plan<T>, c: Core<T>, units: seq<T>, toFront: bool)
    requires Fine(objectMode, plan, c) && Due(c.book.stack, Add(Data(units), toFront)) && units != []
    requires !c.endEmitted && (!toFront ==> !c.ended) && c.length == 0
    ensures Fine(objectMode, plan, c.(book := Emit(Entered(c.book, units, toFront), DataEvent(units))))
  {
    FineMeans(objectMode, plan, c);
    CheckEntered(objectMode, plan, c, units, toFront);
    SoundDirect(objectMode, c.buffer, c.book.events, c.book.ledger, c.ended, units, toFront);
    var b := Entered(c.book, units, toFront);
    AccountEvent(objectMode, b.trace, b.events, b.ledger, c.ended, DataEvent(units));
    FineIf(objectMode, plan, c.(book := Emit(Entered(c.book, units, toFront), DataEvent(units))));
  }

  /** Accepted data that goes into the buffer. */
  lemma CheckBuffered<T>(objectMode: bool, plan: Plan<T>, c: Core<T>, units: seq<T>, toFront: bool)
    requires Fine(objectMode, plan, c) && Due(c.book.stack, Add(Data(units), toFront)) && units != []
             && (objectMode ==> |units| == 1)
    requires !c.endEmitted && (!toFront ==> !c.ended)
    ensures Fine(objectMode, plan,
                 c.(book := Entered(c.book, units, toFront), buffer := Inserted(c.buffer, units, toFront),
                    length := c.length + |units|))
  {
    FineMeans(objectMode, plan, c);
    CheckEntered(objectMode, plan, c, units, toFront);
    SoundBuffered(objectMode, c.buffer, c.length, c.book.events, c.book.ledger, c.ended, units, toFront);
    FineIf(objectMode, plan, c.(book := Entered(c.book, units, toFront), buffer := Inserted(c.buffer, units, toFront),
                                length := c.length + |units|));
  }

  lemma CheckEntered<T>(objectMode: bool, plan: Plan<T>, c: Core<T>, units: seq<T>, toFront: bool)
    requires Fine(objectMode, plan, c) && Due(c.book.stack, Add(Data(units), toFront)) && units != []
    requires !c.endEmitted && (!toFront ==> !c.ended)
    ensures var b := Entered(c.book, units, toFront);
            Accounted(objectMode, b.trace, b.events, b.ledger, c.ended) && InOrder(b.runs, b.trace, b.stack)
  {
    FineMeans(objectMode, plan, c);
    NoteInOrder(c.book.runs, c.book.trace, c.book.stack, Add(Data(units), toFront), |c.book.events|);
    EnteredAccounted(objectMode, c.book, c.ended, c.endEmitted, units, toFront);
  }

  lemma EnteredAccounted<T>(objectMode: bool, b: Book<T>, ended: bool, endEmitted: bool, units: seq<T>, toFront: bool)
    requires Accounted(objectMode, b.trace, b.events, b.ledger, ended) && (endEmitted <==> HasEnd(b.events))
             && b.stack != []
    requires units != [] && if toFront then !endEmitted else !ended
    ensures var b' := Entered(b, units, toFront); Accounted(objectMode, b'.trace, b'.events, b'.ledger, ended)
  {
    AccountData(objectMode, b.trace, b.events, b.ledger, ended, endEmitted,
                Did(b.stack[|b.stack| - 1].id, Add(Data(units), toFront), |b.events|));
  }

  /** Taking the first `k` units out of the buffer and emitting them. */
  lemma CheckTaken<T>(objectMode: bool, plan: Plan<T>, c: Core<T>, k: nat, rest: seq<seq<T>>)
    requires Fine(objectMode, plan, c) && !c.endEmitted
    requires k <= |Flat(c.buffer)| && Flat(rest) == Flat(c.buffer)[k..] && Sized(objectMode, rest)
    ensures Fine(objectMode, plan, c.(book := Emit(c.book, DataEvent(Flat(c.buffer)[..k])), buffer := rest,
                                      length := c.length - k))
  {
    FineMeans(objectMode, plan, c);
    SoundTaken(objectMode, c.buffer, c.length, c.book.events, c.book.ledger, c.ended, k, rest);
    AccountEvent(objectMode, c.book.trace, c.book.events, c.book.ledger, c.ended, DataEvent(Flat(c.buffer)[..k]));
    FineIf(objectMode, plan, c.(book := Emit(c.book, DataEvent(Flat(c.buffer)[..k])), buffer := rest,
                                length := c.length - k));
  }

  lemma CheckFlowing<T>(objectMode: bool, plan: Plan<T>, c: Core<T>, flowing: bool)
    requires Fine(objectMode, plan, c)
    ensures Fine(objectMode, plan, c.(flowing := flowing))
  {
    FineMeans(objectMode, plan, c);
    FineIf(objectMode, plan, c.(flowing := flowing));
  }

  lemma CheckSignal<T>(objectMode: bool, plan: Plan<T>, c: Core<T>, sign: Sign)
    requires Fine(objectMode, plan, c)
    ensures Fine(objectMode, plan, c.(book := Emit(c.book, Signal(sign))))
  {
    FineMeans(objectMode, plan, c);
    SoundEvent(objectMode, c.buffer, c.length, c.book.events, c.book.ledger, c.ended, c.endEmitted, sign);
    AccountEvent(objectMode, c.book.trace, c.book.events, c.book.ledger, c.ended, Signal(sign));
    FineIf(objectMode, plan, c.(book := Emit(c.book, Signal(sign))));
  }

  lemma CheckEnd<T>(objectMode: bool, plan: Plan<T>, c: Core<T>)
    requires Fine(objectMode, plan, c) && !c.endEmitted && c.ended && c.length == 0
    ensures Fine(objectMode, plan, c.(book := Emit(c.book, EndEvent), endEmitted := true))
  {
    FineMeans(objectMode, plan, c);
    SoundEvent(objectMode, c.buffer, c.length, c.book.events, c.book.ledger, c.ended, c.endEmitted, ErrorSign);
    AccountEvent(objectMode, c.book.trace, c.book.events, c.book.ledger, c.ended, EndEvent);
    FineIf(objectMode, plan, c.(book := Emit(c.book, EndEvent), endEmitted := true));
  }

  // ---- Reads

  /** A read returned and emitted the first `k` units of the buffer, or nothing. */
  ghost predicate Delivery<T>(was: Core<T>, now: Core<T>, k: int, ret: Option<seq<T>>)
  {
    && now.flowing == was.flowing && now.ended == was.ended
    && if k > 0 && was.buffer != [] then
         && k <= |Flat(was.buffer)| && ret == Some(Flat(was.buffer)[..k])
             && now.book == Emit(was.book, DataEvent(ret.value))
       else ret == None && now.buffer == was.buffer && now.book == was.book
  }

  function Emitted<T>(b: Book<T>, ret: Option<seq<T>>): Book<T>
  {
    if ret.Some? then Emit(b, DataEvent(ret.value)) else b
  }

  lemma SomeDelivered<T>(was: Core<T>, now: Core<T>, k: int, ret: Option<seq<T>>)
    requires now.flowing == was.flowing && now.ended == was.ended && (ret.Some? <==> k > 0 && was.buffer != [])
             && now.book == Emitted(was.book, ret)
    requires ret.Some? ==> k <= |Flat(was.buffer)| && ret.value == Flat(was.buffer)[..k]
    requires ret.None? ==> now.buffer == was.buffer
    ensures Delivery(was, now, k, ret)
  {
  }

  lemma RestAfterDelivery<T>(objectMode: bool, plan: Plan<T>, was: Core<T>, now: Core<T>, k: nat)
    requires Fine(objectMode, plan, was) && Fine(objectMode, plan, now) && 0 < k <= |Flat(was.buffer)|
    requires Delivery(was, now, k, Some(Flat(was.buffer)[..k]))
    ensures Flat(now.buffer) == Flat(was.buffer)[k..]
  {
    FineMeans(objectMode, plan, was);
    FineMeans(objectMode, plan, now);
    var out, all := DataOf(was.book.events), Flat(was.buffer);
    DataOfSnoc(was.book.events, DataEvent(all[..k]));
    assert was.buffer != [];
    Regroup(out, all, k);
    Split(out + all[..k], Flat(now.buffer));
    Split(out + all[..k], all[k..]);
  }

  lemma NoneMeansEmpty<T>(objectMode: bool, was: Core<T>, now: Core<T>, ret: Option<seq<T>>)
    requires Sized(objectMode, was.buffer) && was.length == |Flat(was.buffer)| && was.flowing
    requires Delivery(was, now, if was.length == 0 && was.ended then 0 else if objectMode then 1
                                else if was.buffer != [] then |was.buffer[0]| else was.length, ret)
    ensures now.flowing && (ret.None? ==> now.buffer == [])
  {
    if was.buffer != [] {
      FlatCons(was.buffer[0], was.buffer[1..]);
      assert was.buffer == [was.buffer[0]] + was.buffer[1..];
    }
  }

  /** More tasks, all of them for 'end'. */
  predicate OnlyEnds(was: seq<Task>, now: seq<Task>)
  {
    was <= now && forall i :: |was| <= i < |now| ==> now[i] == EndTask
  }

  // ---- What the stream owes

  predicate IsNull<T>(d: Did<T>) { d.action.Add? && d.action.chunk.Null? }

  predicate IsUnshift<T>(d: Did<T>) { d.action.Add? && d.action.chunk.Data? && d.action.toFront }

  /** Something was unshifted after the end of input. */
  predicate Late<T>(trace: seq<Did<T>>)
  {
    exists i, j :: 0 <= i < j < |trace| && IsNull(trace[i]) && IsUnshift(trace[j])
  }

  lemma LateSnoc<T>(trace: seq<Did<T>>, d: Did<T>)
    ensures Late(trace) ==> Late(trace + [d])
    ensures HasNull(trace) && IsUnshift(d) ==> Late(trace + [d])
  {
    var all := trace + [d];
    if Late(trace) {
      var i, j :| 0 <= i < j < |trace| && IsNull(trace[i]) && IsUnshift(trace[j]);
      assert IsNull(all[i]) && IsUnshift(all[j]);
    }
    if HasNull(trace) && IsUnshift(d) {
      var i :| 0 <= i < |trace| && trace[i].action.Add? && trace[i].action.chunk.Null?;
      assert IsNull(all[i]) && IsUnshift(all[|trace|]);
    }
  }

  /** `read(n)` asks for more than the last `m` units. */
  predicate Beyond(objectMode: bool, n: Option<int>, m: int) { m == 0 || (!objectMode && n.Some? && n.value > m) }

  /** Action number `k` is a read that asks for more than there is after the end of input, and nothing was accepted
      since. */
  ghost predicate AsksPast<T>(objectMode: bool, trace: seq<Did<T>>, events: seq<Event<T>>, ledger: seq<Entry<T>>,
                              k: nat)
    requires k < |trace|
  {
    && trace[k].action.Read? && HasNull(trace[..k]) && LedgerOf(objectMode, trace[..k], events) == ledger
    && Beyond(objectMode, trace[k].action.n, |Whole(ledger)| - OutBy(events, trace[k].at))
  }

  ghost predicate Asked<T>(objectMode: bool, trace: seq<Did<T>>, events: seq<Event<T>>, ledger: seq<Entry<T>>)
  {
    exists k :: 0 <= k < |trace| && AsksPast(objectMode, trace, events, ledger, k)
  }

  lemma AskedEmit<T>(objectMode: bool, trace: seq<Did<T>>, events: seq<Event<T>>, ledger: seq<Entry<T>>, e: Event<T>)
    requires forall i :: 0 <= i < |trace| ==> trace[i].at <= |events|
    ensures Asked(objectMode, trace, events + [e], ledger) ==> Asked(objectMode, trace, events, ledger)
  {
    if Asked(objectMode, trace, events + [e], ledger) {
      var k :| 0 <= k < |trace| && AsksPast(objectMode, trace, events + [e], ledger, k);
      LedgerStable(objectMode, trace[..k], events, e);
      assert (events + [e])[..trace[k].at] == events[..trace[k].at];
      assert AsksPast(objectMode, trace, events, ledger, k);
    }
  }

  lemma AskedNoted<T>(objectMode: bool, trace: seq<Did<T>>, events: seq<Event<T>>, ledger: seq<Entry<T>>, d: Did<T>)
    requires d.at == |events| && ledger == LedgerOf(objectMode, trace, events)
    requires d.action.Read? && HasNull(trace) ==>
               !Beyond(objectMode, d.action.n, |Whole(ledger)| - |DataOf(events)|)
    ensures Asked(objectMode, trace + [d], events, ledger) ==> Asked(objectMode, trace, events, ledger)
  {
    if Asked(objectMode, trace + [d], events, ledger) {
      var k :| 0 <= k < |trace + [d]| && AsksPast(objectMode, trace + [d], events, ledger, k);
      if k == |trace| {
        AsksNow(objectMode, trace, events, ledger, d);
      } else {
        AskedBefore(objectMode, trace, events, ledger, d, k);
      }
    }
  }

  lemma AsksNow<T>(objectMode: bool, trace: seq<Did<T>>, events: seq<Event<T>>, ledger: seq<Entry<T>>, d: Did<T>)
    requires d.at == |events| && AsksPast(objectMode, trace + [d], events, ledger, |trace|)
    ensures d.action.Read? && HasNull(trace) && Beyond(objectMode, d.action.n, |Whole(ledger)| - |DataOf(events)|)
  {
    assert (trace + [d])[..|trace|] == trace && events[..|events|] == events;
  }

  lemma AskedBefore<T>(objectMode: bool, trace: seq<Did<T>>, events: seq<Event<T>>, ledger: seq<Entry<T>>, d: Did<T>,
                       k: nat)
    requires k < |trace| && AsksPast(objectMode, trace + [d], events, ledger, k)
    ensures AsksPast(objectMode, trace, events, ledger, k)
  {
    assert (trace + [d])[..k] == trace[..k] && (trace + [d])[k] == trace[k];
  }

  lemma {:induction false} LedgerGrows<T>(objectMode: bool, trace: seq<Did<T>>, events: seq<Event<T>>, k: nat)
    requires k <= |trace|
    ensures |LedgerOf(objectMode, trace[..k], events)| <= |LedgerOf(objectMode, trace, events)|
  {
    if k == |trace| {
      assert trace[..k] == trace;
    } else {
      assert trace[..|trace| - 1][..k] == trace[..k];
      LedgerGrows(objectMode, trace[..|trace| - 1], events, k);
    }
  }

  lemma AskedEntered<T>(objectMode: bool, trace: seq<Did<T>>, events: seq<Event<T>>, d: Did<T>, e: Entry<T>)
    requires d.action.Add?
    ensures !Asked(objectMode, trace + [d], events, LedgerOf(objectMode, trace, events) + [e])
  {
    var all := trace + [d];
    forall k | 0 <= k < |all| ensures !AsksPast(objectMode, all, events, LedgerOf(objectMode, trace, events) + [e], k) {
      if k < |trace| {
        assert all[..k] == trace[..k];
        LedgerGrows(objectMode, trace, events, k);
      } else {
        assert all[k] == d;
      }
    }
  }

  /** The two, counted once. */
  datatype Debt = LateDebt | AskedDebt

  ghost predicate Counted<T>(d: Debt, objectMode: bool, b: Book<T>, late: bool, asked: bool)
  {
    match d
    case LateDebt => late == Late(b.trace)
    case AskedDebt => asked == Asked(objectMode, b.trace, b.events, b.ledger)
  }

  ghost predicate Tallied<T>(objectMode: bool, b: Book<T>, late: bool, asked: bool)
  {
    forall d :: Counted(d, objectMode, b, late, asked)
  }

  lemma TallyMeans<T>(objectMode: bool, b: Book<T>, late: bool, asked: bool)
    requires Tallied(objectMode, b, late, asked)
    ensures late == Late(b.trace) && asked == Asked(objectMode, b.trace, b.events, b.ledger)
  {
    assert Counted(LateDebt, objectMode, b, late, asked) && Counted(AskedDebt, objectMode, b, late, asked);
  }

  lemma TallySame<T>(objectMode: bool, b: Book<T>, c: Book<T>, late: bool, asked: bool)
    requires Tallied(objectMode, b, late, asked) && b.trace == c.trace && b.events == c.events && b.ledger == c.ledger
    ensures Tallied(objectMode, c, late, asked)
  {
    TallyMeans(objectMode, b, late, asked);
  }

  lemma TallyNoted<T>(objectMode: bool, b: Book<T>, late: bool, asked: bool, a: Action<T>, past: bool)
    returns (lags: bool, asks: bool)
    requires Tallied(objectMode, b, late, asked) && b.stack != []
             && b.ledger == LedgerOf(objectMode, b.trace, b.events)
    requires a.Read? && HasNull(b.trace) && Beyond(objectMode, a.n, |Whole(b.ledger)| - |DataOf(b.events)|) ==> past
    ensures Tallied(objectMode, Noted(b, a), lags, asks) && (late ==> lags) && (asks ==> asked || past)
  {
    TallyMeans(objectMode, b, late, asked);
    var d := Did(b.stack[|b.stack| - 1].id, a, |b.events|);
    LateSnoc(b.trace, d);
    if !past {
      AskedNoted(objectMode, b.trace, b.events, b.ledger, d);
    }
    lags, asks := Late(b.trace + [d]), Asked(objectMode, b.trace + [d], b.events, b.ledger);
  }

  /** What it owes: to announce new data, to pass on everything while flowing, to emit 'end' to a reader who asked for
      more, and to resume. */
  datatype Duty = Announces | Flows | Ends | Resumes

  /** Everything buffered has been emitted. */
  lemma AllOut<T>(objectMode: bool, plan: Plan<T>, was: Core<T>, now: Core<T>)
    requires Fine(objectMode, plan, was) && Fine(objectMode, plan, now) && now.buffer == []
             && now.book.ledger == was.book.ledger
    ensures DataOf(now.book.events) == DataOf(was.book.events) + Flat(was.buffer)
  {
    FineMeans(objectMode, plan, was);
    FineMeans(objectMode, plan, now);
    Unit(DataOf(now.book.events));
  }

  lemma StaysEmpty<T>(objectMode: bool, plan: Plan<T>, was: Core<T>, now: Core<T>)
    requires Fine(objectMode, plan, was) && Fine(objectMode, plan, now) && was.buffer == []
    requires now.book.ledger == was.book.ledger && was.book.events <= now.book.events
    ensures now.buffer == []
  {
    FineMeans(objectMode, plan, was);
    FineMeans(objectMode, plan, now);
    var more := now.book.events[|was.book.events|..];
    assert now.book.events == was.book.events + more;
    DataOfConcat(was.book.events, more);
    assert |Flat(now.buffer)| == 0;
    EmptyBuffer(objectMode, now.buffer);
  }

  class Readable<T> {
    const objectMode: bool
    var highWaterMark: nat
    var buffer: seq<seq<T>>
    var length: int
    var flowing: bool
    var paused: bool            // `flowing` set to false, not just unset
    var ended: bool
    var endEmitted: bool
    var reading: bool
    var sync: bool
    var needReadable: bool
    var emittedReadable: bool
    var readableListening: bool
    var readingMore: bool
    var resumeScheduled: bool
    var tasks: seq<Task>

    /** What user code will do when it is called: one list of actions for each call of a listener, and one for each call
        of `_read` or of a listener while `_read` runs. */
    const plan: Plan<T>
    var inRead: bool            // is `_read` running?
    var book: Book<T>           // everything that happened, and the rest of the plan

    ghost var late: bool        // was something unshifted after the end of input?
    ghost var asked: bool       // did a read ask for more than there was after it?

    ghost predicate Valid()
      reads this
    {
      Fine(objectMode, plan, Now()) && Tallied(objectMode, book, late, asked) && (EndTask in tasks ==> ended)
          && (inRead && !objectMode ==> sync)
    }

    ghost function Now(): Core<T>
      reads this
    {
      Core(book, buffer, length, flowing, ended, endEmitted)
    }

    ghost predicate Excused()
      reads this
    {
      late || !flowing || resumeScheduled || EmitReadableTask in tasks
    }

    ghost predicate Meets(k: Duty)
      reads this
    {
      match k
      case Announces => Excused() || !emittedReadable
      case Flows =>
        Excused() || (!emittedReadable && length == 0 && (ended ==> endEmitted || EndTask in tasks)
                      && (sync ==> needReadable || ended))
      case Ends => asked ==> length == 0 && (endEmitted || EndTask in tasks)
      case Resumes => resumeScheduled ==> ResumeTask in tasks
    }

    /** All duties that were met are met. */
    twostate predicate Keeps()
      reads this
    {
      forall k: Duty :: old(Meets(k)) ==> Meets(k)
    }

    /** All but, in some cases, two of them. */
    twostate predicate KeepsWhen(flows: bool, ends: bool)
      reads this
    {
      forall k: Duty :: old(Meets(k)) && (k.Flows? ==> flows) && (k.Ends? ==> ends) ==> Meets(k)
    }

    lemma Dated()
      requires Valid()
      ensures forall i :: 0 <= i < |book.trace| ==> book.trace[i].at <= |book.events|
    {
      FineMeans(objectMode, plan, Now());
    }

    /** The tally after an event. */
    lemma AfterEvent(e: Event<T>) returns (asks: bool)
      requires Valid()
      ensures Tallied(objectMode, Emit(book, e), late, asks) && (asks ==> asked)
    {
      Dated();
      asks := AfterTaken(e);
    }

    lemma AfterTaken(e: Event<T>) returns (asks: bool)
      requires Tallied(objectMode, book, late, asked)
      requires forall i :: 0 <= i < |book.trace| ==> book.trace[i].at <= |book.events|
      ensures Tallied(objectMode, Emit(book, e), late, asks) && (asks ==> asked)
    {
      TallyMeans(objectMode, book, late, asked);
      AskedEmit(objectMode, book.trace, book.events, book.ledger, e);
      asks := Asked(objectMode, book.trace, book.events + [e], book.ledger);
    }

    /** More is asked for than there is after the end of input. */
    ghost predicate Past(n: Option<int>)
      reads this
    {
      ended && Beyond(objectMode, n, length)
    }

    lemma Remaining()
      requires Valid()
      ensures |Whole(book.ledger)| - |DataOf(book.events)| == length && (ended <==> HasNull(book.trace))
      ensures book.ledger == LedgerOf(objectMode, book.trace, book.events)
    {
      FineMeans(objectMode, plan, Now());
      assert |DataOf(book.events) + Flat(buffer)| == |Whole(book.ledger)|;
    }

    lemma AfterNoted(a: Action<T>) returns (lags: bool, asks: bool)
      requires Valid() && book.stack != []
      ensures Tallied(objectMode, Noted(book, a), lags, asks)
      ensures (late ==> lags) && (asks ==> asked || (a.Read? && Past(a.n)))
    {
      Remaining();
      lags, asks := TallyNoted(objectMode, book, late, asked, a, a.Read? && Past(a.n));
    }

    lemma AfterEntered(units: seq<T>, toFront: bool) returns (lags: bool)
      requires Valid() && book.stack != []
      ensures Tallied(objectMode, Entered(book, units, toFront), lags, false)
      ensures (late ==> lags) && (ended && toFront ==> lags)
    {
      Remaining();
      TallyMeans(objectMode, book, late, asked);
      var d := Did(book.stack[|book.stack| - 1].id, Add(Data(units), toFront), |book.events|);
      AskedEntered(objectMode, book.trace, book.events, d, EntryFor(units, toFront, book.events));
      LateSnoc(book.trace, d);
      lags := Late(book.trace + [d]);
    }

    lemma AfterDirect(units: seq<T>, toFront: bool) returns (lags: bool)
      requires Valid() && book.stack != []
      ensures Tallied(objectMode, Emit(Entered(book, units, toFront), DataEvent(units)), lags, false)
      ensures late ==> lags
    {
      lags := AfterEntered(units, toFront);
      FineMeans(objectMode, plan, Now());
      var b := Entered(book, units, toFront);
      TallyMeans(objectMode, b, lags, false);
      AskedEmit(objectMode, b.trace, b.events, b.ledger, DataEvent(units));
    }

    constructor (objectMode: bool, highWaterMark: nat, plan: Plan<T>)
      requires AllPlanned(objectMode, plan.listeners, false) && AllPlanned(objectMode, plan.inside, true)
      ensures Valid() && this.objectMode == objectMode && this.plan == plan && !inRead
      ensures book == Book([], [], [], [], [], plan) && buffer == [] && length == 0 && !ended && !endEmitted
      ensures sync && !needReadable && this.highWaterMark == highWaterMark
      ensures Dutiful()
      ensures tasks == [] && !flowing && !emittedReadable && !resumeScheduled
    {
      this.objectMode, this.highWaterMark, this.plan, inRead := objectMode, highWaterMark, plan, false;
      buffer, length, flowing, paused, ended, endEmitted, reading := [], 0, false, false, false, false, false;
      sync, needReadable, emittedReadable, readableListening := true, false, false, false;
      readingMore, resumeScheduled, tasks, book := false, false, [], Book([], [], [], [], [], plan);
      late, asked := false, false;
      new;
      Unit(plan.listeners);
      Unit(plan.inside);
      FineIf(objectMode, plan, Now());
    }

    lemma Measured()
      requires Valid()
      ensures Sized(objectMode, buffer) && length == |Flat(buffer)| && (endEmitted ==> ended && buffer == [])
      ensures length == 0 <==> buffer == []
    {
      FineMeans(objectMode, plan, Now());
      if length == 0 { EmptyBuffer(objectMode, buffer); }
    }

    /** How much user code is still to be called. */
    function Left(): nat
      reads this
    {
      |book.left.listeners| + |book.left.inside|
    }

    /** What code outside of any callback has been called to do. */
    ghost function Outsiders(): seq<seq<Action<T>>>
      reads this
    {
      RunsOf(book.runs, FromOutside)
    }

    /** There is no more user code for listeners, or none for what runs inside `_read`. */
    ghost predicate Exhausted()
      reads this
    {
      book.left.listeners == [] || book.left.inside == []
    }

    /** Events that were emitted and pieces of user code that are still to be called. */
    ghost function Balance(): nat
      reads this
    {
      |book.events| + Left()
    }

    /** Every event has called a listener, as long as there is user code for it. */
    twostate predicate Heard()
      reads this
    {
      Exhausted() || Balance() <= old(Balance())
    }

    /** Every piece of user code that was called has returned, and code outside of any callback did not run; while
        `_read` runs the buffer only grows; and nothing that was on its way is lost. */
    twostate predicate Settled()
      reads this
    {
      Returned() && Onward()
    }

    twostate predicate Returned()
      reads this
    {
      && book.stack == old(book.stack) && Left() <= old(Left()) && Outsiders() == old(Outsiders())
      && inRead == old(inRead) && (inRead && !objectMode ==> length >= old(length))
      && (old(Exhausted()) ==> Exhausted()) && Heard()
      && old(book.events) <= book.events && (old(Left()) == 0 ==> book.ledger == old(book.ledger))
    }

    twostate predicate Onward()
      reads this
    {
      Keeps() && old(book.events) <= book.events
    }

    /** How much a read takes: in object mode one object; otherwise what was asked for if that much is there, or else
        nothing before the end of input and everything after it; without a number the first chunk when flowing, or else
        everything. */
    function Portion(n: Option<int>): int
      reads this
    {
      if length == 0 && ended then 0
      else if objectMode then (if n == Some(0) then 0 else 1)
      else if n.None? then (if flowing && buffer != [] then |buffer[0]| else length)
      else if n.value <= 0 then 0
      else if n.value <= length then n.value
      else if ended then length else 0
    }

    method HowMuchToRead(n: Option<int>) returns (k: nat)
      requires Valid()
      modifies `highWaterMark, `needReadable
      ensures Valid() && k == old(Portion(n)) && Now() == old(Now())
      ensures n.None? && k == 0 ==> buffer == []
      ensures needReadable == (old(needReadable)
                               || (!objectMode && !ended && n.Some? && n.value > 0 && n.value > length))
      ensures if objectMode then k <= 1 else k <= length
      ensures length == 0 && ended ==> k == 0
      ensures n == Some(0) ==> k == 0
      ensures old(length == 0 && ended) ==> unchanged(this)
      ensures if !objectMode && !old(length == 0 && ended) && n.Some? && n.value > old(highWaterMark)
              then Raised(highWaterMark, n.value) else highWaterMark == old(highWaterMark)
    {
      Measured();
      if length == 0 && ended {
        return 0;
      }
      if objectMode {
        return if n == Some(0) then 0 else 1;
      }
      if n.None? {
        if flowing && |buffer| > 0 {
          FlatCons(buffer[0], buffer[1..]);
          assert buffer == [buffer[0]] + buffer[1..];
          return |buffer[0]|;
        } else {
          return length;
        }
      }
      if n.value <= 0 {
        return 0;
      }
      if n.value > highWaterMark {
        highWaterMark := if n.value >= MAX_HWM then MAX_HWM else PowerAtLeast(n.value, 1);
      }
      if n.value > length {
        if !ended {
          needReadable := true;
          return 0;
        } else {
          return length;
        }
      }
      return n.value;
    }

    /** The same, as a step of `read`. */
    method Amount(n: Option<int>) returns (k: nat)
      requires Valid()
      modifies `highWaterMark, `needReadable
      ensures Valid() && k == old(Portion(n)) && Now() == old(Now()) && Keeps()
      ensures (n.None? && k == 0 ==> buffer == []) && (n == Some(0) ==> k == 0)
      ensures if objectMode then k <= 1 else k <= length
      ensures n.Some? && n.value <= old(highWaterMark) ==> highWaterMark == old(highWaterMark)
      ensures old(Done()) ==> unchanged(this)
    {
      k := HowMuchToRead(n);
    }

    method EndReadable()
      requires length <= 0  // otherwise the source throws
      modifies `ended, `tasks
      ensures ended == (old(ended) || !endEmitted) && tasks == if endEmitted then old(tasks) else old(tasks) + [EndTask]
    {
      if !endEmitted {
        ended := true;
        tasks := tasks + [EndTask];
      }
    }

    method MaybeReadMore()
      modifies `readingMore, `tasks
      ensures Keeps() && MaybeMore()
    {
      if !readingMore {
        readingMore := true;
        tasks := tasks + [ReadMoreTask];
      }
    }

    // ---- User code

    /** A listener is called; `_read` is not running. */
    method Callback()
      requires Valid() && !inRead
      modifies this
      ensures Valid() && Settled()
      ensures old(book.left.listeners) == [] ==> unchanged(this)
      ensures old(book.left.listeners) != [] ==> Left() < old(Left())
      ensures Exhausted() || Balance() < old(Balance())
      decreases Left(), 0
    {
      if book.left.listeners != [] {
        var acts := book.left.listeners[0];
        Open(Run(FromListener, acts), Plan(book.left.listeners[1..], book.left.inside));
        RunTop(acts);
      }
    }

    /** User code that is called while `_read` runs: `_read` itself, or a listener. */
    method CallInside()
      requires Valid() && inRead
      modifies this
      ensures Valid() && Settled()
      ensures old(book.left.inside) == [] ==> unchanged(this)
      ensures old(book.left.inside) != [] ==> Left() < old(Left())
      ensures Exhausted() || Balance() < old(Balance())
      decreases Left(), 0
    {
      if book.left.inside != [] {
        var acts := book.left.inside[0];
        Open(Run(FromRead, acts), Plan(book.left.listeners, book.left.inside[1..]));
        RunTop(acts);
      }
    }

    /** A listener is called, whether or not `_read` is running. */
    method CallListener()
      requires Valid()
      modifies this
      ensures Valid() && Settled()
      ensures Left() == old(Left()) ==> unchanged(this)
      ensures Exhausted() || Balance() < old(Balance())
      decreases Left(), 1
    {
      if inRead {
        CallInside();
      } else {
        Callback();
      }
    }

    /** Code outside of any callback does something. */
    method Outside(a: Action<T>)
      requires Valid() && !inRead && Fits(objectMode, a)
      modifies this
      ensures Valid() && book.stack == old(book.stack) && !inRead && Outsiders() == old(Outsiders()) + [[a]]
      ensures (old(Exhausted()) ==> Exhausted()) && Heard() && Onward()
      decreases Left(), 12
    {
      Open(Run(FromOutside, [a]), book.left);
      RunTop([a]);
    }

    method Open(run: Run<T>, left: Plan<T>)
      requires Valid()
      requires book.left.listeners == (if run.origin.FromListener? then [run.acts] else []) + left.listeners
      requires book.left.inside == (if run.origin.FromRead? then [run.acts] else []) + left.inside
      modifies `book
      ensures Valid() && book == Opened(old(book), run, left) && Keeps()
      ensures Outsiders() == old(Outsiders()) + if run.origin.FromOutside? then [run.acts] else []
      ensures run.origin.FromListener? ==> AllFit(objectMode, run.acts)
      ensures run.origin.FromRead? ==> AllFit(objectMode, run.acts) && Restrained(objectMode, run.acts)
    {
      CheckOpened(objectMode, plan, Now(), run, left);
      assert (book.runs + [run])[..|book.runs|] == book.runs;
      TallySame(objectMode, book, Opened(book, run, left), late, asked);
      book := Opened(book, run, left);
    }

    /** The piece of user code that was called last runs to its end. */
    method RunTop(acts: seq<Action<T>>)
      requires Valid() && AllFit(objectMode, acts) && (inRead ==> Restrained(objectMode, acts))
      requires book.stack != [] && var top := book.stack[|book.stack| - 1]; top.done == 0 && top.acts == acts
      modifies this
      ensures Valid() && book.stack == old(book.stack)[..|old(book.stack)| - 1] && Left() <= old(Left())
              && Outsiders() == old(Outsiders())
      ensures inRead == old(inRead) && (inRead && !objectMode ==> length >= old(length))
      ensures (old(Exhausted()) ==> Exhausted()) && Heard() && Onward()
      decreases Left(), 11
    {
      ghost var below, id := book.stack[..|book.stack| - 1], book.stack[|book.stack| - 1].id;
      var i := 0;
      while i < |acts|
        invariant 0 <= i <= |acts| && Valid() && book.stack == below + [Frame(id, acts, i)] && Left() <= old(Left())
        invariant Outsiders() == old(Outsiders())
        invariant inRead == old(inRead) && (inRead && !objectMode ==> length >= old(length))
        invariant (old(Exhausted()) ==> Exhausted()) && Heard() && Onward()
      {
        Perform(acts[i]);
        i := i + 1;
      }
      Close();
    }

    method Close()
      requires Valid() && book.stack != [] && var top := book.stack[|book.stack| - 1]; top.done == |top.acts|
      modifies `book
      ensures Valid() && book == Closed(old(book)) && Keeps()
    {
      CheckClosed(objectMode, plan, Now());
      TallySame(objectMode, book, Closed(book), late, asked);
      book := Closed(book);
    }

    /** One action of the current piece of user code. */
    method Perform(a: Action<T>)
      requires Valid() && Fits(objectMode, a) && Due(book.stack, a) && (inRead && a.Read? ==> objectMode)
      modifies this
      ensures Valid() && book.stack == Advanced(old(book.stack)) && Left() <= old(Left())
              && Outsiders() == old(Outsiders())
      ensures inRead == old(inRead) && (inRead && !objectMode ==> length >= old(length))
      ensures (old(Exhausted()) ==> Exhausted()) && Heard() && Onward()
      decreases Left(), 10
    {
      if a.Add? {
        AddChunk(a.chunk, a.toFront);
      } else {
        Note(a);
        PerformOther(a);
      }
    }

    /** Enters an action that is not accepted data. */
    method Note(a: Action<T>)
      requires Valid() && Due(book.stack, a)
      requires a.Add? && a.chunk.Data? ==>
                 (!objectMode && a.chunk.units == []) || if a.toFront then endEmitted else ended
      modifies `book, `ended, `late, `asked
      ensures Valid() && book == Noted(old(book), a) && ended == (old(ended) || (a.Add? && a.chunk.Null?))
      ensures KeepsWhen(ended == old(ended), !a.Read? || !old(Past(a.n)))
    {
      EnterNote(a);
    }

    method EnterNote(a: Action<T>)
      requires Valid() && Due(book.stack, a)
      requires a.Add? && a.chunk.Data? ==>
                 (!objectMode && a.chunk.units == []) || if a.toFront then endEmitted else ended
      modifies `book, `ended, `late, `asked
      ensures Valid() && book == Noted(old(book), a) && ended == (old(ended) || (a.Add? && a.chunk.Null?))
      ensures (old(late) ==> late) && (asked ==> old(asked) || (a.Read? && old(Past(a.n))))
    {
      ghost var core := Now();
      CheckNoted(objectMode, plan, core, a);
      late, asked := AfterNoted(a);
      book := Noted(book, a);
      assert Now() == core.(book := Noted(core.book, a));
      ended := ended || (a.Add? && a.chunk.Null?);
      assert Now() == core.(book := Noted(core.book, a), ended := core.ended || (a.Add? && a.chunk.Null?));
    }

    method PerformOther(a: Action<T>)
      requires Valid() && !a.Add? && (inRead && a.Read? ==> objectMode)
      modifies this
      ensures Valid() && Settled()
      ensures a.Read? && old(Past(a.n)) ==> Meets(Ends)
      decreases Left(), 9, 5
    {
      match a
      case Read(n) => var _ := ReadN(n);
      case Resume => Resume();
      case Pause => Pause();
      case ListenReadable => ListenReadable();
    }

    method Resume()
      requires Valid()
      modifies `flowing, `paused, `resumeScheduled, `tasks
      ensures Valid() && flowing && Keeps()
      ensures !old(flowing || resumeScheduled) ==> tasks == old(tasks) + [ResumeTask]
    {
      if flowing {
      } else {
        CheckFlowing(objectMode, plan, Now(), true);
        flowing, paused := true, false;
        if !resumeScheduled {
          resumeScheduled := true;
          tasks := tasks + [ResumeTask];
        }
      }
    }

    method Pause()
      requires Valid()
      modifies this
      ensures Valid() && Settled()
      ensures old(!paused) ==> old(book.events) + [Signal(PauseSign)] <= book.events
      ensures old(Left() == 0 && !paused) ==> !flowing
      decreases Left(), 9, 4
    {
      if !paused {
        CheckFlowing(objectMode, plan, Now(), false);
        flowing, paused := false, true;
        Announce(PauseSign);
      }
    }

    /** `on('readable', ...)`; after 'end' it does nothing. */
    method ListenReadable()
      requires Valid()
      modifies this
      ensures Valid() && Settled()
      ensures old(endEmitted || readableListening) ==> unchanged(this)
      ensures old(!endEmitted && !readableListening && !reading) ==>
                tasks == old(tasks) + [ReadZeroTask] && needReadable
      ensures old(!endEmitted && !readableListening && reading && length > 0) ==> Told()
      decreases Left(), 9, 4
    {
      if !endEmitted && !readableListening {
        StartListening();
        if reading && length > 0 {
          EmitReadable();
        }
      }
    }

    method StartListening()
      requires Valid()
      modifies `readableListening, `emittedReadable, `needReadable, `tasks
      ensures Valid() && Keeps() && !emittedReadable && needReadable
      ensures tasks == if reading then old(tasks) else old(tasks) + [ReadZeroTask]
    {
      readableListening, emittedReadable, needReadable := true, false, true;
      if !reading {
        tasks := tasks + [ReadZeroTask];
      }
    }

    // ---- Adding

    /** Nobody waits for data, and data is accepted. */
    ghost predicate Quiet(toFront: bool)
      reads this
    {
      (sync || !flowing || length > 0) && !needReadable && !endEmitted && (toFront || !ended)
    }

    /** The chunk went into the buffer and nothing else happened. */
    twostate predicate Stored(units: seq<T>, toFront: bool)
      reads this
    {
      && old(book.stack) != []
      && buffer == Inserted(old(buffer), units, toFront) && length == old(length) + |units|
      && book == Entered(old(book), units, toFront) && ended == old(ended) && flowing == old(flowing)
      && highWaterMark == old(highWaterMark)
      && endEmitted == old(endEmitted)
    }

    /** Reading more has been put off, unless it was before. */
    twostate predicate MaybeMore()
      reads this
    {
      tasks == if old(readingMore) then old(tasks) else old(tasks) + [ReadMoreTask]
    }

    /** `readableAddChunk`. */
    method AddChunk(c: Chunk<T>, toFront: bool)
      requires Valid() && Fits(objectMode, Add(c, toFront)) && Due(book.stack, Add(c, toFront))
      modifies this
      ensures Valid() && book.stack == Advanced(old(book.stack)) && Left() <= old(Left())
              && Outsiders() == old(Outsiders())
      ensures inRead == old(inRead) && (inRead && !objectMode ==> length >= old(length))
      ensures (old(Exhausted()) ==> Exhausted()) && Heard() && Onward()
      ensures c.Data? && c.units != [] && old(Quiet(toFront)) ==>
                Stored(c.units, toFront) && (toFront || !reading) && MaybeMore()
      decreases Left(), 9, 3
    {
      if c.Invalid? {
        Refuse(Add(c, toFront));
      } else if c.Null? {
        StopReading(false);
        if !ended {
          OnEofChunk(toFront);
        } else {
          Ignore(Add(c, toFront));
        }
      } else if objectMode || |c.units| > 0 {
        AddData(c.units, toFront);
      } else {
        StopReading(toFront);
        Ignore(Add(c, toFront));
      }
    }

    method StopReading(toFront: bool)
      requires Valid()
      modifies `reading
      ensures Valid() && Keeps() && Now() == old(Now()) && reading == (toFront && old(reading))
    {
      if !toFront {
        reading := false;
      }
    }

    /** An action without any effect. */
    method Ignore(a: Action<T>)
      requires Valid() && Due(book.stack, a) && !a.Read? && (a.Add? && a.chunk.Null? ==> ended)
      requires a.Add? && a.chunk.Data? ==>
                 (!objectMode && a.chunk.units == []) || if a.toFront then endEmitted else ended
      modifies `book, `ended, `late, `asked
      ensures Valid() && book == Noted(old(book), a) && ended == old(ended) && Onward()
    {
      Note(a);
    }

    /** An action that is answered with an 'error' event. */
    method Refuse(a: Action<T>)
      requires Valid() && Due(book.stack, a) && !a.Read? && (a.Add? && a.chunk.Null? ==> ended)
      requires a.Add? && a.chunk.Data? ==>
                 (!objectMode && a.chunk.units == []) || if a.toFront then endEmitted else ended
      modifies this
      ensures Valid() && book.stack == Advanced(old(book.stack)) && Left() <= old(Left())
              && Outsiders() == old(Outsiders())
      ensures inRead == old(inRead) && (inRead && !objectMode ==> length >= old(length))
      ensures (old(Exhausted()) ==> Exhausted()) && Heard() && Onward()
      ensures old(book.events) + [Signal(ErrorSign)] <= book.events
      decreases Left(), 3
    {
      Ignore(a);
      Announce(ErrorSign);
    }

    method AddData(units: seq<T>, toFront: bool)
      requires Valid() && units != [] && (objectMode ==> |units| == 1) && Due(book.stack, Add(Data(units), toFront))
      modifies this
      ensures Valid() && book.stack == Advanced(old(book.stack)) && Left() <= old(Left())
              && Outsiders() == old(Outsiders())
      ensures inRead == old(inRead) && (inRead && !objectMode ==> length >= old(length))
      ensures (old(Exhausted()) ==> Exhausted()) && Heard() && Onward()
      ensures old(Quiet(toFront)) ==> Stored(units, toFront) && (toFront || !reading) && MaybeMore()
      decreases Left(), 9, 1
    {
      Measured();
      if (ended && !toFront) || (endEmitted && toFront) {
        Refuse(Add(Data(units), toFront));
      } else {
        StopReading(toFront);
        Accept(units, toFront);
        MaybeReadMore();
      }
    }

    /** The two ways a chunk can take. */
    method Accept(units: seq<T>, toFront: bool)
      requires Valid() && units != [] && (objectMode ==> |units| == 1) && Due(book.stack, Add(Data(units), toFront))
      requires !endEmitted && (!toFront ==> !ended)
      modifies this
      ensures Valid() && book.stack == Advanced(old(book.stack)) && Left() <= old(Left())
              && Outsiders() == old(Outsiders())
      ensures inRead == old(inRead) && (inRead && !objectMode ==> length >= old(length))
      ensures (old(Exhausted()) ==> Exhausted()) && Heard() && Onward()
      ensures old(Quiet(toFront)) ==>
                Stored(units, toFront) && reading == old(reading) && tasks == old(tasks)
                && readingMore == old(readingMore)
      decreases Left(), 9, 0
    {
      if flowing && length == 0 && !sync {
        PassOn(units, toFront);
      } else {
        Store(units, toFront);
      }
    }

    method PassOn(units: seq<T>, toFront: bool)
      requires Valid() && units != [] && (objectMode ==> |units| == 1) && Due(book.stack, Add(Data(units), toFront))
      requires !endEmitted && (!toFront ==> !ended) && flowing && length == 0 && !sync
      modifies this
      ensures Valid() && book.stack == Advanced(old(book.stack)) && Left() <= old(Left())
              && Outsiders() == old(Outsiders())
      ensures inRead == old(inRead) && (inRead && !objectMode ==> length >= old(length))
      ensures (old(Exhausted()) ==> Exhausted()) && Heard() && Onward()
      decreases Left(), 8, 5
    {
      AcceptDirectly(units, toFront);
      CallListener();
      var _ := ReadN(Some(0));
    }

    method Store(units: seq<T>, toFront: bool)
      requires Valid() && units != [] && (objectMode ==> |units| == 1) && Due(book.stack, Add(Data(units), toFront))
      requires !endEmitted && (!toFront ==> !ended) && (flowing && length == 0 ==> sync)
      modifies this
      ensures Valid() && book.stack == Advanced(old(book.stack)) && Left() <= old(Left())
              && Outsiders() == old(Outsiders())
      ensures inRead == old(inRead) && (inRead && !objectMode ==> length >= old(length))
      ensures (old(Exhausted()) ==> Exhausted()) && Heard() && Onward()
      ensures old(Quiet(toFront)) ==>
                Stored(units, toFront) && reading == old(reading) && tasks == old(tasks)
                && readingMore == old(readingMore)
      ensures old(needReadable && !emittedReadable) ==> Told()
      decreases Left(), 8, 5
    {
      AcceptIntoBuffer(units, toFront);
      if needReadable {
        EmitReadable();
      }
    }

    /** The chunk goes straight to the listeners. */
    method AcceptDirectly(units: seq<T>, toFront: bool)
      requires Valid() && length == 0 && units != [] && Due(book.stack, Add(Data(units), toFront))
      requires !endEmitted && (!toFront ==> !ended)
      modifies `book, `late, `asked
      ensures Valid() && book == Emit(Entered(old(book), units, toFront), DataEvent(units))
      ensures Keeps()
    {
      CheckDirect(objectMode, plan, Now(), units, toFront);
      late := AfterDirect(units, toFront);
      asked := false;
      book := Emit(Entered(book, units, toFront), DataEvent(units));
    }

    method AcceptIntoBuffer(units: seq<T>, toFront: bool)
      requires Valid() && units != [] && (objectMode ==> |units| == 1) && Due(book.stack, Add(Data(units), toFront))
      requires !endEmitted && (!toFront ==> !ended)
      modifies `buffer, `length, `book, `late, `asked
      ensures Valid() && book == Entered(old(book), units, toFront) && length == old(length) + |units|
      ensures buffer == Inserted(old(buffer), units, toFront)
      ensures KeepsWhen(false, true)
      ensures old(Meets(Flows)) && (flowing && old(length) == 0 ==> sync) && !needReadable ==> Meets(Flows)
    {
      EnterData(units, toFront);
    }

    method EnterData(units: seq<T>, toFront: bool)
      requires Valid() && units != [] && (objectMode ==> |units| == 1) && Due(book.stack, Add(Data(units), toFront))
      requires !endEmitted && (!toFront ==> !ended)
      modifies `buffer, `length, `book, `late, `asked
      ensures Valid() && book == Entered(old(book), units, toFront) && length == old(length) + |units|
      ensures buffer == Inserted(old(buffer), units, toFront)
      ensures !asked && (old(late) || ended ==> late)
    {
      CheckBuffered(objectMode, plan, Now(), units, toFront);
      late := AfterEntered(units, toFront);
      asked := false;
      book := Entered(book, units, toFront);
      length := length + |units|;
      buffer := Inserted(buffer, units, toFront);
    }

    /** An event without data. */
    method Announce(sign: Sign)
      requires Valid()
      modifies this
      ensures Valid() && Settled()
      ensures old(book.events) + [Signal(sign)] <= book.events
      ensures old(Left()) == 0 ==> flowing == old(flowing)
      ensures old(Left()) == 0 ==> Left() == 0 && Untouched()
      decreases Left(), 2
    {
      Sent(sign);
      CallListener();
    }

    /** At most the events have changed. */
    twostate predicate Untouched()
      reads this
    {
      && flowing == old(flowing) && ended == old(ended) && endEmitted == old(endEmitted) && length == old(length)
      && sync == old(sync) && needReadable == old(needReadable) && tasks == old(tasks)
      && inRead == old(inRead)
    }

    method Sent(sign: Sign)
      requires Valid()
      modifies `book, `asked
      ensures Valid() && book == Emit(old(book), Signal(sign)) && Keeps()
    {
      CheckSignal(objectMode, plan, Now(), sign);
      asked := AfterEvent(Signal(sign));
      book := Emit(book, Signal(sign));
    }

    method OnEofChunk(toFront: bool)
      requires Valid() && !ended && Due(book.stack, Add(Null, toFront))
      modifies this
      ensures Valid() && book.stack == Advanced(old(book.stack)) && Left() <= old(Left())
              && Outsiders() == old(Outsiders())
      ensures inRead == old(inRead) && (inRead && !objectMode ==> length >= old(length))
      ensures (old(Exhausted()) ==> Exhausted()) && Heard() && Onward()
      ensures old(sync && !emittedReadable) ==>
                ended && endEmitted == old(endEmitted) && length == old(length) && flowing == old(flowing) && sync
                && !needReadable && resumeScheduled == old(resumeScheduled)
                && tasks == old(tasks) + [EmitReadableTask]
      decreases Left(), 8
    {
      Note(Add(Null, toFront));
      EmitReadable();
    }

    method EmitReadable()
      requires Valid()
      modifies this
      ensures Valid() && Settled()
      ensures old(Meets(Announces)) ==> Meets(Flows)
      ensures old(Left()) == 0 ==> flowing == old(flowing)
      ensures old(sync && !emittedReadable) ==> PutOff()
      ensures old(!emittedReadable) ==> Told()
      decreases Left(), 7, 0
    {
      var now := AnnounceOnce();
      if now {
        EmitReadableNow();
      }
    }

    /** A 'readable' event has been emitted or put off. */
    twostate predicate Told()
      reads this
    {
      EmitReadableTask in tasks || old(book.events) + [Signal(ReadableSign)] <= book.events
    }

    /** Only a 'readable' event has been put off. */
    twostate predicate PutOff()
      reads this
    {
      && Now() == old(Now()) && sync && !needReadable && resumeScheduled == old(resumeScheduled)
      && tasks == old(tasks) + [EmitReadableTask]
    }

    /** Unless 'readable' has been announced, it is put off while `_read` runs, or else due now. */
    method AnnounceOnce() returns (now: bool)
      requires Valid()
      modifies `needReadable, `emittedReadable, `tasks
      ensures Valid() && now == (!old(emittedReadable) && !sync) && !needReadable && emittedReadable
      ensures tasks == if !old(emittedReadable) && sync then old(tasks) + [EmitReadableTask] else old(tasks)
      ensures !now ==> Keeps() && (old(Meets(Announces)) ==> Meets(Flows))
      ensures (old(Meets(Ends)) ==> Meets(Ends)) && (old(Meets(Resumes)) ==> Meets(Resumes))
    {
      needReadable := false;
      now := !emittedReadable && !sync;
      if !emittedReadable {
        emittedReadable := true;
        if sync {
          tasks := tasks + [EmitReadableTask];
        }
      }
    }

    method EmitReadableNow()
      requires Valid() && (inRead ==> objectMode)
      modifies this
      ensures Valid() && Settled() && Meets(Flows)
      ensures old(book.events) + [Signal(ReadableSign)] <= book.events
      ensures old(Left()) == 0 ==> flowing == old(flowing) && (flowing ==> PassedOn())
      ensures old(Done()) ==> Rested()
      decreases Left(), 6
    {
      ghost var core := Now();
      Announce(ReadableSign);
      Flow();
      if buffer == [] && book.ledger == core.book.ledger { AllOut(objectMode, plan, core, Now()); }
    }

    /** What was buffered has been emitted. */
    twostate predicate PassedOn()
      reads this
    {
      buffer == [] && DataOf(book.events) == DataOf(old(book.events)) + Flat(old(buffer))
    }

    // ---- Reading

    /** Without user code to interfere, everything buffered is emitted. */
    method Flow()
      requires Valid() && (inRead ==> objectMode)
      modifies this
      ensures Valid() && Settled() && Meets(Flows)
      ensures old(Left()) == 0 ==> flowing == old(flowing) && (flowing ==> buffer == [])
      ensures old(Done()) ==> Rested()
      decreases Left(), 5
    {
      if flowing {
        var chunk := ReadAny();
        while chunk.Some? && flowing
          invariant Valid() && Settled()
          invariant old(Left()) == 0 ==> flowing && (chunk.None? ==> buffer == [])
          invariant chunk.None? ==> Meets(Flows)
          invariant old(Done()) ==> Rested() && chunk.None?
          decreases Left(), length, if chunk.Some? then 1 else 0
        {
          Measured();
          chunk := ReadAny();
        }
      }
    }

    method ReadAny() returns (chunk: Option<seq<T>>)
      requires Valid() && (inRead ==> objectMode)
      modifies this
      ensures Valid() && Settled()
      ensures Left() == old(Left()) ==> if chunk.Some? then length < old(length) else length <= old(length)
      ensures old(Left()) == 0 && old(flowing) ==> flowing && (chunk.None? ==> buffer == [])
      ensures chunk.None? ==> Meets(Flows)
      ensures old(Done()) ==> Rested() && chunk.None?
      decreases Left(), 4, 5
    {
      ghost var was, quiet := Now(), Left() == 0;
      Measured();
      chunk := ReadN(None);
      if quiet && was.flowing {
        NoneMeansEmpty(objectMode, was, Now(), chunk);
      }
    }

    /** The implementation's `_read`. */
    method CallRead()
      requires Valid() && sync && (inRead ==> objectMode)
      modifies this
      ensures Valid() && Settled() && (!objectMode ==> length >= old(length))
      ensures old(book.left.inside) == [] ==> unchanged(this)
      ensures old(book.left.inside) != [] ==> Left() < old(Left())
      decreases Left(), 2
    {
      if book.left.inside != [] {
        var outer := inRead;
        inRead := true;
        assert Keeps();
        CallInside();
        assert Keeps();
        inRead := outer;
      }
    }

    method ReadN(n: Option<int>) returns (ret: Option<seq<T>>)
      requires Valid() && (inRead ==> objectMode)
      modifies this
      ensures Valid() && Settled()
      ensures n.None? && Left() == old(Left()) ==> if ret.Some? then length < old(length) else length <= old(length)
      ensures n == Some(0) && Left() == old(Left()) && old(Idle()) ==> reading
      ensures n == Some(0) && old(Idle() && book.left.inside != []) ==> Left() < old(Left())
      ensures old(Left()) == 0 && n != Some(0) && old(reading) ==> reading
      ensures old(Left()) == 0 && n != Some(0) ==> Delivery(old(Now()), Now(), old(Portion(n)), ret)
      ensures n.None? && ret.None? ==> Meets(Flows)
      ensures old(Past(n)) ==> Meets(Ends)
      ensures old(Left()) == 0 ==> flowing == old(flowing)
      ensures old(Done()) ==> Rested()
      decreases Left(), if n == Some(0) then 8 else 4, 4
    {
      Forget(n);
      var early := n == Some(0) && needReadable && (length >= highWaterMark || ended);
      if early {
        ReadZero();
        return None;
      }
      ret := ReadPortion(n);
    }

    method Forget(n: Option<int>)
      requires Valid()
      modifies `emittedReadable
      ensures Valid() && Keeps() && Now() == old(Now()) && (n.None? ==> !emittedReadable)
    {
      if n.None? || n.value > 0 {
        emittedReadable := false;
      }
    }

    /** `read(0)` with enough data or at the end only announces it. */
    method ReadZero()
      requires Valid() && (inRead ==> objectMode) && needReadable && (length >= highWaterMark || ended)
      modifies this
      ensures Valid() && Settled() && (old(Past(Some(0))) ==> Meets(Ends))
      ensures old(Left()) == 0 ==> flowing == old(flowing)
      ensures old(Done()) ==> Rested()
      decreases Left(), 7, 1
    {
      Measured();
      if length == 0 && ended {
        EndIfEmpty();
      } else {
        EmitReadable();
      }
    }

    /** The part of `read` after the early return for `read(0)`. */
    method ReadPortion(n: Option<int>) returns (ret: Option<seq<T>>)
      requires Valid() && (inRead ==> objectMode)
      modifies this
      ensures Valid() && Settled()
      ensures n.None? && Left() == old(Left()) ==> if ret.Some? then length < old(length) else length <= old(length)
      ensures n == Some(0) && Left() == old(Left()) && old(Idle()) ==> reading
      ensures n == Some(0) && old(Idle() && book.left.inside != []) ==> Left() < old(Left())
      ensures old(Left()) == 0 && n != Some(0) && old(reading) ==> reading
      ensures old(Left()) == 0 ==> Delivery(old(Now()), Now(), old(Portion(n)), ret)
      ensures n.None? && ret.None? && old(!emittedReadable) ==> Meets(Flows)
      ensures old(Past(n)) ==> Meets(Ends)
      ensures old(Done()) ==> Rested()
      decreases Left(), 4, 3
    {
      Measured();
      var k := Amount(n);
      if k == 0 && ended {
        EndIfEmpty();
        return None;
      }
      ret := ReadSome(n, k);
    }

    method EndIfEmpty()
      requires Valid() && ended
      modifies `tasks, `ended
      ensures Valid() && Now() == old(Now()) && (length == 0 && !endEmitted ==> EndTask in tasks)
      ensures Settled() && Delivery(old(Now()), Now(), 0, None) && (length == 0 ==> Meets(Ends))
      ensures length == 0 && !emittedReadable ==> Meets(Flows)
      ensures old(Done()) ==> Rested()
    {
      Measured();
      if length == 0 {
        EndReadable();
      }
    }

    /** The part of `read` from the decision about `_read` on. */
    method ReadSome(n: Option<int>, k0: nat) returns (ret: Option<seq<T>>)
      requires Valid() && (inRead ==> objectMode) && if objectMode then k0 <= 1 else k0 <= length
      requires n == Some(0) ==> k0 == 0
      modifies this
      ensures Valid() && Settled()
      ensures n.None? && Left() == old(Left()) ==> if ret.Some? then length < old(length) else length <= old(length)
      ensures n == Some(0) && Left() == old(Left()) && old(Idle()) ==> reading
      ensures n == Some(0) && old(Idle() && book.left.inside != []) ==> Left() < old(Left())
      ensures old(Left()) == 0 && n != Some(0) && old(reading) ==> reading
      ensures old(Left()) == 0 ==> Delivery(old(Now()), Now(), k0, ret)
      ensures n.None? && ret.None? && old(!emittedReadable) && (k0 == 0 ==> old(Bare())) ==> Meets(Flows)
      ensures old(ended) && k0 == old(length) && n != Some(k0) ==> Meets(Ends)
      decreases Left(), 4, 2
    {
      assert !emittedReadable ==> Meets(Announces);
      var k := FillBuffer(n, k0);
      ret := HandOut(n, k);
    }

    method HandOut(n: Option<int>, k: nat) returns (ret: Option<seq<T>>)
      requires Valid() && (inRead ==> objectMode) && if objectMode then k <= 1 else k <= length
      modifies this
      ensures Valid() && Settled() && (ret.Some? <==> k > 0 && old(buffer) != [])
      ensures Left() == old(Left()) ==> if ret.Some? then length < old(length) else length == old(length)
      ensures Left() == old(Left()) ==> Delivery(old(Now()), Now(), k, ret) && reading == old(reading)
      ensures n.None? && ret.None? && old(buffer) == [] && old(Meets(Announces)) ==> Meets(Flows)
      ensures old(ended) && k == old(length) && n != Some(k) ==> Meets(Ends)
      decreases Left(), 2
    {
      ret := Deliver(n, k);
      if ret.Some? {
        CallListener();
      }
    }

    /** Nothing is buffered, more can come, and nothing was announced. */
    ghost predicate Bare()
      reads this
    {
      buffer == [] && !ended && !emittedReadable
    }

    /** The state in which `read(0)` is bound to call `_read`. */
    ghost predicate Idle()
      reads this
    {
      !reading && !ended && length < highWaterMark
    }

    /** A read of `k` units is to call `_read`. */
    ghost predicate Wants(k: nat)
      reads this
    {
      needReadable || length == 0 || length - k < highWaterMark
    }

    /** The call of `_read` inside `read`, and the second look at how much can be returned. */
    method FillBuffer(n: Option<int>, k0: nat) returns (k: nat)
      requires Valid() && (inRead ==> objectMode) && if objectMode then k0 <= 1 else k0 <= length
      modifies this
      ensures Valid() && Settled()
      ensures if objectMode then k <= 1 else k <= length
      ensures Left() == old(Left()) ==> Now() == old(Now()) && k == k0 && (old(Idle() || reading) ==> reading)
      ensures old(!ended && !reading && Wants(k0) && book.left.inside != []) ==> Left() < old(Left())
      ensures old(ended || reading || !Wants(k0)) ==> k == k0 && unchanged(this)
      ensures n == Some(0) && k0 == 0 ==> k == 0
      ensures n.None? && k == 0 && (k0 == 0 ==> old(Bare())) ==> buffer == [] || Meets(Flows)
      decreases Left(), 4, 1
    {
      k := k0;
      var doRead := needReadable;
      if length == 0 || length - k < highWaterMark {
        doRead := true;
      }
      if ended || reading {
        doRead := false;
      }
      if doRead {
        k := CallReadNow(n, k0);
      }
    }

    method CallReadNow(n: Option<int>, k0: nat) returns (k: nat)
      requires Valid() && (inRead ==> objectMode) && if objectMode then k0 <= 1 else k0 <= length
      modifies this
      ensures Valid() && Settled()
      ensures if objectMode then k <= 1 else k <= length
      ensures Left() == old(Left()) ==> Now() == old(Now()) && k == k0 && reading
      ensures old(book.left.inside) != [] ==> Left() < old(Left())
      ensures n == Some(0) && k0 == 0 ==> k == 0
      ensures n.None? && k == 0 && (k0 == 0 ==> old(Bare())) ==> buffer == [] || Meets(Flows)
      decreases Left(), 4, 0
    {
      k := k0;
      InvokeRead();
      if !reading {
        k := Amount(n);
      }
    }

    method InvokeRead()
      requires Valid() && (inRead ==> objectMode)
      modifies this
      ensures Valid() && Settled() && (!objectMode ==> length >= old(length))
      ensures Left() == old(Left()) ==> Now() == old(Now()) && reading
      ensures old(book.left.inside) != [] ==> Left() < old(Left())
      ensures old(Bare()) ==> Meets(Flows)
      decreases Left(), 3, 0
    {
      BeginRead();
      CallRead();
      EndRead();
    }

    method BeginRead()
      requires Valid() && (inRead ==> objectMode)
      modifies `reading, `sync, `needReadable
      ensures Valid() && Keeps() && reading && sync && Now() == old(Now()) && (old(Bare()) ==> Meets(Flows))
    {
      Measured();
      reading := true;
      sync := true;
      if length == 0 {
        needReadable := true;
      }
    }

    method EndRead()
      requires Valid() && (inRead ==> objectMode)
      modifies `sync
      ensures Valid() && Keeps() && Now() == old(Now())
    {
      sync := false;
    }

    /** The end of `read`, as one delivery. */
    method Deliver(n: Option<int>, k: nat) returns (ret: Option<seq<T>>)
      requires Valid() && if objectMode then k <= 1 else k <= length
      modifies `buffer, `needReadable, `length, `ended, `tasks, `book, `asked
      ensures Valid() && book == Emitted(old(book), ret) && Delivery(old(Now()), Now(), k, ret)
      ensures Keeps()
      ensures n.None? && ret.None? && old(buffer) == [] && old(Meets(Announces)) ==> Meets(Flows)
      ensures ended && k == old(length) && n != Some(k) ==> Meets(Ends)
      ensures if ret.Some? then length < old(length) else length == old(length)
      ensures k == 0 ==> ret.None?
    {
      ghost var was := Now();
      ret := TakeOut(n, k);
      SomeDelivered(was, Now(), k, ret);
    }

    /** The end of `read`: takes the data out of the buffer and emits it. */
    method TakeOut(n: Option<int>, k0: nat) returns (ret: Option<seq<T>>)
      requires Valid() && if objectMode then k0 <= 1 else k0 <= length
      modifies `buffer, `needReadable, `length, `ended, `tasks, `book, `asked
      ensures Valid() && ended == old(ended) && (ret.Some? <==> k0 > 0 && old(buffer) != [])
      ensures ret.Some? ==>
                length == old(length) - k0 && k0 <= |Flat(old(buffer))| && ret.value == Flat(old(buffer))[..k0]
      ensures ret.None? ==> length == old(length) && buffer == old(buffer)
      ensures book == Emitted(old(book), ret)
      ensures Keeps()
      ensures n.None? && ret.None? && old(buffer) == [] && old(Meets(Announces)) ==> Meets(Flows)
      ensures ended && k0 == old(length) && n != Some(k0) ==> Meets(Ends)
    {
      Measured();
      ret := TakeData(n, k0);
    }

    method TakeData(n: Option<int>, k0: nat) returns (ret: Option<seq<T>>)
      requires Valid() && if objectMode then k0 <= 1 else k0 <= length
      modifies `buffer, `needReadable, `length, `ended, `tasks, `book, `asked
      ensures Valid() && ended == old(ended) && (ret.Some? <==> k0 > 0 && old(buffer) != [])
      ensures ret.Some? ==>
                length == old(length) - k0 && k0 <= |Flat(old(buffer))| && ret.value == Flat(old(buffer))[..k0]
      ensures ret.None? ==> length == old(length) && buffer == old(buffer) && needReadable
      ensures book == Emitted(old(book), ret) && (asked ==> old(asked)) && (old(needReadable) ==> needReadable)
      ensures tasks == old(tasks) || tasks == old(tasks) + [EndTask]
      ensures ended && length == 0 && !endEmitted && n != Some(if ret.Some? then k0 else 0) ==> EndTask in tasks
    {
      Dated();
      var k;
      ret, k := TakeUnits(k0);
      EndIfDrained(n != Some(k));
      EnterTaken(ret);
    }

    /** The 'data' event of a read. */
    method EnterTaken(ret: Option<seq<T>>)
      requires Fine(objectMode, plan, Now().(book := Emitted(book, ret))) && Tallied(objectMode, book, late, asked)
      requires forall i :: 0 <= i < |book.trace| ==> book.trace[i].at <= |book.events|
      modifies `book, `asked
      ensures Fine(objectMode, plan, Now()) && Tallied(objectMode, book, late, asked) && (asked ==> old(asked))
      ensures book == Emitted(old(book), ret)
    {
      if ret.Some? {
        asked := AfterTaken(DataEvent(ret.value));
        book := Emit(book, DataEvent(ret.value));
      }
    }

    /** `endReadable` if the read took the last data after the end of input. */
    method EndIfDrained(wanted: bool)
      modifies `ended, `tasks
      ensures ended == old(ended)
      ensures wanted && ended && length == 0 && !endEmitted ==> EndTask in tasks
      ensures tasks == old(tasks) || (ended && tasks == old(tasks) + [EndTask])
    {
      if wanted && ended && length == 0 {
        EndReadable();
      }
    }

    method TakeUnits(k0: nat) returns (ret: Option<seq<T>>, k: nat)
      requires Valid() && if objectMode then k0 <= 1 else k0 <= length
      modifies `buffer, `needReadable, `length
      ensures ret.Some? <==> k0 > 0 && old(buffer) != []
      ensures ret.Some? ==>
                length == old(length) - k0 && k0 <= |Flat(old(buffer))| && ret.value == Flat(old(buffer))[..k0]
      ensures ret.None? ==> length == old(length) && buffer == old(buffer) && needReadable
      ensures k == (if ret.Some? then k0 else 0) && (old(needReadable) ==> needReadable)
      ensures Fine(objectMode, plan, Now().(book := Emitted(book, ret)))
    {
      if k0 == 0 || |buffer| == 0 {
        ret, k := None, 0;
        needReadable := true;
      } else {
        var units := TakeFirst(k0);
        ret, k := Some(units), k0;
      }
      if length == 0 && !ended {
        needReadable := true;
      }
    }

    method TakeFirst(k: nat) returns (units: seq<T>)
      requires Valid() && buffer != [] && 0 < k && if objectMode then k <= 1 else k <= length
      modifies `buffer, `length
      ensures 0 <= length == old(length) - k && k <= |Flat(old(buffer))| && units == Flat(old(buffer))[..k]
      ensures Fine(objectMode, plan, Now().(book := Emit(book, DataEvent(units))))
    {
      Measured();
      var ret, rest := FromList(buffer, length, k, objectMode);
      CheckTaken(objectMode, plan, Now(), k, rest);
      units := ret.value;
      buffer := rest;
      length := length - k;
    }

    /** `read(outer)` where `_read` calls `read` with each of `inners`: how much the outer call takes was decided
        before. The length stays right exactly if that much is left afterwards, or nothing at all. */
    method ReadInsideRead(outer: int, inners: seq<int>)
      requires Valid() && !inRead && Left() == 0 && !objectMode && Idle() && 0 < outer <= length && 0 !in inners
      modifies this
      ensures var rest := LeftAfter(|Flat(old(buffer))|, inners);
              && length == rest - (if rest > 0 then outer else 0)
              && Flat(buffer) == Remainder(Flat(old(buffer)), rest, outer)
              && (length == |Flat(buffer)| <==> outer <= rest || rest == 0)
    {
      Measured();
      var k := HowMuchToRead(Some(outer));
      if needReadable || length - k < highWaterMark {
        ReadReads(inners);
        assert reading;  // so that the amount is not decided again
      }
      TakeDecided(k);
    }

    /** The call of a `_read` that calls `read` several times. */
    method ReadReads(inners: seq<int>)
      requires Valid() && !inRead && Left() == 0 && !objectMode && !ended && 0 !in inners
      modifies this
      ensures reading && Sized(false, buffer) && length == |Flat(buffer)| == LeftAfter(|Flat(old(buffer))|, inners)
      ensures Flat(buffer) == Flat(old(buffer))[|Flat(old(buffer))| - |Flat(buffer)|..]
    {
      ghost var all := Flat(buffer);
      reading, sync := true, true;
      Measured();
      assert inners[0..] == inners;
      for i := 0 to |inners|
        invariant Valid() && !inRead && Left() == 0 && !ended && reading && length == |Flat(buffer)| <= |all|
        invariant Flat(buffer) == all[|all| - |Flat(buffer)|..]
        invariant LeftAfter(|Flat(buffer)|, inners[i..]) == LeftAfter(|all|, inners)
      {
        Shift(inners, i);
        assert inners[i] in inners;
        ReadOnce(inners[i]);
      }
      sync := false;
      Measured();
    }

    /** One read while `_read` runs. */
    method ReadOnce(n: int)
      requires Valid() && !inRead && Left() == 0 && !objectMode && !ended && reading && n != 0
      modifies this
      ensures Valid() && !inRead && Left() == 0 && !ended && reading && length == |Flat(buffer)|
      ensures Flat(buffer) == Flat(old(buffer))[Taken(|Flat(old(buffer))|, n)..]
    {
      ghost var was := Now();
      Measured();
      var _ := ReadN(Some(n));
      if 0 < n <= |Flat(was.buffer)| {
        RestAfterDelivery(objectMode, plan, was, Now(), n);
      }
      Measured();
    }

    /** The end of `read` with an amount that was decided earlier. */
    method TakeDecided(k: nat)
      requires Sized(false, buffer) && length == |Flat(buffer)| && !objectMode && k > 0
      modifies `buffer, `length
      ensures length == old(length) - if old(length) > 0 then k else 0
      ensures Flat(buffer) == Flat(old(buffer))[Least(k, |Flat(old(buffer))|)..]
    {
      if |buffer| > 0 {
        FlatCons(buffer[0], buffer[1..]);
        assert buffer == [buffer[0]] + buffer[1..];
        var _, rest := FromList(buffer, length, k, objectMode);
        buffer := rest;
        length := length - k;
      }
    }

    // ---- At the end of input

    /** The input has ended, nothing is buffered, and there is no user code to be called. */
    ghost predicate Done()
      reads this
    {
      Left() == 0 && ended && !endEmitted && length == 0
    }

    /** It is still so, and at most 'end' has been put off. */
    twostate predicate Rested()
      reads this
    {
      && Done() && flowing == old(flowing) && sync == old(sync) && needReadable == old(needReadable)
      && inRead == old(inRead) && OnlyEnds(old(tasks), tasks)
    }

    /** The same after the first task. */
    twostate predicate Went()
      reads this
    {
      && Done() && flowing == old(flowing) && sync == old(sync) && needReadable == old(needReadable)
      && inRead == old(inRead) && old(tasks) != [] && OnlyEnds(old(tasks)[1..], tasks)
    }

    lemma NoEnd()
      requires Valid() && !endEmitted
      ensures !HasEnd(book.events)
    {
      FineMeans(objectMode, plan, Now());
    }

    /** There is data, the stream is flowing, and no task will ever read it. */
    ghost predicate Stuck()
      reads this
    {
      && Left() == 0 && ended && !endEmitted && length > 0 && flowing && !inRead
      && forall t :: t in tasks ==> t == EndTask || t == ReadMoreTask
    }

    // ---- The event loop

    /** The duties of the stream between two turns of the event loop. */
    ghost predicate Dutiful()
      reads this
    {
      Meets(Flows) && Meets(Ends) && Meets(Resumes)
    }

    /** One task of the event loop. What was put off is done: 'end' is emitted if nothing is buffered, 'readable' is
        emitted, and after that or 'resume' a flowing stream passes on what is buffered; otherwise `_read` is called. */
    method Tick()
      requires Valid() && !inRead
      modifies this
      ensures Valid() && Returned() && (old(Dutiful()) ==> Dutiful())
      ensures old(tasks) == [] ==> unchanged(this)
      ensures old(NextIs(EndTask) && length == 0 && !endEmitted) ==> old(book.events) + [EndEvent] <= book.events
      ensures old(NextIs(EmitReadableTask)) ==>
                old(book.events) + [Signal(ReadableSign)] <= book.events && Meets(Flows)
      ensures old(NextIs(ResumeTask)) ==> Meets(Flows)
      ensures old(NextIs(EmitReadableTask) || NextIs(ResumeTask)) && old(Left()) == 0 && old(flowing) ==> PassedOn()
      ensures old(NextIs(ReadZeroTask) || NextIs(ResumeTask) || (NextIs(ReadMoreTask) && !flowing))
              && old(Thirsty()) ==>
                Left() < old(Left())
      ensures old(Stuck()) ==>
                Stuck() && book.events == old(book.events) && (old(tasks) != [] ==> tasks == old(tasks)[1..])
      ensures old(Done() && (NextIs(EmitReadableTask) || NextIs(ResumeTask))) ==> Went()
    {
      if tasks == [] {
        return;
      }
      var t := tasks[0];
      Take();
      Do(t);
    }

    method Do(t: Task)
      requires Valid() && !inRead && (t.EndTask? ==> ended)
      modifies this
      ensures Valid() && Returned()
      ensures t.EndTask? && old(Ending()) ==> Dutiful()
      ensures t.EndTask? && old(length == 0 && !endEmitted) ==> old(book.events) + [EndEvent] <= book.events
      ensures t.EmitReadableTask? ==> Settled() && old(book.events) + [Signal(ReadableSign)] <= book.events
      ensures t.ResumeTask? ==> Meets(Resumes) && (old(Meets(Ends)) ==> Meets(Ends))
      ensures t.EmitReadableTask? || t.ResumeTask? ==> Meets(Flows) && (old(Left() == 0 && flowing) ==> PassedOn())
      ensures t.ReadMoreTask? || t.ReadZeroTask? ==> Settled()
      ensures t.ReadZeroTask? || t.ResumeTask? || (t.ReadMoreTask? && !old(flowing)) ==>
                (old(Thirsty()) ==> Left() < old(Left()))
      ensures (t.EndTask? || t.ReadMoreTask?) && old(Stuck()) ==>
                Stuck() && tasks == old(tasks) && book.events == old(book.events)
      ensures (t.EmitReadableTask? || t.ResumeTask?) && old(Done()) ==> Rested()
    {
      match t
      case EmitReadableTask => EmitReadableNow();
      case ReadMoreTask => ReadMore();
      case ReadZeroTask => var _ := ReadN(Some(0));
      case ResumeTask => ResumeNow();
      case EndTask => EndNow();
    }

    /** A task is taken out of the queue. */
    method Take()
      requires Valid() && tasks != []
      modifies `tasks
      ensures Valid() && tasks == old(tasks)[1..] && (old(tasks[0]) == EndTask ==> ended)
      ensures old(tasks[0]) == ReadMoreTask || old(tasks[0]) == ReadZeroTask ==> Keeps()
      ensures old(tasks[0]) == EmitReadableTask || old(tasks[0]) == ResumeTask ==> (old(Meets(Ends)) ==> Meets(Ends))
      ensures old(tasks[0]) == EmitReadableTask ==> (old(Meets(Resumes)) ==> Meets(Resumes))
      ensures old(tasks[0]) == EndTask && old(Dutiful()) ==> Ending()
      ensures old(Stuck()) ==> Stuck() && (old(tasks[0]) == EndTask || old(tasks[0]) == ReadMoreTask)
    {
      assert tasks == [tasks[0]] + tasks[1..] && tasks[0] in tasks;
      assert forall t :: t in tasks[1..] ==> t in tasks;
      tasks := tasks[1..];
    }

    /** Only 'end' is still owed. */
    ghost predicate Ending()
      reads this
    {
      && Meets(Resumes) && (asked ==> length == 0)
      && (Excused() || (!emittedReadable && length == 0 && (sync ==> needReadable || ended)))
    }

    /** The deferred part of `endReadable`. */
    method EndNow()
      requires Valid() && !inRead && ended
      modifies this
      ensures Valid() && Returned() && (old(Ending()) ==> Dutiful())
      ensures old(length == 0 && !endEmitted) ==> old(book.events) + [EndEvent] <= book.events
      ensures old(length) > 0 ==> unchanged(this)
    {
      var emitted := EmitEnd();
      if emitted {
        Callback();
      }
    }

    /** With nothing left to do, no duty is open. */
    lemma AtRest()
      requires Valid() && Dutiful() && tasks == []
      ensures flowing && !Late(book.trace) ==> buffer == [] && (HasNull(book.trace) ==> HasEnd(book.events))
      ensures Asked(objectMode, book.trace, book.events, LedgerOf(objectMode, book.trace, book.events)) ==>
                HasEnd(book.events)
    {
      Measured();
      Remaining();
      TallyMeans(objectMode, book, late, asked);
      FineMeans(objectMode, plan, Now());
    }

    ghost predicate NextIs(t: Task)
      reads this
    {
      tasks != [] && tasks[0] == t
    }

    /** Its part before the call of the listeners. */
    method EmitEnd() returns (emitted: bool)
      requires Valid() && ended
      modifies `endEmitted, `book, `asked
      ensures Valid() && emitted == old(!endEmitted && length == 0)
      ensures Keeps() && (old(Ending()) ==> Dutiful())
      ensures if emitted then endEmitted && book == Emit(old(book), EndEvent) else unchanged(this)
    {
      emitted := !endEmitted && length == 0;
      if emitted {
        CheckEnd(objectMode, plan, Now());
        asked := AfterEvent(EndEvent);
        endEmitted := true;
        book := Emit(book, EndEvent);
      }
    }

    method ReadMore()
      requires Valid() && !inRead
      modifies this
      ensures Valid() && Settled()
      ensures old(Thirsty() && !flowing) ==> Left() < old(Left())
      ensures old(ended) ==> Untouched() && book == old(book) && buffer == old(buffer)
    {
      ReadAhead();
      readingMore := false;
    }

    method ReadAhead()
      requires Valid() && !inRead
      modifies this
      ensures Valid() && Settled()
      ensures old(Thirsty() && !flowing) ==> Left() < old(Left())
      ensures old(ended) ==> unchanged(this)
    {
      var len := length;
      while !reading && !flowing && !ended && length < highWaterMark
        invariant Valid() && Settled()
        invariant old(Thirsty() && !flowing) ==> Left() < old(Left()) || (Thirsty() && !flowing)
        invariant old(ended) ==> unchanged(this)
        decreases Left(), if reading then 0 else 1
      {
        var _ := ReadN(Some(0));
        if len == length {
          break;
        }
        len := length;
      }
    }

    /** `read(0)` is bound to call `_read`, and there is user code for it. */
    ghost predicate Thirsty()
      reads this
    {
      Idle() && book.left.inside != []
    }

    method ResumeNow()
      requires Valid() && !inRead
      modifies this
      ensures Valid() && Returned() && Meets(Flows) && Meets(Resumes) && (old(Meets(Ends)) ==> Meets(Ends))
      ensures old(Left()) == 0 && old(flowing) ==> PassedOn()
      ensures old(Thirsty()) ==> Left() < old(Left())
      ensures old(Done()) ==> Rested()
    {
      ghost var core := Now();
      if !reading {
        var _ := ReadN(Some(0));
      }
      Unschedule();
      Continue();
      if buffer == [] && book.ledger == core.book.ledger { AllOut(objectMode, plan, core, Now()); }
    }

    method Unschedule()
      requires Valid()
      modifies `resumeScheduled
      ensures Valid() && Meets(Resumes) && (old(Meets(Ends)) ==> Meets(Ends)) && Now() == old(Now())
    {
      resumeScheduled := false;
    }

    method Continue()
      requires Valid() && !inRead
      modifies this
      ensures Valid() && Settled() && Meets(Flows)
      ensures old(book.events) + [Signal(ResumeSign)] <= book.events
      ensures old(Left()) == 0 && old(flowing) ==> buffer == []
      ensures old(Done()) ==> Rested()
    {
      Announce(ResumeSign);
      Flow();
      if flowing && !reading {
        ghost var core := Now();
        var _ := ReadN(Some(0));
        if core.buffer == [] && book.ledger == core.book.ledger {
          StaysEmpty(objectMode, plan, core, Now());
        }
      }
    }
  }

  // ---- Whole runs

  /** The event loop does one pending task, or code outside of any callback does something. */
  datatype Step<T> = Outside(action: Action<T>) | Loop

  function OutsideActs<T>(steps: seq<Step<T>>): seq<seq<Action<T>>>
  {
    if steps == [] then []
    else
      var s := steps[|steps| - 1];
      OutsideActs(steps[..|steps| - 1]) + if s.Outside? then [[s.action]] else []
  }

  /** What can be seen of a run: the events, what is left in the buffer, what user code did, whether the stream is
      flowing, and what the event loop still has to do. */
  datatype History<T> = History(events: seq<Event<T>>, buffer: seq<seq<T>>, length: int, runs: seq<Run<T>>,
                                trace: seq<Did<T>>, flowing: bool, tasks: seq<Task>)

  /** For every interleaving of pushes, unshifts, reads, end of input and user code called back at any event,
      provided that, except in object mode, nothing calls `read` while `_read` runs: every piece of user code that was
      called did all its actions in order, and every event called one as long as there were any; what has been emitted
      followed by what is buffered is what was accepted of these actions, in their order; 'end' comes at most once,
      after all of it, and no data is emitted afterwards. When the event loop has nothing left to do, a flowing stream
      has emitted everything that was accepted and, if the input has ended, 'end', provided that nothing was unshifted
      after the end of input; and 'end' has also been emitted if a read asked for more than there was after the end of
      input. */
  method Simulate<T>(objectMode: bool, highWaterMark: nat, plan: Plan<T>, steps: seq<Step<T>>) returns (h: History<T>)
    requires AllPlanned(objectMode, plan.listeners, false) && AllPlanned(objectMode, plan.inside, true)
    requires forall i :: 0 <= i < |steps| && steps[i].Outside? ==> Fits(objectMode, steps[i].action)
    ensures DataOf(h.events) + Flat(h.buffer) == Whole(LedgerOf(objectMode, h.trace, h.events))
    ensures h.length == |Flat(h.buffer)| && (objectMode ==> h.length == |h.buffer|)
    ensures Proper(h.events)
    ensures forall k :: 0 <= k < |h.trace| ==> h.trace[k].who < |h.runs| && h.trace[k].at <= |h.events|
    ensures forall k :: 0 <= k < |h.trace| && IsNext(objectMode, h.trace, h.events, k) ==>
              h.trace[k].action.chunk.units <= DataOf(h.events[h.trace[k].at..]) + Flat(h.buffer)
    ensures HasEnd(h.events) ==>
              h.buffer == [] && HasNull(h.trace) && DataOf(h.events) == Whole(LedgerOf(objectMode, h.trace, h.events))
    ensures forall r :: 0 <= r < |h.runs| ==> By(h.trace, r) == h.runs[r].acts
    ensures RunsOf(h.runs, FromOutside) == OutsideActs(steps)
    ensures RunsOf(h.runs, FromListener) <= plan.listeners && RunsOf(h.runs, FromRead) <= plan.inside
    ensures RunsOf(h.runs, FromListener) < plan.listeners && RunsOf(h.runs, FromRead) < plan.inside ==>
              |h.events| <= |RunsOf(h.runs, FromListener)| + |RunsOf(h.runs, FromRead)|
    ensures h.tasks == [] && h.flowing && !Late(h.trace) ==> h.buffer == [] && (HasNull(h.trace) ==> HasEnd(h.events))
    ensures h.tasks == [] && Asked(objectMode, h.trace, h.events, LedgerOf(objectMode, h.trace, h.events)) ==>
              HasEnd(h.events)
  {
    var stream := new Readable<T>(objectMode, highWaterMark, plan);
    var i := 0;
    while i < |steps|
      invariant 0 <= i <= |steps| && fresh(stream) && stream.objectMode == objectMode && stream.plan == plan
      invariant stream.Valid() && !stream.inRead && stream.book.stack == []
      invariant stream.Outsiders() == OutsideActs(steps[..i]) && stream.Dutiful()
      invariant stream.Exhausted() || stream.Balance() <= |plan.listeners| + |plan.inside|
    {
      match steps[i] {
        case Outside(a) => stream.Outside(a);
        case Loop => stream.Tick();
      }
      assert steps[..i + 1][..i] == steps[..i];
      i := i + 1;
    }
    assert steps[..i] == steps;
    h := History(stream.book.events, stream.buffer, stream.length, stream.book.runs, stream.book.trace, stream.flowing,
                 stream.tasks);
    Result(objectMode, plan, stream.Now());
    if stream.tasks == [] { stream.AtRest(); }
  }

  /** A new stream with one chunk in its buffer. */
  method Filled<T>(highWaterMark: nat, units: seq<T>) returns (stream: Readable<T>)
    requires units != []
    ensures fresh(stream) && stream.Valid() && !stream.objectMode && !stream.inRead && stream.Left() == 0
    ensures stream.length == |units| && stream.highWaterMark == highWaterMark && !stream.reading && !stream.ended
  {
    var push := Add(Data(units), false);
    stream := new Readable<T>(false, highWaterMark, Plan([], []));
    stream.Open(Run(FromOutside, [push]), Plan([], []));
    PushOnly(stream, units);
    stream.Close();
  }

  method PushOnly<T>(stream: Readable<T>, units: seq<T>)
    requires stream.Valid() && !stream.objectMode && stream.Quiet(false) && stream.length == 0 && units != []
    requires !stream.ended && |stream.book.stack| == 1 && stream.book.stack[0].done == 0
    requires stream.book.stack[0].acts == [Add(Data(units), false)]
    modifies stream
    ensures stream.Valid() && stream.Left() == old(stream.Left()) && stream.inRead == old(stream.inRead)
    ensures stream.book.stack == Advanced(old(stream.book.stack)) && stream.highWaterMark == old(stream.highWaterMark)
    ensures stream.length == |units| && !stream.reading && !stream.ended
  {
    stream.AddChunk(Data(units), false);
  }

  /** Ten bytes are buffered, and `read(5)` calls a `_read` that calls `read(6)`: the length becomes -1. */
  method NestedReadMiscounts() returns (length: int, buffer: seq<seq<int>>)
    ensures length == -1 && Flat(buffer) == []
  {
    var stream := Filled(16, [1, 2, 3, 4, 5, 6, 7, 8, 9, 10]);
    stream.Measured();
    assert LeftAfter(10, [6]) == 4 by { assert [6][1..] == []; }
    stream.ReadInsideRead(5, [6]);
    length, buffer := stream.length, stream.buffer;
  }

  // ---- An unshift after the end of input

  /** A new stream whose input has ended at once. */
  method EndedAtOnce() returns (stream: Readable<int>)
    ensures fresh(stream) && stream.Valid() && stream.Done() && stream.book.stack == [] && !stream.inRead
    ensures !stream.objectMode && stream.sync && !stream.needReadable && !stream.flowing && !stream.resumeScheduled
    ensures stream.tasks == [EmitReadableTask]
  {
    stream := new Readable<int>(false, 16, Plan([], []));
    stream.Open(Run(FromOutside, [Add(Null, false)]), Plan([], []));
    stream.OnEofChunk(false);
    stream.Close();
  }

  /** It is resumed. */
  method ResumedThen(stream: Readable<int>)
    requires stream.Valid() && stream.Done() && stream.book.stack == [] && !stream.inRead
    requires stream.sync && !stream.needReadable && !stream.flowing && !stream.resumeScheduled
    modifies stream
    ensures stream.Valid() && stream.Done() && stream.book.stack == [] && !stream.inRead
    ensures stream.sync && !stream.needReadable && stream.flowing && stream.tasks == old(stream.tasks) + [ResumeTask]
  {
    stream.Open(Run(FromOutside, [Resume]), stream.book.left);
    stream.Note(Resume);
    stream.Resume();
    stream.Close();
  }

  /** A chunk is unshifted before 'end' is emitted. */
  method UnshiftedThen(stream: Readable<int>)
    requires stream.Valid() && stream.Done() && stream.book.stack == [] && !stream.inRead && !stream.objectMode
    requires stream.sync && !stream.needReadable && stream.flowing && OnlyEnds([], stream.tasks)
    modifies stream
    ensures stream.Valid() && stream.Stuck()
  {
    var unshift := Add(Data([1]), true);
    stream.Measured();
    stream.Open(Run(FromOutside, [unshift]), stream.book.left);
    stream.AddChunk(Data([1]), true);
    stream.Close();
  }

  /** However long the event loop goes on, the chunk stays where it is, and 'end' is not emitted. */
  method LateUnshift(turns: nat) returns (stream: Readable<int>)
    ensures stream.Valid() && stream.flowing && stream.length > 0 && !HasEnd(stream.book.events)
  {
    stream := EndedAtOnce();
    ResumedThen(stream);
    stream.Tick();
    stream.Tick();
    UnshiftedThen(stream);
    for i := 0 to turns
      invariant fresh(stream) && stream.Valid() && stream.Stuck()
    {
      stream.Tick();
    }
    stream.NoEnd();
  }

  /** What the invariant says when no user code is running. */
  lemma Result<T>(objectMode: bool, plan: Plan<T>, c: Core<T>)
    requires Fine(objectMode, plan, c) && c.book.stack == []
    ensures var b := c.book;
            && DataOf(b.events) + Flat(c.buffer) == Whole(LedgerOf(objectMode, b.trace, b.events))
            && c.length == |Flat(c.buffer)| && (objectMode ==> c.length == |c.buffer|) && Proper(b.events)
            && (HasEnd(b.events) ==>
                c.buffer == [] && HasNull(b.trace)
                  && DataOf(b.events) == Whole(LedgerOf(objectMode, b.trace, b.events)))
            && (forall r :: 0 <= r < |b.runs| ==> By(b.trace, r) == b.runs[r].acts)
            && (forall k :: 0 <= k < |b.trace| ==> b.trace[k].who < |b.runs| && b.trace[k].at <= |b.events|)
            && (forall k :: 0 <= k < |b.trace| && IsNext(objectMode, b.trace, b.events, k) ==>
                  b.trace[k].action.chunk.units <= DataOf(b.events[b.trace[k].at..]) + Flat(c.buffer))
            && RunsOf(b.runs, FromListener) + b.left.listeners == plan.listeners
            && RunsOf(b.runs, FromRead) + b.left.inside == plan.inside
  {
    FineMeans(objectMode, plan, c);
    Unit(DataOf(c.book.events));
    if objectMode { ObjectCount(c.buffer); }
    forall r | 0 <= r < |c.book.runs| ensures By(c.book.trace, r) == c.book.runs[r].acts {
      assert !OnStack(c.book.stack, r);
    }
    forall k | 0 <= k < |c.book.trace| && IsNext(objectMode, c.book.trace, c.book.events, k)
      ensures c.book.trace[k].action.chunk.units <= DataOf(c.book.events[c.book.trace[k].at..]) + Flat(c.buffer)
    {
      UnshiftedComesNext(objectMode, c.book.trace, c.book.events, Flat(c.buffer), k);
    }
  }

  lemma {:induction false} ObjectCount<T>(buffer: seq<seq<T>>)
    requires Sized(true, buffer)
    ensures |Flat(buffer)| == |buffer|
  {
    if buffer != [] {
      ObjectCount(buffer[1..]);
    }
  }

  /** Action number `k` is an accepted unshift, and no further one was accepted before that chunk was all emitted. */
  ghost predicate IsNext<T>(objectMode: bool, trace: seq<Did<T>>, events: seq<Event<T>>, k: nat)
    requires k < |trace|
  {
    && Accepts(objectMode, trace[..k], trace[k], events) && trace[k].action.toFront
    && forall j :: k < j < |trace| && Accepts(objectMode, trace[..j], trace[j], events) && trace[j].action.toFront ==>
         OutBy(events, trace[j].at) >= OutBy(events, trace[k].at) + |trace[k].action.chunk.units|
  }

  /** How much data the first `at` events carry. */
  function OutBy<T>(events: seq<Event<T>>, at: nat): nat { |DataOf(events[..Least(at, |events|)])| }

  ghost predicate HasAt<T>(whole: seq<T>, a: nat, units: seq<T>)
  {
    a + |units| <= |whole| && whole[a..a + |units|] == units
  }

  lemma NextBefore<T>(objectMode: bool, trace: seq<Did<T>>, events: seq<Event<T>>, k: nat)
    requires k < |trace| - 1 && IsNext(objectMode, trace, events, k)
    ensures var init, d := trace[..|trace| - 1], trace[|trace| - 1];
            && init[k] == trace[k] && IsNext(objectMode, init, events, k)
            && Behind(LastEntry(objectMode, init, d, events),
                      OutBy(events, trace[k].at) + |trace[k].action.chunk.units|)
  {
    var init := trace[..|trace| - 1];
    forall j | 0 <= j < |init| ensures init[j] == trace[j] && init[..j] == trace[..j] {
    }
  }

  /** Nothing of `more` goes before position `p`. */
  ghost predicate Behind<T>(more: seq<Entry<T>>, p: nat)
  {
    |more| <= 1 && (more != [] && more[0].Unshifted? ==> p <= more[0].at)
  }

  lemma SliceKept<T>(ledger: seq<Entry<T>>, more: seq<Entry<T>>, a: nat, units: seq<T>)
    requires Placed(ledger + more) && Behind(more, a + |units|)
    requires Placed(ledger) ==> HasAt(Whole(ledger), a, units)
    ensures HasAt(Whole(ledger + more), a, units)
  {
    if more == [] {
      Unit(ledger);
    } else {
      var e := more[0];
      assert more == [e];
      PlacedBefore(ledger, e);
      WholeSnoc(ledger, e);
      var b := if e.Unshifted? then e.at else |Whole(ledger)|;
      assert Whole(ledger + [e])[..b] == Whole(ledger)[..b];
      assert Whole(ledger + [e])[..b][a..a + |units|] == Whole(ledger + [e])[a..a + |units|];
      assert Whole(ledger)[..b][a..a + |units|] == units;
    }
  }

  lemma SlicePut<T>(ledger: seq<Entry<T>>, units: seq<T>, at: nat)
    requires Placed(ledger + [Unshifted(units, at)])
    ensures HasAt(Whole(ledger + [Unshifted(units, at)]), at, units)
  {
    PlacedBefore(ledger, Unshifted(units, at));
    WholeSnoc(ledger, Unshifted(units, at));
  }

  lemma PlacedBefore<T>(ledger: seq<Entry<T>>, e: Entry<T>)
    requires Placed(ledger + [e])
    ensures Placed(ledger) && (e.Unshifted? ==> e.at <= |Whole(ledger)|)
  {
    assert (ledger + [e])[..|ledger|] == ledger;
  }

  lemma PlacedInit<T>(ledger: seq<Entry<T>>, more: seq<Entry<T>>)
    requires Placed(ledger + more) && |more| <= 1
    ensures Placed(ledger)
  {
    if more == [] { Unit(ledger); } else { assert more == [more[0]]; PlacedBefore(ledger, more[0]); }
  }

  /** An accepted unshift stays where it was put, and nothing comes before it. */
  lemma {:induction false} StaysPut<T>(objectMode: bool, trace: seq<Did<T>>, events: seq<Event<T>>, k: nat)
    requires k < |trace| && IsNext(objectMode, trace, events, k) && Placed(LedgerOf(objectMode, trace, events))
    ensures HasAt(Whole(LedgerOf(objectMode, trace, events)), OutBy(events, trace[k].at), trace[k].action.chunk.units)
  {
    var init, d := trace[..|trace| - 1], trace[|trace| - 1];
    var ledger, more := LedgerOf(objectMode, init, events), LastEntry(objectMode, init, d, events);
    if k < |trace| - 1 {
      NextBefore(objectMode, trace, events, k);
      PlacedInit(ledger, more);
      StaysPut(objectMode, init, events, k);
      SliceKept(ledger, more, OutBy(events, trace[k].at), trace[k].action.chunk.units);
    } else {
      SlicePut(ledger, d.action.chunk.units, OutBy(events, d.at));
    }
  }

  lemma {:induction false} DataOfConcat<T>(a: seq<Event<T>>, b: seq<Event<T>>)
    ensures DataOf(a + b) == DataOf(a) + DataOf(b)
  {
    if b == [] {
      Unit(a);
      Unit(DataOf(a));
    } else {
      var init, e := b[..|b| - 1], b[|b| - 1];
      DataOfConcat(a, init);
      assert a + b == (a + init) + [e] && b == init + [e];
      DataOfSnoc(a + init, e);
      Assoc(DataOf(a), DataOf(init), if e.DataEvent? then e.units else []);
    }
  }

  /** What is emitted after an accepted unshift, followed by what is buffered, begins with that chunk. */
  lemma UnshiftedComesNext<T>(objectMode: bool, trace: seq<Did<T>>, events: seq<Event<T>>, rest: seq<T>, k: nat)
    requires k < |trace| && IsNext(objectMode, trace, events, k) && Placed(LedgerOf(objectMode, trace, events))
    requires DataOf(events) + rest == Whole(LedgerOf(objectMode, trace, events)) && trace[k].at <= |events|
    ensures trace[k].action.chunk.units <= DataOf(events[trace[k].at..]) + rest
  {
    StaysPut(objectMode, trace, events, k);
    ComesAfter(events, rest, trace[k].at, trace[k].action.chunk.units);
  }

  lemma ComesAfter<T>(events: seq<Event<T>>, rest: seq<T>, t: nat, units: seq<T>)
    requires t <= |events| && HasAt(DataOf(events) + rest, OutBy(events, t), units)
    ensures units <= DataOf(events[t..]) + rest
  {
    DataOfConcat(events[..t], events[t..]);
    assert events == events[..t] + events[t..];
    TailStarts(DataOf(events[..t]), DataOf(events[t..]), rest, units);
  }

  lemma TailStarts<T>(before: seq<T>, after: seq<T>, rest: seq<T>, units: seq<T>)
    requires HasAt(before + after + rest, |before|, units)
    ensures units <= after + rest
  {
    var whole := before + after + rest;
    Assoc(before, after, rest);
    Split(before, after + rest);
    assert whole[|before|..|before| + |units|] == whole[|before|..][..|units|];
  }

  /** Without `unshift`, the accepted data is the pushed chunks one after the other. */
  lemma {:induction false} WholeOfPushes<T>(ledger: seq<Entry<T>>)
    requires forall i :: 0 <= i < |ledger| ==> ledger[i].Pushed?
    ensures Whole(ledger) == Flat(seq(|ledger|, i requires 0 <= i < |ledger| => ledger[i].units))
  {
    if ledger != [] {
      var init, n := ledger[..|ledger| - 1], |ledger| - 1;
      WholeOfPushes(init);
      var chunks := seq(n, i requires 0 <= i < n => init[i].units);
      assert seq(|ledger|, i requires 0 <= i < |ledger| => ledger[i].units) == chunks + [ledger[n].units];
      FlatSnoc(chunks, ledger[n].units);
    }
  }
}
