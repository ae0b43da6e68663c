/** The motor watchdog: ticks, arriving commands and serial writes as atomic steps on the shared command buffer. */
module Watchdog {
  import opened RobotLink

  // ---- The step machine

  type Frame = f: seq<octet> | |f| == 9 witness [0, 0, 0, 0, 0, 0, 0, 0, 0]

  const IDLE: Frame := [0, 0, 0, 0, 0, 0, 0, 0, 0]

  datatype State = State(watchdog: int, cycles: int, command: Frame, speed1: octet)

  const START: State := State(0, 0, IDLE, 0)

  /** A tick of the watchdog thread, a datagram, bytes from the TCP connection, or the key that raises a speed. */
  datatype Event = Tick | Datagram(frame: Frame) | Stream(bytes: seq<octet>) | Key

  /** The command with its four speed bytes cleared. */
  function Halted(f: Frame): Frame { f[2 := 0][3 := 0][4 := 0][5 := 0] }

  function Overwritten(f: Frame, bytes: seq<octet>): Frame
  {
    if |bytes| <= 9 then bytes + f[|bytes|..] else bytes[..9]
  }

  /** Only debug level 0 restarts the watchdog for bytes from TCP. */
  function Next(s: State, e: Event, debug: int): State
  {
    match e
    case Tick =>
      if s.watchdog < s.cycles then s.(watchdog := s.watchdog + 1)
      else if s.watchdog == s.cycles then s.(command := Halted(s.command), speed1 := 0)
      else s
    case Datagram(f) => if Accepted(f) then State(0, 3, f, s.speed1) else s
    case Stream(bytes) =>
      if bytes == [] then s
      else if debug == 0 then State(0, 3, Overwritten(s.command, bytes), s.speed1)
      else s.(command := Overwritten(s.command, bytes))
    case Key => s.(speed1 := s.speed1 + 10)
  }

  function Run(s: State, events: seq<Event>, debug: int): State
  {
    if events == [] then s else Next(Run(s, events[..|events| - 1], debug), events[|events| - 1], debug)
  }

  predicate Writes(e: Event)
  {
    match e
    case Tick => false
    case Datagram(f) => Accepted(f)
    case Stream(bytes) => bytes != []
    case Key => false
  }

  function Ticks(events: seq<Event>): nat
  {
    if events == [] then 0 else Ticks(events[..|events| - 1]) + if events[|events| - 1].Tick? then 1 else 0
  }

  ghost predicate Silent(events: seq<Event>) { forall e :: e in events ==> !Writes(e) }

  // ---- Properties of all runs

  lemma {:induction false} WatchdogInRange(events: seq<Event>, debug: int)
    ensures var s := Run(START, events, debug); 0 <= s.watchdog <= s.cycles <= 3
  {
    if events != [] { WatchdogInRange(events[..|events| - 1], debug); }
  }

  /** What a stretch without commands does, exactly: the watchdog counts up to its limit, and one more tick clears the
      speeds and nothing else. */
  lemma {:induction false} SilentRun(s: State, events: seq<Event>, debug: int)
    requires 0 <= s.watchdog <= s.cycles && Silent(events)
    ensures var t, r := s.watchdog + Ticks(events), Run(s, events, debug);
            && r.watchdog == (if t < s.cycles then t else s.cycles) && r.cycles == s.cycles
            && r.command == if t > s.cycles then Halted(s.command) else s.command
  {
    if events != [] {
      var n := |events| - 1;
      assert forall e :: e in events[..n] ==> e in events;
      SilentRun(s, events[..n], debug);
      assert events[n] in events;
      assert Halted(Halted(s.command)) == Halted(s.command);
    }
  }

  lemma {:induction false} RunSplit(s: State, a: seq<Event>, b: seq<Event>, debug: int)
    ensures Run(s, a + b, debug) == Run(Run(s, a, debug), b, debug)
    decreases |b|
  {
    if b == [] {
      assert a + b == a;
    } else {
      assert (a + b)[..|a + b| - 1] == a + b[..|b| - 1];
      RunSplit(s, a, b[..|b| - 1], debug);
    }
  }

  /** Safety: after any history, once more ticks than the limit pass without a write to the command buffer, every frame
      that is sent has zero speeds. */
  lemma StopsAfterSilence(history: seq<Event>, silence: seq<Event>, debug: int)
    requires Silent(silence) && Ticks(silence) > Run(START, history, debug).cycles
    ensures var sent := Run(START, history + silence, debug).command; sent[2] == sent[3] == sent[4] == sent[5] == 0
  {
    WatchdogInRange(history, debug);
    RunSplit(START, history, silence, debug);
    SilentRun(Run(START, history, debug), silence, debug);
  }

  /** A command is sent unchanged for the ticks that it is good for, and not longer. */
  lemma CommandHolds(history: seq<Event>, f: Frame, silence: seq<Event>, debug: int)
    requires Silent(silence) && Accepted(f)
    ensures Run(START, history + [Datagram(f)] + silence, debug).command == if Ticks(silence) <= 3 then f else Halted(f)
  {
    var before := Run(START, history, debug);
    RunSplit(START, history + [Datagram(f)], silence, debug);
    RunSplit(START, history, [Datagram(f)], debug);
    var one := [Datagram(f)];
    assert one[..0] == [] && Run(before, one, debug) == Next(Run(before, one[..0], debug), one[0], debug);
    SilentRun(State(0, 3, f, before.speed1), silence, debug);
  }

  function WithoutKeys(events: seq<Event>): seq<Event>
  {
    if events == [] then []
    else WithoutKeys(events[..|events| - 1]) + if events[|events| - 1].Key? then [] else [events[|events| - 1]]
  }

  lemma SameApartFromSpeed(s: State, s': State, e: Event, debug: int)
    requires s.(speed1 := 0) == s'.(speed1 := 0)
    ensures Next(s, e, debug).(speed1 := 0) == Next(s', e, debug).(speed1 := 0)
    ensures e.Key? ==> Next(s, e, debug).(speed1 := 0) == s'.(speed1 := 0)
  {
  }

  /** The key never reaches the motors: without it the same commands are sent at the same times. */
  lemma {:induction false} KeysDoNothing(s: State, events: seq<Event>, debug: int)
    ensures Run(s, events, debug).(speed1 := 0) == Run(s, WithoutKeys(events), debug).(speed1 := 0)
  {
    if events != [] {
      var init, last := events[..|events| - 1], events[|events| - 1];
      KeysDoNothing(s, init, debug);
      SameApartFromSpeed(Run(s, init, debug), Run(s, WithoutKeys(init), debug), last, debug);
      if !last.Key? {
        assert (WithoutKeys(init) + [last])[..|WithoutKeys(init)|] == WithoutKeys(init);
      } else {
        assert WithoutKeys(init) + [] == WithoutKeys(init);
      }
    }
  }

  // ---- The threads

  class Robot {
    var watchdog: int
    var cycles: int
    var speed1: octet
    var speed2: octet
    const command: array<octet>

    ghost function View(): State
      requires command.Length == 9
      reads this, command
    {
      State(watchdog, cycles, command[..], speed1)
    }

    constructor ()
      ensures command.Length == 9 && View() == START
    {
      watchdog, cycles, speed1, speed2 := 0, 0, 0, 0;
      command := new octet[9](_ => 0);
    }

    /** One round of `Thread_Dog`. */
    method Dog()
      requires command.Length == 9
      modifies `watchdog, `speed1, `speed2, command
      ensures View() == Next(old(View()), Tick, 0)
    {
      if watchdog < cycles {
        watchdog := watchdog + 1;
      } else if watchdog == cycles {
        speed1 := 0;
        speed2 := 0;
        command[2] := speed1;
        command[3] := 0;
        command[4] := speed2;
        command[5] := 0;
      }
    }

    /** `Thread_TCP_Trooper_In`, with the nine bytes that the receive leaves in its buffer. */
    method ReceiveDatagram(frame: Frame)
      requires command.Length == 9
      modifies `watchdog, `cycles, command
      ensures View() == Next(old(View()), Datagram(frame), 0)
    {
      var sum := Crc16(frame[1..7]);
      if Joined(frame[7], frame[8]) == sum {
        watchdog := 0;
        forall i | 0 <= i < 9 {
          command[i] := frame[i];
        }
        cycles := 3;
      }
    }

    /** One receive of `Thread_TCP`: up to nine bytes go straight into the command buffer. */
    method ReceiveStream(bytes: seq<octet>, debug: int)
      requires command.Length == 9 && |bytes| <= 9
      modifies `watchdog, `cycles, command
      ensures View() == Next(old(View()), Stream(bytes), debug)
    {
      forall i | 0 <= i < |bytes| {
        command[i] := bytes[i];
      }
      if |bytes| >= 1 && debug == 0 {
        watchdog := 0;
        cycles := 3;
      }
    }

    /** The key that raises a speed. */
    method PressKey()
      requires command.Length == 9
      modifies `speed1
      ensures View() == Next(old(View()), Key, 0)
    {
      speed1 := speed1 + 10;
    }

    method Handle(e: Event, debug: int)
      requires command.Length == 9 && (e.Stream? ==> |e.bytes| <= 9)
      modifies this, command
      ensures View() == Next(old(View()), e, debug)
    {
      match e
      case Tick => Dog();
      case Datagram(frame) => ReceiveDatagram(frame);
      case Stream(bytes) => ReceiveStream(bytes, debug);
      case Key => PressKey();
    }

    /** `driveraw`: what goes to the motors. */
    method DriveRaw() returns (sent: Frame)
      requires command.Length == 9
      ensures sent == View().command
    {
      sent := command[..];
    }
  }

  /** A whole session with a frame sent after every event. */
  method Session(robot: Robot, events: seq<Event>, debug: int) returns (sent: seq<Frame>)
    requires robot.command.Length == 9 && robot.View() == START
    requires forall e :: e in events && e.Stream? ==> |e.bytes| <= 9
    modifies robot, robot.command
    ensures |sent| == |events| && forall k :: 0 <= k < |sent| ==> sent[k] == Run(START, events[..k + 1], debug).command
  {
    sent := [];
    for i := 0 to |events|
      invariant robot.View() == Run(START, events[..i], debug)
      invariant |sent| == i && forall k :: 0 <= k < i ==> sent[k] == Run(START, events[..k + 1], debug).command
    {
      assert events[..i + 1][..i] == events[..i] && events[i] in events;
      robot.Handle(events[i], debug);
      var frame := robot.DriveRaw();
      sent := sent + [frame];
    }
  }
}
