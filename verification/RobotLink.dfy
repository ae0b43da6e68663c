/** The robot's serial frames and their check sum. */
module RobotLink {

  type word = bv16
  type octet = bv8

  // ---- The check sum register

  /** One bit: a shift to the right, and the polynomial if a one falls out. */
  function Shift(c: word): word { if c & 1 == 1 then (c >> 1) ^ 0xA001 else c >> 1 }

  function Shifts(c: word, n: nat): word
    decreases n, c
  {
    if n == 0 then c else Shift(Shifts(c, n - 1))
  }

  function Wide(b: octet): word { b as bv16 }

  function Absorb(c: word, b: octet): word { Eight(Mix(c, b)) }

  /** The register after a message. */
  function Register(c: word, m: seq<octet>): word
  {
    if m == [] then c else Absorb(Register(c, m[..|m| - 1]), m[|m| - 1])
  }

  function Crc(m: seq<octet>): word { Register(0xFFFF, m) }

  function Low(c: word): octet { (c & 0xFF) as bv8 }
  function High(c: word): octet { (c >> 8) as bv8 }

  // ---- Algebra of the register

  lemma ShiftInjective(x: word, y: word)
    requires Shift(x) == Shift(y)
    ensures x == y
  {
  }

  lemma {:induction false} ShiftsInjective(x: word, y: word, n: nat)
    requires Shifts(x, n) == Shifts(y, n)
    ensures x == y
    decreases n
  {
    if n > 0 {
      ShiftInjective(Shifts(x, n - 1), Shifts(y, n - 1));
      ShiftsInjective(x, y, n - 1);
    }
  }

  lemma EightShifts(c: word)
    ensures Shifts(c, 8) == Shift(Shift(Shift(Shift(Shift(Shift(Shift(Shift(c))))))))
  {
    assert Shifts(c, 2) == Shift(Shift(c)) by { assert Shifts(c, 0) == c; }
    assert Shifts(c, 4) == Shift(Shift(Shifts(c, 2)));
    assert Shifts(c, 6) == Shift(Shift(Shifts(c, 4)));
  }

  lemma LowOnly(c: word, b: octet)
    ensures (c ^ Wide(b)) & 0xFF00 == c & 0xFF00
  {
  }

  lemma XorInjective(c: word, a: octet, b: octet)
    requires c ^ Wide(a) == c ^ Wide(b)
    ensures a == b
  {
  }

  lemma AbsorbInjective(c: word, c': word, b: octet)
    requires Absorb(c, b) == Absorb(c', b)
    ensures c == c'
  {
    ShiftsInjective(c ^ Wide(b), c' ^ Wide(b), 8);
  }

  /** Two bytes are determined by the registers before and after them: for any injective step, if the mixing of a byte
      leaves the upper part of a register alone and the step carries each change of the rest into the upper part. */
  lemma Determined<W(!new), B(!new)>(step: W -> W, mix: (W, B) -> W, above: W -> W, c: W, a: B, b: B, a': B, b': B)
    requires forall x, y :: step(x) == step(y) ==> x == y
    requires forall x, d, d' :: mix(x, d) == mix(x, d') ==> d == d'
    requires forall x, d :: above(mix(x, d)) == above(x)
    requires forall x, y :: above(x) == above(y) && above(step(x)) == above(step(y)) ==> x == y
    requires step(mix(step(mix(c, a)), b)) == step(mix(step(mix(c, a')), b'))
    ensures a == a' && b == b'
  {
  }

  function Eight(c: word): word { Shifts(c, 8) }
  function Mix(c: word, b: octet): word { c ^ Wide(b) }
  function Above(c: word): word { c & 0xFF00 }

  lemma StepInjective()
    ensures forall x, y :: Eight(x) == Eight(y) ==> x == y
  {
    forall x, y | Eight(x) == Eight(y) ensures x == y {
      ShiftsInjective(x, y, 8);
    }
  }

  /** Registers that differ only in the low byte differ above it eight shifts later. */
  lemma LowByteSpreads(x: word, y: word)
    ensures Above(x) == Above(y) && Above(Eight(x)) == Above(Eight(y)) ==> x == y
  {
    EightShifts(x);
    EightShifts(y);
  }

  lemma StepSpreads()
    ensures forall x, y :: Above(x) == Above(y) && Above(Eight(x)) == Above(Eight(y)) ==> x == y
  {
    forall x, y ensures Above(x) == Above(y) && Above(Eight(x)) == Above(Eight(y)) ==> x == y {
      LowByteSpreads(x, y);
    }
  }

  lemma MixInjective()
    ensures forall x, d, d' :: Mix(x, d) == Mix(x, d') ==> d == d'
  {
    forall x, d, d' | Mix(x, d) == Mix(x, d') ensures d == d' {
      XorInjective(x, d, d');
    }
  }

  lemma MixBelow()
    ensures forall x, d :: Above(Mix(x, d)) == Above(x)
  {
    forall x, d ensures Above(Mix(x, d)) == Above(x) {
      LowOnly(x, d);
    }
  }

  lemma TwoBytes(c: word, a: octet, b: octet, a': octet, b': octet)
    requires Absorb(Absorb(c, a), b) == Absorb(Absorb(c, a'), b')
    ensures a == a' && b == b'
  {
    StepInjective();
    StepSpreads();
    MixInjective();
    MixBelow();
    Determined(Eight, Mix, Above, c, a, b, a', b');
  }

  // ---- Messages

  lemma {:induction false} RegisterSplit(c: word, p: seq<octet>, q: seq<octet>)
    ensures Register(c, p + q) == Register(Register(c, p), q)
    decreases |q|
  {
    if q == [] {
      assert p + q == p;
    } else {
      var n := |q| - 1;
      assert (p + q)[..|p + q| - 1] == p + q[..n];
      RegisterSplit(c, p, q[..n]);
    }
  }

  lemma {:induction false} SameTail(c: word, c': word, t: seq<octet>)
    requires Register(c, t) == Register(c', t)
    ensures c == c'
  {
    if t != [] {
      AbsorbInjective(Register(c, t[..|t| - 1]), Register(c', t[..|t| - 1]), t[|t| - 1]);
      SameTail(c, c', t[..|t| - 1]);
    }
  }

  lemma RegisterPair(c: word, a: octet, b: octet)
    ensures Register(c, [a, b]) == Absorb(Absorb(c, a), b)
  {
    assert [a, b][..1] == [a] && [a][..0] == [];
    assert Register(c, [a]) == Absorb(Register(c, []), a);
  }

  lemma RegisterAround(c: word, p: seq<octet>, a: octet, b: octet, t: seq<octet>)
    ensures Register(c, p + [a, b] + t) == Register(Absorb(Absorb(Register(c, p), a), b), t)
  {
    RegisterSplit(c, p + [a, b], t);
    RegisterSplit(c, p, [a, b]);
    RegisterPair(Register(c, p), a, b);
  }

  /** Messages of equal length that differ only within two adjacent bytes have different check sums. */
  lemma AdjacentBytesDetected(m: seq<octet>, m': seq<octet>, i: nat)
    requires |m| == |m'| && i + 1 < |m| && m != m'
    requires forall k :: 0 <= k < |m| && k != i && k != i + 1 ==> m[k] == m'[k]
    ensures Crc(m) != Crc(m')
  {
    if Crc(m) == Crc(m') {
      var p, t := m[..i], m[i + 2..];
      assert m == p + [m[i], m[i + 1]] + t;
      assert m' == p + [m'[i], m'[i + 1]] + t;
      RegisterAround(0xFFFF, p, m[i], m[i + 1], t);
      RegisterAround(0xFFFF, p, m'[i], m'[i + 1], t);
      var c := Register(0xFFFF, p);
      SameTail(Absorb(Absorb(c, m[i]), m[i + 1]), Absorb(Absorb(c, m'[i]), m'[i + 1]), t);
      TwoBytes(c, m[i], m[i + 1], m'[i], m'[i + 1]);
    }
  }

  lemma OneByteRegister(c: word, b: octet)
    ensures Register(c, [b]) == Absorb(c, b)
  {
    var m := [b];
    assert m[..0] == [];
    assert Register(c, m) == Absorb(Register(c, m[..0]), b);
  }

  /** A single changed byte is detected at any length. */
  lemma OneByteDetected(m: seq<octet>, i: nat, b: octet)
    requires i < |m| && m[i] != b
    ensures Crc(m) != Crc(m[i := b])
  {
    if |m| > 1 {
      AdjacentBytesDetected(m, m[i := b], if i > 0 then i - 1 else 0);
    } else {
      OneByteRegister(0xFFFF, m[0]);
      OneByteRegister(0xFFFF, b);
      assert m == [m[0]] && m[i := b] == [b];
      FirstByte(m[0], b);
    }
  }

  lemma FirstByte(a: octet, b: octet)
    requires a != b
    ensures Absorb(0xFFFF, a) != Absorb(0xFFFF, b)
  {
    StepInjective();
    MixInjective();
  }

  lemma ByteMasks(c: word)
    ensures c ^ Wide(Low(c)) == c & 0xFF00 && (c >> 8) ^ Wide(High(c)) == 0
  {
  }

  lemma HighByteFalls(c: word)
    ensures Shifts(c & 0xFF00, 8) == c >> 8
  {
    EightShifts(c & 0xFF00);
  }

  lemma ZeroStays()
    ensures Shifts(0, 8) == 0
  {
    EightShifts(0);
  }

  /** A register absorbs its own bytes to zero, */
  lemma OwnBytes(c: word)
    ensures Absorb(Absorb(c, Low(c)), High(c)) == 0
  {
    ByteMasks(c);
    HighByteFalls(c);
    ZeroStays();
  }

  /** and no others. */
  lemma Residue(c: word, l: octet, h: octet)
    ensures Absorb(Absorb(c, l), h) == 0 <==> l == Low(c) && h == High(c)
  {
    OwnBytes(c);
    if Absorb(Absorb(c, l), h) == 0 {
      TwoBytes(c, l, h, Low(c), High(c));
    }
  }

  /** Exactly the check sum's low byte and then its high byte drive the register to zero. */
  lemma ZeroResidue(m: seq<octet>, l: octet, h: octet)
    ensures Register(0xFFFF, m + [l, h]) == 0 <==> l == Low(Crc(m)) && h == High(Crc(m))
  {
    RegisterAround(0xFFFF, m, l, h, []);
    assert m + [l, h] + [] == m + [l, h];
    Residue(Crc(m), l, h);
  }

  // ---- Frames

  /** The receiver's test on a nine-byte frame: bytes 7 and 8 against the check sum of bytes 1 to 6. */
  predicate Accepted(frame: seq<octet>)
    requires |frame| == 9
  {
    Joined(frame[7], frame[8]) == Crc(frame[1..7])
  }

  function Joined(l: octet, h: octet): word { (Wide(h) << 8) + Wide(l) }

  lemma LowOfJoined(l: octet, h: octet)
    ensures Low(Joined(l, h)) == l
  {
  }

  lemma HighOfJoined(l: octet, h: octet)
    ensures High(Joined(l, h)) == h
  {
  }

  lemma JoinedBytes(c: word)
    ensures Joined(Low(c), High(c)) == c
  {
  }

  lemma AcceptedIffZero(frame: seq<octet>)
    requires |frame| == 9
    ensures Accepted(frame) <==> Register(0xFFFF, frame[1..]) == 0
  {
    LowOfJoined(frame[7], frame[8]);
    HighOfJoined(frame[7], frame[8]);
    JoinedBytes(Crc(frame[1..7]));
    ZeroResidue(frame[1..7], frame[7], frame[8]);
    assert frame[1..] == frame[1..7] + [frame[7], frame[8]];
  }

  // ---- crc16

  /** The variable is a 32-bit one in the source; shifts to the right and 16-bit operands keep its upper half zero. */
  method Crc16(m: seq<octet>) returns (crc: word)
    ensures crc == Crc(m)
  {
    crc := 0xFFFF;
    assert m[..0] == [];
    for i := 0 to |m|
      invariant crc == Register(0xFFFF, m[..i])
    {
      crc := AbsorbByte(crc, m[i]);
      assert m[..i + 1][..i] == m[..i];
    }
    assert m[..|m|] == m;
  }

  method AbsorbByte(crc0: word, b: octet) returns (crc: word)
    ensures crc == Absorb(crc0, b)
  {
    crc := Mix(crc0, b);
    for bits := 0 to 8
      invariant crc == Shifts(Mix(crc0, b), bits)
    {
      crc := ShiftBit(crc);
    }
  }

  method ShiftBit(crc0: word) returns (crc: word)
    ensures crc == Shift(crc0)
  {
    var parity := crc0;
    crc := crc0 >> 1;
    if parity & 1 == 1 {
      crc := crc ^ 0xA001;
    }
  }

  // ---- The motor frame

  /** `SetRS232Motor33f`: speeds low byte first, a flag byte, and the check sum low byte first. */
  method MotorFrame(speed1: word, speed2: word, flag: octet) returns (frame: seq<octet>)
    ensures |frame| == 9 && frame[..7] == [255, 7, Low(speed1), High(speed1), Low(speed2), High(speed2), flag]
    ensures Accepted(frame) && Register(0xFFFF, frame[1..]) == 0
  {
    var body := [7, Low(speed1), High(speed1), Low(speed2), High(speed2), flag];
    var sum := Crc16(body);
    frame := [255] + body + [Low(sum), High(sum)];
    assert frame[1..7] == body;
    JoinedBytes(sum);
    AcceptedIffZero(frame);
  }

  // ---- The polynomial

  /** The register after one byte is the one before, shifted and divided by the polynomial bit by bit. */
  lemma OneByte(c: word, b: octet)
    ensures Absorb(c, b) == Shift(Shift(Shift(Shift(Shift(Shift(Shift(Shift(c ^ Wide(b)))))))))
  {
    EightShifts(Mix(c, b));
  }

  lemma RegisterNext(c: word, m: seq<octet>, b: octet)
    ensures Register(c, m + [b]) == Absorb(Register(c, m), b)
  {
    assert (m + [b])[..|m|] == m;
  }

  /** The check value of CRC-16/MODBUS, for the text 123456789: the polynomial is 0x8005, reflected, and the register
      starts with ones. */
  lemma CheckValue(m: seq<octet>)
    requires m == [0x31, 0x32, 0x33, 0x34, 0x35, 0x36, 0x37, 0x38, 0x39]
    ensures Crc(m) == 0x4B37
  {
    FirstDigits(m[..5]);
    LaterDigits(m[..5], m);
  }

  lemma FirstDigits(m: seq<octet>)
    requires m == [0x31, 0x32, 0x33, 0x34, 0x35]
    ensures Crc(m) == 0xA471
  {
    Digit(0xFFFF, m[..0], 0x31, 0x947E, m[..1]);
    Digit(0x947E, m[..1], 0x32, 0xF595, m[..2]);
    Digit(0xF595, m[..2], 0x33, 0x7A75, m[..3]);
    Digit(0x7A75, m[..3], 0x34, 0x30BA, m[..4]);
    Digit(0x30BA, m[..4], 0x35, 0xA471, m);
  }

  lemma LaterDigits(m5: seq<octet>, m: seq<octet>)
    requires |m5| == 5 && m == m5 + [0x36, 0x37, 0x38, 0x39] && Crc(m5) == 0xA471
    ensures Crc(m) == 0x4B37
  {
    Digit(0xA471, m5, 0x36, 0x32E4, m[..6]);
    Digit(0x32E4, m[..6], 0x37, 0x9D73, m[..7]);
    Digit(0x9D73, m[..7], 0x38, 0x37DD, m[..8]);
    Digit(0x37DD, m[..8], 0x39, 0x4B37, m);
  }

  lemma Digit(c: word, m: seq<octet>, b: octet, next: word, m': seq<octet>)
    requires Crc(m) == c && Shift(Shift(Shift(Shift(Shift(Shift(Shift(Shift(c ^ Wide(b))))))))) == next && m' == m + [b]
    ensures Crc(m') == next
  {
    OneByte(c, b);
    RegisterNext(0xFFFF, m, b);
  }
}
