/** The sequence header, and the one that the recorder makes up for a recorded file. */
module Recorder {
  import opened Common
  import opened BitReader
  import BlockDecoder

  // ---- Reading a sequence header

  /** Every place of a block exactly once. */
  ghost predicate Order(order: seq<nat>)
  {
    && |order| == 64 && (forall k :: 0 <= k < 64 ==> order[k] < 64)
    && forall j, k :: 0 <= j < k < 64 ==> order[j] != order[k]
  }

  /** `m` holds the 64 bytes at bit `i` in the given order. */
  ghost predicate Matrix(s: seq<byte>, i: nat, order: seq<nat>, m: seq<nat>, n: nat)
    requires Order(order) && n <= 64
  {
    |m| == 64 && forall k :: 0 <= k < n ==> m[order[k]] == Bits(s, i + 8 * k, 8)
  }

  method LoadMatrix(buffer: Reader, order: seq<nat>) returns (matrix: array<nat>)
    requires Order(order)
    modifies buffer`index
    ensures fresh(matrix) && Matrix(buffer.bytes[..], old(buffer.index), order, matrix[..], 64)
    ensures buffer.index == old(buffer.index) + 512
  {
    matrix := new nat[64](_ => 0);
    ghost var s, at := buffer.bytes[..], buffer.index;
    for i := 0 to 64
      invariant buffer.index == at + 8 * i && Matrix(s, at, order, matrix[..], i)
    {
      var b := buffer.GetBits(8);
      MatrixStep(s, at, order, matrix[..], i);
      matrix[order[i]] := b;
    }
  }

  lemma MatrixStep(s: seq<byte>, at: nat, order: seq<nat>, m: seq<nat>, n: nat)
    requires Order(order) && n < 64 && Matrix(s, at, order, m, n)
    ensures Matrix(s, at, order, m[order[n] := Bits(s, at + 8 * n, 8)], n + 1)
  {
  }

  lemma ZigZagIsOrder()
    ensures Order(BlockDecoder.ZigZagOrder())
  {
    var order := BlockDecoder.ZigZagOrder();
    forall k | 0 <= k < 64 ensures order[k] < 64 && BlockDecoder.PlaceOf(order[k]) == k {
      BlockDecoder.ZigZagPermutes(k);
    }
  }

  /** What a sequence header says; the matrices only if it carries them. */
  datatype Header = Header(width: nat, height: nat, rate: nat, intra: Option<seq<nat>>, nonIntra: Option<seq<nat>>)

  /** A flag at bit `i`, followed by a matrix if it is set. */
  ghost predicate FlaggedAt(s: seq<byte>, i: nat, m: Option<seq<nat>>)
  {
    ZigZagIsOrder();
    (m.Some? <==> BitAt(s, i) == 1) && (m.Some? ==> Matrix(s, i + 1, BlockDecoder.ZigZagOrder(), m.value, 64))
  }

  ghost predicate HeaderAt(s: seq<byte>, i: nat, h: Header)
  {
    && h.width == Bits(s, i, 12) && h.height == Bits(s, i + 12, 12) && h.rate == Bits(s, i + 28, 4)
    && FlaggedAt(s, i + 62, h.intra) && FlaggedAt(s, i + 63 + (if h.intra.Some? then 512 else 0), h.nonIntra)
  }

  method LoadIfFlagged(buffer: Reader) returns (m: Option<seq<nat>>)
    modifies buffer`index
    ensures FlaggedAt(buffer.bytes[..], old(buffer.index), m)
    ensures buffer.index == old(buffer.index) + if m.Some? then 513 else 1
  {
    ZigZagIsOrder();
    var flag := BlockDecoder.ReadBit(buffer);
    m := None;
    if flag == 1 {
      var matrix := LoadMatrix(buffer, BlockDecoder.ZigZagOrder());
      m := Some(matrix[..]);
    }
  }

  method DecodeSequenceHeader(buffer: Reader) returns (h: Header)
    modifies buffer`index
    ensures HeaderAt(buffer.bytes[..], old(buffer.index), h)
  {
    var width, height, rate := ReadSizes(buffer);
    var intra := LoadIfFlagged(buffer);
    var nonIntra := LoadIfFlagged(buffer);
    h := Header(width, height, rate, intra, nonIntra);
  }

  method ReadSizes(buffer: Reader) returns (width: nat, height: nat, rate: nat)
    modifies buffer`index
    ensures var s, i := buffer.bytes[..], old(buffer.index);
              width == Bits(s, i, 12) && height == Bits(s, i + 12, 12) && rate == Bits(s, i + 28, 4)
    ensures buffer.index == old(buffer.index) + 62
  {
    width := buffer.GetBits(12);
    height := buffer.GetBits(12);
    buffer.Advance(4);
    rate := buffer.GetBits(4);
    buffer.Advance(18 + 1 + 10 + 1);
  }

  // ---- The recorder's header

  /** `|` on natural numbers. */
  function Or(a: nat, b: nat): nat
  {
    if a == 0 && b == 0 then 0 else 2 * Or(a / 2, b / 2) + if a % 2 == 1 || b % 2 == 1 then 1 else 0
  }

  lemma {:induction false} OrBelow(a: nat, b: nat, k: nat)
    requires b < Pow2(k)
    ensures Or(Shl(a, k), b) == Shl(a, k) + b
  {
    if k == 0 {
      OrZero(a);
    } else {
      OrBelow(a, b / 2, k - 1);
    }
  }

  lemma {:induction false} OrZero(a: nat)
    ensures Or(a, 0) == a
  {
    if a != 0 { OrZero(a / 2); }
  }

  /** The bytes pushed when recording starts; storing into bytes keeps the low eight bits. */
  function RecordedHeader(width: nat, height: nat): seq<byte>
  {
    [0x00, 0x00, 0x01, 0xb3,
     width / 16 % 256, Or(width % 16 * 16, height / 256) % 256, height % 256,
     0x13, 0xff, 0xff, 0xe1, 0x58,
     0x00, 0x00, 0x01, 0xb8, 0x00, 0x08, 0x00,
     0x00, 0x00, 0x00, 0x01, 0x00]
  }

  lemma ShiftFour(x: nat)
    ensures Shl(x, 4) == 16 * x && Shr(x, 4) == x / 16
  {
    assert Shl(x, 1) == 2 * x && Shl(x, 2) == 4 * x && Shl(x, 3) == 8 * x;
    assert Shr(x, 1) == x / 2 && Shr(x, 2) == x / 2 / 2 && Shr(x, 3) == x / 2 / 2 / 2;
  }

  lemma ShiftEight(x: nat)
    ensures Shl(x, 8) == 256 * x
  {
    ShiftFour(x);
    assert Shl(x, 5) == 32 * x && Shl(x, 6) == 64 * x && Shl(x, 7) == 128 * x;
  }

  lemma LowFour(x: nat)
    ensures Low(x, 4) == x % 16
  {
    var x1 := x / 2;
    var x2 := x1 / 2;
    var x3 := x2 / 2;
    assert Low(x3, 1) == x3 % 2;
    assert Low(x2, 2) == 2 * (x3 % 2) + x2 % 2;
    assert Low(x1, 3) == 4 * (x3 % 2) + 2 * (x2 % 2) + x1 % 2;
    assert x == 16 * (x3 / 2) + 8 * (x3 % 2) + 4 * (x2 % 2) + 2 * (x1 % 2) + x % 2;
  }

  lemma TopNibble(y: byte)
    ensures Low(Shr(y, 4), 4) == y / 16
  {
    ShiftFour(y);
    LowFour(y / 16);
  }

  /** Twelve bits from a byte boundary, and twelve bits up to one. */
  lemma LeadingTwelve(s: seq<byte>, b: nat)
    ensures Bits(s, 8 * b, 12) == 16 * ByteAt(s, b) + ByteAt(s, b + 1) / 16 < 4096
  {
    BitsJoin(s, 8 * b, 8, 4);
    WholeByte(s, b);
    ShiftFour(ByteAt(s, b));
    BitsInByte(s, b + 1, 0, 4);
    TopNibble(ByteAt(s, b + 1));
  }

  lemma TrailingTwelve(s: seq<byte>, b: nat)
    ensures Bits(s, 8 * b + 4, 12) == 256 * (ByteAt(s, b) % 16) + ByteAt(s, b + 1) < 4096
  {
    BitsJoin(s, 8 * b + 4, 4, 8);
    BitsInByte(s, b, 4, 4);
    WholeByte(s, b + 1);
    LowFour(ByteAt(s, b));
    ShiftEight(ByteAt(s, b) % 16);
  }

  lemma RateAndFlags(s: seq<byte>)
    requires |s| > 11 && s[7] == 0x13 && s[11] == 0x58
    ensures Bits(s, 60, 4) == 3 && BitAt(s, 94) == 0 && BitAt(s, 95) == 0
  {
    BitsInByte(s, 7, 4, 4);
    LowFour(0x13);
    assert Shr(0x58, 0) == 0x58 && Shr(0x58, 1) == 0x2c;
  }

  lemma Nibbles(a: nat, b: nat)
    requires a < 16 && b < 16
    ensures (a * 16 + b) / 16 == a && (a * 16 + b) % 16 == b
  {
  }

  lemma PackedSizes(width: nat, height: nat)
    requires width < 4096 && height < 4096
    ensures Or(width % 16 * 16, height / 256) == width % 16 * 16 + height / 256 < 256
  {
    SmallPowers();
    ShiftFour(width % 16);
    OrBelow(width % 16, height / 256, 4);
  }

  lemma TwelveBits(a: byte, b: byte, c: byte)
    ensures 16 * a + b / 16 < 4096 && 256 * (b % 16) + c < 4096
  {
  }

  lemma UnpackedFits(width: nat, height: nat, a: byte, b: byte, c: byte)
    requires width < 4096 && height < 4096
    requires a == width / 16 % 256 && b == Or(width % 16 * 16, height / 256) % 256 && c == height % 256
    ensures 16 * a + b / 16 == width && 256 * (b % 16) + c == height
  {
    var high, low, top, bottom := width / 16, width % 16, height / 256, height % 256;
    assert width == 16 * high + low && height == 256 * top + bottom && high < 256 && top < 16;
    assert b == (low * 16 + top) % 256 by { PackedSizes(width, height); }
    Joined(high, low, top, bottom, a, b);
  }

  lemma Joined(high: nat, low: nat, top: nat, bottom: nat, a: byte, b: byte)
    requires high < 256 && low < 16 && top < 16 && a == high % 256 && b == (low * 16 + top) % 256
    ensures 16 * a + b / 16 == 16 * high + low && 256 * (b % 16) + bottom == 256 * top + bottom
  {
    assert low * 16 + top < 256;
    assert a == high && b == low * 16 + top;
    Nibbles(low, top);
  }

  lemma Unpacked(width: nat, height: nat, a: byte, b: byte, c: byte)
    requires a == width / 16 % 256 && b == Or(width % 16 * 16, height / 256) % 256 && c == height % 256
    ensures 16 * a + b / 16 == width && 256 * (b % 16) + c == height <==> width < 4096 && height < 4096
  {
    TwelveBits(a, b, c);
    if width < 4096 && height < 4096 {
      UnpackedFits(width, height, a, b, c);
    }
  }

  /** Twelve bits for each, whatever the bytes are. */
  lemma SizesDecode(s: seq<byte>, width: nat, height: nat)
    requires |s| > 11 && s[4] == width / 16 % 256 && s[5] == Or(width % 16 * 16, height / 256) % 256
             && s[6] == height % 256
    ensures Bits(s, 32, 12) == width && Bits(s, 44, 12) == height <==> width < 4096 && height < 4096
  {
    LeadingTwelve(s, 4);
    TrailingTwelve(s, 5);
    Unpacked(width, height, s[4], s[5], s[6]);
  }

  /** The recorded header starts a sequence, and decodes to a width and a height exactly if both are below 4096, with
      picture rate code 3 and no custom matrices. */
  lemma RecordedHeaderDecodes(width: nat, height: nat, h: Header)
    requires HeaderAt(RecordedHeader(width, height), 32, h)
    ensures FirstPrefix(RecordedHeader(width, height), 0, 24) == Some(0)
            && CodeAt(RecordedHeader(width, height), 0) == 0xb3
    ensures h.width == width && h.height == height <==> width < 4096 && height < 4096
    ensures h.rate == 3 && h.intra == None && h.nonIntra == None
  {
    RateAndFlags(RecordedHeader(width, height));
    SizesDecode(RecordedHeader(width, height), width, height);
  }
}
