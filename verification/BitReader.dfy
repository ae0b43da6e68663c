/** The bit reader of the video decoder. */
module BitReader {
  import opened Common

  // ---- Bits and numbers

  function Pow2(k: nat): (p: nat)
    ensures p >= 1
  {
    if k == 0 then 1 else 2 * Pow2(k - 1)
  }

  /** `x >> k`. */
  function Shr(x: nat, k: nat): nat { if k == 0 then x else Shr(x, k - 1) / 2 }

  /** `x << k`. */
  function Shl(x: nat, k: nat): nat { if k == 0 then x else 2 * Shl(x, k - 1) }

  /** `x & (0xff >> (8 - k))`: the low `k` bits. */
  function Low(x: nat, k: nat): nat { if k == 0 then 0 else 2 * Low(x / 2, k - 1) + x % 2 }

  /** A byte of the buffer; reading past the end gives undefined, which counts as zero in shifts and masks. */
  function ByteAt(s: seq<byte>, i: nat): byte { if i < |s| then s[i] else 0 }

  /** Bit 0 of a byte is its most significant one. */
  function BitAt(s: seq<byte>, i: nat): (b: nat)
    ensures b <= 1
  {
    Shr(ByteAt(s, i / 8), 7 - i % 8) % 2
  }

  /** The bits [from, from + count), most significant first. */
  function Bits(s: seq<byte>, from: nat, count: nat): nat
  {
    if count == 0 then 0 else 2 * Bits(s, from, count - 1) + BitAt(s, from + count - 1)
  }

  lemma {:induction false} BitsBound(s: seq<byte>, from: nat, count: nat)
    ensures Bits(s, from, count) < Pow2(count)
  {
    if count != 0 { BitsBound(s, from, count - 1); }
  }

  /** Reading a + b bits is reading a bits, shifting, and reading b bits. */
  lemma {:induction false} BitsJoin(s: seq<byte>, from: nat, a: nat, b: nat)
    ensures Bits(s, from, a + b) == Shl(Bits(s, from, a), b) + Bits(s, from + a, b)
  {
    if b != 0 { BitsJoin(s, from, a, b - 1); }
  }

  /** The bits inside one byte. */
  lemma {:induction false} BitsInByte(s: seq<byte>, b: nat, o: nat, c: nat)
    requires o + c <= 8
    ensures Bits(s, 8 * b + o, c) == Low(Shr(ByteAt(s, b), 8 - o - c), c)
  {
    if c != 0 {
      BitsInByte(s, b, o, c - 1);
      var i := 8 * b + o + c - 1;
      assert i / 8 == b && i % 8 == o + c - 1;
    }
  }

  lemma {:induction false} LowAll(x: nat, k: nat)
    requires x < Pow2(k)
    ensures Low(x, k) == x
  {
    if k != 0 { LowAll(x / 2, k - 1); }
  }

  lemma {:induction false} ShrBound(x: nat, n: nat, k: nat)
    requires x < Pow2(n) && k <= n
    ensures Shr(x, k) < Pow2(n - k)
  {
    if k != 0 { ShrBound(x, n, k - 1); }
  }

  lemma WholeByte(s: seq<byte>, b: nat)
    ensures Bits(s, 8 * b, 8) == ByteAt(s, b)
  {
    BitsInByte(s, b, 0, 8);
    SmallPowers();
    LowAll(ByteAt(s, b), 8);
  }

  /** The powers of two below 2^9. */
  lemma SmallPowers()
    ensures Pow2(0) == 1 && Pow2(1) == 2 && Pow2(2) == 4 && Pow2(3) == 8 && Pow2(4) == 16
    ensures Pow2(5) == 32 && Pow2(6) == 64 && Pow2(7) == 128 && Pow2(8) == 256
  {
    assert Pow2(1) == 2 * Pow2(0);
    assert Pow2(2) == 2 * Pow2(1);
    assert Pow2(3) == 2 * Pow2(2);
    assert Pow2(4) == 2 * Pow2(3);
    assert Pow2(5) == 2 * Pow2(4);
    assert Pow2(6) == 2 * Pow2(5);
    assert Pow2(7) == 2 * Pow2(6);
    assert Pow2(8) == 2 * Pow2(7);
  }

  // ---- Start codes

  /** 00 00 01 at byte `i`; bytes outside the buffer are undefined and never equal to a number. */
  predicate PrefixAt(s: seq<byte>, i: nat) { i + 2 < |s| && s[i] == 0 && s[i + 1] == 0 && s[i + 2] == 1 }

  /** The first start code prefix at or after byte `i` and before `limit`. */
  function FirstPrefix(s: seq<byte>, i: nat, limit: nat): (r: Option<nat>)
    ensures r.Some? ==> i <= r.value < limit && PrefixAt(s, r.value)
    decreases limit - i
  {
    if i >= limit then None else if PrefixAt(s, i) then Some(i) else FirstPrefix(s, i + 1, limit)
  }

  lemma {:induction false} FirstPrefixIsFirst(s: seq<byte>, i: nat, limit: nat, j: nat)
    requires i <= j < limit && PrefixAt(s, j)
    ensures FirstPrefix(s, i, limit).Some? && FirstPrefix(s, i, limit).value <= j
    decreases limit - i
  {
    if !PrefixAt(s, i) { FirstPrefixIsFirst(s, i + 1, limit, j); }
  }

  const NOT_FOUND: int := -1
  const UNDEFINED: int := -2

  function CodeAt(s: seq<byte>, i: nat): int { if i + 3 < |s| then s[i + 3] else UNDEFINED }

  class Reader {
    const bytes: array<byte>
    var writePos: nat
    var index: nat

    constructor (bytes: array<byte>)
      ensures this.bytes == bytes && writePos == bytes.Length && index == 0
    {
      this.bytes, writePos, index := bytes, bytes.Length, 0;
    }

    method FindNextMPEGStartCode() returns (code: int)
      modifies `index
      ensures var r := FirstPrefix(bytes[..], (old(index) + 7) / 8, writePos);
              if r.Some? then code == CodeAt(bytes[..], r.value) && index == (r.value + 4) * 8
              else code == NOT_FOUND && index == writePos * 8
    {
      var i := (index + 7) / 8;
      while i < writePos
        invariant index == old(index) && i >= (old(index) + 7) / 8
        invariant FirstPrefix(bytes[..], (old(index) + 7) / 8, writePos) == FirstPrefix(bytes[..], i, writePos)
      {
        if i + 2 < bytes.Length && bytes[i] == 0 && bytes[i + 1] == 0 && bytes[i + 2] == 1 {
          index := (i + 4) * 8;
          if i + 3 < bytes.Length {
            return bytes[i + 3];
          } else {
            return UNDEFINED;
          }
        }
        i := i + 1;
      }
      index := writePos * 8;
      code := NOT_FOUND;
    }

    /** `|=` into the bits that a left shift has just cleared is addition. Up to 31 bits nothing reaches the sign
        bit of a 32-bit integer. */
    method NextBits(count: nat) returns (value: nat)
      requires count <= 31
      ensures value == Bits(bytes[..], index, count) && value < Pow2(count)
    {
      BitsBound(bytes[..], index, count);
      var byteOffset := index / 8;
      var room := 8 - index % 8;
      if room >= count {
        BitsInByte(bytes[..], byteOffset, 8 - room, count);
        value := Low(Shr(At(byteOffset), room - count), count);
      } else {
        value := NextBitsAcross(count);
      }
    }

    /** The case of bits in more than one byte. */
    method NextBitsAcross(count: nat) returns (value: nat)
      requires 8 - index % 8 < count
      ensures value == Bits(bytes[..], index, count)
    {
      var end, leftover := LastByte(index, count);
      var byteOffset, room;
      value, byteOffset, room := FirstBits();
      ghost var done := room;
      while byteOffset < end
        invariant byteOffset <= end
        invariant index + done == 8 * byteOffset && value == Bits(bytes[..], index, done)
      {
        AppendByte(bytes[..], index, done, byteOffset);
        value := Shl(value, 8) + At(byteOffset);
        byteOffset, done := byteOffset + 1, done + 8;
      }
      value := LastBits(value, byteOffset, leftover, done);
      assert count == done + if leftover > 0 then leftover else 8;
    }

    method FirstBits() returns (value: nat, byteOffset: nat, room: nat)
      ensures byteOffset == index / 8 + 1 && index + room == 8 * byteOffset
      ensures value == Bits(bytes[..], index, room)
    {
      byteOffset := index / 8;
      room := 8 - index % 8;
      BitsInByte(bytes[..], byteOffset, 8 - room, room);
      value := Low(At(byteOffset), room);
      byteOffset := byteOffset + 1;
    }

    method LastBits(value: nat, byteOffset: nat, leftover: nat, ghost done: nat) returns (all: nat)
      requires index + done == 8 * byteOffset && value == Bits(bytes[..], index, done) && leftover < 8
      ensures all == Bits(bytes[..], index, done + if leftover > 0 then leftover else 8)
    {
      if leftover > 0 {
        AppendPart(bytes[..], index, done, byteOffset, leftover);
        all := Shl(value, leftover) + Shr(At(byteOffset), 8 - leftover);
      } else {
        AppendByte(bytes[..], index, done, byteOffset);
        all := Shl(value, 8) + At(byteOffset);
      }
    }

    function At(i: nat): byte
      reads bytes
    {
      if i < bytes.Length then bytes[i] else 0
    }

    method GetBits(count: nat) returns (value: nat)
      requires count <= 31
      modifies `index
      ensures value == Bits(bytes[..], old(index), count) && index == old(index) + count
    {
      value := NextBits(count);
      index := index + count;
    }

    method Advance(count: nat)
      modifies `index
      ensures index == old(index) + count
    {
      index := index + count;
    }
  }

  lemma AppendByte(s: seq<byte>, index: nat, done: nat, b: nat)
    requires index + done == 8 * b
    ensures Bits(s, index, done + 8) == Shl(Bits(s, index, done), 8) + ByteAt(s, b)
  {
    BitsJoin(s, index, done, 8);
    WholeByte(s, b);
  }

  lemma AppendPart(s: seq<byte>, index: nat, done: nat, b: nat, k: nat)
    requires index + done == 8 * b && 0 < k < 8
    ensures Bits(s, index, done + k) == Shl(Bits(s, index, done), k) + Shr(ByteAt(s, b), 8 - k)
  {
    BitsJoin(s, index, done, k);
    BitsInByte(s, b, 0, k);
    LowOfShr(ByteAt(s, b), k);
  }

  lemma LowOfShr(x: byte, k: nat)
    requires 0 < k < 8
    ensures Low(Shr(x, 8 - k), k) == Shr(x, 8 - k)
  {
    SmallPowers();
    ShrBound(x, 8, 8 - k);
    LowAll(Shr(x, 8 - k), k);
  }

  /** The byte of the last of `count` bits, and how many bits of it are needed if not all. */
  method LastByte(index: nat, count: nat) returns (end: nat, leftover: nat)
    requires 8 - index % 8 < count
    ensures index / 8 < end && leftover < 8 && index + count == 8 * end + if leftover > 0 then leftover else 8
  {
    leftover := (index + count) % 8;
    end := (index + count - 1) / 8;
  }
}
