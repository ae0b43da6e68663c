/** What the encodings of text mean: they are read back by the rules of UTF-8 and UTF-16. */
module TextCoding {
  import opened Common
  import opened Seqs
  import opened HttpMessage
  import DebuggerProtocol

  /** The code points of a text. */
  function Codes(s: string): seq<nat> { if s == "" then [] else [s[0] as int] + Codes(s[1..]) }

  // ---- UTF-8, section 3 of RFC 3629

  /** How many bytes follow a first byte, if it is one, and the bits that it contributes. */
  function Following(b: byte): Option<nat>
  {
    if b < 0x80 then Some(0) else if b < 0xC0 then None else if b < 0xE0 then Some(1) else if b < 0xF0 then Some(2)
    else if b < 0xF8 then Some(3) else None
  }

  function FirstBits(b: byte): nat
  {
    if b < 0x80 then b else if b < 0xE0 then b % 0x20 else if b < 0xF0 then b % 0x10 else b % 0x08
  }

  /** Six more bits from each of `n` bytes. */
  function MoreBits(v: nat, b: seq<byte>, n: nat): Option<nat>
    requires n <= |b|
    decreases n
  {
    if n == 0 then Some(v) else if !(0x80 <= b[0] < 0xC0) then None else MoreBits(64 * v + b[0] % 0x40, b[1..], n - 1)
  }

  /** The code points that bytes spell. */
  function FromUtf8(b: seq<byte>): Option<seq<nat>>
    decreases |b|
  {
    if b == [] then Some([])
    else if Following(b[0]).None? || |b| < 1 + Following(b[0]).value then None
    else
      var n := Following(b[0]).value;
      var c, rest := MoreBits(FirstBits(b[0]), b[1..], n), FromUtf8(b[1 + n..]);
      if c.None? || rest.None? then None else Some([c.value] + rest.value)
  }

  /** The first byte and `n` more spell `c`. */
  predicate Spells(e: seq<byte>, c: nat)
  {
    && e != [] && Following(e[0]) == Some(|e| - 1)
    && MoreBits(FirstBits(e[0]), e[1..], |e| - 1) == Some(c)
  }

  lemma {:induction false} MoreBitsOnly(v: nat, b: seq<byte>, t: seq<byte>)
    ensures MoreBits(v, b + t, |b|) == MoreBits(v, b, |b|)
    decreases |b|
  {
    if b != [] {
      assert (b + t)[0] == b[0] && (b + t)[1..] == b[1..] + t;
      if 0x80 <= b[0] < 0xC0 { MoreBitsOnly(64 * v + b[0] % 0x40, b[1..], t); }
    }
  }

  lemma SpellsThen(e: seq<byte>, c: nat, t: seq<byte>)
    requires Spells(e, c) && FromUtf8(t).Some?
    ensures FromUtf8(e + t) == Some([c] + FromUtf8(t).value)
  {
    var b := e + t;
    assert b[0] == e[0] && b[1..] == e[1..] + t && b[1 + (|e| - 1)..] == t;
    MoreBitsOnly(FirstBits(e[0]), e[1..], t);
  }

  lemma {:induction false} LastBits(v: nat, z: nat)
    requires z < 0x40
    ensures MoreBits(v, [0x80 + z], 1) == Some(64 * v + z)
  {
    assert (0x80 + z) % 0x40 == z;
  }

  lemma {:induction false} LastTwo(v: nat, y: nat, z: nat)
    requires y < 0x40 && z < 0x40
    ensures MoreBits(v, [0x80 + y, 0x80 + z], 2) == Some(64 * (64 * v + y) + z)
  {
    assert [0x80 + y, 0x80 + z][1..] == [0x80 + z];
    assert (0x80 + y) % 0x40 == y;
    LastBits(64 * v + y, z);
  }

  lemma {:induction false} LastThree(v: nat, x: nat, y: nat, z: nat)
    requires x < 0x40 && y < 0x40 && z < 0x40
    ensures MoreBits(v, [0x80 + x, 0x80 + y, 0x80 + z], 3) == Some(64 * (64 * (64 * v + x) + y) + z)
  {
    assert [0x80 + x, 0x80 + y, 0x80 + z][1..] == [0x80 + y, 0x80 + z];
    assert (0x80 + x) % 0x40 == x;
    LastTwo(64 * v + x, y, z);
  }

  lemma TwoBytes(c: nat)
    requires 0x80 <= c < 0x800
    ensures Spells([0xC0 + c / 0x40, 0x80 + c % 0x40], c)
  {
    var e: seq<byte> := [0xC0 + c / 0x40, 0x80 + c % 0x40];
    assert FirstBits(e[0]) == c / 0x40 by { assert (0xC0 + c / 0x40) % 0x20 == c / 0x40; }
    assert e[1..] == [0x80 + c % 0x40];
    LastBits(c / 0x40, c % 0x40);
  }

  lemma ThreeBytes(c: nat)
    requires 0x800 <= c < 0x1_0000
    ensures Spells([0xE0 + c / 0x1000, 0x80 + c / 0x40 % 0x40, 0x80 + c % 0x40], c)
  {
    var e: seq<byte> := [0xE0 + c / 0x1000, 0x80 + c / 0x40 % 0x40, 0x80 + c % 0x40];
    assert FirstBits(e[0]) == c / 0x1000 by { assert (0xE0 + c / 0x1000) % 0x10 == c / 0x1000; }
    assert e[1..] == [0x80 + c / 0x40 % 0x40, 0x80 + c % 0x40];
    LastTwo(c / 0x1000, c / 0x40 % 0x40, c % 0x40);
    assert 64 * (c / 0x1000) + c / 0x40 % 0x40 == c / 0x40;
  }

  lemma FourBytes(c: nat)
    requires 0x1_0000 <= c < 0x11_0000
    ensures Spells([0xF0 + c / 0x4_0000, 0x80 + c / 0x1000 % 0x40, 0x80 + c / 0x40 % 0x40, 0x80 + c % 0x40], c)
  {
    var e: seq<byte> := [0xF0 + c / 0x4_0000, 0x80 + c / 0x1000 % 0x40, 0x80 + c / 0x40 % 0x40, 0x80 + c % 0x40];
    assert FirstBits(e[0]) == c / 0x4_0000 by { assert (0xF0 + c / 0x4_0000) % 0x08 == c / 0x4_0000; }
    assert e[1..] == [0x80 + c / 0x1000 % 0x40, 0x80 + c / 0x40 % 0x40, 0x80 + c % 0x40];
    LastThree(c / 0x4_0000, c / 0x1000 % 0x40, c / 0x40 % 0x40, c % 0x40);
    assert 64 * (c / 0x4_0000) + c / 0x1000 % 0x40 == c / 0x1000;
    assert 64 * (c / 0x1000) + c / 0x40 % 0x40 == c / 0x40;
  }

  lemma CharSpells(ch: char)
    ensures Spells(EncodeChar(ch, Utf8), ch as int)
  {
    var c := ch as int;
    if 0x80 <= c < 0x800 {
      TwoBytes(c);
    } else if 0x800 <= c < 0x1_0000 {
      ThreeBytes(c);
    } else if 0x1_0000 <= c {
      FourBytes(c);
    }
  }

  /** Text in UTF-8 is read back. */
  lemma {:induction false} Utf8RoundTrip(s: string)
    ensures FromUtf8(Encode(s, Utf8)) == Some(Codes(s))
  {
    if s != "" {
      Utf8RoundTrip(s[1..]);
      CharSpells(s[0]);
      SpellsThen(EncodeChar(s[0], Utf8), s[0] as int, Encode(s[1..], Utf8));
    }
  }

  /** The byte length that the debugger's frames announce is that of the text in UTF-8. */
  lemma {:induction false} BytesAreUtf8(s: string)
    ensures DebuggerProtocol.Bytes(s) == |Encode(s, Utf8)|
  {
    if s != "" { BytesAreUtf8(s[1..]); }
  }

  // ---- UTF-16, lower byte first, section 2 of RFC 2781

  function Unit16(low: int, high: int): int { low + 256 * high }

  function FromUtf16(b: seq<byte>): Option<seq<nat>>
    decreases |b|
  {
    if b == [] then Some([])
    else if |b| < 2 then None
    else
      var u := Unit16(b[0], b[1]);
      if u < 0xD800 || 0xE000 <= u then Put(u, FromUtf16(b[2..]))
      else if u >= 0xDC00 || |b| < 4 then None
      else
        var w := Unit16(b[2], b[3]);
        if w < 0xDC00 || 0xE000 <= w then None
        else Put(0x1_0000 + 0x400 * (u - 0xD800) + (w - 0xDC00), FromUtf16(b[4..]))
  }

  function Put(c: nat, rest: Option<seq<nat>>): Option<seq<nat>>
  {
    if rest.None? then None else Some([c] + rest.value)
  }

  lemma CharThen(ch: char, t: seq<byte>)
    ensures FromUtf16(EncodeChar(ch, Ucs2) + t) == Put(ch as int, FromUtf16(t))
  {
    var c, e := ch as int, EncodeChar(ch, Ucs2);
    var b := e + t;
    if c < 0x1_0000 {
      assert b[0] == c % 256 && b[1] == c / 256 && b[2..] == t;
    } else {
      var u, w := 0xD800 + (c - 0x1_0000) / 0x400, 0xDC00 + (c - 0x1_0000) % 0x400;
      assert b[0] == u % 256 && b[1] == u / 256 && b[2] == w % 256 && b[3] == w / 256 && b[4..] == t;
      assert Unit16(b[0], b[1]) == u && Unit16(b[2], b[3]) == w;
    }
  }

  /** Text in UTF-16 is read back. */
  lemma {:induction false} Utf16RoundTrip(s: string)
    ensures FromUtf16(Encode(s, Ucs2)) == Some(Codes(s))
  {
    if s != "" {
      Utf16RoundTrip(s[1..]);
      CharThen(s[0], Encode(s[1..], Ucs2));
    }
  }
}
