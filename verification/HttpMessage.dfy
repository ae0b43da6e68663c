/** One HTTP response seen on its own: the bytes that a sequence of `writeHead`, `write`, `addTrailers`,
    `flushHeaders` and `end` calls produces, and the chunked transfer coding inside them. */
module HttpMessage {
  import opened Common
  import opened Seqs

  datatype Encoding = Utf8 | Ascii | Binary | Ucs2

  /** What a caller hands to `write`: a string, a Buffer, or a string in the 'hex' or 'base64' encoding. For the
      last kind only the length of the string, the size that `Buffer.byteLength` announces and the bytes that decoding
      it gives matter; `Hexed` and `Base64` compute them. */
  datatype Data = Text(s: string, enc: Encoding) | Bytes(b: seq<byte>)
      | Coded(length: nat, announced: nat, decoded: seq<byte>)
  {
    predicate Empty() { match this case Text(s, _) => s == "" case Bytes(b) => b == [] case Coded(n, _, _) => n == 0 }

    function Wire(): seq<byte>
    {
      match this case Text(s, enc) => Encode(s, enc) case Bytes(b) => b case Coded(_, _, b) => b
    }

    /** What `write` announces as the size of a chunk. */
    function Size(): nat { if Coded? then announced else |Wire()| }

    /** The one kind of text for which framing text and payload cannot share an encoding. */
    predicate Wide() { Text? && enc.Ucs2? && s != "" }

    /** A chunk whose framing does not fit its payload. */
    predicate Misframed() { Wide() || Size() != |Wire()| }

    /** A chunk that does not carry its payload: misframed, or empty and therefore the end of the body. */
    predicate Faulty() { Misframed() || Wire() == [] }
  }

  function Utf16Units(c: int): (u: seq<int>)
    requires 0 <= c < 0x11_0000
    ensures 1 <= |u| <= 2
    ensures forall i :: 0 <= i < |u| ==> 0 <= u[i] < 0x1_0000
  {
    if c < 0x1_0000 then [c] else [0xD800 + (c - 0x1_0000) / 0x400, 0xDC00 + (c - 0x1_0000) % 0x400]
  }

  function EncodeChar(ch: char, enc: Encoding): (r: seq<byte>)
    ensures 1 <= |r| <= 4
    ensures enc.Ucs2? ==> |r| >= 2
  {
    var c := ch as int;
    match enc
    case Utf8 =>
      if c < 0x80 then [c]
      else if c < 0x800 then [0xC0 + c / 0x40, 0x80 + c % 0x40]
      else if c < 0x1_0000 then [0xE0 + c / 0x1000, 0x80 + c / 0x40 % 0x40, 0x80 + c % 0x40]
      else [0xF0 + c / 0x4_0000, 0x80 + c / 0x1000 % 0x40, 0x80 + c / 0x40 % 0x40, 0x80 + c % 0x40]
    case Ucs2 =>
      var u := Utf16Units(c);
      if |u| == 1 then [u[0] % 256, u[0] / 256] else [u[0] % 256, u[0] / 256, u[1] % 256, u[1] / 256]
    case _ =>
      var u := Utf16Units(c);
      if |u| == 1 then [u[0] % 256] else [u[0] % 256, u[1] % 256]
  }

  function Encode(s: string, enc: Encoding): (r: seq<byte>)
    ensures |r| >= |s|
  {
    if s == "" then [] else EncodeChar(s[0], enc) + Encode(s[1..], enc)
  }

  lemma {:induction false} EncodeConcat(s: string, t: string, enc: Encoding)
    ensures Encode(s + t, enc) == Encode(s, enc) + Encode(t, enc)
  {
    if s == "" {
      Unit(t);
    } else {
      var c, rest := EncodeChar(s[0], enc), s[1..];
      EncodeConcat(rest, t, enc);
      assert (s + t)[0] == s[0] && (s + t)[1..] == rest + t;
      Assoc(c, Encode(rest, enc), Encode(t, enc));
    }
  }

  predicate IsAscii(s: string) { forall i :: 0 <= i < |s| ==> s[i] as int < 0x80 }

  function AsciiBytes(s: string): (r: seq<byte>)
    requires IsAscii(s)
    ensures |r| == |s|
  {
    seq(|s|, i requires 0 <= i < |s| => s[i] as int)
  }

  lemma {:induction false} EncodeAscii(s: string, enc: Encoding)
    requires IsAscii(s) && !enc.Ucs2?
    ensures Encode(s, enc) == AsciiBytes(s)
  {
    if s != "" {
      EncodeAscii(s[1..], enc);
      assert AsciiBytes(s) == [s[0] as int] + AsciiBytes(s[1..]);
    }
  }

  // ---- Strings that stand for bytes

  function Units(s: string): (u: seq<int>)
    ensures forall i :: 0 <= i < |u| ==> 0 <= u[i] < 0x1_0000
  {
    if s == "" then [] else Utf16Units(s[0] as int) + Units(s[1..])
  }

  function HexDigitValue(c: int): Option<int>
  {
    if 48 <= c <= 57 then Some(c - 48) else if 65 <= c <= 70 then Some(c - 55) else if 97 <= c <= 102 then Some(c - 87)
        else None
  }

  /** Pairs of digits, up to the first that is none. */
  function HexBytes(u: seq<int>): (b: seq<byte>)
    ensures |b| <= |u| / 2
  {
    if |u| < 2 then []
    else
      var hi, lo := HexDigitValue(u[0]), HexDigitValue(u[1]);
      if hi.None? || lo.None? then [] else [hi.value * 16 + lo.value] + HexBytes(u[2..])
  }

  /** A string in the 'hex' encoding; one with an odd number of characters makes the write throw. */
  function Hexed(s: string): (d: Data)
    requires |Units(s)| % 2 == 0
    ensures d.Coded? && |d.decoded| <= d.announced
  {
    Coded(|Units(s)|, |Units(s)| / 2, HexBytes(Units(s)))
  }

  /** Six bits, by the low byte of the character; both alphabets are accepted. */
  function Sextet(c: int): Option<int>
  {
    var x := c % 256;
    if 65 <= x <= 90 then Some(x - 65) else if 97 <= x <= 122 then Some(x - 71) else if 48 <= x <= 57 then Some(x + 4)
    else if x == 43 || x == 45 then Some(62) else if x == 47 || x == 95 then Some(63) else None
  }

  /** Everything else is skipped, padding included. */
  function Sextets(u: seq<int>): (r: seq<int>)
    ensures |r| <= |u| && forall i :: 0 <= i < |r| ==> 0 <= r[i] < 64
  {
    if u == [] then [] else (match Sextet(u[0]) case None => [] case Some(v) => [v]) + Sextets(u[1..])
  }

  function FromSextets(v: seq<int>): seq<byte>
    requires forall i :: 0 <= i < |v| ==> 0 <= v[i] < 64
  {
    if |v| < 2 then []
    else if |v| == 2 then [v[0] * 4 + v[1] / 16]
    else if |v| == 3 then [v[0] * 4 + v[1] / 16, v[1] % 16 * 16 + v[2] / 4]
    else [v[0] * 4 + v[1] / 16, v[1] % 16 * 16 + v[2] / 4, v[2] % 4 * 64 + v[3]] + FromSextets(v[4..])
  }

  /** `base64_decoded_size`: all characters count, but for up to two paddings at the end. */
  function Base64Size(u: seq<int>): nat
  {
    var n1 := if |u| > 0 && u[|u| - 1] == 61 then |u| - 1 else |u|;
    var n := if n1 > 0 && u[n1 - 1] == 61 then n1 - 1 else n1;
    if n == 1 then 0 else n / 4 * 3 + if n % 4 == 0 then 0 else if n % 4 == 3 then 2 else 1
  }

  /** A string in the 'base64' encoding; its bytes are cut off at the announced size. */
  function Base64(s: string): (d: Data)
    ensures d.Coded? && |d.decoded| <= d.announced
  {
    var u := Units(s);
    var all := FromSextets(Sextets(u));
    Coded(|u|, Base64Size(u), if |all| <= Base64Size(u) then all else all[..Base64Size(u)])
  }

  // ---- Framing text

  const CRLF: string := "\r\n"
  const CRLF_BYTES: seq<byte> := [13, 10]

  function HexDigit(d: int): char
    requires 0 <= d < 16
  {
    if d < 10 then '0' + d as char else 'a' + (d - 10) as char
  }

  /** `len.toString(16)`. */
  function Hex(n: nat): (s: string)
    ensures s != "" && IsAscii(s)
  {
    if n < 16 then [HexDigit(n)] else Hex(n / 16) + [HexDigit(n % 16)]
  }

  function TrailerText(lines: seq<string>): string
  {
    if lines == [] then "" else lines[0] + CRLF + TrailerText(lines[1..])
  }

  // ---- The message

  /** What `writeHead` and `_storeHeader` decide: the header text, whether the body is chunked, whether the
      connection closes afterwards, and whether the status forbids a body. */
  datatype HeadInfo = HeadInfo(text: string, chunked: bool, last: bool, noBody: bool)

  const VERSION: string := "HTTP/1.1 "

  /** `_header` always starts with the status line, and HTTP header text is ASCII. */
  type Head = h: HeadInfo | VERSION <= h.text
      && IsAscii(h.text) witness HeadInfo("HTTP/1.1 200 OK\r\n\r\n", false, false, false)

  datatype Message = Message(
    implicitHead: Head, head: Option<Head>, hasBody: bool, chunked: bool, last: bool,
    headerSent: bool, finished: bool, trailer: seq<string>, bytes: seq<byte>)

  function NewMessage(implicitHead: Head, hasBody: bool): Message
  {
    Message(implicitHead, None, hasBody, false, false, false, false, [], [])
  }

  datatype Op = WriteHead(h: Head) | Write(d: Data) | AddTrailers(lines: seq<string>) | FlushHeaders
      | End(data: Option<Data>)

  function StoreHead(m: Message, h: Head): Message
  {
    m.(head := Some(h), hasBody := m.hasBody && !h.noBody, chunked := h.chunked, last := m.last || h.last,
       headerSent := false)
  }

  function ImplicitHead(m: Message): (r: Message)
    ensures r.head.Some?
  {
    if m.head.None? then StoreHead(m, m.implicitHead) else m
  }

  /** `_send` on a message that owns the socket: the header goes out with the first data. */
  function Send(m: Message, d: Data): Message
    requires m.head.Some?
  {
    var out :=
      if m.headerSent then d.Wire()
      else if d.Text? then Encode(m.head.value.text + d.s, d.enc)
      else Encode(m.head.value.text, Binary) + d.Wire();
    m.(headerSent := true, bytes := m.bytes + out)
  }

  function SendAll(m: Message, ds: seq<Data>): (r: Message)
    requires m.head.Some?
    ensures r.head.Some?
    decreases |ds|
  {
    if ds == [] then m else SendAll(Send(m, ds[0]), ds[1..])
  }

  /** The pieces that `write` passes to `_send` for one non-empty chunk. */
  function ChunkPieces(chunked: bool, d: Data): (r: seq<Data>)
    requires !d.Empty()
    ensures r != []
    ensures forall i :: 0 <= i < |r| ==> !r[i].Empty()
  {
    if !chunked then [d]
    else if d.Text? && !d.enc.Binary? then [Text(Hex(d.Size()) + CRLF + d.s + CRLF, d.enc)]
    else [Text(Hex(d.Size()), Binary), Bytes(CRLF_BYTES), d, Bytes(CRLF_BYTES)]
  }

  function WriteData(m: Message, d: Data): Message
  {
    if m.finished then m
    else
      var m' := ImplicitHead(m);
      if !m'.hasBody || d.Empty() then m' else SendAll(m', ChunkPieces(m'.chunked, d))
  }

  function LastPiece(m: Message): (d: Data)
    ensures d.Text?
  {
    if m.hasBody && m.chunked then Text("0" + CRLF + TrailerText(m.trailer) + CRLF, Binary) else Text("", Binary)
  }

  function WriteOptional(m: Message, d: Option<Data>): (r: Message)
    requires m.head.Some?
    ensures r.head.Some?
  {
    if d.Some? && m.hasBody then WriteData(m, d.value) else m
  }

  function Finish(m: Message, d: Option<Data>): Message
  {
    if m.finished then m
    else
      var m' := WriteOptional(ImplicitHead(m), d);
      Send(m', LastPiece(m')).(finished := true)
  }

  /** The effect of one call on the message and on the bytes it has produced. */
  function Step(m: Message, op: Op): Message
  {
    match op
    case WriteHead(h) => StoreHead(m, h)
    case Write(d) => WriteData(m, d)
    case AddTrailers(lines) => m.(trailer := lines)
    case FlushHeaders => if m.head.None? then Send(ImplicitHead(m), Text("", Utf8)) else m
    case End(d) => Finish(m, d)
  }

  /** `writeHead` "must only be called once on a message", and before `end`; everything else is allowed always. */
  predicate Allowed(m: Message, op: Op) { op.WriteHead? ==> m.head.None? && !m.finished }

  /** What every reachable message satisfies. */
  predicate Consistent(m: Message)
  {
    && (m.headerSent ==> m.head.Some?)
    && (!m.headerSent ==> m.bytes == [])
    && (m.finished ==> m.headerSent)
  }

  lemma {:induction false} SendAllAppends(m: Message, ds: seq<Data>)
    requires m.head.Some? && m.headerSent
    ensures SendAll(m, ds) == m.(bytes := SendAll(m, ds).bytes)
    ensures m.bytes <= SendAll(m, ds).bytes
    decreases |ds|
  {
    if ds != [] {
      SendAllAppends(Send(m, ds[0]), ds[1..]);
    }
  }

  lemma StepKeepsConsistent(m: Message, op: Op)
    requires Consistent(m) && Allowed(m, op)
    ensures Consistent(Step(m, op))
    ensures m.bytes <= Step(m, op).bytes
    ensures m.finished ==> Step(m, op).bytes == m.bytes && Step(m, op).finished && Step(m, op).last == m.last
  {
    match op
    case Write(d) => WriteKeepsConsistent(m, d);
    case End(d) => FinishKeepsConsistent(m, d);
    case _ =>
  }

  lemma FinishKeepsConsistent(m: Message, d: Option<Data>)
    requires Consistent(m)
    ensures Consistent(Finish(m, d)) && m.bytes <= Finish(m, d).bytes && Finish(m, d).finished
    ensures m.finished ==> Finish(m, d) == m
  {
    if !m.finished {
      var m0 := ImplicitHead(m);
      if d.Some? { WriteKeepsConsistent(m0, d.value); }
      var m' := WriteOptional(m0, d);
      assert m.bytes <= m'.bytes <= Send(m', LastPiece(m')).bytes;
    }
  }

  lemma WriteKeepsConsistent(m: Message, d: Data)
    requires Consistent(m)
    ensures Consistent(WriteData(m, d)) && m.bytes <= WriteData(m, d).bytes
    ensures WriteData(m, d).finished == m.finished && (m.finished ==> WriteData(m, d) == m)
    ensures m.head.Some? ==> WriteData(m, d).hasBody == m.hasBody && WriteData(m, d).chunked == m.chunked
    ensures m.head.Some? ==> WriteData(m, d).head == m.head && WriteData(m, d).trailer == m.trailer
  {
    var m' := ImplicitHead(m);
    if !m.finished && m'.hasBody && !d.Empty() {
      var ds := ChunkPieces(m'.chunked, d);
      SendAllAppends(Send(m', ds[0]), ds[1..]);
    }
  }
}
