/** The incremental parser and the serializer of the V8 debugger protocol. */
module DebuggerProtocol {
  import opened Common
  import opened Seqs
  import opened TurnParser

  // ---- Text and its bytes

  /** The length of a character in UTF-8. */
  function Width(c: char): (n: nat)
    ensures 1 <= n <= 4
  {
    if c as int < 0x80 then 1 else if c as int < 0x800 then 2 else if c as int < 0x1_0000 then 3 else 4
  }

  function Bytes(s: string): nat { if s == [] then 0 else Width(s[0]) + Bytes(s[1..]) }

  /** How many characters lie before byte `n`, and how many bytes of the next one. */
  function Before(s: string, n: nat): nat
  {
    if n == 0 || s == [] || Width(s[0]) > n then 0 else 1 + Before(s[1..], n - Width(s[0]))
  }

  function Inside(s: string, n: nat): nat
  {
    if n == 0 || s == [] || Width(s[0]) > n then n else Inside(s[1..], n - Width(s[0]))
  }

  /** How input is read: the text for the part of a character before and after a cut behind `n` of its bytes, and
      the length that a header announces. */
  datatype Reading = Reading(head: (char, nat) -> string, tail: (char, nat) -> string, length: string -> Number)
  {
    /** The length is the number in the header's content length. */
    ghost predicate Standard() { forall header {:trigger LengthOf(header)} :: length(header) == LengthOf(header) }

    /** A replacement character for each byte after the cut. */
    ghost predicate Sane() { forall c: char, n: nat :: 1 <= |tail(c, n)| <= 3 }

    /** The text of the first `n` bytes, and of the others. */
    function Take(s: string, n: nat): string
    {
      if n == 0 || s == [] then [] else if Width(s[0]) <= n then [s[0]] + Take(s[1..], n - Width(s[0]))
          else head(s[0], n)
    }

    function Drop(s: string, n: nat): string
    {
      if n == 0 || s == [] then s else if Width(s[0]) <= n then Drop(s[1..], n - Width(s[0]))
          else tail(s[0], n) + s[1..]
    }

    lemma {:induction false} TakePrefix(s: string, t: string, n: nat)
      requires n <= Bytes(s)
      ensures Take(s + t, n) == Take(s, n)
    {
      if n != 0 {
        assert (s + t)[1..] == s[1..] + t;
        if Width(s[0]) <= n { TakePrefix(s[1..], t, n - Width(s[0])); }
      }
    }

    lemma {:induction false} DropPrefix(s: string, t: string, n: nat)
      requires n <= Bytes(s)
      ensures Drop(s + t, n) == Drop(s, n) + t
    {
      if n != 0 {
        assert (s + t)[1..] == s[1..] + t;
        if Width(s[0]) <= n {
          DropPrefix(s[1..], t, n - Width(s[0]));
        } else {
          Assoc(tail(s[0], n), s[1..], t);
        }
      }
    }

    lemma {:induction false} WholeText(s: string, t: string)
      ensures Take(s + t, Bytes(s)) == s && Drop(s + t, Bytes(s)) == t
    {
      if s == [] {
        assert s + t == t;
      } else {
        assert (s + t)[1..] == s[1..] + t;
        WholeText(s[1..], t);
      }
    }

    lemma {:induction false} DropSum(s: string, a: string, n: nat)
      ensures Drop(a + s, Bytes(a) + n) == Drop(s, n)
    {
      if a == [] {
        assert a + s == s;
      } else {
        assert (a + s)[1..] == a[1..] + s;
        DropSum(s, a[1..], n);
      }
    }

    /** The text from a byte on is shorter than the whole, unless it is the whole, or the character that is cut becomes
        more characters than there were before it. */
    lemma {:induction false} DropShorter(s: string, n: nat)
      requires Sane() && n <= Bytes(s)
      ensures Before(s, n) <= |s| && (Inside(s, n) > 0 ==> Before(s, n) < |s|)
      ensures |Drop(s, n)| == if Inside(s, n) == 0 then |s| - Before(s, n)
                              else |s| - Before(s, n) - 1 + |tail(s[Before(s, n)], Inside(s, n))|
      ensures Inside(s, n) == 0 ==> (Before(s, n) > 0 <==> n > 0)
    {
      if n != 0 && s != [] && Width(s[0]) <= n {
        DropShorter(s[1..], n - Width(s[0]));
      }
    }

    lemma {:induction false} DropSome(s: string, n: nat)
      requires Sane() && n < Bytes(s)
      ensures Drop(s, n) != []
    {
      if n != 0 && Width(s[0]) <= n { DropSome(s[1..], n - Width(s[0])); }
    }

    lemma {:induction false} DropLength(s: string, n: nat)
      requires Sane()
      ensures |Drop(s, n)| <= |s| + 2
    {
      if n != 0 && s != [] && Width(s[0]) <= n {
        DropLength(s[1..], n - Width(s[0]));
      }
    }
  }

  lemma {:induction false} BytesSum(s: string, t: string)
    ensures Bytes(s + t) == Bytes(s) + Bytes(t)
  {
    if s == [] {
      assert s + t == t;
    } else {
      assert (s + t)[1..] == s[1..] + t;
      BytesSum(s[1..], t);
    }
  }

  // ---- Headers

  const BLANK: string := "\r\n\r\n"

  predicate BlankAt(s: string) { |s| >= 4 && s[0] == '\r' && s[1] == '\n' && s[2] == '\r' && s[3] == '\n' }

  /** `indexOf` the blank line. */
  function EndOfHeaders(s: string): (r: Option<nat>)
    ensures r.Some? ==> r.value + 4 <= |s|
  {
    if BlankAt(s) then Some(0)
    else if s == [] then None
    else match EndOfHeaders(s[1..]) case None => None case Some(i) => Some(i + 1)
  }

  lemma {:induction false} EndStable(s: string, t: string)
    requires EndOfHeaders(s).Some?
    ensures EndOfHeaders(s + t) == EndOfHeaders(s)
  {
    if !BlankAt(s) {
      assert (s + t)[1..] == s[1..] + t;
      EndStable(s[1..], t);
      assert !BlankAt(s + t);
    }
  }

  // ---- Header lines

  /** `split('\r\n')`. */
  function Lines(s: string): (r: seq<string>)
    ensures |r| >= 1
  {
    if s == [] then [[]]
    else if |s| >= 2 && s[0] == '\r' && s[1] == '\n' then [[]] + Lines(s[2..])
    else var r := Lines(s[1..]); [[s[0]] + r[0]] + r[1..]
  }

  /** A colon and at least one blank separate a name from a value, and a value from anything after it. */
  predicate SeparatorAt(s: string) { |s| >= 2 && s[0] == ':' && s[1] == ' ' }

  function FirstPart(s: string): string { if s == [] || SeparatorAt(s) then [] else [s[0]] + FirstPart(s[1..]) }

  function SkipBlanks(s: string): string { if s != [] && s[0] == ' ' then SkipBlanks(s[1..]) else s }

  function OtherParts(s: string): Option<string>
  {
    if s == [] then None else if SeparatorAt(s) then Some(SkipBlanks(s[1..])) else OtherParts(s[1..])
  }

  function ValueOf(line: string): Option<string>
  {
    match OtherParts(line) case None => None case Some(v) => Some(FirstPart(v))
  }

  const CONTENT_LENGTH: string := "Content-Length"

  /** The last line with the name decides. */
  function LengthField(lines: seq<string>): Option<string>
  {
    if lines == [] then None
    else
      var last := lines[|lines| - 1];
      if FirstPart(last) == CONTENT_LENGTH then ValueOf(last) else LengthField(lines[..|lines| - 1])
  }

  // ---- Numbers

  /** What unary plus makes of a string, without the rounding of large or long numbers. Of a finite number the next
      lower integer is kept, and whether it is an integer itself. */
  datatype Number = NotANumber | Infinite(positive: bool) | Finite(floor: int, whole: bool)
  {
    function Negated(): Number
    {
      match this
      case NotANumber => NotANumber
      case Infinite(p) => Infinite(!p)
      case Finite(n, w) => if w then Finite(-n, true) else Finite(-n - 1, false)
    }

    /** As a length: one that no text reaches, one that text with `n` bytes reaches, and one that is not below zero. */
    predicate Never() { this == NotANumber || this == Infinite(true) }

    predicate ReachedBy(n: int) { this == Infinite(false) || (Finite? && if whole then floor <= n else floor < n) }

    predicate Natural() { Finite? && floor >= 0 }

    /** Where a message with this length ends, as the operand of `slice`: without the fraction, and reduced to 32 bits
        with a sign. */
    function End(start: nat): int
      requires !Never()
    {
      if Infinite? then 0 else if start + floor >= 0 then start + floor
          else Int32(start + floor + if whole then 0 else 1)
    }
  }

  /** The number `x`. */
  function Rounded(x: real): Number { Finite(x.Floor, x.Floor as real == x) }

  /** `~~` on integers below zero; texts are shorter than 2^31 bytes. */
  function Int32(n: int): int { if n >= -0x8000_0000 then n else (n + 0x8000_0000) % 0x1_0000_0000 - 0x8000_0000 }

  /** The place that an operand of `slice` stands for: below zero it counts from the end. */
  function Place(e: int, len: nat): (c: nat)
    ensures c <= len
  {
    if e > len then len else if e >= 0 then e else if len + e >= 0 then len + e else 0
  }

  predicate IsDigit(c: char) { '0' <= c <= '9' }

  function Digit(c: char): nat
    requires IsDigit(c)
  {
    c as int - '0' as int
  }

  /** White space and line ends. */
  predicate IsBlank(c: char)
  {
    || c == ' ' || 9 <= c as int <= 13 || c as int in {0xA0, 0x1680, 0x180E, 0x2028, 0x2029, 0x202F, 0x205F, 0x3000,
                                                       0xFEFF}
    || 0x2000 <= c as int <= 0x200A
  }

  function TrimLeft(s: string): string { if s != [] && IsBlank(s[0]) then TrimLeft(s[1..]) else s }

  function TrimRight(s: string): string
  {
    if s != [] && IsBlank(s[|s| - 1]) then TrimRight(s[..|s| - 1]) else s
  }

  predicate AllDigits(s: string) { forall i :: 0 <= i < |s| ==> IsDigit(s[i]) }

  /** The digits that a text begins with. */
  function Leading(s: string): (r: string)
    ensures AllDigits(r) && |r| <= |s|
  {
    if s != [] && IsDigit(s[0]) then [s[0]] + Leading(s[1..]) else []
  }

  function Value(s: string): nat
    requires AllDigits(s)
  {
    if s == [] then 0 else 10 * Value(s[..|s| - 1]) + Digit(s[|s| - 1])
  }

  function HexValue(s: string): Option<nat>
  {
    if s == [] then Some(0)
    else
      var c, init := s[|s| - 1], HexValue(s[..|s| - 1]);
      if init.None? then None
      else if IsDigit(c) then Some(16 * init.value + Digit(c))
      else if 'a' <= c <= 'f' then Some(16 * init.value + 10 + (c as int - 'a' as int))
      else if 'A' <= c <= 'F' then Some(16 * init.value + 10 + (c as int - 'A' as int))
      else None
  }

  function TenTo(n: nat): (r: real)
    ensures r > 0.0
  {
    if n == 0 then 1.0 else 10.0 * TenTo(n - 1)
  }

  function Scaled(n: nat, exponent: int): real
  {
    if exponent >= 0 then n as real * TenTo(exponent) else n as real / TenTo(-exponent)
  }

  /** The part from the letter e on, if there is one. */
  function Exponent(s: string): Option<int>
  {
    if s == [] then Some(0)
    else if s[0] != 'e' && s[0] != 'E' then None
    else
      var signed := |s| > 1 && (s[1] == '+' || s[1] == '-');
      var digits := if signed then s[2..] else s[1..];
      if digits == [] || !AllDigits(digits) then None
      else Some(if signed && s[1] == '-' then 0 - Value(digits) else Value(digits))
  }

  /** The digits before the point, and what comes after them. */
  function Decimals(whole: string, after: string): Number
    requires AllDigits(whole)
  {
    var point := after != [] && after[0] == '.';
    var fraction := if point then Leading(after[1..]) else [];
    var end := if point then after[1..][|fraction|..] else after;
    Assembled(whole, fraction, Exponent(end))
  }

  /** The number with these digits and this exponent. */
  function Assembled(whole: string, fraction: string, exponent: Option<int>): Number
    requires AllDigits(whole) && AllDigits(fraction)
  {
    if whole + fraction == [] || exponent.None? then NotANumber
    else Rounded(Scaled(Value(whole + fraction), exponent.value - |fraction|))
  }

  /** Digits with an optional fraction and exponent. */
  function Unsigned(s: string): Number
  {
    if s == "Infinity" then Infinite(true) else Decimals(Leading(s), s[|Leading(s)|..])
  }

  function ToNumber(s: string): Number { Signed(TrimRight(TrimLeft(s))) }

  function Signed(s: string): Number
  {
    if s == [] then Finite(0, true)
    else if s[0] == '+' then Unsigned(s[1..])
    else if s[0] == '-' then Unsigned(s[1..]).Negated()
    else if |s| >= 2 && s[0] == '0' && (s[1] == 'x' || s[1] == 'X') then Hexadecimal(s[2..])
    else Unsigned(s)
  }

  function Hexadecimal(digits: string): Number
  {
    if digits == [] || HexValue(digits).None? then NotANumber else Finite(HexValue(digits).value, true)
  }

  /** A missing field is not a number. */
  function LengthOf(header: string): Number
  {
    match LengthField(Lines(header)) case None => NotANumber case Some(v) => ToNumber(v)
  }

  // ---- The parser's meaning

  datatype State = Headers | Body(length: Number, start: nat)

  /** The text after a message. */
  function Rest(dec: Reading, raw: string, start: nat, length: nat): string { dec.Drop(raw, start + length) }

  lemma {:induction false} BlankIsFour(s: string)
    requires EndOfHeaders(s).Some?
    ensures Bytes(s[..EndOfHeaders(s).value + 4]) == Bytes(s[..EndOfHeaders(s).value]) + 4
  {
    var i := EndOfHeaders(s).value;
    if BlankAt(s) {
      assert s[..4] == [s[0]] + ([s[1]] + ([s[2]] + [s[3]]));
      assert Bytes([s[3]]) == 1 && Bytes([s[2]] + [s[3]]) == 2 by {
        assert ([s[2]] + [s[3]])[1..] == [s[3]] && [s[3]][1..] == [];
      }
      BytesSum([s[1]], [s[2]] + [s[3]]);
      BytesSum([s[0]], [s[1]] + ([s[2]] + [s[3]]));
      assert Bytes([s[0]]) == 1 && Bytes([s[1]]) == 1 by { assert [s[0]][1..] == [] && [s[1]][1..] == []; }
    } else {
      BlankIsFour(s[1..]);
      assert s[..i][1..] == s[1..][..i - 1] && s[..i + 4][1..] == s[1..][..i + 3];
    }
  }

  lemma RestAtBody(dec: Reading, raw: string, start: nat, length: nat)
    requires EndOfHeaders(raw).Some? && start == Bytes(raw[..EndOfHeaders(raw).value]) + 4
    ensures Rest(dec, raw, start, length) == dec.Drop(raw[EndOfHeaders(raw).value + 4..], length)
  {
    var i := EndOfHeaders(raw).value + 4;
    BlankIsFour(raw);
    assert raw == raw[..i] + raw[i..];
    dec.DropSum(raw[i..], raw[..i], length);
  }

  lemma NaturalShorter(dec: Reading, raw: string, start: nat, length: nat)
    requires dec.Sane() && EndOfHeaders(raw).Some? && start == Bytes(raw[..EndOfHeaders(raw).value]) + 4
    ensures |Rest(dec, raw, start, length)| < |raw|
  {
    RestAtBody(dec, raw, start, length);
    dec.DropLength(raw[EndOfHeaders(raw).value + 4..], length);
  }

  /** The state after the headers of a text. */
  function BodyOf(dec: Reading, raw: string): State
    requires EndOfHeaders(raw).Some?
  {
    Body(dec.length(raw[..EndOfHeaders(raw).value]), Bytes(raw[..EndOfHeaders(raw).value]) + 4)
  }

  lemma BodyOfStable(dec: Reading, raw: string, d: string)
    requires EndOfHeaders(raw).Some?
    ensures EndOfHeaders(raw + d).Some? && BodyOf(dec, raw + d) == BodyOf(dec, raw)
  {
    EndStable(raw, d);
    assert (raw + d)[..EndOfHeaders(raw).value] == raw[..EndOfHeaders(raw).value];
  }

  /** In the body state the text still starts with its headers. */
  predicate Proper(dec: Reading, st: State, raw: string)
  {
    st.Body? ==> EndOfHeaders(raw).Some? && st == BodyOf(dec, raw)
  }

  lemma ProperGrows(dec: Reading, st: State, raw: string, d: string)
    requires Proper(dec, st, raw)
    ensures Proper(dec, st, raw + d)
  {
    if st.Body? { BodyOfStable(dec, raw, d); }
  }

  /** The state in which the test for a complete body is made. */
  function Here(dec: Reading, st: State, raw: string): State
  {
    if st.Headers? && EndOfHeaders(raw).Some? then BodyOf(dec, raw) else st
  }

  function TurnOf(dec: Reading, st: State, raw: string): Turn<State>
  {
    var b := Here(dec, st, raw);
    if b.Body? && b.length.ReachedBy(Bytes(raw) - b.start) then
      Delivery(dec, b.start, b.length.End(b.start), raw, Bytes(raw))
    else
      Wait(b)
  }

  /** The two slices of a text with `len` bytes, the first of which is empty when its end lies before its start. */
  function Delivery(dec: Reading, start: nat, end: int, raw: string, len: nat): Turn<State>
  {
    var c := Place(end, len);
    Deliver(dec.Take(dec.Drop(raw, start), if c > start then c - start else 0), dec.Drop(raw, c))
  }

  lemma TurnIs(dec: Reading, st: State, raw: string, length: Number, start: nat, end: int)
    requires Here(dec, st, raw) == Body(length, start) && length.ReachedBy(Bytes(raw) - start)
    requires !length.Never() && length.End(start) == end
    ensures TurnOf(dec, st, raw) == Delivery(dec, start, end, raw, Bytes(raw))
  {
  }

  /** The message ends within what has arrived, counted from the front. */
  predicate FixedAt(dec: Reading, st: State, raw: string)
  {
    var b := Here(dec, st, raw);
    b.Body? && !b.length.Never() && 0 <= b.length.End(b.start) <= Bytes(raw)
  }

  /** The end of the message does not depend on how much has arrived. */
  predicate SteadyAt(dec: Reading, st: State, raw: string)
  {
    var b := Here(dec, st, raw);
    b.Body? && (b.length.Natural() || (!b.length.Never() && 0 <= b.length.End(b.start) <= b.start))
  }

  function Fixed(dec: Reading): (State, string) -> bool { (st, raw) => FixedAt(dec, st, raw) }

  function Steady(dec: Reading): (State, string) -> bool { (st, raw) => SteadyAt(dec, st, raw) }

  function Parser(dec: Reading): Machine<State>
  {
    Machine(Headers, (st, raw) => TurnOf(dec, st, raw), (st, raw) => Proper(dec, st, raw), Fixed(dec))
  }

  /** The text from the body on. */
  lemma AtBody(dec: Reading, raw: string)
    requires EndOfHeaders(raw).Some?
    ensures var i := EndOfHeaders(raw).value; dec.Drop(raw, Bytes(raw[..i]) + 4) == raw[i + 4..]
    ensures var i := EndOfHeaders(raw).value; Bytes(raw) == Bytes(raw[..i]) + 4 + Bytes(raw[i + 4..])
  {
    var i := EndOfHeaders(raw).value + 4;
    BlankIsFour(raw);
    assert raw == raw[..i] + raw[i..];
    dec.WholeText(raw[..i], raw[i..]);
    BytesSum(raw[..i], raw[i..]);
  }

  // ---- The laws of the parser

  lemma DeliveryStable(dec: Reading, start: nat, end: int, raw: string, d: string)
    requires start <= Bytes(raw) && Bytes(dec.Drop(raw, start)) == Bytes(raw) - start && 0 <= end <= Bytes(raw)
    ensures var t := Delivery(dec, start, end, raw, Bytes(raw));
            Delivery(dec, start, end, raw + d, Bytes(raw + d)) == Deliver(t.body, t.rest + d)
  {
    BytesSum(raw, d);
    dec.DropPrefix(raw, d, end);
    dec.DropPrefix(raw, d, start);
    dec.TakePrefix(dec.Drop(raw, start), d, if end > start then end - start else 0);
  }

  /** What is known when a body is delivered. */
  lemma AtDelivery(dec: Reading, st: State, raw: string)
    requires Proper(dec, st, raw) && TurnOf(dec, st, raw).Deliver?
    ensures EndOfHeaders(raw).Some? && Here(dec, st, raw) == BodyOf(dec, raw)
            && forall d :: Here(dec, st, raw + d) == BodyOf(dec, raw)
    ensures var b := BodyOf(dec, raw);
            && b.length.ReachedBy(Bytes(raw) - b.start)
            && TurnOf(dec, st, raw) == Delivery(dec, b.start, b.length.End(b.start), raw, Bytes(raw))
            && b.start <= Bytes(raw) && Bytes(dec.Drop(raw, b.start)) == Bytes(raw) - b.start
  {
    assert EndOfHeaders(raw).Some? && Here(dec, st, raw) == BodyOf(dec, raw);
    forall d ensures Here(dec, st, raw + d) == BodyOf(dec, raw) {
      BodyOfStable(dec, raw, d);
    }
    AtBody(dec, raw);
  }

  lemma DeliversOn(dec: Reading, st: State, raw: string, d: string)
    requires Proper(dec, st, raw) && TurnOf(dec, st, raw).Deliver?
    ensures var b := Here(dec, st, raw);
            TurnOf(dec, st, raw + d) == Delivery(dec, b.start, b.length.End(b.start), raw + d, Bytes(raw + d))
  {
    AtDelivery(dec, st, raw);
    BytesSum(raw, d);
    assert Here(dec, st, raw + d) == Here(dec, st, raw);
  }

  lemma StableTurn(dec: Reading, st: State, raw: string, d: string)
    requires Proper(dec, st, raw)
    ensures Parser(dec).Stable(st, raw, d)
  {
    var t := TurnOf(dec, st, raw);
    if t.Wait? {
      if st.Headers? && EndOfHeaders(raw).Some? { BodyOfStable(dec, raw, d); }
    } else if FixedAt(dec, st, raw) {
      var b := Here(dec, st, raw);
      AtDelivery(dec, st, raw);
      DeliversOn(dec, st, raw, d);
      DeliveryStable(dec, b.start, b.length.End(b.start), raw, d);
    }
  }

  lemma SteadyFixedAt(dec: Reading, st: State, raw: string, d: string)
    requires Proper(dec, st, raw) && TurnOf(dec, st, raw).Deliver? && SteadyAt(dec, st, raw + d)
    ensures FixedAt(dec, st, raw)
  {
    AtDelivery(dec, st, raw);
    assert Here(dec, st, raw + d) == Here(dec, st, raw);
  }

  lemma Laws(dec: Reading)
    ensures Parser(dec).Lawful() && Eager(Parser(dec)) && Foresees(Steady(dec), Parser(dec))
  {
    var m := Parser(dec);
    forall st: State, raw: string, d: string | Proper(dec, st, raw) ensures Proper(dec, st, raw + d) {
      ProperGrows(dec, st, raw, d);
    }
    forall st, raw, d | m.legal(st, raw) ensures m.Stable(st, raw, d) {
      StableTurn(dec, st, raw, d);
    }
    forall st, raw, d | m.legal(st, raw) && m.turn(st, raw).Deliver? ensures m.turn(st, raw + d).Deliver? {
      DeliversOn(dec, st, raw, d);
    }
    forall st, raw, d | m.legal(st, raw) && m.turn(st, raw).Deliver?
        && SteadyAt(dec, st, raw + d) ensures m.fixed(st, raw) {
      SteadyFixedAt(dec, st, raw, d);
    }
  }

  /** However a text is split across calls of `execute`, the bodies delivered, the state and the remaining text are
      those of one call on the whole, provided that no message ends at a place that depends on what has arrived. */
  lemma ChunkingInvariance(dec: Reading, chunks: seq<string>)
    requires All(Steady(dec), Parser(dec), Headers, Concat(chunks))
    ensures Fed(Parser(dec), New(Parser(dec)), chunks) == Executed(Parser(dec), New(Parser(dec)), Concat(chunks))
  {
    Laws(dec);
    assert Parser(dec).turn(Headers, []) == Wait(Headers);
    AnyCut(Steady(dec), Parser(dec), chunks);
  }

  // ---- And only then

  function Letters(n: nat): (s: string)
    ensures Bytes(s) == n && forall i :: 0 <= i < |s| ==> s[i] == 'a'
  {
    if n == 0 then [] else ['a'] + Letters(n - 1)
  }

  lemma {:induction false} NoHeader(s: string)
    requires '\r' !in s
    ensures EndOfHeaders(s) == None
  {
    if s != [] { NoHeader(s[1..]); }
  }

  lemma PlainTurn(dec: Reading, s: string)
    requires '\r' !in s
    ensures Parser(dec).turn(Headers, s) == Wait(Headers)
  {
    NoHeader(s);
  }

  /** The turn when the message ends just where `raw` does. */
  lemma DeliveryOfAll(dec: Reading, start: nat, end: int, raw: string, d: string)
    requires start <= Bytes(raw) && Bytes(dec.Drop(raw, start)) == Bytes(raw) - start
             && Place(end, Bytes(raw + d)) == Bytes(raw)
    ensures Delivery(dec, start, end, raw + d, Bytes(raw + d)) == Deliver(dec.Drop(raw, start), d)
  {
    var body := dec.Drop(raw, start);
    dec.DropPrefix(raw, d, start);
    dec.WholeText(raw, d);
    dec.WholeText(body, d);
    if body == [] { assert dec.Take(body + d, 0) == []; }
  }

  /** A message whose end counts from the back of what has arrived: there is more text that changes it. */
  lemma CountedFromBack(dec: Reading, st: State, raw: string, e: int) returns (d: string)
    requires dec.Sane() && Proper(dec, st, raw) && TurnOf(dec, st, raw).Deliver? && !Here(dec, st, raw).length.Never()
    requires e == Here(dec, st, raw).length.End(Here(dec, st, raw).start) < 0
    ensures !Composes(Parser(dec), st, raw, d)
  {
    d := Letters(-e);
    BackTurns(dec, st, raw, e, d);
    PlainTurn(dec, d);
    LeftoverShows(Parser(dec), st, raw, d);
  }

  lemma BackTurns(dec: Reading, st: State, raw: string, e: int, d: string)
    requires dec.Sane() && Proper(dec, st, raw) && TurnOf(dec, st, raw).Deliver? && !Here(dec, st, raw).length.Never()
    requires e == Here(dec, st, raw).length.End(Here(dec, st, raw).start) < 0 && Bytes(d) == -e
    ensures var m := Parser(dec);
            && m.turn(st, raw).Deliver? && m.turn(st, raw).rest != []
            && m.turn(st, raw + d).Deliver? && m.turn(st, raw + d).rest == d
  {
    var b := Here(dec, st, raw);
    BytesSum(raw, d);
    AtDelivery(dec, st, raw);
    DeliversOn(dec, st, raw, d);
    DeliveryOfAll(dec, b.start, e, raw, d);
    dec.DropSome(raw, Place(e, Bytes(raw)));
  }

  /** A message whose end is reduced to a place behind what has arrived. */
  lemma BehindAll(dec: Reading, st: State, raw: string, e: int) returns (d: string)
    requires Proper(dec, st, raw) && TurnOf(dec, st, raw).Deliver? && !Here(dec, st, raw).length.Never()
    requires e == Here(dec, st, raw).length.End(Here(dec, st, raw).start) > Bytes(raw)
    ensures !Composes(Parser(dec), st, raw, d)
  {
    var m, b := Parser(dec), Here(dec, st, raw);
    d := ['a'];
    assert Bytes(d) == 1 by { assert d[1..] == []; }
    BytesSum(raw, d);
    AtDelivery(dec, st, raw);
    DeliversOn(dec, st, raw, d);
    RestOfAll(dec, b.start, e, raw);
    RestOfAll(dec, b.start, e, raw + d);
    PlainTurn(dec, []);
    PlainTurn(dec, d);
    GreedShows(m, st, raw, d);
  }

  lemma RestOfAll(dec: Reading, start: nat, end: int, raw: string)
    requires end >= Bytes(raw)
    ensures Delivery(dec, start, end, raw, Bytes(raw)).rest == []
  {
    Unit(raw);
    dec.WholeText(raw, []);
  }

  lemma {:induction false} NotFixed(dec: Reading, st: State, raw: string, n: nat) returns (d: string)
    requires dec.Sane() && Proper(dec, st, raw) && !AllIn(Fixed(dec), Parser(dec), st, raw, n)
    ensures !Composes(Parser(dec), st, raw, d)
    decreases n
  {
    var m, b := Parser(dec), Here(dec, st, raw);
    AtDelivery(dec, st, raw);
    if FixedAt(dec, st, raw) {
      d := NotFixed(dec, Headers, m.turn(st, raw).rest, n - 1);
      Laws(dec);
      ComposesAfterTurn(m, st, raw, d);
    } else if b.length.End(b.start) < 0 {
      d := CountedFromBack(dec, st, raw, b.length.End(b.start));
    } else {
      d := BehindAll(dec, st, raw, b.length.End(b.start));
    }
  }

  /** A text can be continued in a later call, whatever follows, if and only if each of its messages ends within
      what has arrived, counted from the front. */
  lemma ComposesExactly(dec: Reading, raw: string)
    requires dec.Sane()
    ensures (forall d :: Composes(Parser(dec), Headers, raw, d)) <==> All(Fixed(dec), Parser(dec), Headers, raw)
  {
    var m := Parser(dec);
    if All(Fixed(dec), m, Headers, raw) {
      Laws(dec);
      forall d ensures Composes(m, Headers, raw, d) {
        ParseMore(m, Headers, raw, d);
      }
    } else {
      var n: nat :| !AllIn(Fixed(dec), m, Headers, raw, n);
      var d := NotFixed(dec, Headers, raw, n);
      assert !Composes(m, Headers, raw, d);
    }
  }

  // ---- Waiting forever

  lemma WithoutLength(dec: Reading, raw: string, more: string)
    requires EndOfHeaders(raw).Some? && BodyOf(dec, raw).length.Never()
    ensures Parse(Parser(dec), Headers, raw + more) == Outcome([], BodyOf(dec, raw), raw + more)
    ensures TurnOf(dec, Headers, raw + more).Wait?
  {
    BodyOfStable(dec, raw, more);
    Unfold(Parser(dec), Headers, raw + more);
  }

  /** Enough text after the header delivers a body. */
  lemma EnoughText(dec: Reading, raw: string) returns (more: string)
    requires EndOfHeaders(raw).Some? && !BodyOf(dec, raw).length.Never()
    ensures TurnOf(dec, Headers, raw + more).Deliver?
  {
    var b := BodyOf(dec, raw);
    var n := if b.length.Natural() then b.length.floor + 1 else 0;
    more := Letters(n);
    BodyOfStable(dec, raw, more);
    AtBody(dec, raw);
    BytesSum(raw, more);
  }

  /** Exactly with a length that is not a number, or infinite, does the parser wait at a header forever; with any other,
      one below zero included, some continuation of the text makes it deliver a body. */
  lemma StuckExactly(dec: Reading, raw: string)
    requires EndOfHeaders(raw).Some?
    ensures BodyOf(dec, raw).length.Never() <==>
            forall more :: Parse(Parser(dec), Headers, raw + more) == Outcome([], BodyOf(dec, raw), raw + more)
    ensures BodyOf(dec, raw).length.Never() <==> forall more :: TurnOf(dec, Headers, raw + more).Wait?
  {
    if BodyOf(dec, raw).length.Never() {
      forall more
        ensures Parse(Parser(dec), Headers, raw + more) == Outcome([], BodyOf(dec, raw), raw + more)
        ensures TurnOf(dec, Headers, raw + more).Wait?
      {
        WithoutLength(dec, raw, more);
      }
    } else {
      var more := EnoughText(dec, raw);
      Unfold(Parser(dec), Headers, raw + more);
      assert Parse(Parser(dec), Headers, raw + more) != Outcome([], BodyOf(dec, raw), raw + more);
    }
  }

  // ---- Calls that do not return

  /** The rest of the message does not begin at the very beginning of the text. */
  predicate MovesAt(dec: Reading, st: State, raw: string)
  {
    var b := Here(dec, st, raw);
    b.Body? && !b.length.Never() && Place(b.length.End(b.start), Bytes(raw)) != 0
  }

  lemma SameText(dec: Reading, st: State, raw: string)
    requires Proper(dec, st, raw) && TurnOf(dec, st, raw).Deliver? && !MovesAt(dec, st, raw)
    ensures TurnOf(dec, st, raw).rest == raw && TurnOf(dec, Headers, raw) == TurnOf(dec, st, raw)
  {
    AtDelivery(dec, st, raw);
  }

  function Moves(dec: Reading): (State, string) -> bool { (st, raw) => MovesAt(dec, st, raw) }

  predicate Ascii(s: string) { forall i :: 0 <= i < |s| ==> s[i] as int < 0x80 }

  lemma {:induction false} AsciiDrop(dec: Reading, s: string, n: nat)
    requires Ascii(s) && n <= |s|
    ensures dec.Drop(s, n) == s[n..]
  {
    if s != [] { AsciiDrop(dec, s[1..], if n == 0 then 0 else n - 1); }
  }

  lemma {:induction false} AsciiBytes(s: string)
    requires Ascii(s)
    ensures Bytes(s) == |s|
  {
    if s != [] { AsciiBytes(s[1..]); }
  }

  lemma AsciiRest(dec: Reading, st: State, raw: string)
    requires Ascii(raw) && Proper(dec, st, raw) && TurnOf(dec, st, raw).Deliver? && MovesAt(dec, st, raw)
    ensures var rest := TurnOf(dec, st, raw).rest; Ascii(rest) && |rest| < |raw|
  {
    AtDelivery(dec, st, raw);
    AsciiBytes(raw);
    var b := Here(dec, st, raw);
    AsciiDrop(dec, raw, Place(b.length.End(b.start), |raw|));
  }

  /** For ASCII text a call returns if and only if it never comes to a message whose rest is the same text again. */
  lemma EndlessExactly(dec: Reading, raw: string)
    requires Ascii(raw)
    ensures Halts(Parser(dec), Headers, raw) <==> All(Moves(dec), Parser(dec), Headers, raw)
  {
    var m := Parser(dec);
    Laws(dec);
    forall st, raw | m.legal(st, raw) && Ascii(raw) && MovesAt(dec, st, raw) && m.turn(st, raw).Deliver?
      ensures Ascii(m.turn(st, raw).rest) && |m.turn(st, raw).rest| < |raw|
    {
      AsciiRest(dec, st, raw);
    }
    forall st, raw | m.legal(st, raw) && !MovesAt(dec, st, raw) && m.turn(st, raw).Deliver?
      ensures m.turn(st, raw).rest == raw && m.turn(Headers, raw) == m.turn(st, raw)
    {
      SameText(dec, st, raw);
    }
    HaltsExactly(Moves(dec), Ascii, m, raw);
  }

  /** For any text: the rest of a message is shorter if and only if it does not begin at the beginning, and the
      character that is cut, if one is, does not become more characters than there were before it. */
  lemma RestShorter(dec: Reading, st: State, raw: string, c: nat)
    requires dec.Sane() && Proper(dec, st, raw) && TurnOf(dec, st, raw).Deliver? && !Here(dec, st, raw).length.Never()
    requires c == Place(Here(dec, st, raw).length.End(Here(dec, st, raw).start), Bytes(raw))
    ensures Before(raw, c) <= |raw| && (Inside(raw, c) > 0 ==> Before(raw, c) < |raw|)
    ensures |TurnOf(dec, st, raw).rest| < |raw| <==>
            c > 0 && (Inside(raw, c) > 0 ==> |dec.tail(raw[Before(raw, c)], Inside(raw, c))| <= Before(raw, c))
  {
    AtDelivery(dec, st, raw);
    dec.DropShorter(raw, c);
  }

  /** A length that is not below zero: the message takes at least its blank line. */
  lemma NaturalRest(dec: Reading, st: State, raw: string)
    requires dec.Sane() && Proper(dec, st, raw) && TurnOf(dec, st, raw).Deliver? && Here(dec, st, raw).length.Natural()
    ensures |TurnOf(dec, st, raw).rest| < |raw|
  {
    AtDelivery(dec, st, raw);
    var b := Here(dec, st, raw);
    NaturalShorter(dec, raw, b.start, b.length.floor);
  }

  predicate NotBelowAt(dec: Reading, st: State, raw: string)
  {
    Here(dec, st, raw).Body? && Here(dec, st, raw).length.Natural()
  }

  function NotBelow(dec: Reading): (State, string) -> bool { (st, raw) => NotBelowAt(dec, st, raw) }

  predicate AnyText(raw: string) { true }

  /** With lengths that are not below zero every call returns. */
  lemma NaturalHalts(dec: Reading, st: State, raw: string)
    requires dec.Sane() && Proper(dec, st, raw) && All(NotBelow(dec), Parser(dec), st, raw)
    ensures ParseIn(Parser(dec), st, raw, |raw|).Some?
  {
    var m := Parser(dec);
    Laws(dec);
    forall st, raw | m.legal(st, raw) && NotBelowAt(dec, st, raw) && m.turn(st, raw).Deliver?
      ensures |m.turn(st, raw).rest| < |raw|
    {
      NaturalRest(dec, st, raw);
    }
    ShorterHalts(NotBelow(dec), AnyText, m, st, raw);
  }

  // ---- Frames

  function Decimal(n: nat): (s: string)
    ensures s != []
  {
    if n < 10 then [('0' as int + n) as char] else Decimal(n / 10) + [('0' as int + n % 10) as char]
  }

  lemma {:induction false} DecimalValue(n: nat)
    ensures AllDigits(Decimal(n)) && Value(Decimal(n)) == n
  {
    var d := ('0' as int + n % 10) as char;
    if n < 10 {
      assert Decimal(n)[..0] == [];
    } else {
      DecimalValue(n / 10);
      assert (Decimal(n / 10) + [d])[..|Decimal(n / 10)|] == Decimal(n / 10);
    }
  }

  lemma {:induction false} LeadingAll(s: string)
    requires AllDigits(s)
    ensures Leading(s) == s
  {
    if s != [] {
      LeadingAll(s[1..]);
      assert [s[0]] + s[1..] == s;
    }
  }

  /** A number written in digits is read as that number. */
  lemma DigitsRead(s: string)
    requires AllDigits(s) && s != []
    ensures ToNumber(s) == Finite(Value(s), true)
  {
    UnsignedDigits(s);
    Untrimmed(s);
    SignedDigits(s);
  }

  lemma SignedDigits(s: string)
    requires AllDigits(s) && s != []
    ensures Signed(s) == Unsigned(s)
  {
    assert IsDigit(s[0]) && (|s| >= 2 ==> IsDigit(s[1]));
  }

  lemma Untrimmed(s: string)
    requires AllDigits(s)
    ensures TrimRight(TrimLeft(s)) == s
  {
    if s != [] { assert IsDigit(s[0]) && IsDigit(s[|s| - 1]); }
  }

  lemma UnsignedDigits(s: string)
    requires AllDigits(s) && s != []
    ensures Unsigned(s) == Finite(Value(s), true)
  {
    LeadingAll(s);
    DecimalsWhole(s);
    assert s != "Infinity" by { assert IsDigit(s[0]) && !IsDigit("Infinity"[0]); }
    assert s[|s|..] == [];
  }

  lemma DecimalsWhole(s: string)
    requires AllDigits(s) && s != []
    ensures Decimals(s, []) == Finite(Value(s), true)
  {
    Unit(s);
    ScaledNot(Value(s));
  }

  lemma ScaledNot(n: nat)
    ensures Scaled(n, 0) == n as real
  {
    assert TenTo(0) == 1.0;
  }

  lemma DecimalReads(n: nat)
    ensures ToNumber(Decimal(n)) == Finite(n, true) && forall c :: c in Decimal(n) ==> IsDigit(c)
  {
    DecimalValue(n);
    DigitsRead(Decimal(n));
  }

  /** The header that `serialize` writes. */
  function Header(n: nat): string { CONTENT_LENGTH + ": " + Decimal(n) }

  function Frame(json: string): string { Header(Bytes(json)) + BLANK + json }

  lemma {:induction false} EndAfter(p: string, t: string)
    requires '\r' !in p
    ensures EndOfHeaders(p + BLANK + t) == Some(|p|)
  {
    var s := p + BLANK + t;
    if p == [] {
      assert BlankAt(s);
    } else {
      assert s[1..] == p[1..] + BLANK + t;
      EndAfter(p[1..], t);
      assert s[0] == p[0];
    }
  }

  lemma {:induction false} OneLine(p: string)
    requires '\r' !in p
    ensures Lines(p) == [p]
  {
    if p != [] {
      OneLine(p[1..]);
      assert [p[0]] + p[1..] == p;
    }
  }

  lemma {:induction false} NoSeparator(s: string)
    requires ':' !in s
    ensures FirstPart(s) == s
  {
    if s != [] {
      NoSeparator(s[1..]);
      assert [s[0]] + s[1..] == s;
    }
  }

  lemma {:induction false} NameAndValue(name: string, value: string)
    requires ':' !in name && ':' !in value && (value == [] || value[0] != ' ')
    ensures FirstPart(name + ": " + value) == name && OtherParts(name + ": " + value) == Some(value)
  {
    var s := name + ": " + value;
    if name == [] {
      assert s[1..] == [' '] + value && ([' '] + value)[1..] == value;
      assert SkipBlanks([' '] + value) == SkipBlanks(value) == value;
    } else {
      assert s[1..] == name[1..] + ": " + value && s[0] == name[0];
      NameAndValue(name[1..], value);
      assert [name[0]] + name[1..] == name;
    }
  }

  lemma HeaderWith(value: string)
    requires ':' !in value && '\r' !in value && (value == [] || value[0] != ' ')
    ensures LengthOf(CONTENT_LENGTH + ": " + value) == ToNumber(value) && '\r' !in CONTENT_LENGTH + ": " + value
  {
    var header := CONTENT_LENGTH + ": " + value;
    NameAndValue(CONTENT_LENGTH, value);
    NoSeparator(value);
    OneLine(header);
    assert LengthField([header]) == ValueOf(header);
  }

  lemma HeaderReads(n: nat)
    ensures LengthOf(Header(n)) == Finite(n, true) && '\r' !in Header(n)
  {
    DecimalReads(n);
    var v := Decimal(n);
    assert v[0] in v && forall c :: c in v ==> IsDigit(c);
    HeaderWith(v);
  }

  lemma HexReads()
    ensures ToNumber("0x1F") == Finite(31, true)
  {
    assert "0x1F"[2..] == ['1', 'F'] && ['1', 'F'][..1] == ['1'] && ['1'][..0] == [];
    assert HexValue(['1']) == Some(1);
  }

  lemma PaddedReads()
    ensures ToNumber("5 ") == Finite(5, true)
  {
    assert "5 "[..1] == ['5'] && ['5'][..0] == [];
    assert TrimRight("5 ") == TrimRight(['5']) == ['5'];
    UnsignedDigits(['5']);
    assert Value(['5']) == 5;
  }

  lemma NegativeReads()
    ensures ToNumber("-1") == Finite(-1, true)
  {
    assert "-1"[1..] == ['1'] && ['1'][..0] == [];
    UnsignedDigits(['1']);
    assert Value(['1']) == 1;
  }

  /** Other notations are lengths as well. */
  lemma OtherNotations()
    ensures LengthOf(CONTENT_LENGTH + ": " + "0x1F") == Finite(31, true)
    ensures LengthOf(CONTENT_LENGTH + ": " + "5 ") == Finite(5, true)
    ensures LengthOf(CONTENT_LENGTH + ": " + "-1") == Finite(-1, true)
  {
    HexReads();
    PaddedReads();
    NegativeReads();
    HeaderWith("0x1F");
    HeaderWith("5 ");
    HeaderWith("-1");
  }

  lemma {:induction false} FirstPartAfter(name: string, rest: string)
    requires ':' !in name
    ensures FirstPart(name + rest) == name + FirstPart(rest)
  {
    if name == [] {
      Unit(rest);
      Unit(FirstPart(rest));
    } else {
      assert (name + rest)[1..] == name[1..] + rest && (name + rest)[0] == name[0];
      FirstPartAfter(name[1..], rest);
      Shift(name, 0);
      Assoc([name[0]], name[1..], FirstPart(rest));
      assert [name[0]] + name[1..] == name;
    }
  }

  lemma NameTakesAll(name: string, value: string)
    requires ':' !in name && ':' !in value && (value == [] || value[0] != ' ')
    ensures FirstPart(name + [':'] + value) == name + [':'] + value
  {
    var rest := [':'] + value;
    assert rest[1..] == value;
    NoSeparator(value);
    FirstPartAfter(name, rest);
    Assoc(name, [':'], value);
  }

  /** Without a blank after the colon a line has no value. */
  lemma NoBlankNoLength(value: string)
    requires ':' !in value && '\r' !in value && (value == [] || value[0] != ' ')
    ensures var header := CONTENT_LENGTH + [':'] + value; '\r' !in header && LengthOf(header) == NotANumber
  {
    var header := CONTENT_LENGTH + [':'] + value;
    NameTakesAll(CONTENT_LENGTH, value);
    OneLine(header);
    assert |header| > |CONTENT_LENGTH|;
    assert LengthField([header]) == LengthField([header][..0]) == None;
  }

  /** Such a header stops the parser for good, whatever follows. */
  lemma StuckInput(dec: Reading, more: string)
    requires dec.Standard()
    ensures var raw := CONTENT_LENGTH + [':'] + ['5'] + BLANK;
            EndOfHeaders(raw).Some? && Parse(Parser(dec), Headers, raw + more) ==
                Outcome([], BodyOf(dec, raw), raw + more)
  {
    var header := CONTENT_LENGTH + [':'] + ['5'];
    NoBlankNoLength(['5']);
    EndAfter(header, []);
    Unit(header + BLANK);
    assert (header + BLANK)[..|header|] == header;
    WithoutLength(dec, header + BLANK, more);
  }

  // ---- Lengths below zero

  /** A header with the length -n. */
  function Minus(n: nat): string { CONTENT_LENGTH + ": " + (['-'] + Decimal(n)) }

  lemma MinusReads(n: nat)
    ensures LengthOf(Minus(n)) == Finite(0 - n, true) && '\r' !in Minus(n)
  {
    DecimalValue(n);
    var v := ['-'] + Decimal(n);
    MinusDigits(Decimal(n));
    assert '\r' !in v && ':' !in v by { assert forall i :: 0 < i < |v| ==> v[i] == Decimal(n)[i - 1]; }
    HeaderWith(v);
  }

  lemma MinusDigits(s: string)
    requires AllDigits(s) && s != []
    ensures ToNumber(['-'] + s) == Finite(0 - Value(s), true)
  {
    var v := ['-'] + s;
    assert TrimRight(TrimLeft(v)) == v by { assert v[|v| - 1] == s[|s| - 1] && IsDigit(s[|s| - 1]); }
    assert Signed(v) == Unsigned(s).Negated() by { assert v[1..] == s; }
    assert Unsigned(s) == Finite(Value(s), true) by { UnsignedDigits(s); }
  }

  lemma MinusBytes(n: nat)
    ensures |Minus(n)| == 17 + |Decimal(n)| == Bytes(Minus(n)) && Bytes(BLANK) == 4
  {
    DecimalValue(n);
    assert forall i :: 0 <= i < |Decimal(n)| ==> IsDigit(Decimal(n)[i]);
    assert Ascii(CONTENT_LENGTH) && Ascii(BLANK) && Ascii(Minus(n));
    AsciiBytes(Minus(n));
    AsciiBytes(BLANK);
  }

  lemma MinusBody(dec: Reading, n: nat, more: string)
    requires dec.Standard()
    ensures var raw := Minus(n) + BLANK + more;
            && EndOfHeaders(raw).Some? && BodyOf(dec, raw) == Body(Finite(0 - n, true), 21 + |Decimal(n)|)
            && Bytes(raw) == 21 + |Decimal(n)| + Bytes(more)
  {
    var raw := Minus(n) + BLANK + more;
    MinusReads(n);
    MinusBytes(n);
    EndAfter(Minus(n), more);
    BytesSum(Minus(n) + BLANK, more);
    BytesSum(Minus(n), BLANK);
    assert raw[..|Minus(n)|] == Minus(n);
  }

  /** The first turn for such a message when it ends at or behind the beginning of the text. */
  lemma MinusTurn(dec: Reading, n: nat, more: string)
    requires dec.Standard() && n <= 21 + |Decimal(n)|
    ensures var raw := Minus(n) + BLANK + more;
            TurnOf(dec, Headers, raw) == Deliver([], dec.Drop(raw, 21 + |Decimal(n)| - n))
  {
    MinusBody(dec, n, more);
    EmptyTurn(dec, Minus(n) + BLANK + more, n, 21 + |Decimal(n)|);
  }

  lemma EmptyTurn(dec: Reading, raw: string, n: nat, start: nat)
    requires Here(dec, Headers, raw) == Body(Finite(0 - n, true), start) && n <= start <= Bytes(raw)
    ensures TurnOf(dec, Headers, raw) == Deliver([], dec.Drop(raw, start - n))
  {
    TurnIs(dec, Headers, raw, Finite(0 - n, true), start, start - n);
  }

  /** -4: an empty body is delivered, and the parser goes on with the blank line, at which it waits forever. */
  lemma MinusFour(dec: Reading, more: string)
    requires dec.Standard()
    ensures Parse(Parser(dec), Headers, Minus(4) + BLANK + more) == Outcome([[]], Body(NotANumber, 4), BLANK + more)
  {
    AtBlankLine(dec, 4, more);
    NoFields(dec, more);
    Unfold(Parser(dec), Headers, Minus(4) + BLANK + more);
  }

  lemma AtBlankLine(dec: Reading, n: nat, more: string)
    requires dec.Standard() && n == 4
    ensures Parser(dec).turn(Headers, Minus(n) + BLANK + more) == Deliver([], BLANK + more)
  {
    MinusTurn(dec, n, more);
    MinusBytes(n);
    Assoc(Minus(n), BLANK, more);
    dec.DropSum(BLANK + more, Minus(n), 0);
  }

  lemma NoFields(dec: Reading, more: string)
    requires dec.Standard()
    ensures Parse(Parser(dec), Headers, BLANK + more) == Outcome([], Body(NotANumber, 4), BLANK + more)
  {
    var raw := BLANK + more;
    Unit(BLANK);
    EndAfter([], more);
    var none: string := [];
    assert raw[..0] == none && BlankAt(raw);
    assert LengthField([none]) == LengthField([none][..0]) == None;
    assert LengthOf(none) == NotANumber;
    Unfold(Parser(dec), Headers, raw);
  }

  /** -23: the rest is the same text again, and the call never returns, whatever follows. */
  lemma EndlessInput(dec: Reading, more: string)
    requires dec.Standard()
    ensures Parse(Parser(dec), Headers, Minus(23) + BLANK + more) == Endless
  {
    TwoDigits(23);
    var raw := Minus(23) + BLANK + more;
    MinusTurn(dec, 23, more);
    forall n: nat ensures ParseIn(Parser(dec), Headers, raw, n).None? { SameAgain(Parser(dec), raw, n); }
  }

  lemma TwoDigits(n: nat)
    requires 10 <= n < 100
    ensures |Decimal(n)| == 2
  {
    assert |Decimal(n / 10)| == 1;
  }

  /** -40: where the rest begins is counted from the end of what has arrived, so that it matters how the text is cut. */
  lemma CutMatters(dec: Reading) returns (d: string)
    requires dec.Standard() && dec.Sane()
    ensures Fed(Parser(dec), New(Parser(dec)), [Minus(40) + BLANK, d]) != Fed(Parser(dec), New(Parser(dec)),
            [Minus(40) + BLANK + d])
  {
    var raw := Minus(40) + BLANK;
    TwoDigits(40);
    Unit(raw);
    MinusBody(dec, 40, []);
    d := CountedFromBack(dec, Headers, raw, -17);
    PlainTurn(dec, []);
    TwoPieces(Parser(dec), raw, d);
  }

  // ---- Frames are read back

  lemma FrameShape(json: string, more: string)
    ensures var raw, h := Frame(json) + more, Header(Bytes(json));
            EndOfHeaders(raw) == Some(|h|) && raw[..|h|] == h && raw[|h| + 4..] == json + more
  {
    var raw, h := Frame(json) + more, Header(Bytes(json));
    HeaderReads(Bytes(json));
    EndAfter(h, json + more);
    Assoc(h + BLANK, json, more);
    Split(h, BLANK + (json + more));
    Split(h + BLANK, json + more);
    Assoc(h, BLANK, json + more);
  }

  lemma MessageParts(dec: Reading, raw: string, start: nat, json: string, more: string)
    requires EndOfHeaders(raw).Some? && start == Bytes(raw[..EndOfHeaders(raw).value]) + 4
    requires raw[EndOfHeaders(raw).value + 4..] == json + more
    ensures Bytes(raw) - start >= Bytes(json)
    ensures dec.Take(dec.Drop(raw, start), Bytes(json)) == json && Rest(dec, raw, start, Bytes(json)) == more
  {
    AtBody(dec, raw);
    RestAtBody(dec, raw, start, Bytes(json));
    dec.WholeText(json, more);
    BytesSum(json, more);
  }

  lemma FrameTurn(dec: Reading, json: string, more: string)
    requires dec.Standard()
    ensures TurnOf(dec, Headers, Frame(json) + more) == Deliver(json, more)
            && SteadyAt(dec, Headers, Frame(json) + more)
  {
    var b := FrameBody(dec, json, more);
    MessageTurn(dec, Frame(json) + more, b.start, json, more);
  }

  lemma MessageTurn(dec: Reading, raw: string, start: nat, json: string, more: string)
    requires EndOfHeaders(raw).Some? && BodyOf(dec, raw) == Body(Finite(Bytes(json), true), start)
    requires raw[EndOfHeaders(raw).value + 4..] == json + more
    ensures TurnOf(dec, Headers, raw) == Deliver(json, more) && SteadyAt(dec, Headers, raw)
  {
    assert Delivery(dec, start, start + Bytes(json), raw, Bytes(raw)) == Deliver(json, more)
           && Bytes(raw) - start >= Bytes(json) by {
      MessageParts(dec, raw, start, json, more);
      WholeDelivery(dec, start, raw, json, more);
    }
    TurnIs(dec, Headers, raw, Finite(Bytes(json), true), start, start + Bytes(json));
  }

  lemma FrameBody(dec: Reading, json: string, more: string) returns (b: State)
    requires dec.Standard()
    ensures var raw := Frame(json) + more;
            && EndOfHeaders(raw).Some? && b == BodyOf(dec, raw) == Here(dec, Headers, raw)
                && b.length == Finite(Bytes(json), true)
            && raw[EndOfHeaders(raw).value + 4..] == json + more
  {
    FrameShape(json, more);
    HeaderReads(Bytes(json));
    b := BodyOf(dec, Frame(json) + more);
  }

  lemma WholeDelivery(dec: Reading, start: nat, raw: string, json: string, more: string)
    requires Bytes(raw) - start >= Bytes(json)
    requires dec.Take(dec.Drop(raw, start), Bytes(json)) == json && Rest(dec, raw, start, Bytes(json)) == more
    ensures Delivery(dec, start, start + Bytes(json), raw, Bytes(raw)) == Deliver(json, more)
  {
  }

  /** A frame is parsed back to its body, and the parser goes on with the text after it. */
  lemma FrameRoundTrip(dec: Reading, json: string, more: string)
    requires dec.Standard()
    ensures Parse(Parser(dec), Headers, Frame(json) + more) == Then([json], Parse(Parser(dec), Headers, more))
  {
    FrameTurn(dec, json, more);
    Unfold(Parser(dec), Headers, Frame(json) + more);
  }

  function EachFrame(jsons: seq<string>): (frames: seq<string>)
    ensures |frames| == |jsons|
  {
    seq(|jsons|, i requires 0 <= i < |jsons| => Frame(jsons[i]))
  }

  /** Frames that each carry a body, split into chunks in any way, deliver exactly the bodies. */
  lemma FramesInChunks(dec: Reading, frames: seq<string>, bodies: seq<string>, chunks: seq<string>)
    requires |frames| == |bodies| && Concat(chunks) == Concat(frames)
    requires forall i :: 0 <= i < |frames| ==> Carries(Steady(dec), Parser(dec), frames[i], bodies[i])
    ensures Fed(Parser(dec), New(Parser(dec)), chunks) == Outcome(bodies, Headers, [])
  {
    var m := Parser(dec);
    PlainTurn(dec, []);
    forall n: nat ensures AllIn(Steady(dec), m, Headers, Concat(chunks), n) {
      FramesAll(Steady(dec), m, frames, bodies, n);
    }
    FramesDelivered(Steady(dec), m, frames, bodies);
    Laws(dec);
    AnyCut(Steady(dec), m, chunks);
  }

  /** Any sequence of frames, split into chunks in any way, delivers exactly the bodies. */
  lemma ChunkedFramesDelivered(dec: Reading, jsons: seq<string>, chunks: seq<string>)
    requires dec.Standard() && Concat(chunks) == Concat(EachFrame(jsons))
    ensures Fed(Parser(dec), New(Parser(dec)), chunks) == Outcome(jsons, Headers, [])
  {
    forall i, more | 0 <= i < |jsons|
      ensures var raw := EachFrame(jsons)[i] + more;
              Parser(dec).turn(Headers, raw) == Deliver(jsons[i], more) && SteadyAt(dec, Headers, raw)
    {
      FrameTurn(dec, jsons[i], more);
    }
    FramesInChunks(dec, EachFrame(jsons), jsons, chunks);
  }

  // ---- The class

  /** The loop over the header lines, as far as the content length is concerned. */
  method ReadLength(header: string) returns (length: Number)
    ensures length == LengthOf(header)
  {
    var lines := Lines(header);
    var field: Option<string> := None;
    for i := 0 to |lines|
      invariant field == LengthField(lines[..i])
    {
      assert lines[..i + 1][..i] == lines[..i];
      if FirstPart(lines[i]) == CONTENT_LENGTH {
        field := ValueOf(lines[i]);
      }
    }
    assert lines[..|lines|] == lines;
    length := if field.Some? then ToNumber(field.value) else NotANumber;
  }

  class Protocol {
    const dec: Reading
    var raw: string
    var inBody: bool
    var contentLength: Number
    var bodyStartByteIndex: nat
    var reqSeq: nat
    /** The bodies passed to `onResponse` so far. */
    var delivered: seq<string>

    ghost function St(): State
      reads this
    {
      if inBody then Body(contentLength, bodyStartByteIndex) else Headers
    }

    ghost function View(): Outcome<State>
      reads this
    {
      Outcome(delivered, St(), raw)
    }

    ghost predicate Valid()
      reads this
    {
      dec.Standard() && Proper(dec, St(), raw)
    }

    constructor (dec: Reading)
      requires dec.Standard()
      ensures Valid() && View() == New(Parser(dec)) && reqSeq == 1 && this.dec == dec
    {
      this.dec := dec;
      raw, inBody, contentLength, bodyStartByteIndex, reqSeq, delivered := [], false, NotANumber, 0, 1, [];
    }

    /** `room` is for how many more messages the stack has room; without it the call throws. */
    method NewRes(text: string, room: nat) returns (ok: bool)
      requires dec.Standard()
      modifies this
      ensures Served(Parser(dec), old(delivered), Headers, text, room, ok, View()) && reqSeq == 1
      decreases room, 2
    {
      raw, inBody, reqSeq := text, false, 1;
      Unit(text);
      ok := Execute([], room);
    }

    method Execute(d: string, room: nat) returns (ok: bool)
      requires Valid()
      modifies this
      ensures Served(Parser(dec), old(delivered), old(St()), old(raw) + d, room, ok, View())
      ensures reqSeq == old(reqSeq) || reqSeq == 1
      decreases room, 1
    {
      ProperGrows(dec, St(), raw, d);
      raw := raw + d;
      ghost var st, text, before := St(), raw, delivered;
      if !inBody {
        var end := EndOfHeaders(raw);
        if end.None? {
          ServedWait(Parser(dec), before, st, text, room, st);
          return true;
        }
        ReadHeaders(end.value);
      }
      ghost var here := St();
      ok := DeliverBody(room);
      ServedFrom(Parser(dec), before, st, here, text, room, ok, View());
    }

    method HeaderLength(header: string) returns (length: Number)
      requires dec.Standard()
      ensures length == dec.length(header)
    {
      length := ReadLength(header);
    }

    method ReadHeaders(end: nat)
      requires EndOfHeaders(raw) == Some(end) && dec.Standard()
      modifies `contentLength, `bodyStartByteIndex, `inBody
      ensures inBody && Body(contentLength, bodyStartByteIndex) == BodyOf(dec, raw)
    {
      var header := raw[..end];
      contentLength := HeaderLength(header);
      bodyStartByteIndex := Bytes(header) + 4;
      inBody := true;
    }

    /** The case for the body state, which the header case falls into. */
    method DeliverBody(room: nat) returns (ok: bool)
      requires Valid() && inBody
      modifies this
      ensures Served(Parser(dec), old(delivered), old(St()), old(raw), room, ok, View())
      ensures reqSeq == old(reqSeq) || reqSeq == 1
      decreases room, 0
    {
      ghost var st, text, before := St(), raw, delivered;
      if contentLength.ReachedBy(Bytes(raw) - bodyStartByteIndex) {
        var body, rest := Slices();
        delivered := delivered + [body];
        if room == 0 {
          ServedOverflow(Parser(dec), before, st, text, body, View());
          return false;
        }
        ok := NewRes(rest, room - 1);
        ServedOn(Parser(dec), before, st, text, body, rest, room, ok, View());
      } else {
        ServedWait(Parser(dec), before, st, text, room, st);
        ok := true;
      }
    }

    /** The two slices of the buffer. */
    method Slices() returns (body: string, rest: string)
      requires inBody && contentLength.ReachedBy(Bytes(raw) - bodyStartByteIndex)
      ensures Parser(dec).turn(St(), raw) == Deliver(body, rest)
    {
      var len := Bytes(raw);
      var c := Place(contentLength.End(bodyStartByteIndex), len);
      body := dec.Take(dec.Drop(raw, bodyStartByteIndex), if c > bodyStartByteIndex then c - bodyStartByteIndex else 0);
      rest := dec.Drop(raw, c);
    }

    /** `serialize`, with the request already turned into JSON. */
    method Serialize(json: string) returns (frame: string)
      modifies `reqSeq
      ensures frame == Frame(json) && reqSeq == old(reqSeq) + 1
    {
      reqSeq := reqSeq + 1;
      frame := "Content-Length: " + Decimal(Bytes(json)) + "\r\n\r\n" + json;
      assert "Content-Length: " == CONTENT_LENGTH + ": ";
    }
  }

  /** A connection: one call for each piece of text that the socket delivers. */
  method Feed(p: Protocol, chunks: seq<string>, room: nat) returns (ok: bool)
    requires p.Valid() && p.View() == New(Parser(p.dec))
    modifies p
    ensures ok <==> RoomFor(Parser(p.dec), New(Parser(p.dec)), chunks, room)
    ensures ok ==> p.Valid() && p.View() == Fed(Parser(p.dec), New(Parser(p.dec)), chunks)
    ensures ok && All(Steady(p.dec), Parser(p.dec), Headers, Concat(chunks)) ==>
              p.View() == Executed(Parser(p.dec), New(Parser(p.dec)), Concat(chunks))
  {
    if All(Steady(p.dec), Parser(p.dec), Headers, Concat(chunks)) { ChunkingInvariance(p.dec, chunks); }
    ghost var rest := chunks;
    for i := 0 to |chunks|
      invariant p.Valid() && rest == chunks[i..]
      invariant Fed(Parser(p.dec), p.View(), rest) == Fed(Parser(p.dec), New(Parser(p.dec)), chunks)
      invariant RoomFor(Parser(p.dec), p.View(), rest, room) <==>
                  RoomFor(Parser(p.dec), New(Parser(p.dec)), chunks, room)
    {
      ok := p.Execute(chunks[i], room);
      if !ok {
        return;
      }
      rest := rest[1..];
    }
    ok := true;
  }
}
