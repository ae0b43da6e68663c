/** Headers of several lines: what the splitting into lines and fields means, and that messages with any other fields
    around their content length are delivered. */
module DebuggerHeaders {
  import opened Common
  import opened Seqs
  import opened TurnParser
  import opened DebuggerProtocol

  const BREAK: string := "\r\n"

  // ---- Lines

  /** No line break begins inside the text. */
  predicate Unbroken(s: string) { forall i :: 0 <= i < |s| - 1 ==> !(s[i] == '\r' && s[i + 1] == '\n') }

  predicate EachUnbroken(lines: seq<string>) { forall i :: 0 <= i < |lines| ==> Unbroken(lines[i]) }

  /** The lines with a line break before each. */
  function Further(lines: seq<string>): (s: string)
    ensures s != [] ==> s[0] == '\r'
  {
    if lines == [] then [] else BREAK + (lines[0] + Further(lines[1..]))
  }

  function Joined(lines: seq<string>): string
    requires lines != []
  {
    lines[0] + Further(lines[1..])
  }

  lemma {:induction false} LinesAfter(p: string, lines: seq<string>)
    requires Unbroken(p) && EachUnbroken(lines)
    ensures Lines(p + Further(lines)) == [p] + lines
    decreases |lines|, |p|
  {
    var s := p + Further(lines);
    if p != [] {
      assert s[1..] == p[1..] + Further(lines) && s[0] == p[0];
      LinesAfter(p[1..], lines);
      assert [p[0]] + p[1..] == p;
      assert ([p[1..]] + lines)[1..] == lines;
    } else if lines != [] {
      Unit(Further(lines));
      assert s[2..] == lines[0] + Further(lines[1..]);
      LinesAfter(lines[0], lines[1..]);
      assert [lines[0]] + lines[1..] == lines;
    }
  }

  lemma {:induction false} LinesJoin(s: string)
    ensures EachUnbroken(Lines(s)) && Joined(Lines(s)) == s
    decreases |s|
  {
    if s == [] {
    } else if |s| >= 2 && s[0] == '\r' && s[1] == '\n' {
      LinesJoin(s[2..]);
      JoinedBreak(Lines(s[2..]));
      assert s == BREAK + s[2..];
    } else {
      LinesJoin(s[1..]);
      JoinedMore(s[0], s[1..], Lines(s[1..]));
    }
  }

  lemma JoinedBreak(lines: seq<string>)
    requires lines != [] && EachUnbroken(lines)
    ensures EachUnbroken([[]] + lines) && Joined([[]] + lines) == BREAK + Joined(lines)
  {
    assert ([[]] + lines)[1..] == lines;
    Unit(Further(lines));
  }

  lemma JoinedMore(c: char, s: string, lines: seq<string>)
    requires lines != [] && EachUnbroken(lines) && Joined(lines) == s && !(c == '\r' && s != [] && s[0] == '\n')
    ensures EachUnbroken([[c] + lines[0]] + lines[1..]) && Joined([[c] + lines[0]] + lines[1..]) == [c] + s
  {
    var first, all := [c] + lines[0], [[c] + lines[0]] + lines[1..];
    Assoc([c], lines[0], Further(lines[1..]));
    Unit(lines[1..]);
    Split([first], lines[1..]);
    assert Unbroken(first) by {
      assert lines[0] != [] ==> s[0] == lines[0][0];
      assert Unbroken(lines[0]);
      assert forall i :: 0 < i < |first| ==> first[i] == lines[0][i - 1];
    }
    assert forall i :: 0 < i < |all| ==> all[i] == lines[i];
  }

  /** The lines of a text are the only ones whose join is the text and inside which there is no line break. */
  lemma LinesExactly(s: string, lines: seq<string>)
    ensures Lines(s) == lines <==> lines != [] && EachUnbroken(lines) && Joined(lines) == s
  {
    LinesJoin(s);
    if lines != [] && EachUnbroken(lines) {
      LinesAfter(lines[0], lines[1..]);
      assert [lines[0]] + lines[1..] == lines;
    }
  }

  // ---- Fields

  function Blanks(k: nat): (s: string)
    ensures |s| == k && forall i :: 0 <= i < k ==> s[i] == ' '
  {
    seq(k, i => ' ')
  }

  /** A line with a name, a colon, blanks and a value; what comes after another separator is ignored. */
  function Field(name: string, k: nat, value: string, more: string): string
  {
    name + ([':'] + (Blanks(k) + (value + more)))
  }

  predicate IsField(name: string, k: nat, value: string, more: string)
  {
    && ':' !in name && ':' !in value && k >= 1
    && (more == [] || SeparatorAt(more)) && (value == [] ==> more == []) && (value != [] ==> value[0] != ' ')
  }

  lemma {:induction false} BlanksSkipped(k: nat, value: string)
    requires value == [] || value[0] != ' '
    ensures SkipBlanks(Blanks(k) + value) == value
  {
    var s := Blanks(k) + value;
    if k == 0 {
      Unit(value);
      assert s == value;
    } else {
      BlanksSkipped(k - 1, value);
      assert s[1..] == Blanks(k - 1) + value;
    }
  }

  lemma {:induction false} OtherPartsAfter(name: string, rest: string)
    requires ':' !in name
    ensures OtherParts(name + rest) == OtherParts(rest)
  {
    if name == [] {
      Unit(rest);
    } else {
      assert (name + rest)[1..] == name[1..] + rest && (name + rest)[0] == name[0];
      OtherPartsAfter(name[1..], rest);
    }
  }

  /** The name and the value of a field. */
  lemma FieldReads(name: string, k: nat, value: string, more: string)
    requires IsField(name, k, value, more)
    ensures FirstPart(Field(name, k, value, more)) == name && ValueOf(Field(name, k, value, more)) == Some(value)
  {
    var rest := [':'] + (Blanks(k) + (value + more));
    assert SeparatorAt(rest) && rest[1..] == Blanks(k) + (value + more);
    FirstPartAfter(name, rest);
    OtherPartsAfter(name, rest);
    BlanksSkipped(k, value + more);
    FirstPartAfter(value, more);
    Unit(name);
    Unit(value);
  }

  predicate Unnamed(lines: seq<string>) { forall i :: 0 <= i < |lines| ==> FirstPart(lines[i]) != CONTENT_LENGTH }

  lemma {:induction false} LastDecides(before: seq<string>, line: string, after: seq<string>)
    requires FirstPart(line) == CONTENT_LENGTH && Unnamed(after)
    ensures LengthField(before + [line] + after) == ValueOf(line)
    decreases |after|
  {
    var all := before + [line] + after;
    if after == [] {
      Unit(before + [line]);
    } else {
      var n := |after| - 1;
      assert all[|all| - 1] == after[n] && all[..|all| - 1] == before + [line] + after[..n];
      LastDecides(before, line, after[..n]);
    }
  }

  lemma {:induction false} NoneNamed(lines: seq<string>)
    requires Unnamed(lines)
    ensures LengthField(lines) == None
  {
    if lines != [] { NoneNamed(lines[..|lines| - 1]); }
  }

  /** The content length of a header with any number of lines is the number in the last field of that name, with any
      lines before it and any other lines after it; without such a field there is none. */
  lemma LengthAmong(before: seq<string>, k: nat, value: string, more: string, after: seq<string>)
    requires EachUnbroken(before) && EachUnbroken(after) && Unnamed(after)
    requires IsField(CONTENT_LENGTH, k, value, more) && Unbroken(Field(CONTENT_LENGTH, k, value, more))
    ensures LengthOf(Joined(before + [Field(CONTENT_LENGTH, k, value, more)] + after)) == ToNumber(value)
  {
    var line := Field(CONTENT_LENGTH, k, value, more);
    var lines := before + [line] + after;
    FieldReads(CONTENT_LENGTH, k, value, more);
    LastDecides(before, line, after);
    LinesExactly(Joined(lines), lines);
  }

  lemma NoLengthAmong(lines: seq<string>)
    requires lines != [] && EachUnbroken(lines) && Unnamed(lines)
    ensures LengthOf(Joined(lines)) == NotANumber
  {
    LinesExactly(Joined(lines), lines);
    NoneNamed(lines);
  }

  // ---- Messages

  /** No empty line, which would be the end of the header. */
  predicate NoneEmpty(lines: seq<string>) { forall i :: 0 <= i < |lines| ==> lines[i] != [] }

  lemma {:induction false} EndAfterLines(p: string, lines: seq<string>, t: string)
    requires Unbroken(p) && EachUnbroken(lines) && NoneEmpty(lines)
    ensures EndOfHeaders(p + (Further(lines) + (BLANK + t))) == Some(|p| + |Further(lines)|)
    decreases |lines|, |p|
  {
    var s := p + (Further(lines) + (BLANK + t));
    if p != [] {
      assert s[1..] == p[1..] + (Further(lines) + (BLANK + t));
      assert !BlankAt(s) by { if |p| == 1 { assert s[1] == '\r'; } else { assert s[0] == p[0] && s[1] == p[1]; } }
      EndAfterLines(p[1..], lines, t);
    } else if lines == [] {
      assert BlankAt(s);
    } else {
      EmptyThenLine(lines, t);
      EndAfterLines(lines[0], lines[1..], t);
    }
  }

  lemma EmptyThenLine(lines: seq<string>, t: string)
    requires lines != [] && EachUnbroken(lines) && NoneEmpty(lines)
    ensures var s, u := Further(lines) + (BLANK + t), lines[0] + (Further(lines[1..]) + (BLANK + t));
            EndOfHeaders(u).Some? ==> EndOfHeaders([] + s) == Some(EndOfHeaders(u).value + 2)
  {
    var l, rest := lines[0], Further(lines[1..]) + (BLANK + t);
    var s := Further(lines) + (BLANK + t);
    Unit(s);
    Assoc(BREAK, l + Further(lines[1..]), BLANK + t);
    Assoc(l, Further(lines[1..]), BLANK + t);
    assert Unbroken(l) && l != [];
    BreakThenLine(l, rest);
  }

  lemma BreakThenLine(l: string, rest: string)
    requires Unbroken(l) && l != [] && rest != [] && rest[0] == '\r'
    ensures EndOfHeaders(l + rest).Some? ==> EndOfHeaders(BREAK + (l + rest)) == Some(EndOfHeaders(l + rest).value + 2)
  {
    var s := BREAK + (l + rest);
    assert !BlankAt(s) by {
      if |l| == 1 {
        assert s[3] == rest[0];
      } else {
        assert s[2] == l[0] && s[3] == l[0 + 1];
      }
    }
    assert !BlankAt(s[1..]);
    assert s[1..][1..] == l + rest;
  }

  /** A message: its header has other fields before and after the content length. */
  datatype Message = Message(before: seq<string>, blanks: nat, after: seq<string>, json: string)
  {
    function Length(): string { Field(CONTENT_LENGTH, blanks, Decimal(Bytes(json)), []) }

    function Fields(): seq<string> { before + [Length()] + after }

    function Text(): string { Joined(Fields()) + BLANK + json }

    predicate Valid()
    {
      && blanks >= 1 && EachUnbroken(before) && NoneEmpty(before)
      && EachUnbroken(after) && NoneEmpty(after) && Unnamed(after)
    }
  }

  lemma LengthIsField(msg: Message)
    requires msg.Valid()
    ensures IsField(CONTENT_LENGTH, msg.blanks, Decimal(Bytes(msg.json)), []) && Unbroken(msg.Length())
    ensures ToNumber(Decimal(Bytes(msg.json))) == Finite(Bytes(msg.json), true)
  {
    var v := Decimal(Bytes(msg.json));
    DecimalReads(Bytes(msg.json));
    assert v[0] in v;
    Unit(v);
    assert '\r' !in CONTENT_LENGTH && '\r' !in [':'] && '\r' !in Blanks(msg.blanks) && '\r' !in v;
    assert '\r' !in msg.Length();
  }

  lemma MessageLength(msg: Message)
    requires msg.Valid()
    ensures LengthOf(Joined(msg.Fields())) == Finite(Bytes(msg.json), true)
    ensures EachUnbroken(msg.Fields()) && NoneEmpty(msg.Fields())
  {
    LengthIsField(msg);
    LengthAmong(msg.before, msg.blanks, Decimal(Bytes(msg.json)), [], msg.after);
  }

  lemma HeaderOf(lines: seq<string>, json: string, more: string)
    requires lines != [] && EachUnbroken(lines) && NoneEmpty(lines)
    ensures var raw, h := Joined(lines) + BLANK + json + more, Joined(lines);
            EndOfHeaders(raw) == Some(|h|) && raw[..|h|] == h && raw[|h| + 4..] == json + more
  {
    var h, t := Joined(lines), json + more;
    EndAfterLines(lines[0], lines[1..], t);
    Assoc(lines[0], Further(lines[1..]), BLANK + t);
    Assoc(h + BLANK, json, more);
    Assoc(h, BLANK, t);
    Split(h, BLANK + t);
    Split(h + BLANK, t);
  }

  lemma MessageCarries(dec: Reading, msg: Message, more: string)
    requires dec.Standard() && msg.Valid()
    ensures TurnOf(dec, Headers, msg.Text() + more) == Deliver(msg.json, more)
            && SteadyAt(dec, Headers, msg.Text() + more)
  {
    MessageLength(msg);
    HeaderOf(msg.Fields(), msg.json, more);
    var raw, h := msg.Text() + more, Joined(msg.Fields());
    MessageTurn(dec, raw, Bytes(h) + 4, msg.json, more);
  }

  /** A message with any other fields is parsed to its body, and the parser goes on with the text after it. */
  lemma MessageRoundTrip(dec: Reading, msg: Message, more: string)
    requires dec.Standard() && msg.Valid()
    ensures Parse(Parser(dec), Headers, msg.Text() + more) == Then([msg.json], Parse(Parser(dec), Headers, more))
  {
    MessageCarries(dec, msg, more);
    Unfold(Parser(dec), Headers, msg.Text() + more);
  }

  function Texts(msgs: seq<Message>): (r: seq<string>)
    ensures |r| == |msgs|
  {
    seq(|msgs|, i requires 0 <= i < |msgs| => msgs[i].Text())
  }

  function Jsons(msgs: seq<Message>): (r: seq<string>)
    ensures |r| == |msgs|
  {
    seq(|msgs|, i requires 0 <= i < |msgs| => msgs[i].json)
  }

  /** Any sequence of such messages, split into chunks in any way, delivers exactly the bodies. */
  lemma ChunkedMessagesDelivered(dec: Reading, msgs: seq<Message>, chunks: seq<string>)
    requires dec.Standard() && Concat(chunks) == Concat(Texts(msgs)) && forall i :: 0 <= i < |msgs| ==> msgs[i].Valid()
    ensures Fed(Parser(dec), New(Parser(dec)), chunks) == Outcome(Jsons(msgs), Headers, [])
  {
    forall i, more | 0 <= i < |msgs|
      ensures var raw := Texts(msgs)[i] + more;
              Parser(dec).turn(Headers, raw) == Deliver(Jsons(msgs)[i], more) && SteadyAt(dec, Headers, raw)
    {
      MessageCarries(dec, msgs[i], more);
    }
    FramesInChunks(dec, Texts(msgs), Jsons(msgs), chunks);
  }

  /** The greeting of the debugger: its content length comes second. */
  lemma Greeting(dec: Reading, more: string)
    requires dec.Standard()
    ensures Parse(Parser(dec), Headers, "Type: connect" + BREAK + Header(0) + BLANK + more) ==
            Then([[]], Parse(Parser(dec), Headers, more))
  {
    var msg := Message(["Type: connect"], 1, [], []);
    TwoLines(msg, "Type: connect");
    assert msg.Valid() by { assert Unbroken("Type: connect"); }
    MessageRoundTrip(dec, msg, more);
  }

  lemma TwoLines(msg: Message, line: string)
    requires msg == Message([line], 1, [], [])
    ensures msg.Text() == line + BREAK + Header(0) + BLANK
  {
    assert msg.Length() == Header(0) by {
      assert [':'] + (Blanks(1) + (Decimal(0) + [])) == ": " + Decimal(0);
      Assoc(CONTENT_LENGTH, ": ", Decimal(0));
    }
    var fields := msg.Fields();
    assert fields == [line, Header(0)] && fields[1..] == [Header(0)] && [Header(0)][1..] == [];
    Unit(Header(0));
    Assoc(line, BREAK, Header(0));
    Unit(msg.Text());
  }
}
