/** The block layer: coefficients, inverse transform, and the move into the picture. */
module BlockDecoder {
  import opened Common
  import opened BitReader
  import opened PrefixCode
  import opened VideoTables
  import opened Idct

  // ---- Tables

  function ZigZag(n: nat): nat
  {
    match n
    case 0 => 0 case 1 => 1 case 2 => 8 case 3 => 16 case 4 => 9 case 5 => 2 case 6 => 3 case 7 => 10
    case 8 => 17 case 9 => 24 case 10 => 32 case 11 => 25 case 12 => 18 case 13 => 11 case 14 => 4 case 15 => 5
    case 16 => 12 case 17 => 19 case 18 => 26 case 19 => 33 case 20 => 40 case 21 => 48 case 22 => 41 case 23 => 34
    case 24 => 27 case 25 => 20 case 26 => 13 case 27 => 6 case 28 => 7 case 29 => 14 case 30 => 21 case 31 => 28
    case 32 => 35 case 33 => 42 case 34 => 49 case 35 => 56 case 36 => 57 case 37 => 50 case 38 => 43 case 39 => 36
    case 40 => 29 case 41 => 22 case 42 => 15 case 43 => 23 case 44 => 30 case 45 => 37 case 46 => 44 case 47 => 51
    case 48 => 58 case 49 => 59 case 50 => 52 case 51 => 45 case 52 => 38 case 53 => 31 case 54 => 39 case 55 => 46
    case 56 => 53 case 57 => 60 case 58 => 61 case 59 => 54 case 60 => 47 case 61 => 55 case 62 => 62 case _ => 63
  }

  /** The place of a block index in the zig-zag order. */
  function PlaceOf(n: nat): nat
  {
    match n
    case 0 => 0 case 1 => 1 case 2 => 5 case 3 => 6 case 4 => 14 case 5 => 15 case 6 => 27 case 7 => 28
    case 8 => 2 case 9 => 4 case 10 => 7 case 11 => 13 case 12 => 16 case 13 => 26 case 14 => 29 case 15 => 42
    case 16 => 3 case 17 => 8 case 18 => 12 case 19 => 17 case 20 => 25 case 21 => 30 case 22 => 41 case 23 => 43
    case 24 => 9 case 25 => 11 case 26 => 18 case 27 => 24 case 28 => 31 case 29 => 40 case 30 => 44 case 31 => 53
    case 32 => 10 case 33 => 19 case 34 => 23 case 35 => 32 case 36 => 39 case 37 => 45 case 38 => 52 case 39 => 54
    case 40 => 20 case 41 => 22 case 42 => 33 case 43 => 38 case 44 => 46 case 45 => 51 case 46 => 55 case 47 => 60
    case 48 => 21 case 49 => 34 case 50 => 37 case 51 => 47 case 52 => 50 case 53 => 56 case 54 => 59 case 55 => 61
    case 56 => 35 case 57 => 36 case 58 => 48 case 59 => 49 case 60 => 57 case 61 => 58 case 62 => 62 case _ => 63
  }

  function Premultiplier(n: nat): nat
  {
    match n
    case 0 => 32 case 1 => 44 case 2 => 42 case 3 => 38 case 4 => 32 case 5 => 25 case 6 => 17 case 7 => 9
    case 8 => 44 case 9 => 62 case 10 => 58 case 11 => 52 case 12 => 44 case 13 => 35 case 14 => 24 case 15 => 12
    case 16 => 42 case 17 => 58 case 18 => 55 case 19 => 49 case 20 => 42 case 21 => 33 case 22 => 23 case 23 => 12
    case 24 => 38 case 25 => 52 case 26 => 49 case 27 => 44 case 28 => 38 case 29 => 30 case 30 => 20 case 31 => 10
    case 32 => 32 case 33 => 44 case 34 => 42 case 35 => 38 case 36 => 32 case 37 => 25 case 38 => 17 case 39 => 9
    case 40 => 25 case 41 => 35 case 42 => 33 case 43 => 30 case 44 => 25 case 45 => 20 case 46 => 14 case 47 => 7
    case 48 => 17 case 49 => 24 case 50 => 23 case 51 => 20 case 52 => 17 case 53 => 14 case 54 => 9 case 55 => 5
    case 56 => 9 case 57 => 12 case 58 => 12 case 59 => 10 case 60 => 9 case 61 => 7 case 62 => 5 case _ => 2
  }

  /** The zig-zag order is a permutation of the block. */
  lemma ZigZagPermutes(n: nat)
    requires n < 64
    ensures ZigZag(n) < 64 && PlaceOf(ZigZag(n)) == n && PlaceOf(n) < 64 && ZigZag(PlaceOf(n)) == n
  {
  }

  /** The step from an index of the block to the next one along the diagonals: upwards where row and column have an even
      sum, downwards where it is odd, and along the edge at an edge. */
  function AlongDiagonals(n: nat): nat
    requires n < 63
  {
    var row, column := n / 8, n % 8;
    if (row + column) % 2 == 0 then (if column == 7 then n + 8 else if row == 0 then n + 1 else n - 7)
    else if row == 7 then n + 1 else if column == 0 then n + 8 else n + 7
  }

  /** The zig-zag order runs along the diagonals. */
  lemma ZigZagSteps(n: nat)
    requires n < 63
    ensures ZigZag(0) == 0 && ZigZag(n) < 63 && ZigZag(n + 1) == AlongDiagonals(ZigZag(n))
  {
    if n < 24 {
      FirstSteps(n);
    } else if n < 44 {
      MiddleSteps(n);
    } else {
      LastSteps(n);
    }
  }

  lemma FirstSteps(n: nat)
    requires n < 24
    ensures ZigZag(n) < 63 && ZigZag(n + 1) == AlongDiagonals(ZigZag(n))
  {
  }

  lemma MiddleSteps(n: nat)
    requires 24 <= n < 44
    ensures ZigZag(n) < 63 && ZigZag(n + 1) == AlongDiagonals(ZigZag(n))
  {
  }

  lemma LastSteps(n: nat)
    requires 44 <= n < 63
    ensures ZigZag(n) < 63 && ZigZag(n + 1) == AlongDiagonals(ZigZag(n))
  {
  }

  /** The square root of 2 times cos(n pi / 16) in millionths, and 1 for n = 0. */
  function Scale(n: nat): int
    requires n < 8
  {
    match n
    case 0 => 1000000 case 1 => 1387039 case 2 => 1306564 case 3 => 1175876 case 4 => 1000000 case 5 => 785694
        case 6 => 541195 case _ => 275899
  }

  lemma ScaleIsCosine(n: nat)
    requires n < 8
    ensures Scale(0) == 1000000
    ensures n > 0 ==> Within(1000000 * Scale(n), 2 * Cosines(0).v4 * Nth(Cosines(0), n), 1000000)
  {
  }

  /** The premultiplier of row i and column j is 32 times the scales of both, to the nearest integer. */
  lemma PremultiplierIsScale(i: nat, j: nat)
    requires i < 8 && j < 8
    ensures Within(1000000000000 * Premultiplier(8 * i + j), 32 * (Scale(i) * Scale(j)), 500000000000)
  {
    var a := Scale(i);
    match j {
      case 0 => assert Scale(i) * Scale(j) == 1000000 * a;
      case 1 => assert Scale(i) * Scale(j) == 1387039 * a;
      case 2 => assert Scale(i) * Scale(j) == 1306564 * a;
      case 3 => assert Scale(i) * Scale(j) == 1175876 * a;
      case 4 => assert Scale(i) * Scale(j) == 1000000 * a;
      case 5 => assert Scale(i) * Scale(j) == 785694 * a;
      case 6 => assert Scale(i) * Scale(j) == 541195 * a;
      case _ => assert Scale(i) * Scale(j) == 275899 * a;
    }
  }

  function ZigZagOrder(): seq<nat> { seq(64, k requires 0 <= k < 64 => ZigZag(k)) }

  function Premultipliers(): seq<nat> { seq(64, k requires 0 <= k < 64 => Premultiplier(k)) }

  // ---- Coefficients

  datatype Token = EndOfBlock | Coefficient(run: nat, level: int)

  /** All values of the coefficient code, and what an unknown code word yields, fit in 16 bits. */
  lemma CoefficientTable()
    ensures Shape(Table(224, DctCoeff))
    ensures forall s, i: nat :: 0 <= Decoded(s, i, Table(224, DctCoeff)).0 <= 0xffff
  {
    ShippedTables();
    var t := Table(224, DctCoeff);
    forall s: seq<byte>, i: nat ensures 0 <= Decoded(s, i, t).0 <= 0xffff {
      TableRow(224, DctCoeff, 0);
      ScanInTable(s, i, t, 0);
      var e := Scan(s, i, t, 0).0;
      if e.Some? {
        TableRow(224, DctCoeff, e.value);
        CoefficientValues(e.value);
      }
    }
  }

  lemma CoefficientValues(r: nat)
    ensures 0 <= Cell(DctCoeff(r), 2) <= 0xffff
  {
  }

  ghost function CoefficientCode(s: seq<byte>, i: nat): (r: (int, nat))
    ensures 0 <= r.0 <= 0xffff
  {
    CoefficientTable();
    Decoded(s, i, Table(224, DctCoeff))
  }

  /** What `decodeBlock` reads before a coefficient or the end of the block, and the position after it. */
  ghost function TokenAt(s: seq<byte>, i: nat, first: bool): (Token, nat)
  {
    var (coeff, j) := CoefficientCode(s, i);
    if coeff == 1 && !first then
      if BitAt(s, j) == 0 then (EndOfBlock, j + 1) else Plain(s, coeff, j + 1)
    else if coeff == 0xffff then Escaped(s, j)
    else Plain(s, coeff, j)
  }

  ghost function Plain(s: seq<byte>, coeff: nat, j: nat): (Token, nat)
  {
    (Coefficient(coeff / 256, if BitAt(s, j) == 1 then -(coeff % 256) else coeff % 256), j + 1)
  }

  ghost function Escaped(s: seq<byte>, j: nat): (Token, nat)
  {
    var level := Bits(s, j + 6, 8);
    if level == 0 then (Coefficient(Bits(s, j, 6), Bits(s, j + 14, 8)), j + 22)
    else if level == 128 then (Coefficient(Bits(s, j, 6), Bits(s, j + 14, 8) - 256), j + 22)
    else (Coefficient(Bits(s, j, 6), if level > 128 then level - 256 else level), j + 14)
  }

  /** The escape form of a run and a level, one or two bytes for the level (section 2.4.3.7 of ISO/IEC 11172-2). */
  ghost predicate EscapeAt(s: seq<byte>, j: nat, run: nat, level: int)
  {
    && Bits(s, j, 6) == run
    && if 1 <= level <= 127 then Bits(s, j + 6, 8) == level
       else if level >= 128 then Bits(s, j + 6, 8) == 0 && Bits(s, j + 14, 8) == level
       else if level >= -127 then Bits(s, j + 6, 8) == level + 256
       else Bits(s, j + 6, 8) == 128 && Bits(s, j + 14, 8) == level + 256
  }

  /** Every level from -255 to 255 but 0 is read back from its escape form, and the reader stops after it. */
  lemma EscapeDecodes(s: seq<byte>, j: nat, run: nat, level: int)
    requires -255 <= level <= 255 && level != 0 && EscapeAt(s, j, run, level)
    ensures Escaped(s, j) == (Coefficient(run, level), if -127 <= level <= 127 then j + 14 else j + 22)
  {
  }

  method ReadToken(buffer: Reader, first: bool) returns (token: Token)
    modifies buffer`index
    ensures (token, buffer.index) == TokenAt(buffer.bytes[..], old(buffer.index), first)
  {
    var coeff := ReadCoefficientCode(buffer);
    if coeff == 1 && !first {
      var more := ReadBit(buffer);
      if more == 0 {
        return EndOfBlock;
      }
    }
    if coeff == 0xffff {
      token := ReadEscape(buffer);
    } else {
      token := ReadPlain(buffer, coeff);
    }
  }

  method ReadCoefficientCode(buffer: Reader) returns (coeff: nat)
    modifies buffer`index
    ensures (coeff as int, buffer.index) == CoefficientCode(buffer.bytes[..], old(buffer.index))
  {
    CoefficientTable();
    coeff := ReadCode(buffer, Table(224, DctCoeff));
  }

  method ReadPlain(buffer: Reader, coeff: nat) returns (token: Token)
    modifies buffer`index
    ensures (token, buffer.index) == Plain(buffer.bytes[..], coeff, old(buffer.index))
  {
    var negative := ReadBit(buffer);
    var level := coeff % 256;
    token := Coefficient(coeff / 256, if negative == 1 then -level else level);
  }

  method ReadBit(buffer: Reader) returns (b: nat)
    modifies buffer`index
    ensures b == BitAt(buffer.bytes[..], old(buffer.index)) && buffer.index == old(buffer.index) + 1
  {
    BitsOfOne(buffer.bytes[..], buffer.index);
    b := buffer.GetBits(1);
  }

  method ReadEscape(buffer: Reader) returns (token: Token)
    modifies buffer`index
    ensures (token, buffer.index) == Escaped(buffer.bytes[..], old(buffer.index))
  {
    var run := buffer.GetBits(6);
    var l := buffer.GetBits(8);
    var level: int := l;
    if l == 0 {
      level := buffer.GetBits(8);
    } else if l == 128 {
      var low := buffer.GetBits(8);
      level := low as int - 256;
    } else if l > 128 {
      level := l as int - 256;
    }
    token := Coefficient(run, level);
  }

  /** The coefficients from place `n` on, if they stay inside the block until its end. */
  datatype Parse = Malformed | Parse(tokens: seq<Token>, end: nat)

  ghost function Parsed(s: seq<byte>, i: nat, n: nat): (p: Parse)
    ensures p.Parse? ==> Inside(p.tokens, n) && (n == 0 ==> p.tokens != [])
    decreases 64 - n
  {
    var (token, j) := TokenAt(s, i, n == 0);
    if token.EndOfBlock? then Parse([], j)
    else if n + token.run >= 64 then Malformed
    else match Parsed(s, j, n + token.run + 1)
      case Malformed => Malformed
      case Parse(tokens, end) => InsideCons(token, tokens, n); Parse([token] + tokens, end)
  }

  lemma InsideCons(token: Token, tokens: seq<Token>, n: nat)
    requires token.Coefficient? && n + token.run < 64 && Inside(tokens, n + token.run + 1)
    ensures Inside([token] + tokens, n)
  {
    assert ([token] + tokens)[1..] == tokens;
  }

  /** What a coefficient is multiplied with, and the order in which coefficients come. */
  datatype Quant = Quant(intra: bool, scale: nat, matrix: seq<nat>, order: seq<nat>, factors: seq<nat>)
  {
    ghost predicate Sound()
    {
      |matrix| == 64 && |order| == 64 && |factors| == 64 && order[0] == 0 && forall k :: 0 <= k < 64 ==> order[k] < 64
    }
  }

  /** The shipped tables will do with any matrix. */
  lemma ShippedOrder(intra: bool, scale: nat, matrix: seq<nat>)
    requires |matrix| == 64
    ensures Quant(intra, scale, matrix, ZigZagOrder(), Premultipliers()).Sound()
  {
    ZigZagPermutes(0);
    forall k | 0 <= k < 64 ensures ZigZagOrder()[k] < 64 {
      ZigZagPermutes(k);
    }
  }

  /** Dequantisation: `>> 4` rounds down, even results move one towards zero, and zero becomes 1. */
  function Dequantized(level: int, q: Quant, k: nat): int
    requires k < |q.matrix|
  {
    var doubled := 2 * level + if q.intra then 0 else if level < 0 then -1 else 1;
    var scaled := doubled * q.scale * q.matrix[k] / 16;
    var odd := if scaled % 2 == 0 then (if scaled > 0 then scaled - 1 else scaled + 1) else scaled;
    if odd > 2047 then 2047 else if odd < -2048 then -2048 else odd
  }

  /** What a level stands for, in 16ths. */
  function Sixteenths(level: int, q: Quant, k: nat): int
    requires k < |q.matrix|
  {
    (if q.intra then 2 * level else if level < 0 then 2 * level - 1 else 2 * level + 1) * q.scale * q.matrix[k]
  }

  /** The dequantised coefficient is the odd number next to the value, on the side of zero, within 12 bits. */
  lemma DequantizedIsOdd(level: int, q: Quant, k: nat, r: int)
    requires k < |q.matrix| && r % 2 == 1
    requires var v := Sixteenths(level, q, k);
             if v < 0 then 16 * (r - 1) <= v < 16 * (r + 1) else if v < 16 then r == 1 else 16 * r <= v < 16 * (r + 2)
    ensures Dequantized(level, q, k) == if r > 2047 then 2047 else if r < -2048 then -2048 else r
  {
    assert Sixteenths(level, q, k) == (2 * level + if q.intra then 0 else if level < 0 then -1 else 1) * q.scale
                                      * q.matrix[k];
    Oddened(Sixteenths(level, q, k), r);
  }

  lemma Oddened(v: int, r: int)
    requires r % 2 == 1
    requires if v < 0 then 16 * (r - 1) <= v < 16 * (r + 1) else if v < 16 then r == 1 else 16 * r <= v < 16 * (r + 2)
    ensures r == if v / 16 % 2 == 0 then (if v / 16 > 0 then v / 16 - 1 else v / 16 + 1) else v / 16
  {
  }

  /** The tokens fit into the block from place `n` on. */
  ghost predicate Inside(tokens: seq<Token>, n: nat)
  {
    tokens == [] || (tokens[0].Coefficient? && n + tokens[0].run < 64 && Inside(tokens[1..], n + tokens[0].run + 1))
  }

  /** The place after the last coefficient. */
  ghost function Places(tokens: seq<Token>, n: nat): nat
    requires Inside(tokens, n)
  {
    if tokens == [] then n else Places(tokens[1..], n + tokens[0].run + 1)
  }

  /** The block with the dequantised, premultiplied coefficients filled in. */
  ghost function Filled(b: Block, tokens: seq<Token>, n: nat, q: Quant): Block
    requires Inside(tokens, n) && q.Sound()
    decreases |tokens|
  {
    if tokens == [] then b else Filled(Saved(b, n, tokens[0], q), tokens[1..], n + tokens[0].run + 1, q)
  }

  /** The block after one coefficient. */
  ghost function Saved(b: Block, n: nat, token: Token, q: Quant): Block
    requires token.Coefficient? && n + token.run < 64 && q.Sound()
  {
    var k := q.order[n + token.run];
    b[k := Dequantized(token.level, q, k) * q.factors[k]]
  }

  lemma ParsedStep(s: seq<byte>, i: nat, n: nat, rest: seq<Token>, end: nat, token: Token, j: nat)
    requires Parsed(s, i, n) == Parse(rest, end) && TokenAt(s, i, n == 0) == (token, j)
    ensures token.EndOfBlock? ==> rest == [] && j == end
    ensures token.Coefficient? ==>
              rest != [] && rest[0] == token && n + token.run < 64
                && Parsed(s, j, n + token.run + 1) == Parse(rest[1..], end)
  {
    if token.Coefficient? {
      var r := Parsed(s, j, n + token.run + 1);
      assert ([token] + r.tokens)[1..] == r.tokens;
    }
  }

  lemma {:induction false} PlacesGrow(tokens: seq<Token>, n: nat)
    requires Inside(tokens, n)
    ensures Places(tokens, n) >= n + |tokens|
  {
    if tokens != [] { PlacesGrow(tokens[1..], n + tokens[0].run + 1); }
  }

  /** One place filled means that no index other than 0 was written. */
  lemma OnePlace(b: Block, tokens: seq<Token>, n: nat, q: Quant, d: int)
    requires Inside(tokens, n) && q.Sound() && Places(tokens, n) == 1 && DcOnly(b, d)
    requires n == 1 || (n == 0 && tokens != [])
    ensures DcOnly(Filled(b, tokens, n, q), Filled(b, tokens, n, q)[0])
  {
    PlacesGrow(tokens, n);
    if n == 0 {
      PlacesGrow(tokens[1..], n + tokens[0].run + 1);
      assert tokens[1..] == [] && tokens[0].run == 0;
    }
  }

  /** Where the coefficient loop is going: the filled block, the number of places and the end position. */
  datatype Goal = Goal(block: Block, places: nat, end: nat)

  datatype Bearing = Stream | Coefficients

  ghost predicate BearingHolds(k: Bearing, s: seq<byte>, i: nat, n: nat, b: Block, q: Quant, rest: seq<Token>,
                               goal: Goal)
  {
    match k
    case Stream => n <= 64 && Parsed(s, i, n) == Parse(rest, goal.end)
    case Coefficients =>
      q.Sound() && Inside(rest, n) && Places(rest, n) == goal.places && Filled(b, rest, n, q) == goal.block
  }

  /** From position `i`, place `n` and block `b` the rest of the stream leads to the goal. */
  ghost predicate Heading(s: seq<byte>, i: nat, n: nat, b: Block, q: Quant, rest: seq<Token>, goal: Goal)
  {
    forall k :: BearingHolds(k, s, i, n, b, q, rest, goal)
  }

  lemma HeadingMeans(s: seq<byte>, i: nat, n: nat, b: Block, q: Quant, rest: seq<Token>, goal: Goal)
    requires Heading(s, i, n, b, q, rest, goal)
    ensures n <= 64 && q.Sound() && Parsed(s, i, n) == Parse(rest, goal.end) && Inside(rest, n)
    ensures Places(rest, n) == goal.places && Filled(b, rest, n, q) == goal.block
  {
    assert BearingHolds(Stream, s, i, n, b, q, rest, goal) && BearingHolds(Coefficients, s, i, n, b, q, rest, goal);
  }

  lemma HeadingEnds(s: seq<byte>, i: nat, n: nat, b: Block, q: Quant, rest: seq<Token>, goal: Goal, j: nat)
    requires Heading(s, i, n, b, q, rest, goal) && TokenAt(s, i, n == 0) == (EndOfBlock, j)
    ensures Goal(b, n, j) == goal
  {
    HeadingMeans(s, i, n, b, q, rest, goal);
    ParsedStep(s, i, n, rest, goal.end, EndOfBlock, j);
  }

  lemma HeadingOn(s: seq<byte>, i: nat, n: nat, b: Block, q: Quant, rest: seq<Token>, goal: Goal, token: Token, j: nat)
    requires Heading(s, i, n, b, q, rest, goal) && TokenAt(s, i, n == 0) == (token, j) && token.Coefficient?
    ensures n + token.run < 64 && q.Sound() && rest != []
    ensures Heading(s, j, n + token.run + 1, Saved(b, n, token, q), q, rest[1..], goal)
  {
    HeadingMeans(s, i, n, b, q, rest, goal);
    ParsedStep(s, i, n, rest, goal.end, token, j);
    FilledStep(b, rest, n, q);
    Heads(s, j, n + token.run + 1, Saved(b, n, token, q), q, rest[1..], goal);
  }

  lemma Heads(s: seq<byte>, i: nat, n: nat, b: Block, q: Quant, rest: seq<Token>, goal: Goal)
    requires n <= 64 && q.Sound() && Parsed(s, i, n) == Parse(rest, goal.end) && Inside(rest, n)
    requires Places(rest, n) == goal.places && Filled(b, rest, n, q) == goal.block
    ensures Heading(s, i, n, b, q, rest, goal)
  {
  }

  method DecodeCoefficients(buffer: Reader, blockData: array<int>, n0: nat, q: Quant, ghost tokens: seq<Token>,
                            ghost goal: Goal) returns (n: nat)
    requires blockData.Length == 64 && Heading(buffer.bytes[..], buffer.index, n0, blockData[..], q, tokens, goal)
    modifies blockData, buffer`index
    ensures Goal(blockData[..], n, buffer.index) == goal
  {
    n := n0;
    ghost var s, rest := buffer.bytes[..], tokens;
    while true
      invariant Heading(s, buffer.index, n, blockData[..], q, rest, goal)
      decreases 64 - n
    {
      ghost var i, b := buffer.index, blockData[..];
      var token := ReadToken(buffer, n == 0);
      if token.EndOfBlock? {
        HeadingEnds(s, i, n, b, q, rest, goal, buffer.index);
        break;
      }
      HeadingOn(s, i, n, b, q, rest, goal, token, buffer.index);
      n := SaveCoefficient(blockData, n, token, q);
      rest := rest[1..];
    }
  }

  lemma FilledStep(b: Block, tokens: seq<Token>, n: nat, q: Quant)
    requires Inside(tokens, n) && tokens != [] && q.Sound()
    ensures Filled(b, tokens, n, q) == Filled(Saved(b, n, tokens[0], q), tokens[1..], n + tokens[0].run + 1, q)
    ensures Places(tokens, n) == Places(tokens[1..], n + tokens[0].run + 1)
  {
  }

  method SaveCoefficient(blockData: array<int>, n0: nat, token: Token, q: Quant) returns (n: nat)
    requires blockData.Length == 64 && token.Coefficient? && n0 + token.run < 64 && q.Sound()
    modifies blockData
    ensures n == n0 + token.run + 1 && blockData[..] == Saved(old(blockData[..]), n0, token, q)
  {
    n := n0 + token.run;
    var dezigZagged := q.order[n];
    n := n + 1;
    blockData[dezigZagged] := Dequantized(token.level, q, dezigZagged) * q.factors[dezigZagged];
  }

  // ---- The picture planes; they clamp what is stored

  function Clamp(v: int): (r: byte)
    ensures forall w: byte :: Distance(v, r) <= Distance(v, w)
  {
    if v > 255 then 255 else if v < 0 then 0 else v
  }

  function Distance(v: int, w: int): nat { if v < w then w - v else v - w }

  /** A pixel after a value is stored into it or added to it. */
  function Stored(was: byte, v: int, add: bool): byte { if add then Clamp(was as int + v) else Clamp(v) }

  /** Row `r` of a block written over, or added to, the eight pixels at `at`. */
  function PaintedRow(d: seq<byte>, at: nat, b: Block, r: nat, add: bool): (d': seq<byte>)
    requires r < 8
    ensures |d'| == |d|
  {
    seq<byte>(|d|, q requires 0 <= q < |d| => if at <= q < at + 8 then Stored(d[q], b[8 * r + q - at], add) else d[q])
  }

  function RowStart(at: nat, stride: nat, r: nat): nat { if r == 0 then at else RowStart(at, stride, r - 1) + stride }

  lemma {:induction false} RowStartGrows(at: nat, stride: nat, r: nat, r': nat)
    requires r <= r'
    ensures RowStart(at, stride, r) <= RowStart(at, stride, r')
    ensures r < r' ==> RowStart(at, stride, r) + stride <= RowStart(at, stride, r')
  {
    if r < r' { RowStartGrows(at, stride, r, r' - 1); }
  }

  /** The first `n` rows painted. */
  function Painted(d: seq<byte>, at: nat, stride: nat, b: Block, add: bool, n: nat): (d': seq<byte>)
    requires n <= 8
    ensures |d'| == |d|
    decreases n
  {
    if n == 0 then d
    else PaintedRow(Painted(d, at, stride, b, add, n - 1), RowStart(at, stride, n - 1), b, n - 1, add)
  }

  /** A whole block painted at `at` into a plane whose rows are `stride` pixels apart. */
  function PaintedBlock(d: seq<byte>, at: nat, stride: nat, b: Block, add: bool): (d': seq<byte>)
    ensures |d'| == |d|
  {
    Painted(d, at, stride, b, add, |b| / 8)
  }

  lemma RowPixel(d: seq<byte>, at: nat, b: Block, r: nat, add: bool, q: nat)
    requires r < 8 && q < |d|
    ensures PaintedRow(d, at, b, r, add)[q] == if at <= q < at + 8 then Stored(d[q], b[8 * r + q - at], add) else d[q]
  {
  }

  ghost predicate Hits(at: nat, stride: nat, r: nat, q: nat)
  {
    RowStart(at, stride, r) <= q < RowStart(at, stride, r) + 8
  }

  /** Rows that do not hit a pixel leave it unchanged; with m = 0 this is about all pixels outside the block. */
  lemma {:induction false} PaintedOutside(d: seq<byte>, at: nat, stride: nat, b: Block, add: bool, m: nat, n: nat,
                                          q: nat)
    requires m <= n <= 8 && q < |d|
    requires forall r :: m <= r < n ==> !Hits(at, stride, r, q)
    ensures Painted(d, at, stride, b, add, n)[q] == Painted(d, at, stride, b, add, m)[q]
    decreases n
  {
    if m < n {
      PaintedOutside(d, at, stride, b, add, m, n - 1, q);
      assert !Hits(at, stride, n - 1, q);
      RowPixel(Painted(d, at, stride, b, add, n - 1), RowStart(at, stride, n - 1), b, n - 1, add, q);
    }
  }

  lemma OneRowHits(at: nat, stride: nat, r: nat, q: nat, k: nat)
    requires stride >= 8 && Hits(at, stride, r, q) && k != r
    ensures !Hits(at, stride, k, q)
  {
    if k < r { RowStartGrows(at, stride, k, r); } else { RowStartGrows(at, stride, r, k); }
  }

  /** The pixel in row `r` and column `x` of the block holds the clamped value, or the clamped sum. */
  lemma PaintedInside(d: seq<byte>, at: nat, stride: nat, b: Block, add: bool, r: nat, x: nat, q: nat)
    requires r < 8 <= stride && x < 8 && q == RowStart(at, stride, r) + x < |d|
    ensures PaintedBlock(d, at, stride, b, add)[q] == Stored(d[q], b[8 * r + x], add)
  {
    forall k | 0 <= k < 8 && k != r ensures !Hits(at, stride, k, q) {
      OneRowHits(at, stride, r, q, k);
    }
    PaintedOutside(d, at, stride, b, add, 0, r, q);
    RowPixel(Painted(d, at, stride, b, add, r), RowStart(at, stride, r), b, r, add, q);
    PaintedOutside(d, at, stride, b, add, r + 1, |b| / 8, q);
  }

  ghost predicate PartOfRow(was: seq<byte>, now: seq<byte>, at: nat, b: Block, r: nat, add: bool, x: nat)
    requires r < 8 && x <= 8
  {
    |now| == |was| && forall q :: 0 <= q < |was| ==>
        now[q] == if at <= q < at + x then Stored(was[q], b[8 * r + q - at], add) else was[q]
  }

  lemma PartIsRow(was: seq<byte>, now: seq<byte>, at: nat, b: Block, r: nat, add: bool)
    requires r < 8 && PartOfRow(was, now, at, b, r, add, 8)
    ensures now == PaintedRow(was, at, b, r, add)
  {
  }

  /** `copyBlockToDestination` and, with `add`, `addBlockToDestination`. */
  method PaintBlock(d: array<byte>, at: nat, stride: nat, blockData: array<int>, add: bool)
    requires blockData.Length == 64 && RowStart(at, stride, 7) + 8 <= d.Length
    modifies d
    ensures d[..] == PaintedBlock(old(d[..]), at, stride, blockData[..], add)
  {
    ghost var was := d[..];
    var dest := at;
    for r := 0 to 8
      invariant dest == RowStart(at, stride, r) && d[..] == Painted(was, at, stride, blockData[..], add, r)
    {
      RowStartGrows(at, stride, r, 7);
      PaintRow(d, dest, blockData, r, add);
      dest := dest + stride;
    }
  }

  method PaintRow(d: array<byte>, at: nat, blockData: array<int>, r: nat, add: bool)
    requires r < 8 && at + 8 <= d.Length && blockData.Length == 64
    modifies d
    ensures d[..] == PaintedRow(old(d[..]), at, blockData[..], r, add)
  {
    ghost var was := d[..];
    for x := 0 to 8
      invariant PartOfRow(was, d[..], at, blockData[..], r, add, x)
    {
      var v := blockData[8 * r + x];
      d[at + x] := if add then Clamp(d[at + x] as int + v) else Clamp(v);
    }
    PartIsRow(was, d[..], at, blockData[..], r, add);
  }

  /** `copyValueToDestination` and, with `add`, `addValueToDestination`: as if the value filled a block. */
  method PaintValue(d: array<byte>, at: nat, stride: nat, v: int, add: bool, ghost b: Block)
    requires RowStart(at, stride, 7) + 8 <= d.Length && Constant(b, v)
    modifies d
    ensures d[..] == PaintedBlock(old(d[..]), at, stride, b, add)
  {
    ghost var was := d[..];
    var dest := at;
    for r := 0 to 8
      invariant dest == RowStart(at, stride, r) && d[..] == Painted(was, at, stride, b, add, r)
    {
      RowStartGrows(at, stride, r, 7);
      PaintValueRow(d, dest, v, r, add, b);
      dest := dest + stride;
    }
  }

  method PaintValueRow(d: array<byte>, at: nat, v: int, ghost r: nat, add: bool, ghost b: Block)
    requires r < 8 && at + 8 <= d.Length && Constant(b, v)
    modifies d
    ensures d[..] == PaintedRow(old(d[..]), at, b, r, add)
  {
    ghost var was := d[..];
    for x := 0 to 8
      invariant PartOfRow(was, d[..], at, b, r, add, x)
    {
      d[at + x] := if add then Clamp(d[at + x] as int + v) else Clamp(v);
    }
    PartIsRow(was, d[..], at, b, r, add);
  }

  /** The last part of `decodeBlock`, with the shortcut for one place. The plane gets the full inverse transform in
      either case, and the block is cleared. */
  method MoveBlock(blockData: array<int>, n: nat, d: array<byte>, at: nat, stride: nat, intra: bool)
    requires blockData.Length == 64 && RowStart(at, stride, 7) + 8 <= d.Length
    requires n == 1 ==> DcOnly(blockData[..], blockData[0])
    modifies blockData, d
    ensures d[..] == PaintedBlock(old(d[..]), at, stride, Transformed(old(blockData[..])), !intra)
    ensures blockData[..] == ZeroBlock()
  {
    if n == 1 {
      PaintDc(d, at, stride, blockData[0], !intra, blockData[..]);
      ClearDc(blockData);
    } else {
      IDCT(blockData);
      PaintBlock(d, at, stride, blockData, !intra);
      Clear(blockData);
    }
  }

  /** The shortcut paints what the full transform would. */
  method PaintDc(d: array<byte>, at: nat, stride: nat, dc: int, add: bool, ghost b: Block)
    requires RowStart(at, stride, 7) + 8 <= d.Length && DcOnly(b, dc)
    modifies d
    ensures d[..] == PaintedBlock(old(d[..]), at, stride, Transformed(b), add)
  {
    TransformOfDc(b, dc);
    PaintValue(d, at, stride, (dc + 128) / 256, add, Transformed(b));
  }

  method ClearDc(blockData: array<int>)
    requires blockData.Length == 64 && DcOnly(blockData[..], blockData[0])
    modifies blockData
    ensures blockData[..] == ZeroBlock()
  {
    ClearedDc(blockData[..]);
    blockData[0] := 0;
  }

  lemma ClearedDc(b: Block)
    requires DcOnly(b, b[0])
    ensures b[0 := 0] == ZeroBlock()
  {
  }

  method Clear(blockData: array<int>)
    requires blockData.Length == 64
    modifies blockData
    ensures blockData[..] == ZeroBlock()
  {
    forall i | 0 <= i < 64 {
      blockData[i] := 0;
    }
  }

  // ---- The DC coefficient of intra blocks

  /** The difference that `size` bits stand for: without the top bit they count down from zero. */
  function DcDifference(bits: nat, size: nat): int
  {
    if size == 0 then 0 else if bits >= Pow2(size - 1) then bits else bits + 1 - Pow2(size)
  }

  /** Every difference that needs `size` bits is coded by exactly one value of the bits. */
  lemma DcDifferenceCodes(v: int, size: nat)
    requires size > 0 && Pow2(size - 1) <= (if v < 0 then -v else v) < Pow2(size)
    ensures var bits := if v > 0 then v else v - 1 + Pow2(size);
            && 0 <= bits < Pow2(size) && DcDifference(bits, size) == v
            && forall other: nat :: other < Pow2(size) && DcDifference(other, size) == v ==> other == bits
  {
  }

  ghost function DcTable(luma: bool): seq<int>
  {
    Table(18, if luma then DcSizeLuminance else DcSizeChrominance)
  }

  lemma DcSizeBound(s: seq<byte>, i: nat, luma: bool)
    ensures Shape(DcTable(luma)) && 0 <= Decoded(s, i, DcTable(luma)).0 <= 8
  {
    ShippedTables();
    if luma {
      DcValue(s, i, DcSizeLuminance);
    } else {
      DcValue(s, i, DcSizeChrominance);
    }
  }

  lemma DcValue(s: seq<byte>, i: nat, row: nat -> PrefixCode.Row)
    requires row == DcSizeLuminance || row == DcSizeChrominance
    requires Shape(Table(18, row))
    ensures 0 <= Decoded(s, i, Table(18, row)).0 <= 8
  {
    var t := Table(18, row);
    ScanInTable(s, i, t, 0);
    var e := Scan(s, i, t, 0).0;
    TableRow(18, row, 0);
    DcValues(0);
    if e.Some? {
      TableRow(18, row, e.value);
      DcValues(e.value);
    }
  }

  lemma DcValues(r: nat)
    ensures 0 <= Cell(DcSizeLuminance(r), 2) <= 8 && 0 <= Cell(DcSizeChrominance(r), 2) <= 8
    ensures 0 <= Cell(DcSizeLuminance(0), 1) <= 8 && 0 <= Cell(DcSizeChrominance(0), 1) <= 8
  {
  }

  ghost function DcSizeAt(s: seq<byte>, i: nat, luma: bool): (r: (int, nat))
    ensures 0 <= r.0 <= 8
  {
    DcSizeBound(s, i, luma);
    Decoded(s, i, DcTable(luma))
  }

  /** The difference in the stream and the position after it. */
  ghost function DcAt(s: seq<byte>, i: nat, luma: bool): (int, nat)
  {
    var (size, j) := DcSizeAt(s, i, luma);
    (DcDifference(Bits(s, j, size), size), j + size)
  }

  method ReadDc(buffer: Reader, luma: bool) returns (difference: int)
    modifies buffer`index
    ensures (difference, buffer.index) == DcAt(buffer.bytes[..], old(buffer.index), luma)
  {
    var dctSize := ReadDcSize(buffer, luma);
    ghost var s, j := buffer.bytes[..], buffer.index;
    if dctSize > 0 {
      var differential := buffer.GetBits(dctSize);
      difference := if differential >= Pow2(dctSize - 1) then differential else differential + 1 - Pow2(dctSize);
    } else {
      difference := 0;
    }
    assert difference == DcDifference(Bits(s, j, dctSize), dctSize) && buffer.index == j + dctSize;
  }

  method ReadDcSize(buffer: Reader, luma: bool) returns (dctSize: nat)
    modifies buffer`index
    ensures dctSize <= 8 && (dctSize as int, buffer.index) == DcSizeAt(buffer.bytes[..], old(buffer.index), luma)
  {
    DcSizeBound(buffer.bytes[..], buffer.index, luma);
    if luma {
      dctSize := ReadCode(buffer, Table(18, DcSizeLuminance));
    } else {
      dctSize := ReadCode(buffer, Table(18, DcSizeChrominance));
    }
  }

  // ---- decodeBlock

  /** A block before its coefficients, the first place, and the position of the first coefficient. */
  datatype Begin = Begin(block: Block, n: nat, at: nat)

  ghost function Begun(s: seq<byte>, i: nat, intra: bool, luma: bool, predictor: int): Begin
  {
    if intra then Begin(ZeroBlock()[0 := (predictor + DcAt(s, i, luma).0) * 256], 1, DcAt(s, i, luma).1)
        else Begin(ZeroBlock(), 0, i)
  }

  /** A decoded block and the position after it. */
  datatype Coded = Coded(block: Block, end: nat)

  /** The block once the coefficients are filled in, if they are well formed. */
  ghost function Finished(s: seq<byte>, g: Begin, q: Quant): Option<Coded>
    requires q.Sound()
  {
    if Parsed(s, g.at, g.n).Malformed? then None
    else
      Some(Coded(Filled(g.block, Parsed(s, g.at, g.n).tokens, g.n, q), Parsed(s, g.at, g.n).end))
  }

  /** The coefficients of the block at position `i` of a stream. */
  ghost function Contents(s: seq<byte>, i: nat, luma: bool, predictor: int, q: Quant): Option<Coded>
    requires q.Sound()
  {
    Finished(s, Begun(s, i, q.intra, luma, predictor), q)
  }

  datatype Place = Place(at: nat, stride: nat)

  /** Where block 0 to 5 of a macroblock goes. */
  function PlaceFor(block: nat, mbRow: nat, mbCol: nat, codedWidth: nat): Place
  {
    if block < 4 then
      Place((mbRow * codedWidth + mbCol) * 16 + (if block % 2 == 1 then 8 else 0)
            + (if block / 2 == 1 then codedWidth * 8 else 0), codedWidth)
    else
      Place(mbRow * codedWidth * 4 + mbCol * 8, codedWidth / 2)
  }

  /** In two dimensions: luminance blocks fill the quarters of a 16 x 16 square, chrominance blocks an 8 x 8 one. */
  lemma PlaceIsQuarter(block: nat, mbRow: nat, mbCol: nat, mbWidth: nat)
    requires block < 6
    ensures var p := PlaceFor(block, mbRow, mbCol, 16 * mbWidth);
            if block < 4 then p.stride == 16 * mbWidth
                && p.at == (16 * mbRow + 8 * (block / 2)) * p.stride + 16 * mbCol + 8 * (block % 2)
            else p.stride == 8 * mbWidth && p.at == 8 * mbRow * p.stride + 8 * mbCol
  {
  }

  datatype DcPredictors = DcPredictors(y: int, cr: int, cb: int)
  {
    /** The block's own predictor moves, the others do not. */
    function Moved(block: nat, d: int): DcPredictors
    {
      if block < 4 then this.(y := y + d) else if block == 4 then this.(cr := cr + d) else this.(cb := cb + d)
    }
  }

  class BlockLayer {
    const blockData: array<int>
    var dcPredictorY: int
    var dcPredictorCr: int
    var dcPredictorCb: int

    constructor ()
      ensures blockData.Length == 64 && blockData[..] == ZeroBlock()
      ensures dcPredictorY == dcPredictorCr == dcPredictorCb == 128
    {
      blockData := new int[64](_ => 0);
      dcPredictorY, dcPredictorCr, dcPredictorCb := 128, 128, 128;
    }

    function Predictor(block: nat): int
      reads this
    {
      if block < 4 then dcPredictorY else if block == 4 then dcPredictorCr else dcPredictorCb
    }

    method DecodeDc(buffer: Reader, block: nat)
      requires blockData.Length == 64 && block < 6 && blockData[..] == ZeroBlock()
      modifies blockData, buffer`index, `dcPredictorY, `dcPredictorCr, `dcPredictorCb
      ensures Begin(blockData[..], 1, buffer.index) ==
                Begun(buffer.bytes[..], old(buffer.index), true, block < 4, old(Predictor(block)))
      ensures Predictors() == old(Predictors().Moved(block, DcAt(buffer.bytes[..], buffer.index, block < 4).0))
    {
      var difference := ReadDc(buffer, block < 4);
      var dc := Predictor(block) + difference;
      if block < 4 {
        dcPredictorY := dc;
      } else if block == 4 {
        dcPredictorCr := dc;
      } else {
        dcPredictorCb := dc;
      }
      blockData[0] := dc * 256;
    }

    /** For every well-formed block the plane gets the inverse transform of its coefficients, shortcut or not, and the
        block buffer is left all zero. */
    method DecodeBlock(buffer: Reader, block: nat, q: Quant, plane: array<byte>, place: Place, ghost coded: Coded)
      requires blockData.Length == 64 && block < 6 && blockData[..] == ZeroBlock() && q.Sound()
      requires RowStart(place.at, place.stride, 7) + 8 <= plane.Length && plane != buffer.bytes
      requires Coding(buffer, block, q) == Some(coded)
      modifies blockData, plane, buffer`index, `dcPredictorY, `dcPredictorCr, `dcPredictorCb
      ensures blockData[..] == ZeroBlock() && buffer.index == coded.end
      ensures plane[..] == PaintedBlock(old(plane[..]), place.at, place.stride, Transformed(coded.block), !q.intra)
      ensures Predictors() == old(Predictors().Moved(block, Shift(buffer, block, q)))
    {
      var n := DecodeData(buffer, block, q, coded);
      MoveBlock(blockData, n, plane, place.at, place.stride, q.intra);
    }

    ghost function Coding(buffer: Reader, block: nat, q: Quant): Option<Coded>
      requires q.Sound()
      reads this, buffer, buffer.bytes
    {
      Contents(buffer.bytes[..], buffer.index, block < 4, Predictor(block), q)
    }

    /** How far the block moves its predictor. */
    ghost function Shift(buffer: Reader, block: nat, q: Quant): int
      reads buffer, buffer.bytes
    {
      if q.intra then DcAt(buffer.bytes[..], buffer.index, block < 4).0 else 0
    }

    ghost function Predictors(): DcPredictors
      reads this
    {
      DcPredictors(dcPredictorY, dcPredictorCr, dcPredictorCb)
    }

    /** The first part of `decodeBlock`: everything that reads the stream. */
    method DecodeData(buffer: Reader, block: nat, q: Quant, ghost coded: Coded) returns (n: nat)
      requires blockData.Length == 64 && block < 6 && blockData[..] == ZeroBlock() && q.Sound()
      requires Coding(buffer, block, q) == Some(coded)
      modifies blockData, buffer`index, `dcPredictorY, `dcPredictorCr, `dcPredictorCb
      ensures Coded(blockData[..], buffer.index) == coded
      ensures Predictors() == old(Predictors().Moved(block, Shift(buffer, block, q)))
      ensures n == 1 ==> DcOnly(blockData[..], blockData[0])
    {
      ghost var s := buffer.bytes[..];
      ghost var g := Begun(s, buffer.index, q.intra, block < 4, Predictor(block));
      n := 0;
      if q.intra {
        DecodeDc(buffer, block);
        n := 1;
      }
      ghost var p := Parsed(s, g.at, g.n);
      n := DecodeCoefficients(buffer, blockData, n, q, p.tokens,
                              Goal(Filled(g.block, p.tokens, g.n, q), Places(p.tokens, g.n), p.end));
      if n == 1 {
        OnePlace(g.block, p.tokens, g.n, q, g.block[0]);
      }
    }
  }
}
