/** The code words of Annex B of ISO/IEC 11172-2, each as the number whose binary digits are a one and then the
    word, and that the shipped tables spell exactly these. */
module VideoCodes {
  import opened Common
  import opened PrefixCode
  import opened VideoTables

  /** A one and then the bits. */
  function Packed(w: seq<bit>): nat { if w == [] then 1 else 2 * Packed(w[..|w| - 1]) + w[|w| - 1] }

  /** From a row that is reached by the bits `q`, row `r` is reached by the bits `p`. */
  predicate LedTo(row: Row, q: nat, r: nat, p: nat)
  {
    row.Inner? && ((row.zero == r && p == 2 * q) || (row.one == r && p == 2 * q + 1))
  }

  ghost predicate Spelled(n: nat, row: nat -> Row, parent: nat -> nat, path: nat -> nat)
  {
    path(0) == 1 && forall r: nat :: 0 < r < n ==> LedTo(row(parent(r)), path(parent(r)), r, path(r))
  }

  ghost predicate Listed(n: nat, row: nat -> Row, path: nat -> nat, word: int -> nat)
  {
    forall r: nat :: r < n && row(r).Leaf? ==> word(row(r).value) == path(r)
  }

  /** Every symbol of the table has the code word that is listed for it. */
  ghost predicate Standard(n: nat, row: nat -> Row, word: int -> nat)
  {
    var t := Table(n, row);
    Shape(t) && forall r: nat :: r < n && row(r).Leaf? ==>
        exists w :: CodeWord(t, w) && Symbol(t, w) == row(r).value && Packed(w) == word(row(r).value)
  }

  lemma {:induction false} PathSpells(n: nat, row: nat -> Row, parent: nat -> nat, path: nat -> nat, r: nat)
    returns (w: seq<bit>)
    requires Sound(n, row, parent) && Spelled(n, row, parent, path) && r < n && Shape(Table(n, row))
    ensures Walk(Table(n, row), 0, w) == Some(r) && Packed(w) == path(r) && (r > 0 ==> w != [])
    decreases r
  {
    if r == 0 {
      w := [];
    } else {
      assert Fits(n, row, parent, r) && LedTo(row(parent(r)), path(parent(r)), r, path(r));
      w := PathSpells(n, row, parent, path, parent(r));
      var b: bit := if path(r) == 2 * path(parent(r)) then 0 else 1;
      NextRow(n, row, parent(r), r, b);
      WalkOn(Table(n, row), 0, w, b);
      assert (w + [b])[..|w|] == w;
      w := w + [b];
    }
  }

  lemma NextRow(n: nat, row: nat -> Row, q: nat, r: nat, b: bit)
    requires q < r < n && Shape(Table(n, row)) && row(q).Inner? && r == if b == 0 then row(q).zero else row(q).one
    ensures !IsLeaf(Table(n, row), q) && Next(Table(n, row), q, b) == Some(r)
  {
    TableRow(n, row, q);
    assert RowShape(Table(n, row), q);
  }

  lemma SpelledTable(n: nat, row: nat -> Row, parent: nat -> nat, path: nat -> nat, word: int -> nat)
    requires Sound(n, row, parent) && Spelled(n, row, parent, path) && Listed(n, row, path, word)
    ensures Standard(n, row, word)
  {
    SoundTable(n, row, parent);
    var t := Table(n, row);
    forall r: nat | r < n && row(r).Leaf?
      ensures exists w :: CodeWord(t, w) && Symbol(t, w) == row(r).value && Packed(w) == word(row(r).value)
    {
      TableRow(n, row, r);
      var w := PathSpells(n, row, parent, path, r);
    }
  }


  // ---- MACROBLOCK_ADDRESS_INCREMENT

  function AddressIncrementPath(r: nat): nat
  {
    if r < 32 then (
      match r
      case 0 => 1 case 1 => 2 case 2 => 3 case 3 => 4 case 4 => 5 case 5 => 8 case 6 => 9 case 7 => 10 case 8 => 11
      case 9 => 16 case 10 => 17 case 11 => 18 case 12 => 19 case 13 => 32 case 14 => 33 case 15 => 34 case 16 => 35
      case 17 => 64 case 18 => 65 case 19 => 66 case 20 => 67 case 21 => 128 case 22 => 129 case 23 => 130
      case 24 => 131 case 25 => 132 case 26 => 133 case 27 => 134 case 28 => 135 case 29 => 257 case 30 => 259
      case _ => 260)
    else if r < 64 then (
      match r
      case 32 => 261 case 33 => 262 case 34 => 263 case 35 => 264 case 36 => 265 case 37 => 266 case 38 => 267
      case 39 => 514 case 40 => 515 case 41 => 518 case 42 => 519 case 43 => 520 case 44 => 521 case 45 => 522
      case 46 => 523 case 47 => 1028 case 48 => 1031 case 49 => 1036 case 50 => 1037 case 51 => 1038 case 52 => 1039
      case 53 => 1040 case 54 => 1041 case 55 => 1042 case 56 => 1043 case 57 => 1044 case 58 => 1045
      case 59 => 1046 case 60 => 1047 case 61 => 2056 case 62 => 2063 case _ => 2072)
    else match r
    case 64 => 2073 case 65 => 2074 case 66 => 2075 case 67 => 2076 case 68 => 2077 case 69 => 2078 case 70 => 2079
    case 71 => 2080 case 72 => 2081 case 73 => 2082 case _ => 2083
  }

  function AddressIncrementWord(r: int): nat
  {
    if r < 33 then (
      match r
      case 1 => 3 case 2 => 11 case 3 => 10 case 4 => 19 case 5 => 18 case 6 => 35 case 7 => 34 case 8 => 135
      case 9 => 134 case 10 => 267 case 11 => 266 case 12 => 265 case 13 => 264 case 14 => 263 case 15 => 262
      case 16 => 1047 case 17 => 1046 case 18 => 1045 case 19 => 1044 case 20 => 1043 case 21 => 1042
      case 22 => 2083 case 23 => 2082 case 24 => 2081 case 25 => 2080 case 26 => 2079 case 27 => 2078
      case 28 => 2077 case 29 => 2076 case 30 => 2075 case 31 => 2074 case _ => 2073)
    else match r
    case 33 => 2072 case 34 => 2063 case _ => 2056
  }

  lemma AddressIncrementPaths0()
    ensures forall r: nat :: 1 <= r < 64 ==>
              LedTo(AddressIncrement(AddressIncrementParent(r)), AddressIncrementPath(AddressIncrementParent(r)), r,
                    AddressIncrementPath(r))
  {
  }

  lemma AddressIncrementWords0()
    ensures forall r: nat :: r < 64 && AddressIncrement(r).Leaf? ==>
              AddressIncrementWord(AddressIncrement(r).value) == AddressIncrementPath(r)
  {
  }

  lemma AddressIncrementPaths64()
    ensures forall r: nat :: 64 <= r < 75 ==>
              LedTo(AddressIncrement(AddressIncrementParent(r)), AddressIncrementPath(AddressIncrementParent(r)), r,
                    AddressIncrementPath(r))
  {
  }

  lemma AddressIncrementWords64()
    ensures forall r: nat :: 64 <= r < 75 && AddressIncrement(r).Leaf? ==>
              AddressIncrementWord(AddressIncrement(r).value) == AddressIncrementPath(r)
  {
  }

  lemma AddressIncrementStandard()
    ensures Standard(75, AddressIncrement, AddressIncrementWord)
  {
    AddressIncrementSound();
    AddressIncrementPaths0();
    AddressIncrementWords0();
    AddressIncrementPaths64();
    AddressIncrementWords64();
    SpelledTable(75, AddressIncrement, AddressIncrementParent, AddressIncrementPath, AddressIncrementWord);
  }

  // ---- MACROBLOCK_TYPE_I

  function TypeIPath(r: nat): nat
  {
    match r
    case 0 => 1 case 1 => 2 case 2 => 3 case _ => 5
  }

  function TypeIWord(r: int): nat
  {
    match r
    case 1 => 3 case _ => 5
  }

  lemma TypeIPaths()
    ensures forall r: nat :: 1 <= r < 4 ==>
              LedTo(TypeI(TypeIParent(r)), TypeIPath(TypeIParent(r)), r, TypeIPath(r))
  {
  }

  lemma TypeIWords()
    ensures forall r: nat :: r < 4 && TypeI(r).Leaf? ==> TypeIWord(TypeI(r).value) == TypeIPath(r)
  {
  }

  lemma TypeIStandard()
    ensures Standard(4, TypeI, TypeIWord)
  {
    TypeISound();
    TypeIPaths();
    TypeIWords();
    SpelledTable(4, TypeI, TypeIParent, TypeIPath, TypeIWord);
  }

  // ---- MACROBLOCK_TYPE_P

  function TypePPath(r: nat): nat
  {
    match r
    case 0 => 1 case 1 => 2 case 2 => 3 case 3 => 4 case 4 => 5 case 5 => 8 case 6 => 9 case 7 => 16 case 8 => 17
    case 9 => 32 case 10 => 33 case 11 => 34 case 12 => 35 case _ => 65
  }

  function TypePWord(r: int): nat
  {
    match r
    case 1 => 35 case 2 => 5 case 8 => 9 case 10 => 3 case 17 => 65 case 18 => 33 case _ => 34
  }

  lemma TypePPaths()
    ensures forall r: nat :: 1 <= r < 14 ==>
              LedTo(TypeP(TypePParent(r)), TypePPath(TypePParent(r)), r, TypePPath(r))
  {
  }

  lemma TypePWords()
    ensures forall r: nat :: r < 14 && TypeP(r).Leaf? ==> TypePWord(TypeP(r).value) == TypePPath(r)
  {
  }

  lemma TypePStandard()
    ensures Standard(14, TypeP, TypePWord)
  {
    TypePSound();
    TypePPaths();
    TypePWords();
    SpelledTable(14, TypeP, TypePParent, TypePPath, TypePWord);
  }

  // ---- MACROBLOCK_TYPE_B

  function TypeBPath(r: nat): nat
  {
    match r
    case 0 => 1 case 1 => 2 case 2 => 3 case 3 => 4 case 4 => 6 case 5 => 5 case 6 => 7 case 7 => 9 case 8 => 8
    case 9 => 10 case 10 => 11 case 11 => 17 case 12 => 16 case 13 => 18 case 14 => 19 case 15 => 32 case 16 => 35
    case 17 => 33 case 18 => 34 case 19 => 65 case 20 => 66 case _ => 67
  }

  function TypeBWord(r: int): nat
  {
    match r
    case 1 => 35 case 4 => 10 case 6 => 11 case 8 => 18 case 10 => 19 case 12 => 6 case 14 => 7 case 17 => 65
    case 22 => 66 case 26 => 67 case _ => 34
  }

  lemma TypeBPaths()
    ensures forall r: nat :: 1 <= r < 22 ==>
              LedTo(TypeB(TypeBParent(r)), TypeBPath(TypeBParent(r)), r, TypeBPath(r))
  {
  }

  lemma TypeBWords()
    ensures forall r: nat :: r < 22 && TypeB(r).Leaf? ==> TypeBWord(TypeB(r).value) == TypeBPath(r)
  {
  }

  lemma TypeBStandard()
    ensures Standard(22, TypeB, TypeBWord)
  {
    TypeBSound();
    TypeBPaths();
    TypeBWords();
    SpelledTable(22, TypeB, TypeBParent, TypeBPath, TypeBWord);
  }

  // ---- CODE_BLOCK_PATTERN

  function CodeBlockPatternPath(r: nat): nat
  {
    if r < 32 then (
      match r
      case 0 => 1 case 1 => 3 case 2 => 2 case 3 => 6 case 4 => 4 case 5 => 5 case 6 => 7 case 7 => 11 case 8 => 12
      case 9 => 10 case 10 => 14 case 11 => 13 case 12 => 8 case 13 => 9 case 14 => 15 case 15 => 16 case 16 => 25
      case 17 => 21 case 18 => 24 case 19 => 23 case 20 => 22 case 21 => 26 case 22 => 17 case 23 => 20
      case 24 => 18 case 25 => 29 case 26 => 19 case 27 => 28 case 28 => 27 case 29 => 46 case 30 => 38
      case _ => 47)
    else if r < 64 then (
      match r
      case 32 => 45 case 33 => 40 case 34 => 37 case 35 => 32 case 36 => 43 case 37 => 39 case 38 => 42
      case 39 => 44 case 40 => 33 case 41 => 41 case 42 => 48 case 43 => 36 case 44 => 50 case 45 => 34
      case 46 => 35 case 47 => 49 case 48 => 51 case 49 => 70 case 50 => 76 case 51 => 72 case 52 => 64
      case 53 => 71 case 54 => 79 case 55 => 78 case 56 => 77 case 57 => 66 case 58 => 67 case 59 => 75
      case 60 => 65 case 61 => 74 case 62 => 73 case _ => 69)
    else if r < 96 then (
      match r
      case 64 => 68 case 65 => 128 case 66 => 143 case 67 => 148 case 68 => 150 case 69 => 132 case 70 => 130
      case 71 => 151 case 72 => 146 case 73 => 129 case 74 => 147 case 75 => 145 case 76 => 149 case 77 => 144
      case 78 => 131 case 79 => 135 case 80 => 140 case 81 => 134 case 82 => 137 case 83 => 141 case 84 => 142
      case 85 => 139 case 86 => 138 case 87 => 133 case 88 => 136 case 89 => 259 case 90 => 280 case 91 => 279
      case 92 => 281 case 93 => 258 case 94 => 257 case _ => 286)
    else match r
    case 96 => 285 case 97 => 287 case 98 => 284 case 99 => 283 case 100 => 278 case 101 => 282 case 102 => 260
    case 103 => 270 case 104 => 271 case 105 => 266 case 106 => 264 case 107 => 269 case 108 => 267 case 109 => 268
    case 110 => 265 case 111 => 273 case 112 => 272 case 113 => 262 case 114 => 276 case 115 => 277 case 116 => 261
    case 117 => 274 case 118 => 275 case 119 => 263 case 120 => 514 case 121 => 518 case 122 => 517 case 123 => 515
    case 124 => 516 case _ => 519
  }

  function CodeBlockPatternWord(r: int): nat
  {
    if r < 33 then (
      match r
      case 1 => 43 case 2 => 41 case 3 => 77 case 4 => 29 case 5 => 151 case 6 => 147 case 7 => 287 case 8 => 28
      case 9 => 150 case 10 => 146 case 11 => 286 case 12 => 51 case 13 => 283 case 14 => 279 case 15 => 275
      case 16 => 27 case 17 => 149 case 18 => 145 case 19 => 285 case 20 => 49 case 21 => 281 case 22 => 277
      case 23 => 273 case 24 => 79 case 25 => 271 case 26 => 269 case 27 => 515 case 28 => 47 case 29 => 267
      case 30 => 263 case 31 => 519 case _ => 26)
    else match r
    case 33 => 148 case 34 => 144 case 35 => 284 case 36 => 78 case 37 => 270 case 38 => 268 case 39 => 514
    case 40 => 48 case 41 => 280 case 42 => 276 case 43 => 272 case 44 => 46 case 45 => 266 case 46 => 262
    case 47 => 518 case 48 => 50 case 49 => 282 case 50 => 278 case 51 => 274 case 52 => 45 case 53 => 265
    case 54 => 261 case 55 => 517 case 56 => 44 case 57 => 264 case 58 => 260 case 59 => 516 case 60 => 15
    case 61 => 42 case 62 => 40 case _ => 76
  }

  lemma CodeBlockPatternPaths0()
    ensures forall r: nat :: 1 <= r < 64 ==>
              LedTo(CodeBlockPattern(CodeBlockPatternParent(r)), CodeBlockPatternPath(CodeBlockPatternParent(r)), r,
                    CodeBlockPatternPath(r))
  {
  }

  lemma CodeBlockPatternWords0()
    ensures forall r: nat :: r < 64 && CodeBlockPattern(r).Leaf? ==>
              CodeBlockPatternWord(CodeBlockPattern(r).value) == CodeBlockPatternPath(r)
  {
  }

  lemma CodeBlockPatternPaths64()
    ensures forall r: nat :: 64 <= r < 126 ==>
              LedTo(CodeBlockPattern(CodeBlockPatternParent(r)), CodeBlockPatternPath(CodeBlockPatternParent(r)), r,
                    CodeBlockPatternPath(r))
  {
  }

  lemma CodeBlockPatternWords64()
    ensures forall r: nat :: 64 <= r < 126 && CodeBlockPattern(r).Leaf? ==>
              CodeBlockPatternWord(CodeBlockPattern(r).value) == CodeBlockPatternPath(r)
  {
  }

  lemma CodeBlockPatternStandard()
    ensures Standard(126, CodeBlockPattern, CodeBlockPatternWord)
  {
    CodeBlockPatternSound();
    CodeBlockPatternPaths0();
    CodeBlockPatternWords0();
    CodeBlockPatternPaths64();
    CodeBlockPatternWords64();
    SpelledTable(126, CodeBlockPattern, CodeBlockPatternParent, CodeBlockPatternPath, CodeBlockPatternWord);
  }

  // ---- MOTION

  function MotionPath(r: nat): nat
  {
    if r < 32 then (
      match r
      case 0 => 1 case 1 => 2 case 2 => 3 case 3 => 5 case 4 => 4 case 5 => 11 case 6 => 10 case 7 => 9 case 8 => 8
      case 9 => 18 case 10 => 19 case 11 => 17 case 12 => 16 case 13 => 33 case 14 => 34 case 15 => 35 case 16 => 32
      case 17 => 64 case 18 => 67 case 19 => 65 case 20 => 66 case 21 => 131 case 22 => 133 case 23 => 129
      case 24 => 132 case 25 => 135 case 26 => 130 case 27 => 134 case 28 => 263 case 29 => 266 case 30 => 260
      case _ => 267)
    else if r < 64 then (
      match r
      case 32 => 262 case 33 => 259 case 34 => 261 case 35 => 265 case 36 => 264 case 37 => 520 case 38 => 518
      case 39 => 523 case 40 => 519 case 41 => 521 case 42 => 522 case 43 => 1042 case 44 => 1044 case 45 => 1046
      case 46 => 1047 case 47 => 1039 case 48 => 1045 case 49 => 1037 case 50 => 1036 case 51 => 1040
      case 52 => 1038 case 53 => 1043 case 54 => 1041 case 55 => 2080 case 56 => 2072 case 57 => 2078
      case 58 => 2076 case 59 => 2082 case 60 => 2074 case 61 => 2073 case 62 => 2081 case _ => 2077)
    else match r
    case 64 => 2075 case 65 => 2083 case _ => 2079
  }

  function MotionWord(r: int): nat
  {
    if r < 16 then (
      match r
      case -16 => 2073 case -15 => 2075 case -14 => 2077 case -13 => 2079 case -12 => 2081 case -11 => 2083
      case -10 => 1043 case -9 => 1045 case -8 => 1047 case -7 => 263 case -6 => 265 case -5 => 267 case -4 => 135
      case -3 => 35 case -2 => 19 case -1 => 11 case 0 => 3 case 1 => 10 case 2 => 18 case 3 => 34 case 4 => 134
      case 5 => 266 case 6 => 264 case 7 => 262 case 8 => 1046 case 9 => 1044 case 10 => 1042 case 11 => 2082
      case 12 => 2080 case 13 => 2078 case 14 => 2076 case _ => 2074)
    else match r
    case _ => 2072
  }

  lemma MotionPaths0()
    ensures forall r: nat :: 1 <= r < 64 ==>
              LedTo(Motion(MotionParent(r)), MotionPath(MotionParent(r)), r, MotionPath(r))
  {
  }

  lemma MotionWords0()
    ensures forall r: nat :: r < 64 && Motion(r).Leaf? ==> MotionWord(Motion(r).value) == MotionPath(r)
  {
  }

  lemma MotionPaths64()
    ensures forall r: nat :: 64 <= r < 67 ==>
              LedTo(Motion(MotionParent(r)), MotionPath(MotionParent(r)), r, MotionPath(r))
  {
  }

  lemma MotionWords64()
    ensures forall r: nat :: 64 <= r < 67 && Motion(r).Leaf? ==> MotionWord(Motion(r).value) == MotionPath(r)
  {
  }

  lemma MotionStandard()
    ensures Standard(67, Motion, MotionWord)
  {
    MotionSound();
    MotionPaths0();
    MotionWords0();
    MotionPaths64();
    MotionWords64();
    SpelledTable(67, Motion, MotionParent, MotionPath, MotionWord);
  }

  // ---- DCT_DC_SIZE_LUMINANCE

  function DcSizeLuminancePath(r: nat): nat
  {
    match r
    case 0 => 1 case 1 => 3 case 2 => 2 case 3 => 4 case 4 => 5 case 5 => 7 case 6 => 6 case 7 => 12 case 8 => 15
    case 9 => 14 case 10 => 13 case 11 => 31 case 12 => 30 case 13 => 62 case 14 => 63 case 15 => 127 case 16 => 126
    case _ => 254
  }

  function DcSizeLuminanceWord(r: int): nat
  {
    match r
    case 0 => 12 case 1 => 4 case 2 => 5 case 3 => 13 case 4 => 14 case 5 => 30 case 6 => 62 case 7 => 126
    case _ => 254
  }

  lemma DcSizeLuminancePaths()
    ensures forall r: nat :: 1 <= r < 18 ==>
              LedTo(DcSizeLuminance(DcSizeLuminanceParent(r)), DcSizeLuminancePath(DcSizeLuminanceParent(r)), r,
                    DcSizeLuminancePath(r))
  {
  }

  lemma DcSizeLuminanceWords()
    ensures forall r: nat :: r < 18 && DcSizeLuminance(r).Leaf? ==>
              DcSizeLuminanceWord(DcSizeLuminance(r).value) == DcSizeLuminancePath(r)
  {
  }

  lemma DcSizeLuminanceStandard()
    ensures Standard(18, DcSizeLuminance, DcSizeLuminanceWord)
  {
    DcSizeLuminanceSound();
    DcSizeLuminancePaths();
    DcSizeLuminanceWords();
    SpelledTable(18, DcSizeLuminance, DcSizeLuminanceParent, DcSizeLuminancePath, DcSizeLuminanceWord);
  }

  // ---- DCT_DC_SIZE_CHROMINANCE

  function DcSizeChrominancePath(r: nat): nat
  {
    match r
    case 0 => 1 case 1 => 3 case 2 => 2 case 3 => 7 case 4 => 6 case 5 => 5 case 6 => 4 case 7 => 15 case 8 => 14
    case 9 => 31 case 10 => 30 case 11 => 63 case 12 => 62 case 13 => 127 case 14 => 126 case 15 => 255 case 16 => 254
    case _ => 510
  }

  function DcSizeChrominanceWord(r: int): nat
  {
    match r
    case 0 => 4 case 1 => 5 case 2 => 6 case 3 => 14 case 4 => 30 case 5 => 62 case 6 => 126 case 7 => 254
    case _ => 510
  }

  lemma DcSizeChrominancePaths()
    ensures forall r: nat :: 1 <= r < 18 ==>
              LedTo(DcSizeChrominance(DcSizeChrominanceParent(r)), DcSizeChrominancePath(DcSizeChrominanceParent(r)), r,
                    DcSizeChrominancePath(r))
  {
  }

  lemma DcSizeChrominanceWords()
    ensures forall r: nat :: r < 18 && DcSizeChrominance(r).Leaf? ==>
              DcSizeChrominanceWord(DcSizeChrominance(r).value) == DcSizeChrominancePath(r)
  {
  }

  lemma DcSizeChrominanceStandard()
    ensures Standard(18, DcSizeChrominance, DcSizeChrominanceWord)
  {
    DcSizeChrominanceSound();
    DcSizeChrominancePaths();
    DcSizeChrominanceWords();
    SpelledTable(18, DcSizeChrominance, DcSizeChrominanceParent, DcSizeChrominancePath, DcSizeChrominanceWord);
  }

  // ---- DCT_COEFF

  function DctCoeffPath(r: nat): nat { if r < 112 then DctCoeffPathFirst(r) else DctCoeffPathLast(r) }

  function DctCoeffPathFirst(r: nat): nat
  {
    if r < 32 then (
      match r
      case 0 => 1 case 1 => 2 case 2 => 3 case 3 => 5 case 4 => 4 case 5 => 9 case 6 => 8 case 7 => 10 case 8 => 11
      case 9 => 19 case 10 => 17 case 11 => 16 case 12 => 21 case 13 => 18 case 14 => 20 case 15 => 37 case 16 => 32
      case 17 => 36 case 18 => 34 case 19 => 33 case 20 => 38 case 21 => 35 case 22 => 39 case 23 => 70
      case 24 => 68 case 25 => 65 case 26 => 69 case 27 => 64 case 28 => 71 case 29 => 72 case 30 => 67
      case _ => 73)
    else if r < 64 then (
      match r
      case 32 => 66 case 33 => 146 case 34 => 145 case 35 => 144 case 36 => 129 case 37 => 128 case 38 => 135
      case 39 => 134 case 40 => 132 case 41 => 133 case 42 => 147 case 43 => 258 case 44 => 257 case 45 => 259
      case 46 => 256 case 47 => 295 case 48 => 288 case 49 => 289 case 50 => 293 case 51 => 294 case 52 => 292
      case 53 => 291 case 54 => 290 case 55 => 516 case 56 => 515 case 57 => 517 case 58 => 519 case 59 => 518
      case 60 => 514 case 61 => 512 case 62 => 513 case _ => 1025)
    else if r < 96 then (
      match r
      case 64 => 1029 case 65 => 1027 case 66 => 1026 case 67 => 1030 case 68 => 1024 case 69 => 1028
      case 70 => 1031 case 71 => 1035 case 72 => 1036 case 73 => 1034 case 74 => 1039 case 75 => 1033
      case 76 => 1032 case 77 => 1037 case 78 => 1038 case 79 => 2055 case 80 => 2059 case 81 => 2050
      case 82 => 2054 case 83 => 2052 case 84 => 2048 case 85 => 2049 case 86 => 2053 case 87 => 2051
      case 88 => 2062 case 89 => 2063 case 90 => 2056 case 91 => 2058 case 92 => 2061 case 93 => 2060
      case 94 => 2057 case _ => 4098)
    else match r
    case 96 => 4104 case 97 => 4101 case 98 => 4105 case 99 => 4102 case 100 => 4113 case 101 => 4099 case 102 => 4103
    case 103 => 4125 case 104 => 4100 case 105 => 4110 case 106 => 4106 case 107 => 4111 case 108 => 4115
    case 109 => 4120 case 110 => 4112 case _ => 4118
  }

  function DctCoeffPathLast(r: nat): nat
  {
    if r < 144 then (
      match r
      case 112 => 4126 case 113 => 4124 case 114 => 4119 case 115 => 4117 case 116 => 4127 case 117 => 4122
      case 118 => 4121 case 119 => 4109 case 120 => 4114 case 121 => 4107 case 122 => 4123 case 123 => 4097
      case 124 => 4116 case 125 => 4108 case 126 => 8203 case 127 => 8196 case 128 => 8204 case 129 => 8205
      case 130 => 8202 case 131 => 8194 case 132 => 8198 case 133 => 8201 case 134 => 8199 case 135 => 8195
      case 136 => 8197 case 137 => 8200 case 138 => 8213 case 139 => 8208 case 140 => 8209 case 141 => 8223
      case 142 => 8222 case _ => 8220)
    else if r < 176 then (
      match r
      case 144 => 8221 case 145 => 8210 case 146 => 8211 case 147 => 8217 case 148 => 8218 case 149 => 8216
      case 150 => 8215 case 151 => 8212 case 152 => 8219 case 153 => 8214 case 154 => 8207 case 155 => 8206
      case 156 => 16398 case 157 => 16404 case 158 => 16393 case 159 => 16399 case 160 => 16412 case 161 => 16409
      case 162 => 16392 case 163 => 16413 case 164 => 16390 case 165 => 16391 case 166 => 16411 case 167 => 16389
      case 168 => 16410 case 169 => 16388 case 170 => 16408 case 171 => 16397 case 172 => 16406 case 173 => 16407
      case 174 => 16396 case _ => 16400)
    else if r < 208 then (
      match r
      case 176 => 16401 case 177 => 16403 case 178 => 16402 case 179 => 16405 case 180 => 16414 case 181 => 16415
      case 182 => 16395 case 183 => 16394 case 184 => 32778 case 185 => 32787 case 186 => 32776 case 187 => 32788
      case 188 => 32782 case 189 => 32790 case 190 => 32783 case 191 => 32780 case 192 => 32781 case 193 => 32777
      case 194 => 32779 case 195 => 32789 case 196 => 32796 case 197 => 32784 case 198 => 32795 case 199 => 32797
      case 200 => 32792 case 201 => 32799 case 202 => 32798 case 203 => 32786 case 204 => 32794 case 205 => 32793
      case 206 => 32791 case _ => 32785)
    else match r
    case 208 => 65563 case 209 => 65567 case 210 => 65564 case 211 => 65557 case 212 => 65565 case 213 => 65566
    case 214 => 65555 case 215 => 65552 case 216 => 65553 case 217 => 65554 case 218 => 65556 case 219 => 65562
    case 220 => 65559 case 221 => 65560 case 222 => 65561 case _ => 65558
  }

  function DctCoeffWord(r: int): nat
  {
    if r < 0x21 then (
      match r
      case 0x1 => 3 case 0x2 => 20 case 0x3 => 37 case 0x4 => 134 case 0x5 => 294 case 0x6 => 289 case 0x7 => 1034
      case 0x8 => 4125 case 0x9 => 4120 case 0xa => 4115 case 0xb => 4112 case 0xc => 8218 case 0xd => 8217
      case 0xe => 8216 case 0xf => 8215 case 0x10 => 16415 case 0x11 => 16414 case 0x12 => 16413 case 0x13 => 16412
      case 0x14 => 16411 case 0x15 => 16410 case 0x16 => 16409 case 0x17 => 16408 case 0x18 => 16407
      case 0x19 => 16406 case 0x1a => 16405 case 0x1b => 16404 case 0x1c => 16403 case 0x1d => 16402
      case 0x1e => 16401 case 0x1f => 16400 case _ => 32792)
    else if r < 0x302 then (
      match r
      case 0x21 => 32791 case 0x22 => 32790 case 0x23 => 32789 case 0x24 => 32788 case 0x25 => 32787
      case 0x26 => 32786 case 0x27 => 32785 case 0x28 => 32784 case 0x101 => 11 case 0x102 => 70 case 0x103 => 293
      case 0x104 => 1036 case 0x105 => 4123 case 0x106 => 8214 case 0x107 => 8213 case 0x108 => 32799
      case 0x109 => 32798 case 0x10a => 32797 case 0x10b => 32796 case 0x10c => 32795 case 0x10d => 32794
      case 0x10e => 32793 case 0x10f => 65555 case 0x110 => 65554 case 0x111 => 65553 case 0x112 => 65552
      case 0x201 => 21 case 0x202 => 132 case 0x203 => 1035 case 0x204 => 4116 case 0x205 => 8212 case _ => 39)
    else if r < 0x1101 then (
      match r
      case 0x302 => 292 case 0x303 => 4124 case 0x304 => 8211 case 0x401 => 38 case 0x402 => 1039 case 0x403 => 4114
      case 0x501 => 71 case 0x502 => 1033 case 0x503 => 8210 case 0x601 => 69 case 0x602 => 4126 case 0x603 => 65556
      case 0x701 => 68 case 0x702 => 4117 case 0x801 => 135 case 0x802 => 4113 case 0x901 => 133 case 0x902 => 8209
      case 0xa01 => 295 case 0xa02 => 8208 case 0xb01 => 291 case 0xb02 => 65562 case 0xc01 => 290
      case 0xc02 => 65561 case 0xd01 => 288 case 0xd02 => 65560 case 0xe01 => 1038 case 0xe02 => 65559
      case 0xf01 => 1037 case 0xf02 => 65558 case 0x1001 => 1032 case _ => 65557)
    else match r
    case 0x1101 => 4127 case 0x1201 => 4122 case 0x1301 => 4121 case 0x1401 => 4119 case 0x1501 => 4118
    case 0x1601 => 8223 case 0x1701 => 8222 case 0x1801 => 8221 case 0x1901 => 8220 case 0x1a01 => 8219
    case 0x1b01 => 65567 case 0x1c01 => 65566 case 0x1d01 => 65565 case 0x1e01 => 65564 case 0x1f01 => 65563
    case _ => 65
  }

  lemma DctCoeffPaths0()
    ensures forall r: nat :: 1 <= r < 32 ==>
              LedTo(DctCoeff(DctCoeffParent(r)), DctCoeffPath(DctCoeffParent(r)), r, DctCoeffPath(r))
  {
  }

  lemma DctCoeffWords0()
    ensures forall r: nat :: r < 32 && DctCoeff(r).Leaf? ==> DctCoeffWord(DctCoeff(r).value) == DctCoeffPath(r)
  {
  }

  lemma DctCoeffPaths32()
    ensures forall r: nat :: 32 <= r < 64 ==>
              LedTo(DctCoeff(DctCoeffParent(r)), DctCoeffPath(DctCoeffParent(r)), r, DctCoeffPath(r))
  {
  }

  lemma DctCoeffWords32()
    ensures forall r: nat :: 32 <= r < 64 && DctCoeff(r).Leaf? ==> DctCoeffWord(DctCoeff(r).value) == DctCoeffPath(r)
  {
  }

  lemma DctCoeffPaths64()
    ensures forall r: nat :: 64 <= r < 96 ==>
              LedTo(DctCoeff(DctCoeffParent(r)), DctCoeffPath(DctCoeffParent(r)), r, DctCoeffPath(r))
  {
  }

  lemma DctCoeffWords64()
    ensures forall r: nat :: 64 <= r < 96 && DctCoeff(r).Leaf? ==> DctCoeffWord(DctCoeff(r).value) == DctCoeffPath(r)
  {
  }

  lemma DctCoeffPaths96()
    ensures forall r: nat :: 96 <= r < 128 ==>
              LedTo(DctCoeff(DctCoeffParent(r)), DctCoeffPath(DctCoeffParent(r)), r, DctCoeffPath(r))
  {
  }

  lemma DctCoeffWords96()
    ensures forall r: nat :: 96 <= r < 128 && DctCoeff(r).Leaf? ==> DctCoeffWord(DctCoeff(r).value) == DctCoeffPath(r)
  {
  }

  lemma DctCoeffPaths128()
    ensures forall r: nat :: 128 <= r < 160 ==>
              LedTo(DctCoeff(DctCoeffParent(r)), DctCoeffPath(DctCoeffParent(r)), r, DctCoeffPath(r))
  {
  }

  lemma DctCoeffWords128()
    ensures forall r: nat :: 128 <= r < 160 && DctCoeff(r).Leaf? ==> DctCoeffWord(DctCoeff(r).value) == DctCoeffPath(r)
  {
  }

  lemma DctCoeffPaths160()
    ensures forall r: nat :: 160 <= r < 192 ==>
              LedTo(DctCoeff(DctCoeffParent(r)), DctCoeffPath(DctCoeffParent(r)), r, DctCoeffPath(r))
  {
  }

  lemma DctCoeffWords160()
    ensures forall r: nat :: 160 <= r < 192 && DctCoeff(r).Leaf? ==> DctCoeffWord(DctCoeff(r).value) == DctCoeffPath(r)
  {
  }

  lemma DctCoeffPaths192()
    ensures forall r: nat :: 192 <= r < 224 ==>
              LedTo(DctCoeff(DctCoeffParent(r)), DctCoeffPath(DctCoeffParent(r)), r, DctCoeffPath(r))
  {
  }

  lemma DctCoeffWords192()
    ensures forall r: nat :: 192 <= r < 224 && DctCoeff(r).Leaf? ==> DctCoeffWord(DctCoeff(r).value) == DctCoeffPath(r)
  {
  }

  lemma DctCoeffStandard()
    ensures Standard(224, DctCoeff, DctCoeffWord)
  {
    DctCoeffSound();
    DctCoeffPaths0();
    DctCoeffWords0();
    DctCoeffPaths32();
    DctCoeffWords32();
    DctCoeffPaths64();
    DctCoeffWords64();
    DctCoeffPaths96();
    DctCoeffWords96();
    DctCoeffPaths128();
    DctCoeffWords128();
    DctCoeffPaths160();
    DctCoeffWords160();
    DctCoeffPaths192();
    DctCoeffWords192();
    SpelledTable(224, DctCoeff, DctCoeffParent, DctCoeffPath, DctCoeffWord);
  }

  /** In each of the nine shipped tables every symbol has the code word of Annex B. */
  lemma ShippedCodes()
    ensures Standard(75, AddressIncrement, AddressIncrementWord)
    ensures Standard(4, TypeI, TypeIWord)
    ensures Standard(14, TypeP, TypePWord)
    ensures Standard(22, TypeB, TypeBWord)
    ensures Standard(126, CodeBlockPattern, CodeBlockPatternWord)
    ensures Standard(67, Motion, MotionWord)
    ensures Standard(18, DcSizeLuminance, DcSizeLuminanceWord)
    ensures Standard(18, DcSizeChrominance, DcSizeChrominanceWord)
    ensures Standard(224, DctCoeff, DctCoeffWord)
  {
    AddressIncrementStandard();
    TypeIStandard();
    TypePStandard();
    TypeBStandard();
    CodeBlockPatternStandard();
    MotionStandard();
    DcSizeLuminanceStandard();
    DcSizeChrominanceStandard();
    DctCoeffStandard();
  }
}
