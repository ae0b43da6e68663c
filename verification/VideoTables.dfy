/** The prefix-code tables of Annex B of ISO/IEC 11172-2, row by row, each with the row that leads to each row. */
module VideoTables {
  import opened PrefixCode

  // ---- MACROBLOCK_ADDRESS_INCREMENT

  function AddressIncrement(r: nat): Row
  {
    if r < 32 then (
      match r
      case 0 => Inner(1, 2) case 1 => Inner(3, 4) case 2 => Leaf(1) case 3 => Inner(5, 6) case 4 => Inner(7, 8)
      case 5 => Inner(9, 10) case 6 => Inner(11, 12) case 7 => Leaf(3) case 8 => Leaf(2) case 9 => Inner(13, 14)
      case 10 => Inner(15, 16) case 11 => Leaf(5) case 12 => Leaf(4) case 13 => Inner(17, 18) case 14 => Inner(19, 20)
      case 15 => Leaf(7) case 16 => Leaf(6) case 17 => Inner(21, 22) case 18 => Inner(23, 24) case 19 => Inner(25, 26)
      case 20 => Inner(27, 28) case 21 => Inner(-1, 29) case 22 => Inner(-1, 30) case 23 => Inner(31, 32)
          case 24 => Inner(33, 34)
      case 25 => Inner(35, 36) case 26 => Inner(37, 38) case 27 => Leaf(9) case 28 => Leaf(8) case 29 => Inner(39, 40)
      case 30 => Inner(41, 42) case _ => Inner(43, 44))
    else if r < 64 then (
      match r
      case 32 => Inner(45, 46) case 33 => Leaf(15) case 34 => Leaf(14) case 35 => Leaf(13) case 36 => Leaf(12)
      case 37 => Leaf(11) case 38 => Leaf(10) case 39 => Inner(47, -1) case 40 => Inner(-1, 48) case 41 => Inner(49, 50)
      case 42 => Inner(51, 52) case 43 => Inner(53, 54) case 44 => Inner(55, 56) case 45 => Inner(57, 58)
          case 46 => Inner(59, 60)
      case 47 => Inner(61, -1) case 48 => Inner(-1, 62) case 49 => Inner(63, 64) case 50 => Inner(65, 66)
          case 51 => Inner(67, 68)
      case 52 => Inner(69, 70) case 53 => Inner(71, 72) case 54 => Inner(73, 74) case 55 => Leaf(21) case 56 => Leaf(20)
      case 57 => Leaf(19) case 58 => Leaf(18) case 59 => Leaf(17) case 60 => Leaf(16) case 61 => Leaf(35)
      case 62 => Leaf(34) case _ => Leaf(33))
    else match r
    case 64 => Leaf(32) case 65 => Leaf(31) case 66 => Leaf(30) case 67 => Leaf(29) case 68 => Leaf(28)
    case 69 => Leaf(27) case 70 => Leaf(26) case 71 => Leaf(25) case 72 => Leaf(24) case 73 => Leaf(23)
    case 74 => Leaf(22)
    case _ => Leaf(0)
  }

  function AddressIncrementParent(r: nat): nat
  {
    if r < 32 then (
      match r
      case 0 => 0 case 1 => 0 case 2 => 0 case 3 => 1 case 4 => 1 case 5 => 3 case 6 => 3 case 7 => 4
      case 8 => 4 case 9 => 5 case 10 => 5 case 11 => 6 case 12 => 6 case 13 => 9 case 14 => 9 case 15 => 10
      case 16 => 10 case 17 => 13 case 18 => 13 case 19 => 14 case 20 => 14 case 21 => 17 case 22 => 17 case 23 => 18
      case 24 => 18 case 25 => 19 case 26 => 19 case 27 => 20 case 28 => 20 case 29 => 21 case 30 => 22 case _ => 23)
    else if r < 64 then (
      match r
      case 32 => 23 case 33 => 24 case 34 => 24 case 35 => 25 case 36 => 25 case 37 => 26 case 38 => 26 case 39 => 29
      case 40 => 29 case 41 => 30 case 42 => 30 case 43 => 31 case 44 => 31 case 45 => 32 case 46 => 32 case 47 => 39
      case 48 => 40 case 49 => 41 case 50 => 41 case 51 => 42 case 52 => 42 case 53 => 43 case 54 => 43 case 55 => 44
      case 56 => 44 case 57 => 45 case 58 => 45 case 59 => 46 case 60 => 46 case 61 => 47 case 62 => 48 case _ => 49)
    else match r
    case 64 => 49 case 65 => 50 case 66 => 50 case 67 => 51 case 68 => 51 case 69 => 52 case 70 => 52 case 71 => 53
    case 72 => 53 case 73 => 54 case 74 => 54
    case _ => 0
  }

  lemma AddressIncrementRows()
    ensures forall r: nat :: r < 75 ==> RowOk(AddressIncrement(r), r, 75)
  {
  }

  lemma AddressIncrementParents()
    ensures forall r: nat :: 1 <= r < 75 ==>
              AddressIncrementParent(r) < r && ChildOk(AddressIncrement(AddressIncrementParent(r)), r)
  {
  }

  lemma AddressIncrementSound()
    ensures Sound(75, AddressIncrement, AddressIncrementParent)
  {
    AddressIncrementRows();
    AddressIncrementParents();
  }

  // ---- MACROBLOCK_TYPE_I

  function TypeI(r: nat): Row
  {
    match r
    case 0 => Inner(1, 2) case 1 => Inner(-1, 3) case 2 => Leaf(1) case 3 => Leaf(17)
    case _ => Leaf(0)
  }

  function TypeIParent(r: nat): nat
  {
    match r
    case 0 => 0 case 1 => 0 case 2 => 0 case 3 => 1
    case _ => 0
  }

  lemma TypeIRows()
    ensures forall r: nat :: r < 4 ==> RowOk(TypeI(r), r, 4)
  {
  }

  lemma TypeIParents()
    ensures forall r: nat :: 1 <= r < 4 ==> TypeIParent(r) < r && ChildOk(TypeI(TypeIParent(r)), r)
  {
  }

  lemma TypeISound()
    ensures Sound(4, TypeI, TypeIParent)
  {
    TypeIRows();
    TypeIParents();
  }

  // ---- MACROBLOCK_TYPE_P

  function TypeP(r: nat): Row
  {
    match r
    case 0 => Inner(1, 2) case 1 => Inner(3, 4) case 2 => Leaf(10) case 3 => Inner(5, 6) case 4 => Leaf(2)
    case 5 => Inner(7, 8) case 6 => Leaf(8) case 7 => Inner(9, 10) case 8 => Inner(11, 12) case 9 => Inner(-1, 13)
    case 10 => Leaf(18) case 11 => Leaf(26) case 12 => Leaf(1) case 13 => Leaf(17)
    case _ => Leaf(0)
  }

  function TypePParent(r: nat): nat
  {
    match r
    case 0 => 0 case 1 => 0 case 2 => 0 case 3 => 1 case 4 => 1 case 5 => 3 case 6 => 3 case 7 => 5
    case 8 => 5 case 9 => 7 case 10 => 7 case 11 => 8 case 12 => 8 case 13 => 9
    case _ => 0
  }

  lemma TypePRows()
    ensures forall r: nat :: r < 14 ==> RowOk(TypeP(r), r, 14)
  {
  }

  lemma TypePParents()
    ensures forall r: nat :: 1 <= r < 14 ==> TypePParent(r) < r && ChildOk(TypeP(TypePParent(r)), r)
  {
  }

  lemma TypePSound()
    ensures Sound(14, TypeP, TypePParent)
  {
    TypePRows();
    TypePParents();
  }

  // ---- MACROBLOCK_TYPE_B

  function TypeB(r: nat): Row
  {
    match r
    case 0 => Inner(1, 2) case 1 => Inner(3, 5) case 2 => Inner(4, 6) case 3 => Inner(8, 7) case 4 => Leaf(12)
    case 5 => Inner(9, 10) case 6 => Leaf(14) case 7 => Inner(13, 14) case 8 => Inner(12, 11) case 9 => Leaf(4)
    case 10 => Leaf(6) case 11 => Inner(18, 16) case 12 => Inner(15, 17) case 13 => Leaf(8) case 14 => Leaf(10)
    case 15 => Inner(-1, 19) case 16 => Leaf(1) case 17 => Inner(20, 21) case 18 => Leaf(30) case 19 => Leaf(17)
    case 20 => Leaf(22) case 21 => Leaf(26)
    case _ => Leaf(0)
  }

  function TypeBParent(r: nat): nat
  {
    match r
    case 0 => 0 case 1 => 0 case 2 => 0 case 3 => 1 case 4 => 2 case 5 => 1 case 6 => 2 case 7 => 3
    case 8 => 3 case 9 => 5 case 10 => 5 case 11 => 8 case 12 => 8 case 13 => 7 case 14 => 7 case 15 => 12
    case 16 => 11 case 17 => 12 case 18 => 11 case 19 => 15 case 20 => 17 case 21 => 17
    case _ => 0
  }

  lemma TypeBRows()
    ensures forall r: nat :: r < 22 ==> RowOk(TypeB(r), r, 22)
  {
  }

  lemma TypeBParents()
    ensures forall r: nat :: 1 <= r < 22 ==> TypeBParent(r) < r && ChildOk(TypeB(TypeBParent(r)), r)
  {
  }

  lemma TypeBSound()
    ensures Sound(22, TypeB, TypeBParent)
  {
    TypeBRows();
    TypeBParents();
  }

  // ---- CODE_BLOCK_PATTERN

  function CodeBlockPattern(r: nat): Row
  {
    if r < 32 then (
      match r
      case 0 => Inner(2, 1) case 1 => Inner(3, 6) case 2 => Inner(4, 5) case 3 => Inner(8, 11) case 4 => Inner(12, 13)
      case 5 => Inner(9, 7) case 6 => Inner(10, 14) case 7 => Inner(20, 19) case 8 => Inner(18, 16)
          case 9 => Inner(23, 17)
      case 10 => Inner(27, 25) case 11 => Inner(21, 28) case 12 => Inner(15, 22) case 13 => Inner(24, 26)
          case 14 => Leaf(60)
      case 15 => Inner(35, 40) case 16 => Inner(44, 48) case 17 => Inner(38, 36) case 18 => Inner(42, 47)
          case 19 => Inner(29, 31)
      case 20 => Inner(39, 32) case 21 => Leaf(32) case 22 => Inner(45, 46) case 23 => Inner(33, 41)
          case 24 => Inner(43, 34)
      case 25 => Leaf(4) case 26 => Inner(30, 37) case 27 => Leaf(8) case 28 => Leaf(16) case 29 => Leaf(44)
      case 30 => Inner(50, 56) case _ => Leaf(28))
    else if r < 64 then (
      match r
      case 32 => Leaf(52) case 33 => Leaf(62) case 34 => Inner(61, 59) case 35 => Inner(52, 60) case 36 => Leaf(1)
      case 37 => Inner(55, 54) case 38 => Leaf(61) case 39 => Leaf(56) case 40 => Inner(57, 58) case 41 => Leaf(2)
      case 42 => Leaf(40) case 43 => Inner(51, 62) case 44 => Leaf(48) case 45 => Inner(64, 63) case 46 => Inner(49, 53)
      case 47 => Leaf(20) case 48 => Leaf(12) case 49 => Inner(80, 83) case 50 => Leaf(63) case 51 => Inner(77, 75)
      case 52 => Inner(65, 73) case 53 => Inner(84, 66) case 54 => Leaf(24) case 55 => Leaf(36) case 56 => Leaf(3)
      case 57 => Inner(69, 87) case 58 => Inner(81, 79) case 59 => Inner(68, 71) case 60 => Inner(70, 78)
          case 61 => Inner(67, 76)
      case 62 => Inner(72, 74) case _ => Inner(86, 85))
    else if r < 96 then (
      match r
      case 64 => Inner(88, 82) case 65 => Inner(-1, 94) case 66 => Inner(95, 97) case 67 => Leaf(33) case 68 => Leaf(9)
      case 69 => Inner(106, 110) case 70 => Inner(102, 116) case 71 => Leaf(5) case 72 => Leaf(10)
          case 73 => Inner(93, 89)
      case 74 => Leaf(6) case 75 => Leaf(18) case 76 => Leaf(17) case 77 => Leaf(34) case 78 => Inner(113, 119)
      case 79 => Inner(103, 104) case 80 => Inner(90, 92) case 81 => Inner(109, 107) case 82 => Inner(117, 118)
          case 83 => Inner(101, 99)
      case 84 => Inner(98, 96) case 85 => Inner(100, 91) case 86 => Inner(114, 115) case 87 => Inner(105, 108)
          case 88 => Inner(112, 111)
      case 89 => Inner(121, 125) case 90 => Leaf(41) case 91 => Leaf(14) case 92 => Leaf(21) case 93 => Inner(124, 122)
      case 94 => Inner(120, 123) case _ => Leaf(11))
    else match r
    case 96 => Leaf(19) case 97 => Leaf(7) case 98 => Leaf(35) case 99 => Leaf(13) case 100 => Leaf(50)
    case 101 => Leaf(49) case 102 => Leaf(58) case 103 => Leaf(37) case 104 => Leaf(25) case 105 => Leaf(45)
    case 106 => Leaf(57) case 107 => Leaf(26) case 108 => Leaf(29) case 109 => Leaf(38) case 110 => Leaf(53)
    case 111 => Leaf(23) case 112 => Leaf(43) case 113 => Leaf(46) case 114 => Leaf(42) case 115 => Leaf(22)
    case 116 => Leaf(54) case 117 => Leaf(51) case 118 => Leaf(15) case 119 => Leaf(30) case 120 => Leaf(39)
    case 121 => Leaf(47) case 122 => Leaf(55) case 123 => Leaf(27) case 124 => Leaf(59) case 125 => Leaf(31)
    case _ => Leaf(0)
  }

  function CodeBlockPatternParent(r: nat): nat
  {
    if r < 32 then (
      match r
      case 0 => 0 case 1 => 0 case 2 => 0 case 3 => 1 case 4 => 2 case 5 => 2 case 6 => 1 case 7 => 5
      case 8 => 3 case 9 => 5 case 10 => 6 case 11 => 3 case 12 => 4 case 13 => 4 case 14 => 6 case 15 => 12
      case 16 => 8 case 17 => 9 case 18 => 8 case 19 => 7 case 20 => 7 case 21 => 11 case 22 => 12 case 23 => 9
      case 24 => 13 case 25 => 10 case 26 => 13 case 27 => 10 case 28 => 11 case 29 => 19 case 30 => 26 case _ => 19)
    else if r < 64 then (
      match r
      case 32 => 20 case 33 => 23 case 34 => 24 case 35 => 15 case 36 => 17 case 37 => 26 case 38 => 17 case 39 => 20
      case 40 => 15 case 41 => 23 case 42 => 18 case 43 => 24 case 44 => 16 case 45 => 22 case 46 => 22 case 47 => 18
      case 48 => 16 case 49 => 46 case 50 => 30 case 51 => 43 case 52 => 35 case 53 => 46 case 54 => 37 case 55 => 37
      case 56 => 30 case 57 => 40 case 58 => 40 case 59 => 34 case 60 => 35 case 61 => 34 case 62 => 43 case _ => 45)
    else if r < 96 then (
      match r
      case 64 => 45 case 65 => 52 case 66 => 53 case 67 => 61 case 68 => 59 case 69 => 57 case 70 => 60 case 71 => 59
      case 72 => 62 case 73 => 52 case 74 => 62 case 75 => 51 case 76 => 61 case 77 => 51 case 78 => 60 case 79 => 58
      case 80 => 49 case 81 => 58 case 82 => 64 case 83 => 49 case 84 => 53 case 85 => 63 case 86 => 63 case 87 => 57
      case 88 => 64 case 89 => 73 case 90 => 80 case 91 => 85 case 92 => 80 case 93 => 73 case 94 => 65 case _ => 66)
    else match r
    case 96 => 84 case 97 => 66 case 98 => 84 case 99 => 83 case 100 => 85 case 101 => 83 case 102 => 70 case 103 => 79
    case 104 => 79 case 105 => 87 case 106 => 69 case 107 => 81 case 108 => 87 case 109 => 81 case 110 => 69
        case 111 => 88
    case 112 => 88 case 113 => 78 case 114 => 86 case 115 => 86 case 116 => 70 case 117 => 82 case 118 => 82
        case 119 => 78
    case 120 => 94 case 121 => 89 case 122 => 93 case 123 => 94 case 124 => 93 case 125 => 89
    case _ => 0
  }

  lemma CodeBlockPatternRows()
    ensures forall r: nat :: r < 126 ==> RowOk(CodeBlockPattern(r), r, 126)
  {
  }

  lemma CodeBlockPatternParents()
    ensures forall r: nat :: 1 <= r < 126 ==>
              CodeBlockPatternParent(r) < r && ChildOk(CodeBlockPattern(CodeBlockPatternParent(r)), r)
  {
  }

  lemma CodeBlockPatternSound()
    ensures Sound(126, CodeBlockPattern, CodeBlockPatternParent)
  {
    CodeBlockPatternRows();
    CodeBlockPatternParents();
  }

  // ---- MOTION

  function Motion(r: nat): Row
  {
    if r < 32 then (
      match r
      case 0 => Inner(1, 2) case 1 => Inner(4, 3) case 2 => Leaf(0) case 3 => Inner(6, 5) case 4 => Inner(8, 7)
      case 5 => Leaf(-1) case 6 => Leaf(1) case 7 => Inner(9, 10) case 8 => Inner(12, 11) case 9 => Leaf(2)
      case 10 => Leaf(-2) case 11 => Inner(14, 15) case 12 => Inner(16, 13) case 13 => Inner(20, 18) case 14 => Leaf(3)
      case 15 => Leaf(-3) case 16 => Inner(17, 19) case 17 => Inner(-1, 23) case 18 => Inner(27, 25)
          case 19 => Inner(26, 21)
      case 20 => Inner(24, 22) case 21 => Inner(32, 28) case 22 => Inner(29, 31) case 23 => Inner(-1, 33)
          case 24 => Inner(36, 35)
      case 25 => Leaf(-4) case 26 => Inner(30, 34) case 27 => Leaf(4) case 28 => Leaf(-7) case 29 => Leaf(5)
      case 30 => Inner(37, 41) case _ => Leaf(-5))
    else if r < 64 then (
      match r
      case 32 => Leaf(7) case 33 => Inner(38, 40) case 34 => Inner(42, 39) case 35 => Leaf(-6) case 36 => Leaf(6)
      case 37 => Inner(51, 54) case 38 => Inner(50, 49) case 39 => Inner(45, 46) case 40 => Inner(52, 47)
          case 41 => Inner(43, 53)
      case 42 => Inner(44, 48) case 43 => Leaf(10) case 44 => Leaf(9) case 45 => Leaf(8) case 46 => Leaf(-8)
      case 47 => Inner(57, 66) case 48 => Leaf(-9) case 49 => Inner(60, 64) case 50 => Inner(56, 61)
          case 51 => Inner(55, 62)
      case 52 => Inner(58, 63) case 53 => Leaf(-10) case 54 => Inner(59, 65) case 55 => Leaf(12) case 56 => Leaf(16)
      case 57 => Leaf(13) case 58 => Leaf(14) case 59 => Leaf(11) case 60 => Leaf(15) case 61 => Leaf(-16)
      case 62 => Leaf(-12) case _ => Leaf(-14))
    else match r
    case 64 => Leaf(-15) case 65 => Leaf(-11) case 66 => Leaf(-13)
    case _ => Leaf(0)
  }

  function MotionParent(r: nat): nat
  {
    if r < 32 then (
      match r
      case 0 => 0 case 1 => 0 case 2 => 0 case 3 => 1 case 4 => 1 case 5 => 3 case 6 => 3 case 7 => 4
      case 8 => 4 case 9 => 7 case 10 => 7 case 11 => 8 case 12 => 8 case 13 => 12 case 14 => 11 case 15 => 11
      case 16 => 12 case 17 => 16 case 18 => 13 case 19 => 16 case 20 => 13 case 21 => 19 case 22 => 20 case 23 => 17
      case 24 => 20 case 25 => 18 case 26 => 19 case 27 => 18 case 28 => 21 case 29 => 22 case 30 => 26 case _ => 22)
    else if r < 64 then (
      match r
      case 32 => 21 case 33 => 23 case 34 => 26 case 35 => 24 case 36 => 24 case 37 => 30 case 38 => 33 case 39 => 34
      case 40 => 33 case 41 => 30 case 42 => 34 case 43 => 41 case 44 => 42 case 45 => 39 case 46 => 39 case 47 => 40
      case 48 => 42 case 49 => 38 case 50 => 38 case 51 => 37 case 52 => 40 case 53 => 41 case 54 => 37 case 55 => 51
      case 56 => 50 case 57 => 47 case 58 => 52 case 59 => 54 case 60 => 49 case 61 => 50 case 62 => 51 case _ => 52)
    else match r
    case 64 => 49 case 65 => 54 case 66 => 47
    case _ => 0
  }

  lemma MotionRows()
    ensures forall r: nat :: r < 67 ==> RowOk(Motion(r), r, 67)
  {
  }

  lemma MotionParents()
    ensures forall r: nat :: 1 <= r < 67 ==> MotionParent(r) < r && ChildOk(Motion(MotionParent(r)), r)
  {
  }

  lemma MotionSound()
    ensures Sound(67, Motion, MotionParent)
  {
    MotionRows();
    MotionParents();
  }

  // ---- DCT_DC_SIZE_LUMINANCE

  function DcSizeLuminance(r: nat): Row
  {
    match r
    case 0 => Inner(2, 1) case 1 => Inner(6, 5) case 2 => Inner(3, 4) case 3 => Leaf(1) case 4 => Leaf(2)
    case 5 => Inner(9, 8) case 6 => Inner(7, 10) case 7 => Leaf(0) case 8 => Inner(12, 11) case 9 => Leaf(4)
    case 10 => Leaf(3) case 11 => Inner(13, 14) case 12 => Leaf(5) case 13 => Leaf(6) case 14 => Inner(16, 15)
    case 15 => Inner(17, -1) case 16 => Leaf(7) case 17 => Leaf(8)
    case _ => Leaf(0)
  }

  function DcSizeLuminanceParent(r: nat): nat
  {
    match r
    case 0 => 0 case 1 => 0 case 2 => 0 case 3 => 2 case 4 => 2 case 5 => 1 case 6 => 1 case 7 => 6
    case 8 => 5 case 9 => 5 case 10 => 6 case 11 => 8 case 12 => 8 case 13 => 11 case 14 => 11 case 15 => 14
    case 16 => 14 case 17 => 15
    case _ => 0
  }

  lemma DcSizeLuminanceRows()
    ensures forall r: nat :: r < 18 ==> RowOk(DcSizeLuminance(r), r, 18)
  {
  }

  lemma DcSizeLuminanceParents()
    ensures forall r: nat :: 1 <= r < 18 ==>
              DcSizeLuminanceParent(r) < r && ChildOk(DcSizeLuminance(DcSizeLuminanceParent(r)), r)
  {
  }

  lemma DcSizeLuminanceSound()
    ensures Sound(18, DcSizeLuminance, DcSizeLuminanceParent)
  {
    DcSizeLuminanceRows();
    DcSizeLuminanceParents();
  }

  // ---- DCT_DC_SIZE_CHROMINANCE

  function DcSizeChrominance(r: nat): Row
  {
    match r
    case 0 => Inner(2, 1) case 1 => Inner(4, 3) case 2 => Inner(6, 5) case 3 => Inner(8, 7) case 4 => Leaf(2)
    case 5 => Leaf(1) case 6 => Leaf(0) case 7 => Inner(10, 9) case 8 => Leaf(3) case 9 => Inner(12, 11)
    case 10 => Leaf(4) case 11 => Inner(14, 13) case 12 => Leaf(5) case 13 => Inner(16, 15) case 14 => Leaf(6)
    case 15 => Inner(17, -1) case 16 => Leaf(7) case 17 => Leaf(8)
    case _ => Leaf(0)
  }

  function DcSizeChrominanceParent(r: nat): nat
  {
    match r
    case 0 => 0 case 1 => 0 case 2 => 0 case 3 => 1 case 4 => 1 case 5 => 2 case 6 => 2 case 7 => 3
    case 8 => 3 case 9 => 7 case 10 => 7 case 11 => 9 case 12 => 9 case 13 => 11 case 14 => 11 case 15 => 13
    case 16 => 13 case 17 => 15
    case _ => 0
  }

  lemma DcSizeChrominanceRows()
    ensures forall r: nat :: r < 18 ==> RowOk(DcSizeChrominance(r), r, 18)
  {
  }

  lemma DcSizeChrominanceParents()
    ensures forall r: nat :: 1 <= r < 18 ==>
              DcSizeChrominanceParent(r) < r && ChildOk(DcSizeChrominance(DcSizeChrominanceParent(r)), r)
  {
  }

  lemma DcSizeChrominanceSound()
    ensures Sound(18, DcSizeChrominance, DcSizeChrominanceParent)
  {
    DcSizeChrominanceRows();
    DcSizeChrominanceParents();
  }

  // ---- DCT_COEFF

  function DctCoeff(r: nat): Row
  {
    if r < 32 then (
      match r
      case 0 => Inner(1, 2) case 1 => Inner(4, 3) case 2 => Leaf(0x1) case 3 => Inner(7, 8) case 4 => Inner(6, 5)
      case 5 => Inner(13, 9) case 6 => Inner(11, 10) case 7 => Inner(14, 12) case 8 => Leaf(0x101)
          case 9 => Inner(20, 22)
      case 10 => Inner(18, 21) case 11 => Inner(16, 19) case 12 => Leaf(0x201) case 13 => Inner(17, 15)
          case 14 => Leaf(0x2)
      case 15 => Leaf(0x3) case 16 => Inner(27, 25) case 17 => Inner(29, 31) case 18 => Inner(24, 26)
          case 19 => Inner(32, 30)
      case 20 => Leaf(0x401) case 21 => Inner(23, 28) case 22 => Leaf(0x301) case 23 => Leaf(0x102)
          case 24 => Leaf(0x701)
      case 25 => Leaf(0xffff) case 26 => Leaf(0x601) case 27 => Inner(37, 36) case 28 => Leaf(0x501)
          case 29 => Inner(35, 34)
      case 30 => Inner(39, 38) case _ => Inner(33, 42))
    else if r < 64 then (
      match r
      case 32 => Inner(40, 41) case 33 => Inner(52, 50) case 34 => Inner(54, 53) case 35 => Inner(48, 49)
          case 36 => Inner(43, 45)
      case 37 => Inner(46, 44) case 38 => Leaf(0x801) case 39 => Leaf(0x4) case 40 => Leaf(0x202) case 41 => Leaf(0x901)
      case 42 => Inner(51, 47) case 43 => Inner(55, 57) case 44 => Inner(60, 56) case 45 => Inner(59, 58)
          case 46 => Inner(61, 62)
      case 47 => Leaf(0xa01) case 48 => Leaf(0xd01) case 49 => Leaf(0x6) case 50 => Leaf(0x103) case 51 => Leaf(0x5)
      case 52 => Leaf(0x302) case 53 => Leaf(0xb01) case 54 => Leaf(0xc01) case 55 => Inner(76, 75)
          case 56 => Inner(67, 70)
      case 57 => Inner(73, 71) case 58 => Inner(78, 74) case 59 => Inner(72, 77) case 60 => Inner(69, 64)
          case 61 => Inner(68, 63)
      case 62 => Inner(66, 65) case _ => Inner(81, 87))
    else if r < 96 then (
      match r
      case 64 => Inner(91, 80) case 65 => Inner(82, 79) case 66 => Inner(83, 86) case 67 => Inner(93, 92)
          case 68 => Inner(84, 85)
      case 69 => Inner(90, 94) case 70 => Inner(88, 89) case 71 => Leaf(0x203) case 72 => Leaf(0x104)
          case 73 => Leaf(0x7)
      case 74 => Leaf(0x402) case 75 => Leaf(0x502) case 76 => Leaf(0x1001) case 77 => Leaf(0xf01)
          case 78 => Leaf(0xe01)
      case 79 => Inner(105, 107) case 80 => Inner(111, 114) case 81 => Inner(104, 97) case 82 => Inner(125, 119)
          case 83 => Inner(96, 98)
      case 84 => Inner(-1, 123) case 85 => Inner(95, 101) case 86 => Inner(106, 121) case 87 => Inner(99, 102)
          case 88 => Inner(113, 103)
      case 89 => Inner(112, 116) case 90 => Inner(110, 100) case 91 => Inner(124, 115) case 92 => Inner(117, 122)
          case 93 => Inner(109, 118)
      case 94 => Inner(120, 108) case _ => Inner(127, 136))
    else if r < 128 then (
      match r
      case 96 => Inner(139, 140) case 97 => Inner(130, 126) case 98 => Inner(145, 146) case 99 => Inner(128, 129)
          case 100 => Leaf(0x802)
      case 101 => Inner(132, 134) case 102 => Inner(155, 154) case 103 => Leaf(0x8) case 104 => Inner(137, 133)
          case 105 => Inner(143, 144)
      case 106 => Inner(151, 138) case 107 => Inner(142, 141) case 108 => Leaf(0xa) case 109 => Leaf(0x9)
          case 110 => Leaf(0xb)
      case 111 => Leaf(0x1501) case 112 => Leaf(0x602) case 113 => Leaf(0x303) case 114 => Leaf(0x1401)
          case 115 => Leaf(0x702)
      case 116 => Leaf(0x1101) case 117 => Leaf(0x1201) case 118 => Leaf(0x1301) case 119 => Inner(148, 152)
          case 120 => Leaf(0x403)
      case 121 => Inner(153, 150) case 122 => Leaf(0x105) case 123 => Inner(131, 135) case 124 => Leaf(0x204)
          case 125 => Inner(149, 147)
      case 126 => Inner(172, 173) case _ => Inner(162, 158))
    else if r < 160 then (
      match r
      case 128 => Inner(170, 161) case 129 => Inner(168, 166) case 130 => Inner(157, 179) case 131 => Inner(169, 167)
          case 132 => Inner(174, 171)
      case 133 => Inner(178, 177) case 134 => Inner(156, 159) case 135 => Inner(164, 165) case 136 => Inner(183, 182)
          case 137 => Inner(175, 176)
      case 138 => Leaf(0x107) case 139 => Leaf(0xa02) case 140 => Leaf(0x902) case 141 => Leaf(0x1601)
          case 142 => Leaf(0x1701)
      case 143 => Leaf(0x1901) case 144 => Leaf(0x1801) case 145 => Leaf(0x503) case 146 => Leaf(0x304)
          case 147 => Leaf(0xd)
      case 148 => Leaf(0xc) case 149 => Leaf(0xe) case 150 => Leaf(0xf) case 151 => Leaf(0x205) case 152 => Leaf(0x1a01)
      case 153 => Leaf(0x106) case 154 => Inner(180, 181) case 155 => Inner(160, 163) case 156 => Inner(196, 199)
          case 157 => Leaf(0x1b)
      case 158 => Inner(203, 185) case _ => Inner(202, 201))
    else if r < 192 then (
      match r
      case 160 => Leaf(0x13) case 161 => Leaf(0x16) case 162 => Inner(197, 207) case 163 => Leaf(0x12)
          case 164 => Inner(191, 192)
      case 165 => Inner(188, 190) case 166 => Leaf(0x14) case 167 => Inner(184, 194) case 168 => Leaf(0x15)
          case 169 => Inner(186, 193)
      case 170 => Leaf(0x17) case 171 => Inner(204, 198) case 172 => Leaf(0x19) case 173 => Leaf(0x18)
          case 174 => Inner(200, 205)
      case 175 => Leaf(0x1f) case 176 => Leaf(0x1e) case 177 => Leaf(0x1c) case 178 => Leaf(0x1d) case 179 => Leaf(0x1a)
      case 180 => Leaf(0x11) case 181 => Leaf(0x10) case 182 => Inner(189, 206) case 183 => Inner(187, 195)
          case 184 => Inner(218, 211)
      case 185 => Leaf(0x25) case 186 => Inner(215, 216) case 187 => Leaf(0x24) case 188 => Inner(210, 212)
          case 189 => Leaf(0x22)
      case 190 => Inner(213, 209) case _ => Inner(221, 222))
    else match r
    case 192 => Inner(219, 208) case 193 => Inner(217, 214) case 194 => Inner(223, 220) case 195 => Leaf(0x23)
        case 196 => Leaf(0x10b)
    case 197 => Leaf(0x28) case 198 => Leaf(0x10c) case 199 => Leaf(0x10a) case 200 => Leaf(0x20)
        case 201 => Leaf(0x108)
    case 202 => Leaf(0x109) case 203 => Leaf(0x26) case 204 => Leaf(0x10d) case 205 => Leaf(0x10e)
        case 206 => Leaf(0x21)
    case 207 => Leaf(0x27) case 208 => Leaf(0x1f01) case 209 => Leaf(0x1b01) case 210 => Leaf(0x1e01)
        case 211 => Leaf(0x1002)
    case 212 => Leaf(0x1d01) case 213 => Leaf(0x1c01) case 214 => Leaf(0x10f) case 215 => Leaf(0x112)
        case 216 => Leaf(0x111)
    case 217 => Leaf(0x110) case 218 => Leaf(0x603) case 219 => Leaf(0xb02) case 220 => Leaf(0xe02)
        case 221 => Leaf(0xd02)
    case 222 => Leaf(0xc02) case 223 => Leaf(0xf02)
    case _ => Leaf(0)
  }

  function DctCoeffParent(r: nat): nat
  {
    if r < 32 then (
      match r
      case 0 => 0 case 1 => 0 case 2 => 0 case 3 => 1 case 4 => 1 case 5 => 4 case 6 => 4 case 7 => 3
      case 8 => 3 case 9 => 5 case 10 => 6 case 11 => 6 case 12 => 7 case 13 => 5 case 14 => 7 case 15 => 13
      case 16 => 11 case 17 => 13 case 18 => 10 case 19 => 11 case 20 => 9 case 21 => 10 case 22 => 9 case 23 => 21
      case 24 => 18 case 25 => 16 case 26 => 18 case 27 => 16 case 28 => 21 case 29 => 17 case 30 => 19 case _ => 17)
    else if r < 64 then (
      match r
      case 32 => 19 case 33 => 31 case 34 => 29 case 35 => 29 case 36 => 27 case 37 => 27 case 38 => 30 case 39 => 30
      case 40 => 32 case 41 => 32 case 42 => 31 case 43 => 36 case 44 => 37 case 45 => 36 case 46 => 37 case 47 => 42
      case 48 => 35 case 49 => 35 case 50 => 33 case 51 => 42 case 52 => 33 case 53 => 34 case 54 => 34 case 55 => 43
      case 56 => 44 case 57 => 43 case 58 => 45 case 59 => 45 case 60 => 44 case 61 => 46 case 62 => 46 case _ => 61)
    else if r < 96 then (
      match r
      case 64 => 60 case 65 => 62 case 66 => 62 case 67 => 56 case 68 => 61 case 69 => 60 case 70 => 56 case 71 => 57
      case 72 => 59 case 73 => 57 case 74 => 58 case 75 => 55 case 76 => 55 case 77 => 59 case 78 => 58 case 79 => 65
      case 80 => 64 case 81 => 63 case 82 => 65 case 83 => 66 case 84 => 68 case 85 => 68 case 86 => 66 case 87 => 63
      case 88 => 70 case 89 => 70 case 90 => 69 case 91 => 64 case 92 => 67 case 93 => 67 case 94 => 69 case _ => 85)
    else if r < 128 then (
      match r
      case 96 => 83 case 97 => 81 case 98 => 83 case 99 => 87 case 100 => 90 case 101 => 85 case 102 => 87
          case 103 => 88
      case 104 => 81 case 105 => 79 case 106 => 86 case 107 => 79 case 108 => 94 case 109 => 93 case 110 => 90
          case 111 => 80
      case 112 => 89 case 113 => 88 case 114 => 80 case 115 => 91 case 116 => 89 case 117 => 92 case 118 => 93
          case 119 => 82
      case 120 => 94 case 121 => 86 case 122 => 92 case 123 => 84 case 124 => 91 case 125 => 82 case 126 => 97
          case _ => 95)
    else if r < 160 then (
      match r
      case 128 => 99 case 129 => 99 case 130 => 97 case 131 => 123 case 132 => 101 case 133 => 104 case 134 => 101
          case 135 => 123
      case 136 => 95 case 137 => 104 case 138 => 106 case 139 => 96 case 140 => 96 case 141 => 107 case 142 => 107
          case 143 => 105
      case 144 => 105 case 145 => 98 case 146 => 98 case 147 => 125 case 148 => 119 case 149 => 125 case 150 => 121
          case 151 => 106
      case 152 => 119 case 153 => 121 case 154 => 102 case 155 => 102 case 156 => 134 case 157 => 130 case 158 => 127
          case _ => 134)
    else if r < 192 then (
      match r
      case 160 => 155 case 161 => 128 case 162 => 127 case 163 => 155 case 164 => 135 case 165 => 135 case 166 => 129
          case 167 => 131
      case 168 => 129 case 169 => 131 case 170 => 128 case 171 => 132 case 172 => 126 case 173 => 126 case 174 => 132
          case 175 => 137
      case 176 => 137 case 177 => 133 case 178 => 133 case 179 => 130 case 180 => 154 case 181 => 154 case 182 => 136
          case 183 => 136
      case 184 => 167 case 185 => 158 case 186 => 169 case 187 => 183 case 188 => 165 case 189 => 182 case 190 => 165
          case _ => 164)
    else match r
    case 192 => 164 case 193 => 169 case 194 => 167 case 195 => 183 case 196 => 156 case 197 => 162 case 198 => 171
        case 199 => 156
    case 200 => 174 case 201 => 159 case 202 => 159 case 203 => 158 case 204 => 171 case 205 => 174 case 206 => 182
        case 207 => 162
    case 208 => 192 case 209 => 190 case 210 => 188 case 211 => 184 case 212 => 188 case 213 => 190 case 214 => 193
        case 215 => 186
    case 216 => 186 case 217 => 193 case 218 => 184 case 219 => 192 case 220 => 194 case 221 => 191 case 222 => 191
        case 223 => 194
    case _ => 0
  }

  lemma DctCoeffRows0()
    ensures forall r: nat :: r < 128 ==> RowOk(DctCoeff(r), r, 224)
  {
  }

  lemma DctCoeffRows128()
    ensures forall r: nat :: 128 <= r < 224 ==> RowOk(DctCoeff(r), r, 224)
  {
  }

  lemma DctCoeffParents0()
    ensures forall r: nat :: 1 <= r < 128 ==> DctCoeffParent(r) < r && ChildOk(DctCoeff(DctCoeffParent(r)), r)
  {
  }

  lemma DctCoeffParents128()
    ensures forall r: nat :: 128 <= r < 224 ==> DctCoeffParent(r) < r && ChildOk(DctCoeff(DctCoeffParent(r)), r)
  {
  }

  lemma DctCoeffSound()
    ensures Sound(224, DctCoeff, DctCoeffParent)
  {
    DctCoeffRows0();
    DctCoeffRows128();
    DctCoeffParents0();
    DctCoeffParents128();
  }

  /** The tables as the decoder holds them have the shape that `readCode` needs, and all their symbols have code
      words. */
  lemma ShippedTables()
    ensures Complete(75, AddressIncrement)
    ensures Complete(4, TypeI)
    ensures Complete(14, TypeP)
    ensures Complete(22, TypeB)
    ensures Complete(126, CodeBlockPattern)
    ensures Complete(67, Motion)
    ensures Complete(18, DcSizeLuminance)
    ensures Complete(18, DcSizeChrominance)
    ensures Complete(224, DctCoeff)
  {
    AddressIncrementSound();
    SoundTable(75, AddressIncrement, AddressIncrementParent);
    TypeISound();
    SoundTable(4, TypeI, TypeIParent);
    TypePSound();
    SoundTable(14, TypeP, TypePParent);
    TypeBSound();
    SoundTable(22, TypeB, TypeBParent);
    CodeBlockPatternSound();
    SoundTable(126, CodeBlockPattern, CodeBlockPatternParent);
    MotionSound();
    SoundTable(67, Motion, MotionParent);
    DcSizeLuminanceSound();
    SoundTable(18, DcSizeLuminance, DcSizeLuminanceParent);
    DcSizeChrominanceSound();
    SoundTable(18, DcSizeChrominance, DcSizeChrominanceParent);
    DctCoeffSound();
    SoundTable(224, DctCoeff, DctCoeffParent);
  }
}
