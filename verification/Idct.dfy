/** The fixed-point inverse cosine transform of 8 x 8 blocks. */
module Idct {

  /** Eight numbers of a row or a column. */
  datatype Eight = Eight(v0: int, v1: int, v2: int, v3: int, v4: int, v5: int, v6: int, v7: int)

  const ZERO8: Eight := Eight(0, 0, 0, 0, 0, 0, 0, 0)

  function Same(v: int): Eight { Eight(v, v, v, v, v, v, v, v) }

  /** One pass over eight numbers; `>> 8` rounds down, which is division by a positive number. */
  function Pass(x: Eight): Eight
  {
    var b1, b3, b4 := x.v4, x.v2 + x.v6, x.v5 - x.v3;
    var tmp1, tmp2, b6 := x.v1 + x.v7, x.v3 + x.v5, x.v1 - x.v7;
    var b7, m0 := tmp1 + tmp2, x.v0;
    var x4 := (b6 * 473 - b4 * 196 + 128) / 256 - b7;
    var x0 := x4 - ((tmp1 - tmp2) * 362 + 128) / 256;
    var x1 := m0 - b1;
    var x2 := ((x.v2 - x.v6) * 362 + 128) / 256 - b3;
    var x3 := m0 + b1;
    var y3, y4, y5, y6 := x1 + x2, x3 + b3, x1 - x2, x3 - b3;
    var y7 := -x0 - (b4 * 473 + b6 * 196 + 128) / 256;
    Eight(b7 + y4, x4 + y3, y5 - x0, y6 - y7, y6 + y7, x0 + y5, y3 - x4, y4 - b7)
  }

  function Scaled(v: int): int { (v + 128) / 256 }

  function ScaledPass(x: Eight): Eight
  {
    var y := Pass(x);
    Eight(Scaled(y.v0), Scaled(y.v1), Scaled(y.v2), Scaled(y.v3), Scaled(y.v4), Scaled(y.v5), Scaled(y.v6),
          Scaled(y.v7))
  }

  lemma PassOfDc(d: int)
    ensures Pass(ZERO8.(v0 := d)) == Same(d) && ScaledPass(ZERO8.(v0 := d)) == Same(Scaled(d))
  {
  }

  // ---- Blocks

  type Block = s: seq<int> | |s| == 64 witness seq(64, _ => 0)

  function ZeroBlock(): Block { seq(64, _ => 0) }

  function Column(s: Block, i: nat): Eight
    requires i < 8
  {
    Eight(s[i], s[8 + i], s[16 + i], s[24 + i], s[32 + i], s[40 + i], s[48 + i], s[56 + i])
  }

  function SetColumn(s: Block, i: nat, y: Eight): Block
    requires i < 8
  {
    s[i := y.v0][8 + i := y.v1][16 + i := y.v2][24 + i := y.v3][32 + i := y.v4][40 + i := y.v5][48 + i := y.v6][56
            + i := y.v7]
  }

  function Row(s: Block, i: nat): Eight
    requires i < 8
  {
    Eight(s[8 * i], s[8 * i + 1], s[8 * i + 2], s[8 * i + 3], s[8 * i + 4], s[8 * i + 5], s[8 * i + 6], s[8 * i + 7])
  }

  function SetRow(s: Block, i: nat, y: Eight): Block
    requires i < 8
  {
    s[8 * i := y.v0][8 * i + 1 := y.v1][8 * i + 2 := y.v2][8 * i + 3 := y.v3]
     [8 * i + 4 := y.v4][8 * i + 5 := y.v5][8 * i + 6 := y.v6][8 * i + 7 := y.v7]
  }

  /** The first `n` columns transformed. */
  function Columns(s: Block, n: nat): Block
    requires n <= 8
  {
    if n == 0 then s else var p := Columns(s, n - 1); SetColumn(p, n - 1, Pass(Column(p, n - 1)))
  }

  /** The first `n` rows transformed and scaled down. */
  function Rows(s: Block, n: nat): Block
    requires n <= 8
  {
    if n == 0 then s else var p := Rows(s, n - 1); SetRow(p, n - 1, ScaledPass(Row(p, n - 1)))
  }

  function Transformed(s: Block): Block { Rows(Columns(s, |s| / 8), |s| / 8) }

  // ---- Blocks with a DC coefficient only

  ghost predicate DcOnly(s: Block, d: int)
  {
    s[0] == d && forall k :: 0 < k < 64 ==> s[k] == 0
  }

  /** The first column is filled with the coefficient, and the first `n` rows with `v`. */
  ghost predicate DcRows(s: Block, d: int, v: int, n: nat)
  {
    forall k :: 0 <= k < 64 ==> s[k] == if k < 8 * n then v else if k % 8 == 0 then d else 0
  }

  lemma FirstColumn(s: Block, d: int)
    requires DcOnly(s, d)
    ensures DcRows(SetColumn(s, 0, Pass(Column(s, 0))), d, 0, 0)
  {
    PassOfDc(d);
    assert Column(s, 0) == ZERO8.(v0 := d);
  }

  lemma LaterColumn(s: Block, d: int, i: nat)
    requires DcRows(s, d, 0, 0) && 0 < i < 8
    ensures SetColumn(s, i, Pass(Column(s, i))) == s
  {
    PassOfDc(0);
    assert Column(s, i) == ZERO8;
  }

  lemma {:induction false} ColumnsOfDc(s: Block, d: int, n: nat)
    requires DcOnly(s, d) && 0 < n <= 8
    ensures DcRows(Columns(s, n), d, 0, 0)
  {
    if n == 1 {
      assert Columns(s, 0) == s;
      FirstColumn(s, d);
    } else {
      ColumnsOfDc(s, d, n - 1);
      LaterColumn(Columns(s, n - 1), d, n - 1);
    }
  }

  lemma NextRow(s: Block, d: int, i: nat)
    requires i < 8 && DcRows(s, d, Scaled(d), i)
    ensures DcRows(SetRow(s, i, ScaledPass(Row(s, i))), d, Scaled(d), i + 1)
  {
    PassOfDc(d);
    assert Row(s, i) == ZERO8.(v0 := d);
    var t := SetRow(s, i, Same(Scaled(d)));
    assert forall k :: 0 <= k < 64 ==> t[k] == if 8 * i <= k < 8 * i + 8 then Scaled(d) else s[k];
  }

  lemma {:induction false} RowsOfDc(s: Block, d: int, n: nat)
    requires DcRows(s, d, 0, 0) && n <= 8
    ensures DcRows(Rows(s, n), d, Scaled(d), n)
  {
    if n > 0 {
      RowsOfDc(s, d, n - 1);
      NextRow(Rows(s, n - 1), d, n - 1);
    }
  }

  ghost predicate Constant(s: Block, v: int) { forall k :: 0 <= k < 64 ==> s[k] == v }

  /** The full transform of a block with only a DC coefficient is a constant block. */
  lemma TransformOfDc(s: Block, d: int)
    requires DcOnly(s, d)
    ensures Constant(Transformed(s), Scaled(d))
  {
    ColumnsOfDc(s, d, 8);
    RowsOfDc(Columns(s, 8), d, 8);
  }

  // ---- The cosine transform

  /** cos((2 k + 1) n pi / 16) in millionths, for n from 0 to 7. */
  function Cosines(k: nat): Eight
    requires k < 8
  {
    match k
    case 0 => Eight(1000000, 980785, 923880, 831470, 707107, 555570, 382683, 195090)
    case 1 => Eight(1000000, 831470, 382683, -195090, -707107, -980785, -923880, -555570)
    case 2 => Eight(1000000, 555570, -382683, -980785, -707107, 195090, 923880, 831470)
    case 3 => Eight(1000000, 195090, -923880, -555570, 707107, 831470, -382683, -980785)
    case 4 => Eight(1000000, -195090, -923880, 555570, 707107, -831470, -382683, 980785)
    case 5 => Eight(1000000, -555570, -382683, 980785, -707107, -195090, 923880, -831470)
    case 6 => Eight(1000000, -831470, 382683, 195090, -707107, 980785, -923880, 555570)
    case _ => Eight(1000000, -980785, 923880, -831470, 707107, -555570, 382683, -195090)
  }

  predicate Within(a: int, b: int, bound: nat) { a - b <= bound && b - a <= bound }

  /** Up to their rounding these values are determined: each row follows the formula for the sum of two angles,
      a fourfold angle is an odd multiple of pi / 4, and the angles grow from row to row. */
  lemma CosinesAdd(k: nat, n: nat)
    requires k < 8 && 0 < n < 7
    ensures Cosines(k).v0 == 1000000
    ensures Within(1000000 * (Nth(Cosines(k), n - 1) + Nth(Cosines(k), n + 1)), 2 * Nth(Cosines(k), n) * Cosines(k).v1,
                   2100000)
    ensures Within(2 * Cosines(k).v4 * Cosines(k).v4, 1000000000000, 2100000)
    ensures k < 7 ==> Cosines(k).v1 > Cosines(k + 1).v1
  {
  }

  function Nth(x: Eight, k: nat): int
    requires k < 8
  {
    match k
    case 0 => x.v0 case 1 => x.v1 case 2 => x.v2 case 3 => x.v3 case 4 => x.v4 case 5 => x.v5 case 6 => x.v6
    case _ => x.v7
  }

  /** What each of the eight numbers contributes to result `k` of a pass, in 256ths. */
  function Weights(k: nat): Eight
    requires k < 8
  {
    match k
    case 0 => Eight(256, 256, 256, 256, 256, 256, 256, 256)
    case 1 => Eight(256, 217, 106, -60, -256, -452, -618, -729)
    case 2 => Eight(256, 145, -106, -302, -256, 90, 618, 1091)
    case 3 => Eight(256, 51, -256, -171, 256, 383, -256, -1287)
    case 4 => Eight(256, -51, -256, 171, 256, -383, -256, 1287)
    case 5 => Eight(256, -145, -106, 302, -256, -90, 618, -1091)
    case 6 => Eight(256, -217, 106, 60, -256, 452, -618, 729)
    case _ => Eight(256, -256, 256, -256, 256, -256, 256, -256)
  }

  /** Number n counts cos((2 k + 1) n pi / 16) / cos(n pi / 16) times: the inputs are scaled by cos(n pi / 16). */
  lemma WeightsAreCosines(k: nat, n: nat)
    requires k < 8 && n < 8
    ensures Within(Nth(Weights(k), n) * Nth(Cosines(0), n), 256 * Nth(Cosines(k), n), 77000)
  {
  }

  function Sum(w: Eight, x: Eight): int
  {
    w.v0 * x.v0 + w.v1 * x.v1 + w.v2 * x.v2 + w.v3 * x.v3 + w.v4 * x.v4 + w.v5 * x.v5 + w.v6 * x.v6 + w.v7 * x.v7
  }

  /** Each result of a pass is the weighted sum of the eight numbers, up to the rounding of at most three products. */
  lemma PassIsWeighted(x: Eight, k: nat)
    requires k < 8
    ensures Within(256 * Nth(Pass(x), k), Sum(Weights(k), x), 384)
  {
  }

  lemma ScaledIsNear(v: int)
    ensures Within(256 * Scaled(v), v, 128)
  {
  }

  lemma ScaledNth(x: Eight, k: nat)
    requires k < 8
    ensures Nth(ScaledPass(x), k) == Scaled(Nth(Pass(x), k))
  {
  }

  // ---- Both passes over a block

  lemma ColumnOfSet(s: Block, i: nat, y: Eight, j: nat)
    requires i < 8 && j < 8
    ensures Column(SetColumn(s, i, y), j) == if i == j then y else Column(s, j)
  {
  }

  lemma {:induction false} ColumnOfColumns(s: Block, n: nat, j: nat)
    requires n <= 8 && j < 8
    ensures Column(Columns(s, n), j) == if j < n then Pass(Column(s, j)) else Column(s, j)
  {
    if n > 0 {
      var p := Columns(s, n - 1);
      ColumnOfColumns(s, n - 1, j);
      ColumnOfSet(p, n - 1, Pass(Column(p, n - 1)), j);
    }
  }

  lemma RowOfSet(s: Block, i: nat, y: Eight, j: nat)
    requires i < 8 && j < 8
    ensures Row(SetRow(s, i, y), j) == if i == j then y else Row(s, j)
  {
  }

  lemma {:induction false} RowOfRows(s: Block, n: nat, j: nat)
    requires n <= 8 && j < 8
    ensures Row(Rows(s, n), j) == if j < n then ScaledPass(Row(s, j)) else Row(s, j)
  {
    if n > 0 {
      var p := Rows(s, n - 1);
      RowOfRows(s, n - 1, j);
      RowOfSet(p, n - 1, ScaledPass(Row(p, n - 1)), j);
    }
  }

  lemma NthOfColumn(s: Block, r: nat, c: nat)
    requires r < 8 && c < 8
    ensures s[8 * r + c] == Nth(Column(s, c), r) == Nth(Row(s, r), c)
  {
  }

  /** The weighted sums over the columns, as the row `r`. */
  function ColumnSums(s: Block, r: nat): Eight
    requires r < 8
  {
    var w := Weights(r);
    Eight(Sum(w, Column(s, 0)), Sum(w, Column(s, 1)), Sum(w, Column(s, 2)), Sum(w, Column(s, 3)),
          Sum(w, Column(s, 4)), Sum(w, Column(s, 5)), Sum(w, Column(s, 6)), Sum(w, Column(s, 7)))
  }

  /** The doubly weighted sum of the block for row `r` and column `c`. */
  function BlockSum(s: Block, r: nat, c: nat): int
    requires r < 8 && c < 8
  {
    Sum(Weights(c), ColumnSums(s, r))
  }

  /** Errors of a row are weighted as well; the weights of a pass sum up to no more than 2916. */
  lemma SumOfErrors(c: nat, x: Eight, sums: Eight)
    requires c < 8 && forall j :: 0 <= j < 8 ==> Within(256 * Nth(x, j), Nth(sums, j), 384)
    ensures Within(256 * Sum(Weights(c), x), Sum(Weights(c), sums), 384 * 2916)
  {
    assert Within(256 * Nth(x, 0), Nth(sums, 0), 384) && Within(256 * Nth(x, 1), Nth(sums, 1), 384);
    assert Within(256 * Nth(x, 2), Nth(sums, 2), 384) && Within(256 * Nth(x, 3), Nth(sums, 3), 384);
    assert Within(256 * Nth(x, 4), Nth(sums, 4), 384) && Within(256 * Nth(x, 5), Nth(sums, 5), 384);
    assert Within(256 * Nth(x, 6), Nth(sums, 6), 384) && Within(256 * Nth(x, 7), Nth(sums, 7), 384);
  }

  lemma RowAfterColumns(s: Block, r: nat, j: nat)
    requires r < 8 && j < 8
    ensures Within(256 * Nth(Row(Columns(s, |s| / 8), r), j), Nth(ColumnSums(s, r), j), 384)
  {
    var n := |s| / 8;
    ColumnOfColumns(s, n, j);
    NthOfColumn(Columns(s, n), r, j);
    PassIsWeighted(Column(s, j), r);
    NthOfSums(s, r, j);
  }

  lemma NthOfSums(s: Block, r: nat, j: nat)
    requires r < 8 && j < 8
    ensures Nth(ColumnSums(s, r), j) == Sum(Weights(r), Column(s, j))
  {
  }

  /** Every number of the transformed block is the doubly weighted sum of the block, up to 0.573. */
  lemma TransformIsWeighted(s: Block, r: nat, c: nat)
    requires r < 8 && c < 8
    ensures Within(256 * 256 * 256 * Transformed(s)[8 * r + c], BlockSum(s, r, c), 9606656)
  {
    var t := Columns(s, |s| / 8);
    var x := Row(t, r);
    forall j | 0 <= j < 8 ensures Within(256 * Nth(x, j), Nth(ColumnSums(s, r), j), 384) {
      RowAfterColumns(s, r, j);
    }
    SumOfErrors(c, x, ColumnSums(s, r));
    PassIsWeighted(x, c);
    var n := |s| / 8;
    RowOfRows(t, n, r);
    NthOfColumn(Rows(t, n), r, c);
    ScaledNth(x, c);
    ScaledIsNear(Nth(Pass(x), c));
    AddErrors(Transformed(s)[8 * r + c], Nth(Pass(x), c), Sum(Weights(c), x), BlockSum(s, r, c));
  }

  lemma AddErrors(out: int, y: int, sum: int, exact: int)
    requires Within(256 * out, y, 128) && Within(256 * y, sum, 384) && Within(256 * sum, exact, 384 * 2916)
    ensures Within(256 * 256 * 256 * out, exact, 9606656)
  {
  }

  // ---- In place

  method PassColumn(b: array<int>, i: nat)
    requires b.Length == 64 && i < 8
    modifies b
    ensures b[..] == SetColumn(old(b[..]), i, Pass(Column(old(b[..]), i)))
  {
    var y := Pass(Eight(b[i], b[8 + i], b[16 + i], b[24 + i], b[32 + i], b[40 + i], b[48 + i], b[56 + i]));
    b[i], b[8 + i], b[16 + i], b[24 + i] := y.v0, y.v1, y.v2, y.v3;
    b[32 + i], b[40 + i], b[48 + i], b[56 + i] := y.v4, y.v5, y.v6, y.v7;
  }

  method PassRow(b: array<int>, i: nat)
    requires b.Length == 64 && i < 8
    modifies b
    ensures b[..] == SetRow(old(b[..]), i, ScaledPass(Row(old(b[..]), i)))
  {
    var o := 8 * i;
    var y := ScaledPass(Eight(b[o], b[o + 1], b[o + 2], b[o + 3], b[o + 4], b[o + 5], b[o + 6], b[o + 7]));
    b[o], b[o + 1], b[o + 2], b[o + 3] := y.v0, y.v1, y.v2, y.v3;
    b[o + 4], b[o + 5], b[o + 6], b[o + 7] := y.v4, y.v5, y.v6, y.v7;
  }

  method IDCT(blockData: array<int>)
    requires blockData.Length == 64
    modifies blockData
    ensures blockData[..] == Transformed(old(blockData[..]))
    ensures forall r, c :: 0 <= r < 8 && 0 <= c < 8 ==>
              Within(256 * 256 * 256 * blockData[..][8 * r + c], BlockSum(old(blockData[..]), r, c), 9606656)
  {
    ghost var s := blockData[..];
    for i := 0 to 8
      invariant blockData[..] == Columns(s, i)
    {
      PassColumn(blockData, i);
    }
    ghost var t := Columns(s, |s| / 8);
    for i := 0 to 8
      invariant blockData[..] == Rows(t, i)
    {
      PassRow(blockData, i);
    }
    forall r, c | 0 <= r < 8 && 0 <= c < 8
      ensures Within(256 * 256 * 256 * Transformed(s)[8 * r + c], BlockSum(s, r, c), 9606656)
    {
      TransformIsWeighted(s, r, c);
    }
  }
}
