/** Motion compensation: the copy of a displaced macroblock, four pixels per 32-bit write. */
module MotionCompensation {
  import opened Common

  // ---- The per-pixel rule

  /** The prediction at linear address `p`: the pixel itself, or the rounded average of two or four neighbours. */
  function Average(s: seq<byte>, width: nat, p: nat, oddH: bool, oddV: bool): byte
    requires p + (if oddH then 1 else 0) + (if oddV then width else 0) < |s|
  {
    if oddH && oddV then (Two(s, p, 1) + Two(s, p + width, 1) + 2) / 4
    else if oddH then (Two(s, p, 1) + 1) / 2
    else if oddV then (Two(s, p, width) + 1) / 2
    else s[p]
  }

  /** The sum of a pixel and the one `d` places after it. */
  function Two(s: seq<byte>, p: nat, d: nat): (r: nat)
    requires p + d < |s|
    ensures r <= 510
  {
    s[p] as int + s[p + d] as int
  }

  // ---- Words

  /** `x & (0xff << 8 * k)` for a lane k of a 32-bit word. */
  function Lane0(x: nat): nat { x % 0x100 }
  function Lane1(x: nat): nat { x / 0x100 % 0x100 * 0x100 }
  function Lane2(x: nat): nat { x / 0x1_0000 % 0x100 * 0x1_0000 }
  function Lane3(x: nat): nat { x / 0x100_0000 % 0x100 * 0x100_0000 }

  /** Four sums packed with the shifts of the source; `|` of different lanes is addition. */
  function Pack1(t0: nat, t1: nat, t2: nat, t3: nat): nat { t0 + t1 * 0x100 + t2 * 0x1_0000 + t3 * 0x100_0000 }
  function Pack2(t0: nat, t1: nat, t2: nat, t3: nat): nat
  {
    Lane0(t0 / 2) + Lane1(t1 * 0x80) + Lane2(t2 * 0x8000) + Lane3(t3 * 0x80_0000)
  }
  function Pack4(t0: nat, t1: nat, t2: nat, t3: nat): nat
  {
    Lane0(t0 / 4) + Lane1(t1 * 0x40) + Lane2(t2 * 0x4000) + Lane3(t3 * 0x40_0000)
  }

  /** The bytes that a little-endian machine stores for a 32-bit word. */
  function Little(y: nat, k: nat): byte
    requires k < 4
  {
    if k == 0 then y % 0x100 else if k == 1 then y / 0x100 % 0x100
    else if k == 2 then y / 0x1_0000 % 0x100 else y / 0x100_0000 % 0x100
  }

  lemma Little1(t0: byte, t1: byte, t2: byte, t3: byte)
    ensures var y := Pack1(t0, t1, t2, t3);
            Little(y, 0) == t0 && Little(y, 1) == t1 && Little(y, 2) == t2 && Little(y, 3) == t3
  {
    var y := Pack1(t0, t1, t2, t3);
    assert y / 0x100 == t1 + t2 * 0x100 + t3 * 0x1_0000;
    assert y / 0x1_0000 == t2 + t3 * 0x100;
    assert y / 0x100_0000 == t3;
  }

  lemma Lanes2(t: nat)
    requires t < 512
    ensures Lane0(t / 2) == t / 2 && Lane1(t * 0x80) == t / 2 * 0x100
    ensures Lane2(t * 0x8000) == t / 2 * 0x1_0000 && Lane3(t * 0x80_0000) == t / 2 * 0x100_0000
  {
    assert t * 0x80 / 0x100 == t / 2 && t * 0x8000 / 0x1_0000 == t / 2 && t * 0x80_0000 / 0x100_0000 == t / 2;
  }

  lemma Little2(t0: nat, t1: nat, t2: nat, t3: nat)
    requires t0 < 512 && t1 < 512 && t2 < 512 && t3 < 512
    ensures var y := Pack2(t0, t1, t2, t3);
            Little(y, 0) == t0 / 2 && Little(y, 1) == t1 / 2 && Little(y, 2) == t2 / 2 && Little(y, 3) == t3 / 2
  {
    Lanes2(t0); Lanes2(t1); Lanes2(t2); Lanes2(t3);
    Little1(t0 / 2, t1 / 2, t2 / 2, t3 / 2);
  }

  lemma Lanes4(t: nat)
    requires t < 1024
    ensures Lane0(t / 4) == t / 4 && Lane1(t * 0x40) == t / 4 * 0x100
    ensures Lane2(t * 0x4000) == t / 4 * 0x1_0000 && Lane3(t * 0x40_0000) == t / 4 * 0x100_0000
  {
    assert t * 0x40 / 0x100 == t / 4 && t * 0x4000 / 0x1_0000 == t / 4 && t * 0x40_0000 / 0x100_0000 == t / 4;
  }

  lemma Little4(t0: nat, t1: nat, t2: nat, t3: nat)
    requires t0 < 1024 && t1 < 1024 && t2 < 1024 && t3 < 1024
    ensures var y := Pack4(t0, t1, t2, t3);
            Little(y, 0) == t0 / 4 && Little(y, 1) == t1 / 4 && Little(y, 2) == t2 / 4 && Little(y, 3) == t3 / 4
  {
    Lanes4(t0); Lanes4(t1); Lanes4(t2); Lanes4(t3);
    Little1(t0 / 4, t1 / 4, t2 / 4, t3 / 4);
  }

  // ---- Rows and columns of a block inside a wider plane

  /** `n` rows of pixels. */
  function Rows(n: nat, width: nat): nat { if n == 0 then 0 else Rows(n - 1, width) + width }

  /** The column, counted from the block's first one, of a pixel `off` places after the block's first pixel. */
  function Column(off: nat, width: nat): nat
    requires width > 0
  {
    if off < width then off else Column(off - width, width)
  }

  lemma {:induction false} ColumnInRow(n: nat, width: nat, x: nat)
    requires x < width
    ensures Column(Rows(n, width) + x, width) == x
  {
    if n != 0 { ColumnInRow(n - 1, width, x); }
  }

  lemma {:induction false} RowsGrow(m: nat, n: nat, width: nat)
    requires m <= n
    ensures Rows(m, width) <= Rows(n, width)
    ensures m < n ==> Rows(m, width) + width <= Rows(n, width)
  {
    if m < n { RowsGrow(m, n - 1, width); }
  }

  lemma {:induction false} RowsProduct(n: nat, width: nat)
    ensures Rows(n, width) == n * width
  {
    if n != 0 { RowsProduct(n - 1, width); }
  }

  /** What a copy is about: the block of `size` rows and columns whose first pixel is `start` in the destination and
      `src` in the source. */
  datatype Copy = Copy(source: seq<byte>, width: nat, size: nat, start: nat, src: nat, oddH: bool, oddV: bool)
  {
    /** The source block, with the row and column that the averages need, lies inside the plane. */
    ghost predicate Inside()
    {
      && 0 < size <= width
      && src + Rows(size - 1, width) + size - 1 + (if oddH then 1 else 0) + (if oddV then width else 0) < |source|
    }

    ghost predicate InBlock(off: nat)
      requires width > 0
    {
      off < Rows(size, width) && Column(off, width) < size
    }

    ghost function Pixel(off: nat): byte
      requires Inside() && InBlock(off)
    {
      PixelInside(off);
      Average(source, width, src + off, oddH, oddV)
    }

    lemma PixelInside(off: nat)
      requires Inside() && InBlock(off)
      ensures src + off + (if oddH then 1 else 0) + (if oddV then width else 0) < |source|
    {
      RowOf(off, size);
    }

    lemma {:induction false} RowOf(off: nat, n: nat)
      requires 0 < size <= width && 0 < n && off < Rows(n, width) && Column(off, width) < size
      ensures off <= Rows(n - 1, width) + size - 1
      decreases n
    {
      if off >= width {
        assert n > 1;
        RowOf(off - width, n - 1);
      }
    }

    /** The plane at `q` when the pixels of the block before offset `o` are predicted. */
    ghost function Expected(was: seq<byte>, o: nat, q: nat): byte
      requires Inside() && q < |was|
    {
      if start <= q < start + o && InBlock(q - start) then Pixel(q - start) else was[q]
    }

    ghost predicate Reached(was: seq<byte>, now: seq<byte>, o: nat)
      requires Inside()
    {
      |now| == |was| && forall q :: 0 <= q < |was| ==> now[q] == Expected(was, o, q)
    }

    /** Byte `k` of the word `y` is the predicted pixel at offset o + k. */
    ghost predicate Shows(y: nat, o: nat, k: nat)
      requires Inside() && k < 4
    {
      InBlock(o + k) && Little(y, k) == Pixel(o + k)
    }

    lemma NextWord(was: seq<byte>, now: seq<byte>, o: nat, y: nat)
      requires Inside() && Reached(was, now, o) && start + o + 4 <= |was|
      requires Shows(y, o, 0) && Shows(y, o, 1) && Shows(y, o, 2) && Shows(y, o, 3)
      ensures Reached(was, Written(now, start + o, y), o + 4)
    {
      var now' := Written(now, start + o, y);
      forall q | 0 <= q < |was| ensures now'[q] == Expected(was, o + 4, q) {
        assert now[q] == Expected(was, o, q);
        if start + o <= q < start + o + 4 {
          assert Shows(y, o, q - start - o);
          assert o + (q - start - o) == q - start;
        }
      }
    }

    lemma InRow(n: nat, x: nat)
      requires 0 < size <= width && n < size && x < size
      ensures InBlock(Rows(n, width) + x)
    {
      RowsGrow(n, size, width);
      ColumnInRow(n, width, x);
    }

    lemma NextRow(was: seq<byte>, now: seq<byte>, n: nat)
      requires Inside() && Reached(was, now, Rows(n, width) + size)
      ensures Reached(was, now, Rows(n + 1, width))
    {
      forall q | 0 <= q < |was| ensures now[q] == Expected(was, Rows(n + 1, width), q) {
        assert now[q] == Expected(was, Rows(n, width) + size, q);
        if start + Rows(n, width) + size <= q < start + Rows(n + 1, width) {
          ColumnInRow(n, width, q - start - Rows(n, width));
        }
      }
    }
  }

  /** A plane after a 32-bit write at byte `at`. */
  function Written(d: seq<byte>, at: nat, y: nat): (r: seq<byte>)
    requires at + 4 <= |d|
    ensures |r| == |d|
    ensures forall q :: 0 <= q < |d| ==> r[q] == if at <= q < at + 4 then Little(y, q - at) else d[q]
  {
    d[at := Little(y, 0)][at + 1 := Little(y, 1)][at + 2 := Little(y, 2)][at + 3 := Little(y, 3)]
  }

  /** The word `y` holds the predictions for the four pixels from `p` on. */
  ghost predicate Predicts(y: nat, s: seq<byte>, width: nat, p: nat, oddH: bool, oddV: bool)
    requires p + 3 + (if oddH then 1 else 0) + (if oddV then width else 0) < |s|
  {
    && Little(y, 0) == Average(s, width, p, oddH, oddV)
    && Little(y, 1) == Average(s, width, p + 1, oddH, oddV)
    && Little(y, 2) == Average(s, width, p + 2, oddH, oddV)
    && Little(y, 3) == Average(s, width, p + 3, oddH, oddV)
  }

  /** A position in the loops: row `n`, and `x` pixels into it. */
  lemma WordInside(c: Copy, n: nat, x: nat)
    requires c.Inside() && n < c.size && x + 4 <= c.size
    ensures c.src + Rows(n, c.width) + x + 3 + (if c.oddH then 1 else 0) + (if c.oddV then c.width else 0) < |c.source|
  {
    c.InRow(n, x + 3);
    c.PixelInside(Rows(n, c.width) + (x + 3));
  }

  lemma ShowsAt(c: Copy, n: nat, x: nat, y: nat, k: nat)
    requires c.Inside() && n < c.size && x + k < c.size && k < 4
    requires c.src + Rows(n, c.width) + x + k + (if c.oddH then 1 else 0) + (if c.oddV then c.width else 0) < |c.source|
    requires Little(y, k) == Average(c.source, c.width, c.src + Rows(n, c.width) + x + k, c.oddH, c.oddV)
    ensures c.Shows(y, Rows(n, c.width) + x, k)
  {
    c.InRow(n, x + k);
    assert Rows(n, c.width) + (x + k) == Rows(n, c.width) + x + k;
  }

  lemma ShowsWord(c: Copy, n: nat, x: nat, y: nat)
    requires c.Inside() && n < c.size && x + 4 <= c.size
    requires c.src + Rows(n, c.width) + x + 3 + (if c.oddH then 1 else 0) + (if c.oddV then c.width else 0) < |c.source|
    requires Predicts(y, c.source, c.width, c.src + Rows(n, c.width) + x, c.oddH, c.oddV)
    ensures c.Shows(y, Rows(n, c.width) + x, 0) && c.Shows(y, Rows(n, c.width) + x, 1)
    ensures c.Shows(y, Rows(n, c.width) + x, 2) && c.Shows(y, Rows(n, c.width) + x, 3)
  {
    ShowsAt(c, n, x, y, 0);
    ShowsAt(c, n, x, y, 1);
    ShowsAt(c, n, x, y, 2);
    ShowsAt(c, n, x, y, 3);
  }

  // ---- The loops

  method WriteWord(d: array<byte>, dest: nat, y: nat)
    requires 4 * dest + 4 <= d.Length
    modifies d
    ensures d[..] == Written(old(d[..]), 4 * dest, y)
  {
    d[4 * dest] := Little(y, 0);
    d[4 * dest + 1] := Little(y, 1);
    d[4 * dest + 2] := Little(y, 2);
    d[4 * dest + 3] := Little(y, 3);
  }

  /** One word of the loop for odd horizontal and vertical displacement; `y0` is the sum of the column before `src`. */
  method WordBothOdd(s: array<byte>, width: nat, src: nat, y0: nat) returns (y: nat, y1: nat)
    requires 1 <= src && src + 3 + width < s.Length && y0 == Two(s[..], src - 1, width)
    ensures Predicts(y, s[..], width, src - 1, true, true) && y1 == Two(s[..], src + 3, width)
  {
    y1 := y0;
    var y2 := s[src] as int + s[src + width] as int;
    var t0 := y1 + y2 + 2;
    y1 := s[src + 1] as int + s[src + 1 + width] as int;
    var t1 := y1 + y2 + 2;
    y2 := s[src + 2] as int + s[src + 2 + width] as int;
    var t2 := y1 + y2 + 2;
    y1 := s[src + 3] as int + s[src + 3 + width] as int;
    var t3 := y1 + y2 + 2;
    y := Pack4(t0, t1, t2, t3);
    Little4(t0, t1, t2, t3);
  }

  method WordOddH(s: array<byte>, ghost width: nat, src: nat, y0: nat) returns (y: nat, y1: nat)
    requires 1 <= src && src + 3 < s.Length && y0 == s[src - 1]
    ensures Predicts(y, s[..], width, src - 1, true, false) && y1 == s[src + 3]
  {
    y1 := y0;
    var y2: nat := s[src];
    var t0 := y1 + y2 + 1;
    y1 := s[src + 1];
    var t1 := y1 + y2 + 1;
    y2 := s[src + 2];
    var t2 := y1 + y2 + 1;
    y1 := s[src + 3];
    var t3 := y1 + y2 + 1;
    y := Pack2(t0, t1, t2, t3);
    Little2(t0, t1, t2, t3);
  }

  method WordOddV(s: array<byte>, width: nat, src: nat) returns (y: nat)
    requires src + 3 + width < s.Length
    ensures Predicts(y, s[..], width, src, false, true)
  {
    var t0 := s[src] as int + s[src + width] as int + 1;
    var t1 := s[src + 1] as int + s[src + 1 + width] as int + 1;
    var t2 := s[src + 2] as int + s[src + 2 + width] as int + 1;
    var t3 := s[src + 3] as int + s[src + 3 + width] as int + 1;
    y := Pack2(t0, t1, t2, t3);
    Little2(t0, t1, t2, t3);
  }

  method WordEven(s: array<byte>, ghost width: nat, src: nat) returns (y: nat)
    requires src + 3 < s.Length
    ensures Predicts(y, s[..], width, src, false, false)
  {
    y := Pack1(s[src], s[src + 1], s[src + 2], s[src + 3]);
    Little1(s[src], s[src + 1], s[src + 2], s[src + 3]);
  }

  /** The loop state at the start of word `x` of row `n`. */
  ghost predicate AtWord(c: Copy, was: seq<byte>, now: seq<byte>, n: nat, x: nat, dest: nat)
  {
    && c.Inside() && n < c.size && 4 * x <= c.size
    && c.start + Rows(n, c.width) + c.size <= |was|
    && 4 * dest == c.start + Rows(n, c.width) + 4 * x
    && c.Reached(was, now, Rows(n, c.width) + 4 * x)
  }

  lemma AfterWord(c: Copy, was: seq<byte>, now: seq<byte>, n: nat, x: nat, dest: nat, y: nat)
    requires AtWord(c, was, now, n, x, dest) && 4 * x + 4 <= c.size
    requires c.src + Rows(n, c.width) + 4 * x + 3 + (if c.oddH then 1 else 0)
               + (if c.oddV then c.width else 0) < |c.source|
    requires Predicts(y, c.source, c.width, c.src + Rows(n, c.width) + 4 * x, c.oddH, c.oddV)
    ensures 4 * dest + 4 <= |now| && AtWord(c, was, Written(now, 4 * dest, y), n, x + 1, dest + 1)
  {
    var o := Rows(n, c.width) + 4 * x;
    ShowsWord(c, n, 4 * x, y);
    c.NextWord(was, now, o, y);
  }

  method RowBothOdd(d: array<byte>, s: array<byte>, width: nat, words: nat, dest0: nat, src0: nat, ghost c: Copy,
                    ghost was: seq<byte>, ghost n: nat)
    returns (dest: nat, src: nat)
    requires s != d && c.source == s[..] && c.width == width && c.oddH && c.oddV && AtWord(c, was, d[..], n, 0, dest0)
    requires src0 == c.src + Rows(n, width) && 4 * words == c.size
    modifies d
    ensures dest == dest0 + words && src == src0 + 4 * words + 1 && AtWord(c, was, d[..], n, words, dest)
  {
    dest, src := dest0, src0;
    WordInside(c, n, 0);
    var y1 := s[src] as int + s[src + width] as int;
    src := src + 1;
    for x := 0 to words
      invariant dest == dest0 + x && src == src0 + 4 * x + 1 && AtWord(c, was, d[..], n, x, dest)
      invariant src - 1 + width < s.Length && y1 == Two(s[..], src - 1, width)
    {
      WordInside(c, n, 4 * x);
      var y;
      y, y1 := WordBothOdd(s, width, src, y1);
      AfterWord(c, was, d[..], n, x, dest, y);
      WriteWord(d, dest, y);
      dest, src := dest + 1, src + 4;
    }
  }

  method RowOddH(d: array<byte>, s: array<byte>, width: nat, words: nat, dest0: nat, src0: nat, ghost c: Copy,
                 ghost was: seq<byte>, ghost n: nat)
    returns (dest: nat, src: nat)
    requires s != d && c.source == s[..] && c.width == width && c.oddH && !c.oddV && AtWord(c, was, d[..], n, 0, dest0)
    requires src0 == c.src + Rows(n, width) && 4 * words == c.size
    modifies d
    ensures dest == dest0 + words && src == src0 + 4 * words + 1 && AtWord(c, was, d[..], n, words, dest)
  {
    dest, src := dest0, src0;
    WordInside(c, n, 0);
    var y1: nat := s[src];
    src := src + 1;
    for x := 0 to words
      invariant dest == dest0 + x && src == src0 + 4 * x + 1 && AtWord(c, was, d[..], n, x, dest)
      invariant src - 1 < s.Length && y1 == s[src - 1]
    {
      WordInside(c, n, 4 * x);
      var y;
      y, y1 := WordOddH(s, width, src, y1);
      AfterWord(c, was, d[..], n, x, dest, y);
      WriteWord(d, dest, y);
      dest, src := dest + 1, src + 4;
    }
  }

  method RowOddV(d: array<byte>, s: array<byte>, width: nat, words: nat, dest0: nat, src0: nat, ghost c: Copy,
                 ghost was: seq<byte>, ghost n: nat)
    returns (dest: nat, src: nat)
    requires s != d && c.source == s[..] && c.width == width && !c.oddH && c.oddV && AtWord(c, was, d[..], n, 0, dest0)
    requires src0 == c.src + Rows(n, width) && 4 * words == c.size
    modifies d
    ensures dest == dest0 + words && src == src0 + 4 * words && AtWord(c, was, d[..], n, words, dest)
  {
    dest, src := dest0, src0;
    for x := 0 to words
      invariant dest == dest0 + x && src == src0 + 4 * x && AtWord(c, was, d[..], n, x, dest)
    {
      WordInside(c, n, 4 * x);
      var y := WordOddV(s, width, src);
      AfterWord(c, was, d[..], n, x, dest, y);
      WriteWord(d, dest, y);
      dest, src := dest + 1, src + 4;
    }
  }

  method RowEven(d: array<byte>, s: array<byte>, width: nat, words: nat, dest0: nat, src0: nat, ghost c: Copy,
                 ghost was: seq<byte>, ghost n: nat)
    returns (dest: nat, src: nat)
    requires s != d && c.source == s[..] && c.width == width && !c.oddH && !c.oddV && AtWord(c, was, d[..], n, 0, dest0)
    requires src0 == c.src + Rows(n, width) && 4 * words == c.size
    modifies d
    ensures dest == dest0 + words && src == src0 + 4 * words && AtWord(c, was, d[..], n, words, dest)
  {
    dest, src := dest0, src0;
    for x := 0 to words
      invariant dest == dest0 + x && src == src0 + 4 * x && AtWord(c, was, d[..], n, x, dest)
    {
      WordInside(c, n, 4 * x);
      var y := WordEven(s, width, src);
      AfterWord(c, was, d[..], n, x, dest, y);
      WriteWord(d, dest, y);
      dest, src := dest + 1, src + 4;
    }
  }

  lemma RowStart(c: Copy, was: seq<byte>, now: seq<byte>, n: nat, dest: nat)
    requires c.Inside() && n < c.size && c.start + Rows(c.size - 1, c.width) + c.size <= |was|
    requires 4 * dest == c.start + Rows(n, c.width) && c.Reached(was, now, Rows(n, c.width))
    ensures AtWord(c, was, now, n, 0, dest)
  {
    RowsGrow(n, c.size - 1, c.width);
  }

  lemma RowEnd(c: Copy, was: seq<byte>, now: seq<byte>, n: nat, words: nat, dest: nat)
    requires AtWord(c, was, now, n, words, dest) && 4 * words == c.size && c.width % 4 == 0
    ensures c.Reached(was, now, Rows(n + 1, c.width))
    ensures 4 * (dest + (c.width - 4 * words) / 4) == c.start + Rows(n + 1, c.width)
  {
    c.NextRow(was, now, n);
  }

  /** The four loops of the source differ only in what they do with a row. */
  method CopyRow(d: array<byte>, s: array<byte>, width: nat, words: nat, dest0: nat, src0: nat, oddH: bool, oddV: bool,
                 ghost c: Copy, ghost was: seq<byte>, ghost n: nat)
    returns (dest: nat, src: nat)
    requires s != d && c.source == s[..] && c.width == width && c.oddH == oddH && c.oddV == oddV
             && AtWord(c, was, d[..], n, 0, dest0)
    requires src0 == c.src + Rows(n, width) && 4 * words == c.size && width % 4 == 0
    modifies d
    ensures c.Reached(was, d[..], Rows(n + 1, width))
    ensures 4 * dest == c.start + Rows(n + 1, width) && src == c.src + Rows(n + 1, width)
  {
    var scan := width - 4 * words;
    if oddH {
      if oddV {
        dest, src := RowBothOdd(d, s, width, words, dest0, src0, c, was, n);
      } else {
        dest, src := RowOddH(d, s, width, words, dest0, src0, c, was, n);
      }
      RowEnd(c, was, d[..], n, words, dest);
      dest, src := dest + scan / 4, src + (scan - 1);
    } else {
      if oddV {
        dest, src := RowOddV(d, s, width, words, dest0, src0, c, was, n);
      } else {
        dest, src := RowEven(d, s, width, words, dest0, src0, c, was, n);
      }
      RowEnd(c, was, d[..], n, words, dest);
      dest, src := dest + scan / 4, src + scan;
    }
  }

  method CopyPlane(d: array<byte>, s: array<byte>, width: nat, words: nat, dest0: nat, src0: nat, last: nat, oddH: bool,
                   oddV: bool, ghost c: Copy)
    requires s != d && c == Copy(s[..], width, 4 * words, 4 * dest0, src0, oddH, oddV) && c.Inside() && width % 4 == 0
    requires c.start + Rows(c.size - 1, width) + c.size <= d.Length && 4 * last == c.start + Rows(c.size, width)
    modifies d
    ensures c.Reached(old(d[..]), d[..], Rows(4 * words, width))
  {
    ghost var was, n := d[..], 0;
    var dest, src := dest0, src0;
    while dest < last
      invariant n <= c.size && 4 * dest == c.start + Rows(n, width) && src == c.src + Rows(n, width)
      invariant c.Reached(was, d[..], Rows(n, width))
      decreases c.size - n
    {
      RowsGrow(n, c.size, width);
      RowStart(c, was, d[..], n, dest);
      dest, src := CopyRow(d, s, width, words, dest, src, oddH, oddV, c, was, n);
      n := n + 1;
    }
    RowsGrow(n, c.size, width);
  }

  // ---- Planes in two dimensions

  function Addr(r: int, c: int, width: nat): int { r * width + c }

  lemma AddrDifference(r: int, c: int, r': int, c': int, width: nat)
    ensures Addr(r + r', c + c', width) == Addr(r, c, width) + Addr(r', c', width)
  {
    assert (r + r') * width == r * width + r' * width;
  }

  lemma AddrInPlane(r: int, c: int, width: nat, height: nat)
    requires 0 <= r < height && 0 <= c < width
    ensures 0 <= Addr(r, c, width) < height * width
  {
    assert r * width <= (height - 1) * width == height * width - width;
  }

  /** `m >> 1`: the whole pixels of a vector in half pixels. */
  function Whole(m: int): int { m / 2 }

  /** The block of `size` pixels at (r0, c0), displaced by (mh, mv) half pixels, with the neighbours that the averages
      need, lies inside the plane. */
  ghost predicate InPlane(width: nat, height: nat, size: nat, r0: nat, c0: nat, mh: int, mv: int)
  {
    && 0 <= 2 * r0 + mv && 2 * (r0 + size - 1) + mv <= 2 * (height - 1)
    && 0 <= 2 * c0 + mh && 2 * (c0 + size - 1) + mh <= 2 * (width - 1)
  }

  ghost predicate In(size: nat, r0: nat, c0: nat, r: nat, c: nat)
  {
    r0 <= r < r0 + size && c0 <= c < c0 + size
  }

  /** The plane at the point (y, x), counted in half pixels: the rounded mean of the pixels just before and just after
      the point in both directions, which are the same where the coordinate is even. */
  ghost function Interpolated(s: seq<byte>, width: nat, height: nat, y: nat, x: nat): int
    requires |s| == height * width && y <= 2 * (height - 1) && x <= 2 * (width - 1)
  {
    (Pixel(s, width, height, y / 2, x / 2) + Pixel(s, width, height, y / 2, (x + 1) / 2)
     + Pixel(s, width, height, (y + 1) / 2, x / 2) + Pixel(s, width, height, (y + 1) / 2, (x + 1) / 2) + 2) / 4
  }

  ghost function Pixel(s: seq<byte>, width: nat, height: nat, r: nat, c: nat): byte
    requires |s| == height * width && r < height && c < width
  {
    AddrInPlane(r, c, width, height);
    s[Addr(r, c, width)]
  }

  /** The rule for one plane: inside the block every pixel is the plane at the displaced point, and every other pixel is
      unchanged. */
  ghost predicate Compensated(was: seq<byte>, now: seq<byte>, s: seq<byte>, width: nat, height: nat, size: nat, r0: nat,
                              c0: nat, mh: int, mv: int)
    requires |was| == |now| == |s| == height * width && InPlane(width, height, size, r0, c0, mh, mv)
  {
    forall r, c {:trigger In(size, r0, c0, r, c)} :: 0 <= r < height && 0 <= c < width ==>
      Pixel(now, width, height, r, c) ==
        if In(size, r0, c0, r, c) then Interpolated(s, width, height, 2 * r + mv, 2 * c + mh)
        else Pixel(was, width, height, r, c)
  }

  lemma HalfPoints(r: int, m: int)
    ensures (2 * r + m) / 2 == r + Whole(m) && (2 * r + m + 1) / 2 == r + Whole(m) + m % 2
  {
  }

  lemma Mean(a: int, b: int)
    ensures (a + a + a + a + 2) / 4 == a
    ensures (a + b + a + b + 2) / 4 == (a + b + 1) / 2 == (a + a + b + b + 2) / 4
  {
  }

  /** The average that the loops compute is the plane at the displaced point. */
  lemma AverageInterpolates(s: seq<byte>, width: nat, height: nat, r: nat, c: nat, mh: int, mv: int)
    requires |s| == height * width && 0 <= 2 * r + mv <= 2 * (height - 1) && 0 <= 2 * c + mh <= 2 * (width - 1)
    ensures 0 <= Addr(r + Whole(mv), c + Whole(mh), width)
    ensures Addr(r + Whole(mv), c + Whole(mh), width) + mh % 2 + (if mv % 2 == 1 then width else 0) < |s|
    ensures Average(s, width, Addr(r + Whole(mv), c + Whole(mh), width), mh % 2 == 1, mv % 2 == 1)
            == Interpolated(s, width, height, 2 * r + mv, 2 * c + mh)
  {
    SampleInPlane(width, height, 1, r, c, mh, mv, r, c);
    HalfPoints(r, mv);
    HalfPoints(c, mh);
    FourPixels(s, width, height, r + Whole(mv), c + Whole(mh), mv % 2, mh % 2);
  }

  lemma FourPixels(s: seq<byte>, width: nat, height: nat, y: nat, x: nat, dy: nat, dx: nat)
    requires |s| == height * width && dy < 2 && dx < 2 && y + dy < height && x + dx < width
    requires Addr(y, x, width) >= 0 && Addr(y, x, width) + dx + (if dy == 1 then width else 0) < |s|
    ensures Average(s, width, Addr(y, x, width), dx == 1, dy == 1)
            == (Pixel(s, width, height, y, x) + Pixel(s, width, height, y, x + dx)
                + Pixel(s, width, height, y + dy, x) + Pixel(s, width, height, y + dy, x + dx) + 2) / 4
  {
    AddrDifference(y, x, 0, dx, width);
    AddrDifference(y, x, dy, 0, width);
    AddrDifference(y, x, dy, dx, width);
    Mean(Pixel(s, width, height, y, x), Pixel(s, width, height, y + dy, x));
    Mean(Pixel(s, width, height, y, x), Pixel(s, width, height, y, x + dx));
  }

  lemma SampleInPlane(width: nat, height: nat, size: nat, r0: nat, c0: nat, mh: int, mv: int, r: nat, c: nat)
    requires InPlane(width, height, size, r0, c0, mh, mv) && In(size, r0, c0, r, c)
    ensures 0 <= Addr(r + Whole(mv), c + Whole(mh), width)
    ensures Addr(r + Whole(mv), c + Whole(mh), width) + mh % 2 + (if mv % 2 == 1 then width else 0) < height * width
  {
    AddrInPlane(r + Whole(mv), c + Whole(mh), width, height);
    AddrInPlane(r + Whole(mv) + mv % 2, c + Whole(mh) + mh % 2, width, height);
    AddrDifference(r + Whole(mv), c + Whole(mh), mv % 2, mh % 2, width);
  }

  lemma AddrRows(dr: nat, dc: int, width: nat)
    ensures Addr(dr, dc, width) == Rows(dr, width) + dc
  {
    RowsProduct(dr, width);
  }

  lemma AboveBlock(dr: int, dc: int, width: nat)
    requires dr < 0 && dc < width
    ensures Addr(dr, dc, width) < 0
  {
    assert dr * width <= -1 * width;
  }

  lemma RightOfStart(k: Copy, dr: nat, dc: nat)
    requires 0 < k.size <= k.width && dc < k.width
    ensures k.InBlock(Rows(dr, k.width) + dc) <==> dr < k.size && dc < k.size
  {
    ColumnInRow(dr, k.width, dc);
    if dr < k.size {
      RowsGrow(dr, k.size, k.width);
    } else {
      RowsGrow(k.size, dr, k.width);
    }
  }

  lemma LeftOfStart(k: Copy, dr: nat, dc: int)
    requires 0 < k.size <= k.width && k.size - k.width <= dc < 0 <= Rows(dr, k.width) + dc
    ensures !k.InBlock(Rows(dr, k.width) + dc)
  {
    ColumnInRow(dr - 1, k.width, k.width + dc);
    assert Rows(dr, k.width) + dc == Rows(dr - 1, k.width) + (k.width + dc);
  }

  /** Which offsets from the block's first pixel are in the block, in two dimensions. */
  lemma OffsetInBlock(k: Copy, dr: int, dc: int)
    requires 0 < k.size <= k.width && k.size - k.width <= dc < k.width
    ensures Addr(dr, dc, k.width) >= 0 && k.InBlock(Addr(dr, dc, k.width)) <==> 0 <= dr < k.size && 0 <= dc < k.size
  {
    if dr < 0 {
      AboveBlock(dr, dc, k.width);
    } else {
      AddrRows(dr, dc, k.width);
      if dc >= 0 {
        RightOfStart(k, dr, dc);
      } else if Rows(dr, k.width) + dc >= 0 {
        LeftOfStart(k, dr, dc);
      }
    }
  }

  /** The linear copy is the rule in two dimensions. */
  lemma CopyCompensates(k: Copy, was: seq<byte>, now: seq<byte>, height: nat, r0: nat, c0: nat, mh: int, mv: int)
    requires k.Inside() && k.Reached(was, now, Rows(k.size, k.width))
    requires |was| == |k.source| == height * k.width && InPlane(k.width, height, k.size, r0, c0, mh, mv)
    requires c0 + k.size <= k.width && k.oddH == (mh % 2 == 1) && k.oddV == (mv % 2 == 1)
    requires k.start == Addr(r0, c0, k.width)
    requires k.src == Addr(r0 + Whole(mv), c0 + Whole(mh), k.width)
    ensures Compensated(was, now, k.source, k.width, height, k.size, r0, c0, mh, mv)
  {
    forall r, c | 0 <= r < height && 0 <= c < k.width
      ensures Pixel(now, k.width, height, r, c) ==
              if In(k.size, r0, c0, r, c) then Interpolated(k.source, k.width, height, 2 * r + mv, 2 * c + mh)
              else Pixel(was, k.width, height, r, c)
    {
      CopyCompensatesAt(k, was, now, height, r0, c0, mh, mv, r, c);
      if In(k.size, r0, c0, r, c) { AverageInterpolates(k.source, k.width, height, r, c, mh, mv); }
    }
  }

  lemma CopyCompensatesAt(k: Copy, was: seq<byte>, now: seq<byte>, height: nat, r0: nat, c0: nat, mh: int, mv: int,
                          r: nat, c: nat)
    requires k.Inside() && k.Reached(was, now, Rows(k.size, k.width)) && r < height && c < k.width
    requires |was| == |k.source| == height * k.width && InPlane(k.width, height, k.size, r0, c0, mh, mv)
    requires c0 + k.size <= k.width && k.oddH == (mh % 2 == 1) && k.oddV == (mv % 2 == 1)
    requires k.start == Addr(r0, c0, k.width)
    requires k.src == Addr(r0 + Whole(mv), c0 + Whole(mh), k.width)
    ensures 0 <= Addr(r, c, k.width) < |was|
    ensures In(k.size, r0, c0, r, c) ==>
              (SampleInPlane(k.width, height, k.size, r0, c0, mh, mv, r, c);
               now[Addr(r, c, k.width)] == Average(k.source, k.width, Addr(r + Whole(mv), c + Whole(mh), k.width),
                                                   k.oddH, k.oddV))
    ensures !In(k.size, r0, c0, r, c) ==> now[Addr(r, c, k.width)] == was[Addr(r, c, k.width)]
  {
    AddrInPlane(r, c, k.width, height);
    var q := Addr(r, c, k.width);
    assert now[q] == k.Expected(was, Rows(k.size, k.width), q);
    Displaced(r0, c0, r, c, Whole(mv), Whole(mh), k.width);
    OffsetInBlock(k, r - r0, c - c0);
  }

  lemma Displaced(r0: int, c0: int, r: int, c: int, v: int, h: int, width: nat)
    ensures Addr(r, c, width) == Addr(r0, c0, width) + Addr(r - r0, c - c0, width)
    ensures Addr(r + v, c + h, width) == Addr(r0 + v, c0 + h, width) + Addr(r - r0, c - c0, width)
  {
    AddrDifference(r0, c0, r - r0, c - c0, width);
    AddrDifference(r0 + v, c0 + h, r - r0, c - c0, width);
  }

  // ---- A macroblock

  /** h is half of m, rounded towards zero. */
  ghost predicate IsHalf(m: int, h: int)
  {
    2 * Abs(h) <= Abs(m) < 2 * Abs(h) + 2 && (h == 0 || (h > 0 <==> m > 0))
  }

  ghost function Abs(x: int): nat { if x < 0 then -x else x }

  /** `m/2` as a 32-bit integer. */
  function Half(m: int): (h: int)
    ensures IsHalf(m, h)
  {
    if m >= 0 then m / 2 else -(-m / 2)
  }

  /** The sizes of the planes that `initBuffers` sets up, and a macroblock inside them. */
  ghost predicate InFrame(width: nat, height: nat, halfWidth: nat, halfHeight: nat, mbRow: nat, mbCol: nat)
  {
    && width == 2 * halfWidth && height == 2 * halfHeight && halfWidth % 8 == 0
    && 8 * mbRow + 8 <= halfHeight && 8 * mbCol + 8 <= halfWidth
  }

  /** A luminance block inside its plane has its chrominance blocks inside theirs. */
  lemma ChromaInPlane(width: nat, height: nat, halfWidth: nat, halfHeight: nat, row: nat, col: nat, mh: int, mv: int,
                      h: int, v: int)
    requires InFrame(width, height, halfWidth, halfHeight, row, col)
    requires InPlane(width, height, 16, 16 * row, 16 * col, mh, mv) && IsHalf(mh, h) && IsHalf(mv, v)
    ensures InPlane(halfWidth, halfHeight, 8, 8 * row, 8 * col, h, v)
    ensures 16 * row + 16 <= height && 16 * col + 16 <= width && width % 4 == 0
    ensures 8 * row + 8 <= halfHeight && 8 * col + 8 <= halfWidth && halfWidth % 4 == 0
  {
    HalfInside(halfHeight, row, mv, v);
    HalfInside(halfWidth, col, mh, h);
    Fours(halfWidth);
  }

  lemma HalfInside(half: nat, r: nat, m: int, h: int)
    requires IsHalf(m, h) && 0 <= 32 * r + m && 32 * r + 32 + m <= 4 * half
    ensures 0 <= 16 * r + h && 16 * r + 16 + h <= 2 * half
  {
    assert m >= 0 ==> 2 * h <= m;
    assert m < 0 ==> m <= 2 * h <= m + 1;
  }

  lemma Fours(half: nat)
    requires half % 8 == 0
    ensures half % 4 == 0 && 2 * half % 4 == 0
  {
    assert half == 8 * (half / 8);
  }

  lemma LastSample(width: nat, height: nat, size: nat, r0: nat, c0: nat, mh: int, mv: int)
    requires InPlane(width, height, size, r0, c0, mh, mv) && size > 0
    ensures 0 <= Addr(r0 + Whole(mv), c0 + Whole(mh), width)
    ensures Addr(r0 + Whole(mv), c0 + Whole(mh), width) + Rows(size - 1, width) + size - 1
            + mh % 2 + (if mv % 2 == 1 then width else 0) < height * width
  {
    SampleInPlane(width, height, size, r0, c0, mh, mv, r0, c0);
    SampleInPlane(width, height, size, r0, c0, mh, mv, r0 + (size - 1), c0 + (size - 1));
    RowsProduct(size - 1, width);
    AddrDifference(r0 + Whole(mv), c0 + Whole(mh), size - 1, size - 1, width);
  }

  lemma LastWrite(width: nat, height: nat, size: nat, r0: nat, c0: nat)
    requires r0 + size <= height && c0 + size <= width && size > 0
    ensures Addr(r0, c0, width) + Rows(size - 1, width) + size <= height * width
  {
    RowsProduct(size - 1, width);
    AddrInPlane(r0 + (size - 1), c0 + (size - 1), width, height);
    AddrDifference(r0, c0, size - 1, size - 1, width);
  }

  /** One plane's part of `copyMacroblock`, after the addresses are computed. */
  method CopyBlock(d: array<byte>, s: array<byte>, width: nat, ghost height: nat, words: nat, dest: nat, src: nat,
                   last: nat, mh: int, mv: int, ghost r0: nat, ghost c0: nat)
    requires d != s && d.Length == s.Length == height * width && words > 0 && width % 4 == 0
    requires InPlane(width, height, 4 * words, r0, c0, mh, mv) && r0 + 4 * words <= height && c0 + 4 * words <= width
    requires 4 * dest == Addr(r0, c0, width) && src == Addr(r0 + Whole(mv), c0 + Whole(mh), width)
             && 4 * last == 4 * dest + Rows(4 * words, width)
    modifies d
    ensures Compensated(old(d[..]), d[..], s[..], width, height, 4 * words, r0, c0, mh, mv)
  {
    LastSample(width, height, 4 * words, r0, c0, mh, mv);
    LastWrite(width, height, 4 * words, r0, c0);
    ghost var k := Copy(s[..], width, 4 * words, 4 * dest, src, mh % 2 == 1, mv % 2 == 1);
    CopyPlane(d, s, width, words, dest, src, last, mh % 2 == 1, mv % 2 == 1, k);
    CopyCompensates(k, old(d[..]), d[..], height, r0, c0, mh, mv);
  }

  method CopyMacroblock(dY: array<byte>, dCr: array<byte>, dCb: array<byte>, sY: array<byte>, sCr: array<byte>,
                        sCb: array<byte>, codedWidth: nat, ghost codedHeight: nat, halfWidth: nat,
                        ghost halfHeight: nat, mbRow: nat, mbCol: nat, motionH: int, motionV: int)
    returns (ghost h: int, ghost v: int)
    requires InFrame(codedWidth, codedHeight, halfWidth, halfHeight, mbRow, mbCol)
    requires dY != dCr && dY != dCb && dCr != dCb && sY !in {dY, dCr, dCb} && sCr !in {dY, dCr, dCb}
             && sCb !in {dY, dCr, dCb}
    requires dY.Length == sY.Length == codedHeight * codedWidth
    requires dCr.Length == sCr.Length == dCb.Length == sCb.Length == halfHeight * halfWidth
    requires InPlane(codedWidth, codedHeight, 16, 16 * mbRow, 16 * mbCol, motionH, motionV)
    modifies dY, dCr, dCb
    ensures IsHalf(motionH, h) && IsHalf(motionV, v)
    ensures InPlane(halfWidth, halfHeight, 8, 8 * mbRow, 8 * mbCol, h, v)
    ensures Compensated(old(dY[..]), dY[..], sY[..], codedWidth, codedHeight, 16, 16 * mbRow, 16 * mbCol, motionH,
                        motionV)
    ensures Compensated(old(dCr[..]), dCr[..], sCr[..], halfWidth, halfHeight, 8, 8 * mbRow, 8 * mbCol, h, v)
    ensures Compensated(old(dCb[..]), dCb[..], sCb[..], halfWidth, halfHeight, 8, 8 * mbRow, 8 * mbCol, h, v)
  {
    h, v := Half(motionH), Half(motionV);
    ChromaInPlane(codedWidth, codedHeight, halfWidth, halfHeight, mbRow, mbCol, motionH, motionV, h, v);
    CopyLuminance(dY, sY, codedWidth, codedHeight, mbRow, mbCol, motionH, motionV);
    CopyChrominances(dCr, dCb, sCr, sCb, halfWidth, halfHeight, mbRow, mbCol, Half(motionH), Half(motionV));
  }

  method CopyChrominances(dCr: array<byte>, dCb: array<byte>, sCr: array<byte>, sCb: array<byte>, width: nat,
                          ghost height: nat, mbRow: nat, mbCol: nat, mh: int, mv: int)
    requires 8 * mbRow + 8 <= height && 8 * mbCol + 8 <= width && width % 4 == 0
    requires dCr != dCb && sCr !in {dCr, dCb} && sCb !in {dCr, dCb}
    requires dCr.Length == sCr.Length == dCb.Length == sCb.Length == height * width
    requires InPlane(width, height, 8, 8 * mbRow, 8 * mbCol, mh, mv)
    modifies dCr, dCb
    ensures Compensated(old(dCr[..]), dCr[..], sCr[..], width, height, 8, 8 * mbRow, 8 * mbCol, mh, mv)
    ensures Compensated(old(dCb[..]), dCb[..], sCb[..], width, height, 8, 8 * mbRow, 8 * mbCol, mh, mv)
  {
    CopyChrominance(dCr, sCr, width, height, mbRow, mbCol, mh, mv);
    CopyChrominance(dCb, sCb, width, height, mbRow, mbCol, mh, mv);
  }

  method CopyLuminance(d: array<byte>, s: array<byte>, width: nat, ghost height: nat, mbRow: nat, mbCol: nat, mh: int,
                     mv: int)
    requires 16 * mbRow + 16 <= height && 16 * mbCol + 16 <= width && width % 4 == 0
    requires d != s && d.Length == s.Length == height * width
    requires InPlane(width, height, 16, 16 * mbRow, 16 * mbCol, mh, mv)
    modifies d
    ensures Compensated(old(d[..]), d[..], s[..], width, height, 16, 16 * mbRow, 16 * mbCol, mh, mv)
  {
    Corners(width, height, 16, mbRow, mbCol, 16 * mbRow, 16 * mbCol, mh, mv);
    RowsProduct(16, width);
    var src := (16 * mbRow + Whole(mv)) * width + 16 * mbCol + Whole(mh);
    var dest := (mbRow * width + mbCol) * 4;
    CopyBlock(d, s, width, height, 4, dest, src, dest + width * 4, mh, mv, 16 * mbRow, 16 * mbCol);
  }

  method CopyChrominance(d: array<byte>, s: array<byte>, width: nat, ghost height: nat, mbRow: nat, mbCol: nat, mh: int,
                       mv: int)
    requires 8 * mbRow + 8 <= height && 8 * mbCol + 8 <= width && width % 4 == 0
    requires d != s && d.Length == s.Length == height * width
    requires InPlane(width, height, 8, 8 * mbRow, 8 * mbCol, mh, mv)
    modifies d
    ensures Compensated(old(d[..]), d[..], s[..], width, height, 8, 8 * mbRow, 8 * mbCol, mh, mv)
  {
    Corners(width, height, 8, mbRow, mbCol, 8 * mbRow, 8 * mbCol, mh, mv);
    RowsProduct(8, width);
    var src := (8 * mbRow + Whole(mv)) * width + 8 * mbCol + Whole(mh);
    var dest := (mbRow * width + mbCol) * 2;
    CopyBlock(d, s, width, height, 2, dest, src, dest + width * 2, mh, mv, 8 * mbRow, 8 * mbCol);
  }

  /** Where a macroblock's block begins, in the destination and in the source. */
  lemma Corners(width: nat, height: nat, size: nat, row: nat, col: nat, r0: nat, c0: nat, mh: int, mv: int)
    requires (size == 16 || size == 8) && r0 == size * row && c0 == size * col
             && InPlane(width, height, size, r0, c0, mh, mv)
    ensures 0 <= (row * width + col) * (size / 4) && 4 * ((row * width + col) * (size / 4)) == Addr(r0, c0, width)
    ensures 0 <= (r0 + Whole(mv)) * width + c0 + Whole(mh) == Addr(r0 + Whole(mv), c0 + Whole(mh), width)
  {
    Scaled(row, width, size);
    LastSample(width, height, size, r0, c0, mh, mv);
  }

  lemma Scaled(row: nat, width: nat, size: nat)
    ensures size * (row * width) == size * row * width
  {
  }
}
