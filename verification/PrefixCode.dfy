/** The table-driven prefix codes of the video decoder. */
module PrefixCode {
  import opened Common
  import opened BitReader

  type bit = x: int | 0 <= x <= 1

  // ---- Tables: three numbers per row

  /** An entry that leads on: to no code (-1), or to a later row. */
  predicate Leads(t: seq<int>, r: nat, e: int) { e == -1 || (3 * r < e < |t| && e % 3 == 0) }

  predicate RowShape(t: seq<int>, r: nat)
    requires 3 * r + 2 < |t|
  {
    if t[3 * r] == 0 then t[3 * r + 1] == 0 else Leads(t, r, t[3 * r]) && Leads(t, r, t[3 * r + 1])
  }

  /** Leaf rows start 0, 0; inner rows lead to strictly later rows; the first row is an inner one. */
  ghost predicate Shape(t: seq<int>)
  {
    && |t| >= 3 && |t| % 3 == 0 && t[0] != 0
    && forall r: nat :: 3 * r < |t| ==> RowShape(t, r)
  }

  predicate IsLeaf(t: seq<int>, r: nat)
    requires 3 * r < |t|
  {
    t[3 * r] == 0
  }

  /** The row that bit `b` leads to from an inner row. */
  ghost function Next(t: seq<int>, r: nat, b: bit): (e: Option<nat>)
    requires Shape(t) && 3 * r < |t| && !IsLeaf(t, r)
    ensures e.None? ==> t[3 * r + b] == -1
    ensures e.Some? ==> r < e.value && 3 * e.value < |t| && t[3 * r + b] == 3 * e.value
  {
    assert RowShape(t, r);
    var e := t[3 * r + b];
    if e < 0 then None else Some(e / 3)
  }

  /** The row reached from row `r` by the bits `w`. */
  ghost function Walk(t: seq<int>, r: nat, w: seq<bit>): (e: Option<nat>)
    requires Shape(t) && 3 * r < |t|
    ensures e.Some? ==> 3 * e.value < |t|
    decreases |w|
  {
    if w == [] then Some(r)
    else if IsLeaf(t, r) || Next(t, r, w[0]).None? then None
    else Walk(t, Next(t, r, w[0]).value, w[1..])
  }

  ghost predicate WordFrom(t: seq<int>, r: nat, w: seq<bit>)
    requires Shape(t) && 3 * r < |t|
  {
    w != [] && Walk(t, r, w).Some? && IsLeaf(t, Walk(t, r, w).value)
  }

  ghost predicate CodeWord(t: seq<int>, w: seq<bit>)
    requires Shape(t)
  {
    WordFrom(t, 0, w)
  }

  ghost function Symbol(t: seq<int>, w: seq<bit>): int
    requires Shape(t) && CodeWord(t, w)
  {
    t[3 * Walk(t, 0, w).value + 2]
  }

  /** A code word is one bit to a leaf, or one bit to an inner row and a word from there. */
  lemma WordUnfold(t: seq<int>, r: nat, w: seq<bit>)
    requires Shape(t) && 3 * r < |t| && !IsLeaf(t, r) && w != []
    ensures WordFrom(t, r, w) <==>
            Next(t, r, w[0]).Some? && var r' := Next(t, r, w[0]).value;
                if IsLeaf(t, r') then |w| == 1 else WordFrom(t, r', w[1..])
    ensures WordFrom(t, r, w) ==> Walk(t, r, w) == Walk(t, Next(t, r, w[0]).value, w[1..])
  {
    if Next(t, r, w[0]).Some? {
      var r' := Next(t, r, w[0]).value;
      assert Walk(t, r, w) == Walk(t, r', w[1..]);
      assert IsLeaf(t, r') && |w| > 1 ==> Walk(t, r', w[1..]) == None;
    }
  }

  /** No code word is a proper prefix of another. */
  lemma {:induction false} PrefixFree(t: seq<int>, r: nat, w: seq<bit>, w': seq<bit>)
    requires Shape(t) && 3 * r < |t| && WordFrom(t, r, w) && WordFrom(t, r, w') && w <= w'
    ensures w == w'
    decreases |w|
  {
    WordUnfold(t, r, w);
    WordUnfold(t, r, w');
    var r' := Next(t, r, w[0]).value;
    if !IsLeaf(t, r') {
      PrefixFree(t, r', w[1..], w'[1..]);
      assert w == [w[0]] + w[1..] && w' == [w'[0]] + w'[1..];
    }
  }

  // ---- Reading

  /** The stream holds the bits `w` at position `i`. */
  ghost predicate Holds(s: seq<byte>, i: nat, w: seq<bit>)
  {
    forall k :: 0 <= k < |w| ==> w[k] == BitAt(s, i + k)
  }

  lemma HoldsUnfold(s: seq<byte>, i: nat, w: seq<bit>)
    requires w != []
    ensures Holds(s, i, w) <==> w[0] == BitAt(s, i) && Holds(s, i + 1, w[1..])
  {
    if w[0] == BitAt(s, i) && Holds(s, i + 1, w[1..]) {
      forall k | 0 <= k < |w| ensures w[k] == BitAt(s, i + k) {
        if k > 0 { assert w[1..][k - 1] == BitAt(s, i + 1 + (k - 1)); }
      }
    }
    if Holds(s, i, w) {
      assert w[0] == BitAt(s, i + 0);
      forall k | 0 <= k < |w| - 1 ensures w[1..][k] == BitAt(s, i + 1 + k) {
        assert w[k + 1] == BitAt(s, i + (k + 1));
      }
    }
  }

  /** The row that the reader stops at, starting from row `r`, and the position after it. */
  ghost function Scan(s: seq<byte>, i: nat, t: seq<int>, r: nat): (Option<nat>, nat)
    requires Shape(t) && 3 * r < |t| && !IsLeaf(t, r)
    decreases |t| - 3 * r
  {
    var e := Next(t, r, BitAt(s, i));
    if e.None? || IsLeaf(t, e.value) then (e, i + 1) else Scan(s, i + 1, t, e.value)
  }

  lemma {:induction false} ScanFindsWord(s: seq<byte>, i: nat, t: seq<int>, r: nat, w: seq<bit>)
    requires Shape(t) && 3 * r < |t| && !IsLeaf(t, r) && WordFrom(t, r, w) && Holds(s, i, w)
    ensures Scan(s, i, t, r) == (Walk(t, r, w), i + |w|)
    decreases |w|
  {
    WordUnfold(t, r, w);
    HoldsUnfold(s, i, w);
    var r' := Next(t, r, w[0]).value;
    if !IsLeaf(t, r') {
      ScanFindsWord(s, i + 1, t, r', w[1..]);
    }
  }

  lemma {:induction false} ScanReadsWord(s: seq<byte>, i: nat, t: seq<int>, r: nat) returns (w: seq<bit>)
    requires Shape(t) && 3 * r < |t| && !IsLeaf(t, r) && Scan(s, i, t, r).0.Some?
    ensures WordFrom(t, r, w) && Holds(s, i, w)
    decreases |t| - 3 * r
  {
    var b: bit := BitAt(s, i);
    var r' := Next(t, r, b).value;
    var later := [];
    if !IsLeaf(t, r') {
      later := ScanReadsWord(s, i + 1, t, r');
    }
    w := [b] + later;
    assert w[1..] == later;
    WordUnfold(t, r, w);
    HoldsUnfold(s, i, w);
  }

  /** What a read from row 0 means in terms of code words. */
  lemma ScanMeaning(s: seq<byte>, i: nat, t: seq<int>)
    requires Shape(t)
    ensures forall w :: CodeWord(t, w) && Holds(s, i, w) ==> Scan(s, i, t, 0) == (Walk(t, 0, w), i + |w|)
    ensures Scan(s, i, t, 0).0.Some? ==> exists w :: CodeWord(t, w) && Holds(s, i, w)
  {
    forall w | CodeWord(t, w) && Holds(s, i, w) ensures Scan(s, i, t, 0) == (Walk(t, 0, w), i + |w|) {
      ScanFindsWord(s, i, t, 0, w);
    }
    if Scan(s, i, t, 0).0.Some? {
      var w := ScanReadsWord(s, i, t, 0);
    }
  }

  /** What `readCode` returns when it stops at a row, or at -1. */
  ghost function Answer(t: seq<int>, e: Option<nat>): int
    requires Shape(t) && (e.Some? ==> 3 * e.value < |t|)
  {
    if e.Some? then t[3 * e.value + 2] else t[1]
  }

  lemma {:induction false} ScanInTable(s: seq<byte>, i: nat, t: seq<int>, r: nat)
    requires Shape(t) && 3 * r < |t| && !IsLeaf(t, r)
    ensures Scan(s, i, t, r).0.Some? ==> 3 * Scan(s, i, t, r).0.value < |t|
    decreases |t| - 3 * r
  {
    var e := Next(t, r, BitAt(s, i));
    if e.Some? && !IsLeaf(t, e.value) { ScanInTable(s, i + 1, t, e.value); }
  }

  /** The value at a position and the position after it. */
  ghost function Decoded(s: seq<byte>, i: nat, t: seq<int>): (int, nat)
    requires Shape(t)
  {
    ScanInTable(s, i, t, 0);
    (Answer(t, Scan(s, i, t, 0).0), Scan(s, i, t, 0).1)
  }

  /** `readCode`. It consumes the one code word at the reader's position; if there is none it returns the table's
      second entry. */
  method ReadCode(buffer: Reader, t: seq<int>) returns (value: int)
    requires Shape(t)
    modifies buffer`index
    ensures forall w :: CodeWord(t, w) && Holds(buffer.bytes[..], old(buffer.index), w) ==>
                        value == Symbol(t, w) && buffer.index == old(buffer.index) + |w|
    ensures (exists w :: CodeWord(t, w) && Holds(buffer.bytes[..], old(buffer.index), w)) || value == t[1]
    ensures (value, buffer.index) == Decoded(buffer.bytes[..], old(buffer.index), t)
  {
    ScanMeaning(buffer.bytes[..], buffer.index, t);
    ScanInTable(buffer.bytes[..], buffer.index, t, 0);
    value := FollowRows(buffer, t);
  }

  method FollowRows(buffer: Reader, t: seq<int>) returns (value: int)
    requires Shape(t)
    modifies buffer`index
    ensures var e := Scan(buffer.bytes[..], old(buffer.index), t, 0);
            buffer.index == e.1 && (e.0.Some? ==> 3 * e.0.value < |t|) && value == Answer(t, e.0)
  {
    ghost var s, r := buffer.bytes[..], 0;
    ghost var target := Scan(s, buffer.index, t, 0);
    var state := 0;
    while true
      invariant state == 3 * r && state < |t| && !IsLeaf(t, r) && Scan(s, buffer.index, t, r) == target
      decreases |t| - state
    {
      BitsOfOne(s, buffer.index);
      var b := buffer.GetBits(1);
      ghost var e := Next(t, r, b);
      state := t[state + b];
      if !(state >= 0 && t[state] != 0) {
        break;
      }
      r := e.value;
    }
    value := t[state + 2];
  }

  lemma BitsOfOne(s: seq<byte>, i: nat)
    ensures Bits(s, i, 1) == BitAt(s, i)
  {
    assert Bits(s, i, 0) == 0;
  }

  // ---- Sequences of code words

  function Concat(words: seq<seq<bit>>): seq<bit>
  {
    if words == [] then [] else words[0] + Concat(words[1..])
  }

  ghost predicate AllWords(t: seq<int>, words: seq<seq<bit>>)
    requires Shape(t)
  {
    forall k :: 0 <= k < |words| ==> CodeWord(t, words[k])
  }

  ghost function Symbols(t: seq<int>, words: seq<seq<bit>>): seq<int>
    requires Shape(t) && AllWords(t, words)
  {
    if words == [] then [] else [Symbol(t, words[0])] + Symbols(t, words[1..])
  }

  lemma HoldsSplit(s: seq<byte>, i: nat, a: seq<bit>, b: seq<bit>)
    requires Holds(s, i, a + b)
    ensures Holds(s, i, a) && Holds(s, i + |a|, b)
  {
    forall k | 0 <= k < |a| ensures a[k] == BitAt(s, i + k) {
      assert (a + b)[k] == a[k];
    }
    forall k | 0 <= k < |b| ensures b[k] == BitAt(s, i + |a| + k) {
      assert (a + b)[|a| + k] == b[k];
    }
  }

  lemma FirstBits(words: seq<seq<bit>>, s: seq<byte>, i: nat)
    requires words != [] && Holds(s, i, Concat(words))
    ensures Holds(s, i, words[0]) && Holds(s, i + |words[0]|, Concat(words[1..]))
  {
    HoldsSplit(s, i, words[0], Concat(words[1..]));
  }

  lemma FirstWord(t: seq<int>, words: seq<seq<bit>>)
    requires Shape(t) && words != [] && AllWords(t, words)
    ensures CodeWord(t, words[0]) && AllWords(t, words[1..])
  {
    forall k | 0 <= k < |words[1..]| ensures CodeWord(t, words[1..][k]) {
      assert words[1..][k] == words[k + 1];
    }
  }

  method ReadWord(buffer: Reader, t: seq<int>, ghost word: seq<bit>) returns (value: int)
    requires Shape(t) && CodeWord(t, word) && Holds(buffer.bytes[..], buffer.index, word)
    modifies buffer`index
    ensures value == Symbol(t, word) && buffer.index == old(buffer.index) + |word|
  {
    value := ReadCode(buffer, t);
  }

  /** One call, with the remaining words before and after it. */
  method ReadNext(buffer: Reader, t: seq<int>, ghost words: seq<seq<bit>>) returns (value: int)
    requires Shape(t) && words != [] && AllWords(t, words) && Holds(buffer.bytes[..], buffer.index, Concat(words))
    modifies buffer`index
    ensures value == Symbol(t, words[0]) && buffer.index == old(buffer.index) + |words[0]|
    ensures AllWords(t, words[1..]) && Holds(buffer.bytes[..], buffer.index, Concat(words[1..]))
  {
    FirstBits(words, buffer.bytes[..], buffer.index);
    FirstWord(t, words);
    value := ReadWord(buffer, t, words[0]);
  }

  lemma SymbolsNext(t: seq<int>, values: seq<int>, words: seq<seq<bit>>)
    requires Shape(t) && AllWords(t, words) && words != []
    ensures AllWords(t, words[1..])
    ensures values + Symbols(t, words) == values + [Symbol(t, words[0])] + Symbols(t, words[1..])
    ensures |Concat(words)| == |words[0]| + |Concat(words[1..])|
  {
  }

  /** Repeated calls over the concatenated code words of any symbol sequence return that sequence. */
  method ReadCodes(buffer: Reader, t: seq<int>, n: nat, ghost words: seq<seq<bit>>) returns (values: seq<int>)
    requires Shape(t) && AllWords(t, words) && n == |words| && Holds(buffer.bytes[..], buffer.index, Concat(words))
    modifies buffer`index
    ensures values == Symbols(t, words) && buffer.index == old(buffer.index) + |Concat(words)|
  {
    values := [];
    ghost var rest := words;
    var k := 0;
    while k < n
      invariant k <= n && |rest| == n - k && AllWords(t, rest) && Holds(buffer.bytes[..], buffer.index, Concat(rest))
      invariant values + Symbols(t, rest) == Symbols(t, words)
      invariant buffer.index + |Concat(rest)| == old(buffer.index) + |Concat(words)|
    {
      SymbolsNext(t, values, rest);
      var value := ReadNext(buffer, t, rest);
      values, rest, k := values + [value], rest[1..], k + 1;
    }
  }

  // ---- Every symbol has a code word

  ghost predicate HasParent(t: seq<int>, parent: nat, r: nat)
    requires Shape(t)
  {
    parent < r && 3 * r < |t| && !IsLeaf(t, parent) && exists b: bit :: Next(t, parent, b) == Some(r)
  }

  lemma {:induction false} WalkOn(t: seq<int>, r: nat, w: seq<bit>, b: bit)
    requires Shape(t) && 3 * r < |t| && Walk(t, r, w).Some? && !IsLeaf(t, Walk(t, r, w).value)
    ensures Walk(t, r, w + [b]) == Next(t, Walk(t, r, w).value, b)
    decreases |w|
  {
    if w == [] {
      var e := Next(t, r, b);
      assert e.Some? ==> Walk(t, e.value, []) == e;
      assert (w + [b])[1..] == [];
    } else {
      WalkOn(t, Next(t, r, w[0]).value, w[1..], b);
      assert (w + [b])[1..] == w[1..] + [b];
    }
  }

  lemma {:induction false} PathTo(t: seq<int>, parent: nat -> nat, r: nat) returns (w: seq<bit>)
    requires Shape(t) && 3 * r < |t|
    requires forall q: nat :: 0 < q && 3 * q < |t| ==> HasParent(t, parent(q), q)
    ensures Walk(t, 0, w) == Some(r) && (r > 0 ==> w != [])
    decreases r
  {
    if r == 0 {
      w := [];
    } else {
      assert HasParent(t, parent(r), r);
      w := PathTo(t, parent, parent(r));
      var b: bit :| Next(t, parent(r), b) == Some(r);
      WalkOn(t, 0, w, b);
      w := w + [b];
    }
  }

  /** If every row but the first has a parent, every leaf's symbol has a code word. */
  lemma EverySymbolHasWord(t: seq<int>, parent: nat -> nat, r: nat) returns (w: seq<bit>)
    requires Shape(t) && 3 * r < |t| && IsLeaf(t, r)
    requires forall q: nat :: 0 < q && 3 * q < |t| ==> HasParent(t, parent(q), q)
    ensures CodeWord(t, w) && Symbol(t, w) == t[3 * r + 2]
  {
    w := PathTo(t, parent, r);
  }

  // ---- Tables written as rows

  /** Row numbers stand for three times themselves, and -1 for itself. */
  datatype Row = Inner(zero: int, one: int) | Leaf(value: int)

  function Pointer(e: int): int { if e == -1 then -1 else 3 * e }

  function Cell(row: Row, k: nat): int
  {
    match row
    case Inner(zero, one) => if k == 0 then Pointer(zero) else if k == 1 then Pointer(one) else 0
    case Leaf(value) => if k < 2 then 0 else value
  }

  /** The flat table with `n` rows. */
  function Table(n: nat, row: nat -> Row): (t: seq<int>)
    ensures |t| == 3 * n
  {
    seq(3 * n, i requires 0 <= i < 3 * n => Cell(row(i / 3), i % 3))
  }

  lemma TableRow(n: nat, row: nat -> Row, r: nat)
    requires r < n
    ensures var t := Table(n, row);
            t[3 * r] == Cell(row(r), 0) && t[3 * r + 1] == Cell(row(r), 1) && t[3 * r + 2] == Cell(row(r), 2)
  {
    assert 3 * r / 3 == r && (3 * r + 1) / 3 == r && (3 * r + 2) / 3 == r;
  }

  predicate RowOk(row: Row, r: nat, n: nat)
  {
    row.Inner? ==> (row.zero == -1 || r < row.zero < n) && (row.one == -1 || r < row.one < n)
  }

  predicate ChildOk(row: Row, r: nat) { row.Inner? && (row.zero == r || row.one == r) }

  lemma RowsGiveShape(n: nat, row: nat -> Row)
    requires n > 0 && row(0).Inner? && forall r: nat :: r < n ==> RowOk(row(r), r, n)
    ensures Shape(Table(n, row))
  {
    var t := Table(n, row);
    forall r: nat | 3 * r < |t| ensures RowShape(t, r) {
      assert RowOk(row(r), r, n);
      TableRow(n, row, r);
    }
    TableRow(n, row, 0);
    assert RowOk(row(0), 0, n);
  }

  lemma RowsGiveParents(n: nat, row: nat -> Row, parent: nat -> nat, q: nat)
    requires n > 0 && row(0).Inner? && forall r: nat :: r < n ==> RowOk(row(r), r, n)
    requires 0 < q < n && parent(q) < q && ChildOk(row(parent(q)), q)
    ensures Shape(Table(n, row)) && HasParent(Table(n, row), parent(q), q)
  {
    RowsGiveShape(n, row);
    var t := Table(n, row);
    TableRow(n, row, parent(q));
    if row(parent(q)).zero == q {
      assert Next(t, parent(q), 0) == Some(q);
    } else {
      assert Next(t, parent(q), 1) == Some(q);
    }
  }

  /** Row `r` leads only onwards, and some earlier row leads to it. */
  predicate Fits(n: nat, row: nat -> Row, parent: nat -> nat, r: nat)
  {
    RowOk(row(r), r, n) && (r > 0 ==> parent(r) < r && ChildOk(row(parent(r)), r))
  }

  ghost predicate Sound(n: nat, row: nat -> Row, parent: nat -> nat)
  {
    n > 0 && row(0).Inner? && forall r: nat :: r < n ==> Fits(n, row, parent, r)
  }

  /** The table has the shape, and each of its symbols has a code word. */
  ghost predicate Complete(n: nat, row: nat -> Row)
  {
    var t := Table(n, row);
    Shape(t) && forall r: nat :: r < n && row(r).Leaf? ==> exists w :: CodeWord(t, w) && Symbol(t, w) == row(r).value
  }

  lemma SoundTable(n: nat, row: nat -> Row, parent: nat -> nat)
    requires Sound(n, row, parent)
    ensures Complete(n, row)
  {
    assert forall r: nat :: r < n ==> Fits(n, row, parent, r) && RowOk(row(r), r, n);
    RowsGiveShape(n, row);
    var t := Table(n, row);
    forall q: nat | 0 < q && 3 * q < |t| ensures HasParent(t, parent(q), q) {
      assert Fits(n, row, parent, q);
      RowsGiveParents(n, row, parent, q);
    }
    forall r: nat | r < n && row(r).Leaf? ensures exists w :: CodeWord(t, w) && Symbol(t, w) == row(r).value {
      TableRow(n, row, r);
      var w := EverySymbolHasWord(t, parent, r);
    }
  }
}
