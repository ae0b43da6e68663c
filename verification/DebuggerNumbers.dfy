/** What the numbers in content lengths mean: fractions, exponents, signs and hexadecimal digits. */
module DebuggerNumbers {
  import opened Common
  import opened Seqs
  import opened DebuggerProtocol

  function PowerOfTen(n: nat): (p: nat)
    ensures p > 0
  {
    if n == 0 then 1 else 10 * PowerOfTen(n - 1)
  }

  lemma {:induction false} TenToIsPower(n: nat)
    ensures TenTo(n) == PowerOfTen(n) as real
  {
    if n > 0 { TenToIsPower(n - 1); }
  }

  // ---- Numbers as reals

  /** As a length: text of n bytes reaches a number exactly if n is not below it; minus is minus. */
  lemma NumberIsReal(x: real, n: int)
    ensures Rounded(x).ReachedBy(n) <==> x <= n as real
    ensures Rounded(x).Negated() == Rounded(-x)
  {
    var f := x.Floor;
    assert f as real <= x < (f + 1) as real;
    if f as real == x {
      assert (-x).Floor == -f;
    } else {
      assert (-x).Floor == -f - 1;
    }
  }

  lemma FloorOf(a: nat, b: nat, p: nat)
    requires b < p
    ensures Rounded((a * p + b) as real / p as real) == Finite(a, b == 0)
  {
    var x := (a * p + b) as real / p as real;
    assert x * p as real == a as real * p as real + b as real;
    assert a as real <= x < (a + 1) as real;
    assert x.Floor == a;
    assert x == a as real <==> b == 0;
  }

  // ---- Digits

  lemma {:induction false} ValueOfBoth(w: string, f: string)
    requires AllDigits(w) && AllDigits(f)
    ensures AllDigits(w + f) && Value(w + f) == Value(w) * PowerOfTen(|f|) + Value(f) && Value(f) < PowerOfTen(|f|)
    decreases |f|
  {
    if f == [] {
      Unit(w);
    } else {
      var init, d := f[..|f| - 1], f[|f| - 1];
      ValueOfBoth(w, init);
      assert (w + f)[..|w + f| - 1] == w + init && (w + f)[|w + f| - 1] == d;
      Tenfold(Value(w + init), Value(w), PowerOfTen(|init|), Value(init), Digit(d));
    }
  }

  lemma Tenfold(v: nat, a: nat, p: nat, b: nat, d: nat)
    requires v == a * p + b && b < p && d < 10
    ensures 10 * v + d == a * (10 * p) + (10 * b + d) && 10 * b + d < 10 * p
  {
  }

  lemma {:induction false} LeadingThen(w: string, rest: string)
    requires AllDigits(w) && (rest == [] || !IsDigit(rest[0]))
    ensures Leading(w + rest) == w
  {
    if w == [] {
      Unit(rest);
    } else {
      assert (w + rest)[0] == w[0] && (w + rest)[1..] == w[1..] + rest;
      LeadingThen(w[1..], rest);
      assert [w[0]] + w[1..] == w;
    }
  }

  /** A text that begins with a digit or a point, is not hexadecimal, and ends without a blank. */
  lemma NotSigned(s: string)
    requires s != [] && (IsDigit(s[0]) || s[0] == '.') && (|s| >= 2 ==> s[1] != 'x' && s[1] != 'X')
    requires !IsBlank(s[|s| - 1])
    ensures ToNumber(s) == Decimals(Leading(s), s[|Leading(s)|..])
  {
    NotTrimmed(s);
    NoSign(s);
    NotInfinity(s);
  }

  lemma NotTrimmed(s: string)
    requires s != [] && !IsBlank(s[0]) && !IsBlank(s[|s| - 1])
    ensures TrimRight(TrimLeft(s)) == s
  {
  }

  lemma NoSign(s: string)
    requires s != [] && s[0] != '+' && s[0] != '-' && (|s| >= 2 ==> s[1] != 'x' && s[1] != 'X')
    ensures Signed(s) == Unsigned(s)
  {
  }

  lemma NotInfinity(s: string)
    requires s != [] && (IsDigit(s[0]) || s[0] == '.')
    ensures Unsigned(s) == Decimals(Leading(s), s[|Leading(s)|..])
  {
    assert s[0] != 'I';
  }

  lemma ScaledUp(n: nat, e: nat)
    ensures Rounded(Scaled(n, e)) == Finite(n * PowerOfTen(e), true)
  {
    TenToIsPower(e);
    var m := n * PowerOfTen(e);
    assert Scaled(n, e) == m as real;
    assert (m as real).Floor == m;
  }

  lemma ScaledDown(n: nat, k: nat)
    ensures Scaled(n, 0 - k) == n as real / PowerOfTen(k) as real
  {
    TenToIsPower(k);
    if k == 0 { assert n as real * 1.0 == n as real / 1.0; }
  }

  // ---- Fractions

  /** The whole part of a decimal fraction is the number before the point, and it is all if there are only zeros behind
      it. */
  lemma FractionReads(w: string, f: string)
    requires AllDigits(w) && AllDigits(f) && w + f != []
    ensures ToNumber(w + (['.'] + f)) == Finite(Value(w), Value(f) == 0)
  {
    var after := ['.'] + f;
    var s := w + after;
    LeadingThen(w, after);
    Split(w, after);
    FractionEnds(w, f);
    NotSigned(s);
    FractionAfter(w, f);
  }

  lemma FractionEnds(w: string, f: string)
    requires AllDigits(w) && AllDigits(f) && w + f != []
    ensures var s := w + (['.'] + f);
            && (IsDigit(s[0]) || s[0] == '.') && (|s| >= 2 ==> s[1] != 'x' && s[1] != 'X') && !IsBlank(s[|s| - 1])
  {
    var s := w + (['.'] + f);
    assert forall i :: 0 <= i < |s| ==> IsDigit(s[i]) || s[i] == '.';
  }

  lemma FractionAfter(w: string, f: string)
    requires AllDigits(w) && AllDigits(f) && w + f != []
    ensures Decimals(w, ['.'] + f) == Finite(Value(w), Value(f) == 0)
  {
    Divided(w, f);
    WithPoint(w, f);
  }

  lemma Divided(w: string, f: string)
    requires AllDigits(w) && AllDigits(f)
    ensures AllDigits(w + f) && Rounded(Scaled(Value(w + f), 0 - |f|)) == Finite(Value(w), Value(f) == 0)
  {
    ValueOfBoth(w, f);
    ScaledDown(Value(w + f), |f|);
    FloorOf(Value(w), Value(f), PowerOfTen(|f|));
  }

  /** A number with a point, and one without. */
  lemma WithPoint(w: string, f: string)
    requires AllDigits(w) && AllDigits(f)
    ensures Decimals(w, ['.'] + f) == Assembled(w, f, Some(0))
  {
    var after := ['.'] + f;
    assert after[1..] == f && f[|f|..] == [] && after[0] == '.';
    LeadingAll(f);
    assert Exponent([]) == Some(0);
  }

  lemma WithoutPoint(w: string, end: string)
    requires AllDigits(w) && end != [] && end[0] != '.'
    ensures Decimals(w, end) == Assembled(w, [], Exponent(end))
  {
  }

  lemma AssembledWhole(w: string, e: nat)
    requires AllDigits(w) && w != []
    ensures Assembled(w, [], Some(e)) == Finite(Value(w) * PowerOfTen(e), true)
  {
    Unit(w);
    ScaledUp(Value(w), e);
  }

  // ---- Exponents

  /** An exponent shifts by as many decimal places. */
  lemma ExponentReads(w: string, d: string)
    requires AllDigits(w) && AllDigits(d) && w != [] && d != []
    ensures ToNumber(w + (['e'] + d)) == Finite(Value(w) * PowerOfTen(Value(d)), true)
  {
    var after := ['e'] + d;
    var s := w + after;
    LeadingThen(w, after);
    Split(w, after);
    ExponentEnds(w, d);
    NotSigned(s);
    ExponentAfter(w, d);
  }

  lemma ExponentEnds(w: string, d: string)
    requires AllDigits(w) && AllDigits(d) && w != [] && d != []
    ensures var s := w + (['e'] + d);
            IsDigit(s[0]) && (|s| >= 2 ==> s[1] != 'x' && s[1] != 'X') && !IsBlank(s[|s| - 1])
  {
    var s := w + (['e'] + d);
    assert forall i :: 0 <= i < |s| ==> IsDigit(s[i]) || s[i] == 'e';
    assert s[0] == w[0];
  }

  lemma ExponentAfter(w: string, d: string)
    requires AllDigits(w) && AllDigits(d) && w != [] && d != []
    ensures Decimals(w, ['e'] + d) == Finite(Value(w) * PowerOfTen(Value(d)), true)
  {
    ExponentIs(d);
    WithoutPoint(w, ['e'] + d);
    AssembledWhole(w, Value(d));
  }

  lemma ExponentIs(d: string)
    requires AllDigits(d) && d != []
    ensures Exponent(['e'] + d) == Some(Value(d))
  {
    assert (['e'] + d)[1..] == d && IsDigit(d[0]);
  }

  // ---- Hexadecimal digits

  function HexText(n: nat): (s: string)
    ensures s != []
  {
    if n < 16 then [HexDigit(n)] else HexText(n / 16) + [HexDigit(n % 16)]
  }

  function HexDigit(d: nat): char
    requires d < 16
  {
    match d
    case 0 => '0' case 1 => '1' case 2 => '2' case 3 => '3' case 4 => '4' case 5 => '5' case 6 => '6' case 7 => '7'
    case 8 => '8' case 9 => '9' case 10 => 'a' case 11 => 'b' case 12 => 'c' case 13 => 'd' case 14 => 'e'
    case _ => 'f'
  }

  lemma {:induction false} HexTextReads(n: nat)
    ensures HexValue(HexText(n)) == Some(n) && !IsBlank(HexText(n)[|HexText(n)| - 1])
  {
    if n < 16 {
      LastHexDigit([], 0, n);
      Unit([HexDigit(n)]);
    } else {
      HexTextReads(n / 16);
      LastHexDigit(HexText(n / 16), n / 16, n % 16);
    }
  }

  lemma LastHexDigit(init: string, v: nat, d: nat)
    requires HexValue(init) == Some(v) && d < 16
    ensures HexValue(init + [HexDigit(d)]) == Some(16 * v + d) && !IsBlank(HexDigit(d))
  {
    var s, c := init + [HexDigit(d)], HexDigit(d);
    assert s[..|s| - 1] == init && s[|s| - 1] == c;
    DigitStands(d);
  }

  lemma DigitStands(d: nat)
    requires d < 16
    ensures var c := HexDigit(d);
            !IsBlank(c) && if IsDigit(c) then Digit(c) == d else 'a' <= c <= 'f' && 10 + (c as int - 'a' as int) == d
  {
  }

  /** Hexadecimal digits are read as the number that they stand for. */
  lemma HexadecimalReads(n: nat)
    ensures ToNumber(['0', 'x'] + HexText(n)) == Finite(n, true)
  {
    var s := ['0', 'x'] + HexText(n);
    HexTextReads(n);
    assert s[|s| - 1] == HexText(n)[|HexText(n)| - 1];
    assert TrimRight(TrimLeft(s)) == s && s[2..] == HexText(n);
  }
}
