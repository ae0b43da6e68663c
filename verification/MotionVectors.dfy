/** Motion-vector prediction: a modular difference code. */
module MotionVectors {
  import opened Common
  import opened BitReader
  import opened PrefixCode
  import opened VideoTables

  // ---- Differences

  function Abs(x: int): nat { if x < 0 then -x else x }

  /** The difference that a code and a residual of `size` bits stand for; f is 2^size. */
  function Delta(code: int, r: nat, f: nat): int
  {
    if code == 0 || f == 1 then code
    else if code < 0 then -((Abs(code) - 1) * f + r + 1)
    else (Abs(code) - 1) * f + r + 1
  }

  /** What the decoder can read: the residual is there only if the code is not 0 and f is not 1. */
  predicate Readable(code: int, r: nat, f: nat)
  {
    -16 <= code <= 16 && r < f && (code == 0 ==> r == 0)
  }

  lemma DeltaBound(code: int, r: nat, f: nat)
    requires Readable(code, r, f)
    ensures -16 * f <= Delta(code, r, f) <= 16 * f
  {
    MultiplesApart(Abs(code) - 1, 16, f);
  }

  function EncodedCode(d: int, f: nat): int
    requires f > 0
  {
    if d == 0 then 0 else if d < 0 then -((-d - 1) / f + 1) else (d - 1) / f + 1
  }

  function EncodedResidual(d: int, f: nat): nat
    requires f > 0
  {
    if d == 0 then 0 else (Abs(d) - 1) % f
  }

  lemma MultiplesApart(a: int, b: int, m: nat)
    ensures a < b ==> a * m + m <= b * m
  {
    if a < b {
      assert (a + 1) * m <= b * m;
    }
  }

  /** Quotient and remainder are determined. */
  lemma DivUnique(q: int, r: nat, m: nat)
    requires r < m
    ensures (q * m + r) / m == q && (q * m + r) % m == r
  {
    var x := q * m + r;
    assert x == x / m * m + x % m;
    MultiplesApart(x / m, q, m);
    MultiplesApart(q, x / m, m);
  }

  lemma DivBelow(a: nat, f: nat)
    requires f > 0 && a < 16 * f
    ensures a / f < 16 && a == a / f * f + a % f && 0 <= a % f < f
  {
    MultiplesApart(15, a / f, f);
  }

  lemma DeltaOf(q: nat, r: nat, f: nat)
    requires r < f
    ensures Delta(q + 1, r, f) == q * f + r + 1 && Delta(-(q + 1), r, f) == -(q * f + r + 1)
  {
  }

  /** Every difference up to 16f in size has a code, and no two readable pairs stand for the same difference. */
  lemma DeltaRoundTrip(d: int, f: nat)
    requires f > 0 && -16 * f <= d <= 16 * f
    ensures Readable(EncodedCode(d, f), EncodedResidual(d, f), f)
    ensures Delta(EncodedCode(d, f), EncodedResidual(d, f), f) == d
  {
    if d != 0 {
      DivBelow(Abs(d) - 1, f);
      DeltaOf((Abs(d) - 1) / f, (Abs(d) - 1) % f, f);
    }
  }

  lemma CodeRoundTrip(code: int, r: nat, f: nat)
    requires Readable(code, r, f)
    ensures EncodedCode(Delta(code, r, f), f) == code && EncodedResidual(Delta(code, r, f), f) == r
  {
    if code != 0 {
      DivUnique(Abs(code) - 1, r, f);
      assert f == 1 ==> r == 0 && (Abs(code) - 1) * f + r + 1 == Abs(code);
      assert (Abs(code) - 1) * f >= 0;
    }
  }

  // ---- The modular range

  predicate InRange(p: int, f: nat) { -16 * f <= p <= 16 * f - 1 }

  /** The representative of `s` modulo 32f in the range. */
  function Center(s: int, f: nat): int
    requires f > 0
  {
    (s + 16 * f) % (32 * f) - 16 * f
  }

  lemma CenterUnique(s: int, p: int, q: int, f: nat)
    requires f > 0 && InRange(p, f) && s == p + q * (32 * f)
    ensures Center(s, f) == p
  {
    DivUnique(q, p + 16 * f, 32 * f);
  }

  /** Every sum has a representative. */
  lemma CenterIs(s: int, f: nat)
    requires f > 0
    ensures InRange(Center(s, f), f)
    ensures s == Center(s, f) + (s + 16 * f) / (32 * f) * (32 * f)
  {
    var m := 32 * f;
    assert s + 16 * f == (s + 16 * f) / m * m + (s + 16 * f) % m;
  }

  lemma CenterStep(s: int, d: int, f: nat)
    requires f > 0
    ensures Center(Center(s, f) + d, f) == Center(s + d, f)
  {
    CenterIs(s, f);
    CenterIs(Center(s, f) + d, f);
    var q, q' := (s + 16 * f) / (32 * f), (Center(s, f) + d + 16 * f) / (32 * f);
    assert (q + q') * (32 * f) == q * (32 * f) + q' * (32 * f);
    CenterUnique(s + d, Center(Center(s, f) + d, f), q + q', f);
  }

  /** One correction brings a predictor plus a difference back into the range, and keeps it modulo 32f. */
  function Corrected(p: int, f: nat): int
  {
    if p > 16 * f - 1 then p - 32 * f else if p < -16 * f then p + 32 * f else p
  }

  lemma CorrectedIsCenter(p: int, d: int, f: nat)
    requires f > 0 && InRange(p, f) && -16 * f <= d <= 16 * f
    ensures Corrected(p + d, f) == Center(p + d, f) && InRange(Corrected(p + d, f), f)
  {
    var q := if p + d > 16 * f - 1 then 1 else if p + d < -16 * f then -1 else 0;
    CenterUnique(p + d, Corrected(p + d, f), q, f);
  }

  // ---- Runs of macroblocks

  /** What a macroblock does to the predictors: an intra or skipped one, or the start of a slice, resets them; one
      without motion data in a B-picture leaves them; the others code a difference for each component. */
  datatype Step = Reset | Keep | Coded(codeH: int, restH: nat, codeV: int, restV: nat)

  datatype Vector = Vector(h: int, v: int)

  ghost predicate Legal(s: Step, f: nat)
  {
    s.Coded? ==> Readable(s.codeH, s.restH, f) && Readable(s.codeV, s.restV, f)
  }

  function Moved(p: Vector, s: Step, f: nat): Vector
  {
    match s
    case Reset => Vector(0, 0)
    case Keep => p
    case Coded(ch, rh, cv, rv) => Vector(Corrected(p.h + Delta(ch, rh, f), f), Corrected(p.v + Delta(cv, rv, f), f))
  }

  /** The predictors after a run that starts with a slice. */
  function Run(steps: seq<Step>, f: nat): Vector
  {
    if steps == [] then Vector(0, 0) else Moved(Run(steps[..|steps| - 1], f), steps[|steps| - 1], f)
  }

  /** The differences since the last reset, added up without correction. */
  function Sum(steps: seq<Step>, f: nat): Vector
  {
    if steps == [] then Vector(0, 0)
    else
      var before := Sum(steps[..|steps| - 1], f);
      match steps[|steps| - 1]
      case Reset => Vector(0, 0)
      case Keep => before
      case Coded(ch, rh, cv, rv) => Vector(before.h + Delta(ch, rh, f), before.v + Delta(cv, rv, f))
  }

  /** The predictors are the sums modulo 32f, inside the range. */
  lemma {:induction false} RunIsSum(steps: seq<Step>, f: nat)
    requires f > 0 && forall k :: 0 <= k < |steps| ==> Legal(steps[k], f)
    ensures Run(steps, f) == Vector(Center(Sum(steps, f).h, f), Center(Sum(steps, f).v, f))
    ensures InRange(Run(steps, f).h, f) && InRange(Run(steps, f).v, f)
  {
    CenterUnique(0, 0, 0, f);
    if steps != [] {
      var init, last := steps[..|steps| - 1], steps[|steps| - 1];
      RunIsSum(init, f);
      assert Legal(last, f);
      if last.Coded? {
        ComponentIsSum(Run(init, f).h, Sum(init, f).h, last.codeH, last.restH, f);
        ComponentIsSum(Run(init, f).v, Sum(init, f).v, last.codeV, last.restV, f);
      }
    }
  }

  lemma ComponentIsSum(p: int, sum: int, code: int, r: nat, f: nat)
    requires f > 0 && Readable(code, r, f) && p == Center(sum, f) && InRange(p, f)
    ensures Corrected(p + Delta(code, r, f), f) == Center(sum + Delta(code, r, f), f)
    ensures InRange(Corrected(p + Delta(code, r, f), f), f)
  {
    DeltaBound(code, r, f);
    CorrectedIsCenter(p, Delta(code, r, f), f);
    CenterStep(sum, Delta(code, r, f), f);
  }

  /** The step from one predictor to another. */
  function EncodedStep(p: Vector, v: Vector, f: nat): Step
    requires f > 0
  {
    var dh, dv := Corrected(v.h - p.h, f), Corrected(v.v - p.v, f);
    Coded(EncodedCode(dh, f), EncodedResidual(dh, f), EncodedCode(dv, f), EncodedResidual(dv, f))
  }

  lemma EncodedStepMoves(p: Vector, v: Vector, f: nat)
    requires f > 0 && InRange(p.h, f) && InRange(p.v, f) && InRange(v.h, f) && InRange(v.v, f)
    ensures Legal(EncodedStep(p, v, f), f) && Moved(p, EncodedStep(p, v, f), f) == v
  {
    DeltaRoundTrip(Corrected(v.h - p.h, f), f);
    DeltaRoundTrip(Corrected(v.v - p.v, f), f);
  }

  /** The steps that code a sequence of vectors from a reset on. */
  function EncodedSteps(vectors: seq<Vector>, f: nat): (steps: seq<Step>)
    requires f > 0
    ensures |steps| == |vectors|
  {
    if vectors == [] then []
    else
      var n := |vectors| - 1;
      EncodedSteps(vectors[..n], f) + [EncodedStep(if n == 0 then Vector(0, 0) else vectors[n - 1], vectors[n], f)]
  }

  ghost predicate AllInRange(vectors: seq<Vector>, f: nat)
  {
    forall k :: 0 <= k < |vectors| ==> InRange(vectors[k].h, f) && InRange(vectors[k].v, f)
  }

  lemma {:induction false} StepsReachLast(vectors: seq<Vector>, f: nat)
    requires f > 0 && AllInRange(vectors, f) && vectors != []
    ensures Run(EncodedSteps(vectors, f), f) == vectors[|vectors| - 1]
    ensures forall s :: s in EncodedSteps(vectors, f) ==> s.Coded? && Legal(s, f)
  {
    var n := |vectors| - 1;
    var init := vectors[..n];
    if n > 0 {
      StepsReachLast(init, f);
    }
    var p := if n == 0 then Vector(0, 0) else vectors[n - 1];
    EncodedStepMoves(p, vectors[n], f);
    assert EncodedSteps(vectors, f)[..n] == EncodedSteps(init, f);
  }

  lemma {:induction false} StepsOfPrefix(vectors: seq<Vector>, f: nat, k: nat)
    requires f > 0 && k <= |vectors|
    ensures EncodedSteps(vectors, f)[..k] == EncodedSteps(vectors[..k], f)
    decreases |vectors|
  {
    var n := |vectors| - 1;
    if k == |vectors| {
      assert vectors[..k] == vectors;
    } else {
      StepsOfPrefix(vectors[..n], f, k);
      assert vectors[..n][..k] == vectors[..k];
    }
  }

  /** For any sequence of vectors in the range, some sequence of codes and residuals decodes to exactly it. */
  lemma EverySequenceIsCoded(vectors: seq<Vector>, f: nat)
    requires f > 0 && AllInRange(vectors, f)
    ensures forall s :: s in EncodedSteps(vectors, f) ==> s.Coded? && Legal(s, f)
    ensures forall k :: 0 <= k < |vectors| ==> Run(EncodedSteps(vectors, f)[..k + 1], f) == vectors[k]
  {
    if vectors != [] {
      StepsReachLast(vectors, f);
    }
    forall k | 0 <= k < |vectors| ensures Run(EncodedSteps(vectors, f)[..k + 1], f) == vectors[k] {
      StepsOfPrefix(vectors, f, k + 1);
      StepsReachLast(vectors[..k + 1], f);
    }
  }

  // ---- The decoder

  /** All symbols of the motion code, and what an unknown code word yields, are between -16 and 16. */
  lemma MotionValues(r: nat)
    requires r < 67
    ensures -16 <= Cell(Motion(r), 2) <= 16 && -16 <= Cell(Motion(0), 1) <= 16
  {
  }

  lemma MotionTable()
    ensures Shape(Table(67, Motion)) && -16 <= Table(67, Motion)[1] <= 16
    ensures forall w :: CodeWord(Table(67, Motion), w) ==> -16 <= Symbol(Table(67, Motion), w) <= 16
  {
    ShippedTables();
    var t := Table(67, Motion);
    TableRow(67, Motion, 0);
    MotionValues(0);
    forall w | CodeWord(t, w) ensures -16 <= Symbol(t, w) <= 16 {
      var r := Walk(t, 0, w).value;
      TableRow(67, Motion, r);
      MotionValues(r);
    }
  }

  /** Code and residual are what the stream holds at position `i`, before position `j`. */
  ghost predicate Spells(s: seq<byte>, i: nat, code: int, rest: nat, size: nat, f: nat, j: nat)
  {
    var t := Table(67, Motion);
    Shape(t) && forall w :: CodeWord(t, w) && Holds(s, i, w) ==>
      code == Symbol(t, w)
      && if code != 0 && f != 1 then rest == Bits(s, i + |w|, size) && j == i + |w| + size
          else rest == 0 && j == i + |w|
  }

  class MotionDecoder {
    var forwardRSize: nat
    var forwardF: nat
    var fullPelForward: bool
    var motionFwH: int
    var motionFwV: int
    var motionFwHPrev: int
    var motionFwVPrev: int

    ghost predicate Valid()
      reads this
    {
      forwardRSize <= 6 && forwardF == Pow2(forwardRSize) && InRange(motionFwHPrev, forwardF)
          && InRange(motionFwVPrev, forwardF)
    }

    /** The picture header sets the range; each slice then starts with a reset. */
    constructor (fCode: nat, fullPel: bool)
      requires 1 <= fCode <= 7
      ensures Valid() && forwardF == Pow2(fCode - 1) && fullPelForward == fullPel
      ensures Vector(motionFwHPrev, motionFwVPrev) == Run([], forwardF)
    {
      fullPelForward, forwardRSize, forwardF := fullPel, fCode - 1, Pow2(fCode - 1);
      motionFwH, motionFwV, motionFwHPrev, motionFwVPrev := 0, 0, 0, 0;
    }

    method Reset()
      modifies `motionFwH, `motionFwV, `motionFwHPrev, `motionFwVPrev
      ensures motionFwH == motionFwV == motionFwHPrev == motionFwVPrev == 0
    {
      motionFwH, motionFwHPrev := 0, 0;
      motionFwV, motionFwVPrev := 0, 0;
    }

    /** One component: the code, the residual if there is one, and the correction. */
    method Component(buffer: Reader, prev: int) returns (now: int, ghost code: int, ghost rest: nat)
      requires forwardRSize <= 6 && forwardF == Pow2(forwardRSize) && InRange(prev, forwardF)
      modifies buffer`index
      ensures Spells(buffer.bytes[..], old(buffer.index), code, rest, forwardRSize, forwardF, buffer.index)
      ensures Readable(code, rest, forwardF) && now == Corrected(prev + Delta(code, rest, forwardF), forwardF)
      ensures InRange(now, forwardF)
    {
      var c := ReadMotionCode(buffer);
      var d := c;
      rest := 0;
      if c != 0 && forwardF != 1 {
        var r := buffer.NextBits(forwardRSize);
        buffer.Advance(forwardRSize);
        d := (Abs(c) - 1) * forwardF + r + 1;
        if c < 0 {
          d := -d;
        }
        rest := r;
      }
      code := c;
      DeltaBound(code, rest, forwardF);
      CorrectedIsCenter(prev, d, forwardF);
      now := prev + d;
      if now > 16 * forwardF - 1 {
        now := now - 32 * forwardF;
      } else if now < -16 * forwardF {
        now := now + 32 * forwardF;
      }
    }

    /** The branch with motion data; `mid` is where the vertical component starts. */
    method BothComponents(buffer: Reader) returns (ghost step: Step, ghost mid: nat)
      requires Valid()
      modifies `motionFwH, `motionFwV, `motionFwHPrev, `motionFwVPrev, buffer`index
      ensures Valid() && step.Coded? && Legal(step, forwardF)
      ensures Spells(buffer.bytes[..], old(buffer.index), step.codeH, step.restH, forwardRSize, forwardF, mid)
      ensures Spells(buffer.bytes[..], mid, step.codeV, step.restV, forwardRSize, forwardF, buffer.index)
      ensures Vector(motionFwHPrev, motionFwVPrev) == Moved(old(Vector(motionFwHPrev, motionFwVPrev)), step, forwardF)
      ensures if fullPelForward then motionFwH == 2 * motionFwHPrev && motionFwV == 2 * motionFwVPrev
              else motionFwH == motionFwHPrev && motionFwV == motionFwVPrev
    {
      ghost var ch, rh, cv, rv;
      motionFwHPrev, ch, rh := Component(buffer, motionFwHPrev);
      motionFwH := motionFwHPrev;
      if fullPelForward {
        motionFwH := 2 * motionFwH;
      }
      mid := buffer.index;
      motionFwVPrev, cv, rv := Component(buffer, motionFwVPrev);
      motionFwV := motionFwVPrev;
      if fullPelForward {
        motionFwV := 2 * motionFwV;
      }
      step := Coded(ch, rh, cv, rv);
    }

    method DecodeMotionVectors(buffer: Reader, motFw: bool, pictureP: bool) returns (ghost step: Step, ghost mid: nat)
      requires Valid()
      modifies `motionFwH, `motionFwV, `motionFwHPrev, `motionFwVPrev, buffer`index
      ensures Valid() && Legal(step, forwardF) && step.Coded? == motFw && step.Reset? == (!motFw && pictureP)
      ensures motFw ==> Spells(buffer.bytes[..], old(buffer.index), step.codeH, step.restH, forwardRSize, forwardF, mid)
                        && Spells(buffer.bytes[..], mid, step.codeV, step.restV, forwardRSize, forwardF, buffer.index)
      ensures motFw && fullPelForward ==> motionFwH == 2 * motionFwHPrev && motionFwV == 2 * motionFwVPrev
      ensures motFw && !fullPelForward ==> motionFwH == motionFwHPrev && motionFwV == motionFwVPrev
      ensures !motFw ==> buffer.index == old(buffer.index)
      ensures Vector(motionFwHPrev, motionFwVPrev) == Moved(old(Vector(motionFwHPrev, motionFwVPrev)), step, forwardF)
      ensures step.Reset? ==> motionFwH == motionFwV == 0
      ensures step.Keep? ==> motionFwH == old(motionFwH) && motionFwV == old(motionFwV)
    {
      mid := 0;
      if motFw {
        step, mid := BothComponents(buffer);
      } else if pictureP {
        Reset();
        step := Step.Reset;
      } else {
        step := Keep;
      }
    }
  }

  method ReadMotionCode(buffer: Reader) returns (c: int)
    modifies buffer`index
    ensures -16 <= c <= 16
    ensures var t := Table(67, Motion); Shape(t)
    ensures var t := Table(67, Motion); forall w :: CodeWord(t, w) && Holds(buffer.bytes[..], old(buffer.index), w) ==>
                        c == Symbol(t, w) && buffer.index == old(buffer.index) + |w|
  {
    MotionTable();
    var t := Table(67, Motion);
    c := ReadCode(buffer, t);
  }
}
