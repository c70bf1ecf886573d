/** For which sizes the shipped table keeps the promise that fixed scaling prevents overflow: up to
    four samples always, from eight on not for every input. */
module FftSizes {
  import opened Sequences
  import opened TransformSpec
  import opened FixFft
  import opened FixFftBounds
  import opened CheckedFft
  import opened SineTable

  // ------------------------------------------------------------ two and four samples

  /** The factors of the first two passes: one and a quarter turn. */
  predicate QuarterTurn(wr: int, wi: int)
  {
    (wr == 16383 && wi == 0) || (wr == 0 && wi == -16384)
  }

  lemma MpyRange(a: int, z: int)
    requires Fits(z)
    ensures a == 0 ==> WideMpy(a, z) == 0
    ensures a == 16383 ==> -16383 <= WideMpy(a, z) <= 16383
    ensures a == -16384 ==> -16383 <= WideMpy(a, z) <= 16384
  {
  }

  lemma QuarterTurnFits(wr: int, wi: int, q: Wide, z: Wide)
    requires QuarterTurn(wr, wi) && FitsBoth(q) && FitsBoth(z)
    ensures var (u, v) := WideCross(wr, wi, q, z);
            CheckedCross(wr, wi, Exact(q), Exact(z)) == (Exact(u), Exact(v)) && FitsBoth(u) && FitsBoth(v)
  {
    MpyRange(wr, z.re);
    MpyRange(wi, z.im);
    MpyRange(wr, z.im);
    MpyRange(wi, z.re);
  }

  lemma EarlyFactors(p: nat, t: nat)
    requires p < 2 && t < Pow2(p)
    ensures IsTable(Sinewave(), 10)
    ensures var j := TwiddleIndex(10, p, t);
            QuarterTurn(TwiddleRe(Sinewave(), 10, true, j), TwiddleIm(Sinewave(), 10, false, true, j))
  {
    SinewaveIsUnit();
    CornerIndices();
    CornerEntries(Sinewave());
    CornerFactors(Sinewave(), 0, 256, 128);
    assert TwiddleIndex(10, p, 0) == 0;
    assert t == 0 || (p == 1 && t == 1);
  }

  ghost function InRange(): (nat, Wide, Checked) -> bool
  {
    (p: nat, w: Wide, c: Checked) => c == Exact(w) && FitsBoth(w)
  }

  lemma EarlyCarries(p: nat)
    requires p < 2
    ensures IsTable(Sinewave(), 10)
    ensures Carries(WideButterfly(Sinewave(), 10), CheckedButterfly(Sinewave(), 10), InRange(), p)
  {
    SinewaveIsUnit();
    var bf, bg, rel := WideButterfly(Sinewave(), 10), CheckedButterfly(Sinewave(), 10), InRange();
    forall t: nat, q: Wide, z: Wide, q': Checked, z': Checked | t < Pow2(p) && rel(p, q, q') && rel(p, z, z')
      ensures rel(p + 1, bf(p, t, q, z).0, bg(p, t, q', z').0) && rel(p + 1, bf(p, t, q, z).1, bg(p, t, q', z').1)
    {
      EarlyOne(p, t, q, z);
    }
  }

  lemma EarlyOne(p: nat, t: nat, q: Wide, z: Wide)
    requires p < 2 && t < Pow2(p) && FitsBoth(q) && FitsBoth(z)
    ensures IsTable(Sinewave(), 10)
    ensures var (u, v) := WideButterfly(Sinewave(), 10)(p, t, q, z);
            CheckedButterfly(Sinewave(), 10)(p, t, Exact(q), Exact(z)) == (Exact(u), Exact(v)) && FitsBoth(u)
              && FitsBoth(v)
  {
    EarlyFactors(p, t);
    var j := TwiddleIndex(10, p, t);
    QuarterTurnFits(TwiddleRe(Sinewave(), 10, true, j), TwiddleIm(Sinewave(), 10, false, true, j), q, z);
  }

  /** One, two or four samples: nothing is cut, whatever they are. */
  lemma SmallCutsNothing(m: nat, x: seq<Sample>)
    requires m <= 2 && |x| == Pow2(m)
    ensures IsTable(Sinewave(), 10) && NothingCut(Sinewave(), 10, m, x)
  {
    SinewaveIsUnit();
    var bf, bg := WideButterfly(Sinewave(), 10), CheckedButterfly(Sinewave(), 10);
    forall p: nat | p < m
      ensures Carries(bf, bg, InRange(), p)
    {
      EarlyCarries(p);
    }
    DitSimulates(bf, bg, InRange(), m, WidenAll(x), ExactAll(x));
    forall i | 0 <= i < |x|
      ensures Dit(bg, m, ExactAll(x))[i].Exact?
    {
      assert InRange()(m, Dit(bf, m, WidenAll(x))[i], Dit(bg, m, ExactAll(x))[i]);
    }
  }

  // ------------------------------------------------------------ eight samples and more

  const ZERO := Sample(0, 0)

  /** Eight samples in the corners of the 16-bit square, turning a quarter each time. */
  function Corners(): (x: seq<Sample>)
    ensures |x| == 8
  {
    [Sample(32767, 32767), Sample(32767, 32767), Sample(-32767, 32767), Sample(-32767, 32767),
     Sample(-32767, -32767), Sample(-32767, -32767), Sample(32767, -32767), Sample(32767, -32767)]
  }

  /** A zero after every sample. */
  function Stretch(x: seq<Sample>): (y: seq<Sample>)
    ensures |y| == 2 * |x|
    ensures forall i :: 0 <= i < |x| ==> y[2 * i] == x[i] && y[2 * i + 1] == ZERO
  {
    seq(2 * |x|, i requires 0 <= i < 2 * |x| => if i % 2 == 0 then x[i / 2] else ZERO)
  }

  /** The corners, with zeros between them. */
  function Spread(m: nat): (x: seq<Sample>)
    requires m >= 3
    ensures |x| == Pow2(m)
  {
    if m == 3 then
      CornerIndices();
      Corners()
    else Stretch(Spread(m - 1))
  }

  ghost predicate AllAre<T>(x: seq<T>, v: T)
  {
    forall i :: 0 <= i < |x| ==> x[i] == v
  }

  lemma StretchHalves(x: seq<Sample>)
    ensures Evens(Stretch(x)) == x && AllAre(Odds(Stretch(x)), ZERO)
  {
  }

  /** A value that every butterfly leaves alone stays. */
  lemma {:induction false} ConstantStays<T(!new)>(bf: Butterfly<T>, b: nat, x: seq<T>, v: T)
    requires |x| == Pow2(b) && AllAre(x, v)
    requires forall p: nat, t: nat :: p < b && t < Pow2(p) ==> bf(p, t, v, v) == (v, v)
    ensures AllAre(Dit(bf, b, x), v)
  {
    if b == 0 {
    } else {
      ConstantStays(bf, b - 1, Evens(x), v);
      ConstantStays(bf, b - 1, Odds(x), v);
    }
  }

  /** The forward butterfly of a table of 1024 entries per turn, for any number of passes. */
  function Forward(s: seq<Short>): Butterfly<Sample>
    requires IsTable(s, 10)
  {
    FixButterfly(s, 10, false, AllTrue(10))
  }

  lemma MpyZero(a: Short)
    ensures FixMpy(a, 0) == 0 && WideMpy(a, 0) == 0
  {
  }

  lemma SumZero(a: Short)
    ensures Sum(a, 0) == a && Difference(a, 0) == a
  {
    NarrowId(a);
  }

  lemma ZeroPartner(wr: Short, wi: Short, q: Sample)
    ensures Cross(wr, wi, true, q, ZERO) == (Sample(Half(q.re), Half(q.im)), Sample(Half(q.re), Half(q.im)))
  {
    MpyZero(wr);
    MpyZero(wi);
    SumZero(0);
    SumZero(Half(q.re));
    SumZero(Half(q.im));
  }

  lemma ZeroPartnerWide(wr: Short, wi: Short, q: Wide)
    ensures WideCross(wr, wi, q, Wide(0, 0)) == (Wide(q.re / 2, q.im / 2), Wide(q.re / 2, q.im / 2))
  {
    MpyZero(wr);
    MpyZero(wi);
  }

  lemma HalvesAlone(s: seq<Short>, p: nat, q: Sample)
    requires 0 < p < 10 && IsTable(s, 10)
    ensures Forward(s)(p, 1, q, ZERO).0 == Sample(Half(q.re), Half(q.im))
  {
    Pow2Mono(1, p);
    var j := TwiddleIndex(10, p, 1);
    ZeroPartner(TwiddleRe(s, 10, true, j), TwiddleIm(s, 10, false, true, j), q);
  }

  /** With zeros in the odd places, the next level halves index 1. */
  lemma LevelHalves(s: seq<Short>, m: nat, x: seq<Sample>)
    requires 0 < m < 10 && IsTable(s, 10) && |x| == Pow2(m)
    ensures |Stretch(x)| == Pow2(m + 1) && |x| > 1
    ensures Dit(Forward(s), m + 1, Stretch(x))[1].re == Half(Dit(Forward(s), m, x)[1].re)
  {
    Pow2Mono(1, m);
    var bf, y := Forward(s), Stretch(x);
    StretchHalves(x);
    var o := Dit(bf, m, Odds(y));
    ZerosStay(s, m, Odds(y));
    var e := Dit(bf, m, x);
    assert Dit(bf, m + 1, y) == Combine(bf, m, e, o);
    HalvesAlone(s, m, e[1]);
  }

  lemma HalvesAloneWide(s: seq<Short>, p: nat, q: Wide)
    requires 0 < p < 10 && IsTable(s, 10)
    ensures WideButterfly(s, 10)(p, 1, q, Wide(0, 0)).0 == Wide(q.re / 2, q.im / 2)
  {
    Pow2Mono(1, p);
    var j := TwiddleIndex(10, p, 1);
    ZeroPartnerWide(TwiddleRe(s, 10, true, j), TwiddleIm(s, 10, false, true, j), q);
  }

  lemma LevelHalvesWide(s: seq<Short>, m: nat, x: seq<Sample>)
    requires 0 < m < 10 && IsTable(s, 10) && |x| == Pow2(m)
    ensures |Stretch(x)| == Pow2(m + 1) && |x| > 1
    ensures Dit(WideButterfly(s, 10), m + 1, WidenAll(Stretch(x)))[1].re
      == Dit(WideButterfly(s, 10), m, WidenAll(x))[1].re / 2
  {
    Pow2Mono(1, m);
    var bw, y := WideButterfly(s, 10), Stretch(x);
    StretchHalves(x);
    WidenHalves(y);
    var e, o := Dit(bw, m, WidenAll(x)), Dit(bw, m, WidenAll(Odds(y)));
    ZerosStay(s, m, Odds(y));
    assert Dit(bw, m + 1, WidenAll(y)) == Combine(bw, m, e, o);
    HalvesAloneWide(s, m, e[1]);
  }

  lemma WidenHalves(x: seq<Sample>)
    ensures Evens(WidenAll(x)) == WidenAll(Evens(x)) && Odds(WidenAll(x)) == WidenAll(Odds(x))
  {
  }

  lemma ZerosStay(s: seq<Short>, b: nat, x: seq<Sample>)
    requires b <= 10 && |x| == Pow2(b) && AllAre(x, ZERO) && IsTable(s, 10)
    ensures AllAre(Dit(Forward(s), b, x), ZERO)
    ensures AllAre(Dit(WideButterfly(s, 10), b, WidenAll(x)), Wide(0, 0))
  {
    var bf, bw := Forward(s), WideButterfly(s, 10);
    forall p: nat, t: nat | p < b && t < Pow2(p)
      ensures bf(p, t, ZERO, ZERO) == (ZERO, ZERO) && bw(p, t, Wide(0, 0), Wide(0, 0)) == (Wide(0, 0), Wide(0, 0))
    {
      var j := TwiddleIndex(10, p, t);
      ZeroPartner(TwiddleRe(s, 10, true, j), TwiddleIm(s, 10, false, true, j), ZERO);
      ZeroPartnerWide(TwiddleRe(s, 10, true, j), TwiddleIm(s, 10, false, true, j), Wide(0, 0));
    }
    ConstantStays(bf, b, x, ZERO);
    ConstantStays(bw, b, WidenAll(x), Wide(0, 0));
  }

  /** The two transforms of x differ in the sign of index 1. */
  ghost predicate SignsDiffer(s: seq<Short>, m: nat, x: seq<Sample>)
    requires m <= 10 && IsTable(s, 10) && |x| == Pow2(m) && |x| > 1
  {
    Dit(Forward(s), m, x)[1].re < 0 <= Dit(WideButterfly(s, 10), m, WidenAll(x))[1].re
  }

  lemma SignsStayDifferent(s: seq<Short>, m: nat, x: seq<Sample>)
    requires 0 < m < 10 && IsTable(s, 10) && |x| == Pow2(m) && |x| > 1 && SignsDiffer(s, m, x)
    ensures |Stretch(x)| == Pow2(m + 1) && SignsDiffer(s, m + 1, Stretch(x))
  {
    LevelHalves(s, m, x);
    LevelHalvesWide(s, m, x);
  }

  /** At every size from eight on, index 1 of the spread corners keeps the signs it has at eight. */
  lemma {:induction false} SpreadDiffers(s: seq<Short>, m: nat)
    requires s == Sinewave() && 3 <= m <= 10
    ensures IsTable(s, 10) && |Spread(m)| > 1 && SignsDiffer(s, m, Spread(m))
  {
    if m == 3 {
      CornersWrap(s, m, Corners());
    } else {
      SpreadDiffers(s, m - 1);
      SignsStayDifferent(s, m - 1, Spread(m - 1));
    }
  }

  // ------------------------------------------------------------ the corners at eight

  /** The first two passes give the 16-bit butterfly the values of the unbounded one. */
  lemma EarlySame(s: seq<Short>, p: nat, t: nat, q: Sample, z: Sample)
    requires s == Sinewave() && p < 2 && t < Pow2(p)
    ensures IsTable(s, 10)
    ensures var (u, v) := Forward(s)(p, t, q, z);
            (Widen(u), Widen(v)) == WideButterfly(s, 10)(p, t, Widen(q), Widen(z))
  {
    EarlyOne(p, t, Widen(q), Widen(z));
    var j := TwiddleIndex(10, p, t);
    CheckedCrossSound(TwiddleRe(s, 10, true, j), TwiddleIm(s, 10, false, true, j), q, z);
  }

  lemma CornersOne(s: seq<Short>)
    requires s == Sinewave()
    ensures IsTable(s, 10)
    ensures Forward(s)(0, 0, Sample(32767, 32767), Sample(-32767, -32767)).1 == Sample(32766, 32766)
    ensures Forward(s)(0, 0, Sample(-32767, 32767), Sample(32767, -32767)).1 == Sample(-32767, 32766)
  {
    CornerOne(Wide(32767, 32767), Wide(-32767, -32767));
    CornerOneTurned(Wide(-32767, 32767), Wide(32767, -32767));
    EarlySame(s, 0, 0, Sample(32767, 32767), Sample(-32767, -32767));
    EarlySame(s, 0, 0, Sample(-32767, 32767), Sample(32767, -32767));
  }

  lemma CornersTwo(s: seq<Short>, a: Sample, b: Sample)
    requires s == Sinewave() && a == Sample(32766, 32766) && b == Sample(-32767, 32766)
    ensures IsTable(s, 10) && Forward(s)(1, 1, a, b).0 == Sample(32766, 32767)
  {
    CornerIndices();
    CornerTwo(Widen(a), Widen(b));
    EarlySame(s, 1, 1, a, b);
  }

  lemma LastCorner(wr: Short, wi: Short, c: Sample)
    requires wr == 11584 && wi == -11585 && c == Sample(32766, 32767)
    ensures Cross(wr, wi, true, c, c).0.re == -25985
  {
    WideMpyIs(wr, c.re, 11583);
    WideMpyIs(wi, c.im, -11585);
    ProductSound(wr, c.re);
    ProductSound(wi, c.im);
    SumSound(FixMpy(wr, c.re), FixMpy(wi, c.im));
    assert Narrow(16383 + 23168) == -25985;
  }

  lemma CornersThree(s: seq<Short>, c: Sample)
    requires s == Sinewave() && c == Sample(32766, 32767)
    ensures IsTable(s, 10) && Forward(s)(2, 1, c, c).0.re == -25985
  {
    SinewaveIsUnit();
    CornerIndices();
    CornerEntries(s);
    CornerFactors(s, 0, 256, 128);
    LastCorner(11584, -11585, c);
  }

  lemma ChainAt<T>(bg: Butterfly<T>, m: nat, x: seq<T>, a: T, b: T, c: T)
    requires m == 3 && |x| == 8 && x[0] == x[1] && x[2] == x[3] && x[4] == x[5] && x[6] == x[7]
    requires bg(0, 0, x[0], x[4]).1 == a && bg(0, 0, x[2], x[6]).1 == b && bg(1, 1, a, b).0 == c
    ensures Pow2(m) == 8 && Dit(bg, m, x)[1] == bg(2, 1, c, c).0
  {
    Frequency1Of8(bg, x);
  }

  /** With any butterfly that does this to the corners, index 1 is that of pass 2. */
  lemma CornersChain(bf: Butterfly<Sample>, m: nat, x: seq<Sample>, a: Sample, b: Sample, c: Sample)
    requires m == 3 && x == Corners()
    requires bf(0, 0, Sample(32767, 32767), Sample(-32767, -32767)).1 == a
    requires bf(0, 0, Sample(-32767, 32767), Sample(32767, -32767)).1 == b
    requires bf(1, 1, a, b).0 == c
    ensures Pow2(m) == 8 && Dit(bf, m, x)[1] == bf(2, 1, c, c).0
  {
    ChainAt(bf, m, x, a, b, c);
  }

  lemma CornersFixed(s: seq<Short>, m: nat, x: seq<Sample>)
    requires s == Sinewave() && m == 3 && x == Corners()
    ensures IsTable(s, 10) && Pow2(m) == 8 && Dit(Forward(s), m, x)[1].re == -25985
  {
    var a, b, c := Sample(32766, 32766), Sample(-32767, 32766), Sample(32766, 32767);
    CornersOne(s);
    CornersTwo(s, a, b);
    CornersThree(s, c);
    CornersChain(Forward(s), m, x, a, b, c);
  }

  lemma CornersWide(s: seq<Short>, m: nat, x: seq<Sample>)
    requires s == Sinewave() && m == 3 && x == Corners()
    ensures IsTable(s, 10) && Pow2(m) == 8 && Dit(WideButterfly(s, 10), m, WidenAll(x))[1].re == 39551
  {
    var a, b, c := Wide(32766, 32766), Wide(-32767, 32766), Wide(32766, 32767);
    var y := WidenAll(x);
    CornerOne(y[0], y[4]);
    CornerOneTurned(y[2], y[6]);
    CornerTwo(a, b);
    CornerThree(c, c);
    ChainAt(WideButterfly(s, 10), m, y, a, b, c);
  }

  /** The third pass adds up to 39551, which no 16-bit word holds, and leaves -25985. */
  lemma CornersWrap(s: seq<Short>, m: nat, x: seq<Sample>)
    requires s == Sinewave() && m == 3 && x == Corners()
    ensures IsTable(s, 10) && Pow2(m) == 8
    ensures Dit(WideButterfly(s, 10), m, WidenAll(x))[1].re == 39551
    ensures Dit(Forward(s), m, x)[1].re == 39551 - 0x1_0000
  {
    CornersFixed(s, m, x);
    CornersWide(s, m, x);
  }

  // ------------------------------------------------------------ the exact sizes

  ghost function Equality(): (nat, Sample, Sample) -> bool
  {
    (p: nat, s: Sample, t: Sample) => s == t
  }

  /** Flags of later passes do not matter. */
  lemma FlagsBeyond(s: seq<Short>, m: nat, x: seq<Sample>)
    requires m <= 10 && |x| == Pow2(m) && IsTable(s, 10)
    ensures Dit(FixButterfly(s, 10, false, AllTrue(m)), m, x) == Dit(Forward(s), m, x)
  {
    var bf, bg := FixButterfly(s, 10, false, AllTrue(m)), Forward(s);
    assert forall p: nat {:trigger Carries(bf, bg, Equality(), p)} :: p < m ==> Carries(bf, bg, Equality(), p);
    DitSimulates(bf, bg, Equality(), m, x, x);
    forall i | 0 <= i < |x|
      ensures Dit(bf, m, x)[i] == Dit(bg, m, x)[i]
    {
      assert Equality()(m, Dit(bf, m, x)[i], Dit(bg, m, x)[i]);
    }
  }

  ghost predicate NeverCuts(s: seq<Short>, m: nat)
    requires IsTable(s, 10)
  {
    forall x: seq<Sample> :: |x| == Pow2(m) ==> NothingCut(s, 10, m, x)
  }

  ghost predicate NeverWraps(s: seq<Short>, m: nat)
    requires IsTable(s, 10)
  {
    forall x: seq<Sample> :: |x| == Pow2(m) ==> SameAsWide(s, 10, m, x)
  }

  lemma SpreadWraps(s: seq<Short>, m: nat)
    requires s == Sinewave() && 3 <= m <= 10
    ensures IsTable(s, 10) && !SameAsWide(s, 10, m, Spread(m)) && !NothingCut(s, 10, m, Spread(m))
  {
    SpreadDiffers(s, m);
    DifferentSigns(s, m, Spread(m));
  }

  lemma DifferentSigns(s: seq<Short>, m: nat, x: seq<Sample>)
    requires m <= 10 && IsTable(s, 10) && |x| == Pow2(m) && |x| > 1 && SignsDiffer(s, m, x)
    ensures !SameAsWide(s, 10, m, x) && !NothingCut(s, 10, m, x)
  {
    FlagsBeyond(s, m, x);
    if NothingCut(s, 10, m, x) {
      NothingCutIsSame(s, 10, m, x);
    }
  }

  /** The promise of the header, over all inputs of a size: fixed scaling prevents overflow if
      and only if there are at most four samples.  The same whether overflow means that some
      narrowing changes a value, or that the result is not the unbounded one. */
  lemma ScalingSuffices(s: seq<Short>, m: nat)
    requires s == Sinewave() && m <= 10
    ensures IsTable(s, 10)
    ensures NeverCuts(s, m) <==> m <= 2
    ensures NeverWraps(s, m) <==> m <= 2
  {
    SinewaveIsUnit();
    if m <= 2 {
      forall x: seq<Sample> | |x| == Pow2(m)
        ensures NothingCut(s, 10, m, x) && SameAsWide(s, 10, m, x)
      {
        SmallCutsNothing(m, x);
        NothingCutIsSame(s, 10, m, x);
      }
    } else {
      SpreadWraps(s, m);
    }
  }
}
