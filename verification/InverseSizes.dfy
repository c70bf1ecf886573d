/** For which sizes the variable scaling of the inverse transform keeps the 16-bit result that of
    unbounded integers.  Without an imaginary part of -32768, which the scan overlooks, up to four
    samples come out right always, and from eight on not for every input; with such parts only a
    single sample does. */
module InverseSizes {
  import opened Sequences
  import opened TransformSpec
  import opened FixFft
  import opened FixFftBounds
  import opened CheckedFft
  import opened SineTable
  import opened FftSizes

  // ------------------------------------------------------------ the transform in unbounded integers

  function WideHalve(shift: bool, q: Wide): Wide
  {
    if shift then Wide(q.re / 2, q.im / 2) else q
  }

  /** The butterfly of an inverse pass, halving or not, with nothing cut to 16 bits. */
  function WideInverseCross(wr: int, wi: int, shift: bool, q: Wide, z: Wide): (Wide, Wide)
  {
    var tr := WideMpy(wr, z.re) - WideMpy(wi, z.im);
    var ti := WideMpy(wr, z.im) + WideMpy(wi, z.re);
    var h := WideHalve(shift, q);
    (Wide(h.re + tr, h.im + ti), Wide(h.re - tr, h.im - ti))
  }

  function WideInverse(sine: seq<Short>, K: nat, flags: seq<bool>): Butterfly<Wide>
    requires IsTable(sine, K)
  {
    (p: nat, t: nat, q: Wide, z: Wide) =>
      if p < |flags| && p < K && t < Pow2(p) then
        var j := TwiddleIndex(K, p, t);
        WideInverseCross(TwiddleRe(sine, K, flags[p], j), TwiddleIm(sine, K, true, flags[p], j), flags[p], q, z)
      else
        (q, z)
  }

  /** The passes that halve are those whose scan, of the 16-bit samples, says so: what
      FixFft.Transform ensures of its flags. */
  ghost predicate OwnFlags(s: seq<Short>, m: nat, x: seq<Sample>, flags: seq<bool>)
    requires IsTable(s, 10) && |x| == Pow2(m)
  {
    && |flags| == m
    && forall p :: 0 <= p < m ==> flags[p] == AnyTooLarge(Nest(FixButterfly(s, 10, true, flags), m, p, Reorder(x, m)))
  }

  /** The 16-bit result is that of the same passes in unbounded integers. */
  ghost predicate SameInverse(s: seq<Short>, m: nat, x: seq<Sample>, flags: seq<bool>)
    requires IsTable(s, 10) && |x| == Pow2(m)
  {
    forall i :: 0 <= i < |x| ==>
      Widen(Dit(FixButterfly(s, 10, true, flags), m, x)[i]) == Dit(WideInverse(s, 10, flags), m, WidenAll(x))[i]
  }

  /** No imaginary part that the scan overlooks. */
  predicate Clean(x: seq<Sample>)
  {
    forall i :: 0 <= i < |x| ==> x[i].im != -0x8000
  }

  // ------------------------------------------------------------ one pass of two transforms

  lemma LowerOf<T>(bf: Butterfly<T>, p: nat, y: seq<T>, i: nat, l: nat, r: nat)
    requires Multiple(|y|, 2 * Pow2(p)) && i < |y| && l == Pow2(p) && r == i % (2 * l) < l
    ensures i + l < |y| && PassAt(bf, p, y, i) == bf(p, r, y[i], y[i + l]).0
  {
    PairInRange(|y|, l, i);
  }

  lemma UpperOf<T>(bf: Butterfly<T>, p: nat, y: seq<T>, i: nat, l: nat, r: nat)
    requires Multiple(|y|, 2 * Pow2(p)) && i < |y| && l == Pow2(p) && l <= r == i % (2 * l)
    ensures i >= l && PassAt(bf, p, y, i) == bf(p, r - l, y[i - l], y[i]).1
  {
    PairInRange(|y|, l, i);
  }

  lemma ModLess(i: nat, m: nat)
    requires m > 0
    ensures i % m < m
  {
  }

  ghost predicate PairRelated<A(!new), B(!new)>(bf: Butterfly<A>, bg: Butterfly<B>, rel: (A, B) -> bool, p: nat,
                                                y: seq<A>, w: seq<B>, t: nat, a: nat, b: nat)
    requires a < |y| == |w| && b < |y|
  {
    var (u, v) := bf(p, t, y[a], y[b]);
    var (c, d) := bg(p, t, w[a], w[b]);
    rel(u, c) && rel(v, d)
  }

  /** What holds between the butterflies of any two samples holds between the results of the pass. */
  lemma PassSimulates<A(!new), B(!new)>(bf: Butterfly<A>, bg: Butterfly<B>, rel: (A, B) -> bool, p: nat,
                                        y: seq<A>, w: seq<B>)
    requires |y| == |w| && Multiple(|y|, 2 * Pow2(p))
    requires forall t: nat, a: nat, b: nat :: t < Pow2(p) && a < |y| && b < |y| ==>
               PairRelated(bf, bg, rel, p, y, w, t, a, b)
    ensures forall i :: 0 <= i < |y| ==> rel(Pass(bf, p, y)[i], Pass(bg, p, w)[i])
  {
    var l, u, v := Pow2(p), Pass(bf, p, y), Pass(bg, p, w);
    forall i: nat | i < |y|
      ensures rel(u[i], v[i])
    {
      var r := i % (2 * l);
      if r < l {
        LowerOf(bf, p, y, i, l, r);
        LowerOf(bg, p, w, i, l, r);
        assert PairRelated(bf, bg, rel, p, y, w, r, i, i + l);
      } else {
        ModLess(i, 2 * l);
        UpperOf(bf, p, y, i, l, r);
        UpperOf(bg, p, w, i, l, r);
        assert PairRelated(bf, bg, rel, p, y, w, r - l, i - l, i);
      }
    }
  }

  // ------------------------------------------------------------ two and four samples

  lemma UnitMpyRange(x: int)
    requires -16383 <= x <= 16383
    ensures -16383 <= WideMpy(32767, x) <= 16383 && WideMpy(0, x) == 0
  {
  }

  lemma HalfMpyRange(x: int)
    requires Fits(x)
    ensures -16383 <= WideMpy(16383, x) <= 16383 && WideMpy(0, x) == 0
  {
  }

  /** The unhalved factors of the first two passes, and the halved ones. */
  predicate FirstFactor(wr: int, wi: int, shift: bool)
  {
    var w := if shift then 16383 else 32767;
    (wr == w && wi == 0) || (wr == 0 && wi == w)
  }

  lemma FirstProducts(wr: int, wi: int, shift: bool, z: Wide)
    requires FirstFactor(wr, wi, shift) && FitsBoth(z)
    requires shift || (-16383 <= z.re <= 16383 && -16383 <= z.im <= 16383)
    ensures -16383 <= WideMpy(wr, z.re) - WideMpy(wi, z.im) <= 16383
    ensures -16383 <= WideMpy(wr, z.im) + WideMpy(wi, z.re) <= 16383
    ensures ProductsFit(wr, wi, z)
  {
    if shift {
      HalfMpyRange(z.re);
      HalfMpyRange(z.im);
    } else {
      UnitMpyRange(z.re);
      UnitMpyRange(z.im);
    }
  }

  lemma HalveRange(shift: bool, x: Short)
    requires shift || -16383 <= x <= 16383
    ensures -16384 <= Halve(shift, x) <= 16383
    ensures Halve(shift, x) as int == if shift then (x as int) / 2 else x as int
  {
  }

  lemma SumInRange(h: Short, t: Short)
    requires -16384 <= h <= 16383 && -16383 <= t <= 16383
    ensures Sum(h, t) as int == (h as int) + t && Difference(h, t) as int == (h as int) - t
    ensures Sum(h, t) != -0x8000 && Difference(h, t) != -0x8000
  {
    SumSound(h, t);
  }

  /** The twisted sample of the first two passes: nothing is cut on the way. */
  lemma FirstTwisted(wr: Short, wi: Short, shift: bool, z: Sample, tr: Short, ti: Short)
    requires FirstFactor(wr, wi, shift) && (shift || !Beyond(z))
    requires tr == Difference(FixMpy(wr, z.re), FixMpy(wi, z.im)) && ti == Sum(FixMpy(wr, z.im), FixMpy(wi, z.re))
    ensures -16383 <= tr <= 16383 && tr as int == WideMpy(wr, z.re) - WideMpy(wi, z.im)
    ensures -16383 <= ti <= 16383 && ti as int == WideMpy(wr, z.im) + WideMpy(wi, z.re)
  {
    FirstProducts(wr, wi, shift, Widen(z));
    TwistedSound(wr, wi, z);
  }

  lemma CrossIs(wr: Short, wi: Short, shift: bool, q: Sample, z: Sample, tr: Short, ti: Short, hr: Short, hi: Short)
    requires tr == Difference(FixMpy(wr, z.re), FixMpy(wi, z.im)) && ti == Sum(FixMpy(wr, z.im), FixMpy(wi, z.re))
    requires hr == Halve(shift, q.re) && hi == Halve(shift, q.im)
    ensures Cross(wr, wi, shift, q, z)
         == (Sample(Sum(hr, tr), Sum(hi, ti)), Sample(Difference(hr, tr), Difference(hi, ti)))
  {
  }

  lemma WideCrossIs(wr: int, wi: int, shift: bool, q: Wide, z: Wide, tr: int, ti: int, hr: int, hi: int)
    requires tr == WideMpy(wr, z.re) - WideMpy(wi, z.im) && ti == WideMpy(wr, z.im) + WideMpy(wi, z.re)
    requires Wide(hr, hi) == WideHalve(shift, q)
    ensures WideInverseCross(wr, wi, shift, q, z) == (Wide(hr + tr, hi + ti), Wide(hr - tr, hi - ti))
  {
  }

  /** One butterfly of the first two passes: nothing is cut, and no part comes out as -32768. */
  lemma FirstCross(wr: Short, wi: Short, shift: bool, q: Sample, z: Sample)
    requires FirstFactor(wr, wi, shift) && (shift || (!Beyond(q) && !Beyond(z)))
    ensures var (u, v) := Cross(wr, wi, shift, q, z);
            && (Widen(u), Widen(v)) == WideInverseCross(wr, wi, shift, Widen(q), Widen(z))
            && u.im != -0x8000 && v.im != -0x8000
  {
    var tr, ti := Difference(FixMpy(wr, z.re), FixMpy(wi, z.im)), Sum(FixMpy(wr, z.im), FixMpy(wi, z.re));
    var hr, hi := Halve(shift, q.re), Halve(shift, q.im);
    FirstTwisted(wr, wi, shift, z, tr, ti);
    HalveRange(shift, q.re);
    HalveRange(shift, q.im);
    SumInRange(hr, tr);
    SumInRange(hi, ti);
    CrossIs(wr, wi, shift, q, z, tr, ti, hr, hi);
    WideCrossIs(wr, wi, shift, Widen(q), Widen(z), tr, ti, hr, hi);
  }

  lemma NegatedTwice(x: Short)
    ensures x != -0x8000 ==> Negated(Negated(x)) == x
  {
    NarrowId(-(x as int));
    NarrowId(x);
  }

  /** All that the first two passes read of the table: one and a quarter turn. */
  ghost predicate QuarterTurns(s: seq<Short>, K: nat)
  {
    && IsTable(s, K) && K == 10 && Pow2(K - 1) == 512 && Pow2(K - 2) == 256
    && s[0] == 0 && s[256] == 32767 && s[512] == 0
  }

  lemma SinewaveTurns(s: seq<Short>, K: nat)
    requires s == Sinewave() && K == 10
    ensures QuarterTurns(s, K)
  {
    SinewaveIsUnit();
    CornerEntries(s);
    Sizes();
  }

  /** The factor of an inverse pass, from two entries of the table. */
  lemma FactorValues(s: seq<Short>, K: nat, shift: bool, j: nat, c: Short, v: Short)
    requires IsTable(s, K) && j < Pow2(K - 1) && s[j + Pow2(K - 2)] == c && s[j] == v && v != -0x8000
    ensures TwiddleRe(s, K, shift, j) == Halve(shift, c) && TwiddleIm(s, K, true, shift, j) == Halve(shift, v)
  {
    NegatedTwice(v);
  }

  lemma HalvedFactor(shift: bool, wr: Short, wi: Short, c: Short, v: Short)
    requires wr == Halve(shift, c) && wi == Halve(shift, v) && ((c == 32767 && v == 0) || (c == 0 && v == 32767))
    ensures FirstFactor(wr, wi, shift)
  {
  }

  lemma {:induction false} InverseFactors(s: seq<Short>, K: nat, shift: bool, j: nat) returns (wr: Short, wi: Short)
    requires QuarterTurns(s, K) && (j == 0 || j == 256)
    ensures wr == TwiddleRe(s, K, shift, j) && wi == TwiddleIm(s, K, true, shift, j) && FirstFactor(wr, wi, shift)
  {
    var c, v := s[j + Pow2(K - 2)], s[j];
    FactorValues(s, K, shift, j, c, v);
    wr, wi := Halve(shift, c), Halve(shift, v);
    HalvedFactor(shift, wr, wi, c, v);
  }

  lemma EarlyIndex(K: nat, p: nat, t: nat)
    requires K == 10 && p < 2 && t < Pow2(p)
    ensures TwiddleIndex(K, p, t) == 0 || TwiddleIndex(K, p, t) == 256
  {
    CornerIndices();
    assert TwiddleIndex(K, p, 0) == 0;
    assert t == 0 || (p == 1 && t == 1);
  }

  /** Both butterflies of index j by their factor. */
  lemma InverseByFactor(s: seq<Short>, K: nat, flags: seq<bool>, p: nat, t: nat, j: nat, wr: Short, wi: Short,
                        q: Sample, z: Sample, q': Wide, z': Wide)
    requires IsTable(s, K) && p < K && p < |flags| && t < Pow2(p) && j == TwiddleIndex(K, p, t)
    requires wr == TwiddleRe(s, K, flags[p], j) && wi == TwiddleIm(s, K, true, flags[p], j)
    ensures FixButterfly(s, K, true, flags)(p, t, q, z) == Cross(wr, wi, flags[p], q, z)
    ensures WideInverse(s, K, flags)(p, t, q', z') == WideInverseCross(wr, wi, flags[p], q', z')
  {
  }

  lemma FirstButterfly(s: seq<Short>, K: nat, flags: seq<bool>, p: nat, t: nat, q: Sample, z: Sample)
    requires QuarterTurns(s, K) && p < 2 && p < |flags| && t < Pow2(p) && (flags[p] || (!Beyond(q) && !Beyond(z)))
    ensures var (u, v) := FixButterfly(s, K, true, flags)(p, t, q, z);
            && (Widen(u), Widen(v)) == WideInverse(s, K, flags)(p, t, Widen(q), Widen(z))
            && u.im != -0x8000 && v.im != -0x8000
  {
    var j := TwiddleIndex(K, p, t);
    EarlyIndex(K, p, t);
    var wr, wi := InverseFactors(s, K, flags[p], j);
    InverseByFactor(s, K, flags, p, t, j, wr, wi, q, z, Widen(q), Widen(z));
    FirstCross(wr, wi, flags[p], q, z);
  }

  lemma CleanScan(y: seq<Sample>, i: nat)
    requires Clean(y) && i < |y|
    ensures AnyTooLarge(y) || !Beyond(y[i])
  {
    TooLargeMeans(y[i]);
  }

  /** The right value, and clean. */
  ghost function RightAndClean(): (Sample, Wide) -> bool
  {
    (y: Sample, w: Wide) => Widen(y) == w && y.im != -0x8000
  }

  /** The butterfly of two samples that the scan has looked at. */
  lemma FirstPair(s: seq<Short>, K: nat, flags: seq<bool>, p: nat, y: seq<Sample>, t: nat, a: nat, b: nat)
    requires QuarterTurns(s, K) && p < 2 && p < |flags| && t < Pow2(p) && a < |y| && b < |y|
    requires Clean(y) && flags[p] == AnyTooLarge(y)
    ensures PairRelated(FixButterfly(s, K, true, flags), WideInverse(s, K, flags), RightAndClean(), p, y,
                        WidenAll(y), t,
                        a, b)
  {
    CleanScan(y, a);
    CleanScan(y, b);
    FirstButterfly(s, K, flags, p, t, y[a], y[b]);
  }

  lemma FirstPass(s: seq<Short>, K: nat, flags: seq<bool>, p: nat, y: seq<Sample>)
    requires QuarterTurns(s, K) && p < 2 && p < |flags| && Multiple(|y|, 2 * Pow2(p))
    requires Clean(y) && flags[p] == AnyTooLarge(y)
    ensures var u := Pass(FixButterfly(s, K, true, flags), p, y);
            Pass(WideInverse(s, K, flags), p, WidenAll(y)) == WidenAll(u) && Clean(u)
  {
    var bf, bw := FixButterfly(s, K, true, flags), WideInverse(s, K, flags);
    forall t: nat, a: nat, b: nat | t < Pow2(p) && a < |y| && b < |y|
      ensures PairRelated(bf, bw, RightAndClean(), p, y, WidenAll(y), t, a, b)
    {
      FirstPair(s, K, flags, p, y, t, a, b);
    }
    PassSimulates(bf, bw, RightAndClean(), p, y, WidenAll(y));
    FromRight(Pass(bf, p, y), Pass(bw, p, WidenAll(y)));
  }

  lemma FromRight(u: seq<Sample>, w: seq<Wide>)
    requires |u| == |w| && forall i :: 0 <= i < |u| ==> RightAndClean()(u[i], w[i])
    ensures w == WidenAll(u) && Clean(u)
  {
    forall i | 0 <= i < |u|
      ensures w[i] == Widen(u[i]) && u[i].im != -0x8000
    {
      assert RightAndClean()(u[i], w[i]);
    }
  }

  /** Pass by pass: the samples are those of the unbounded transform, and stay clean. */
  lemma {:induction false} FirstLevels(s: seq<Short>, m: nat, x: seq<Sample>, flags: seq<bool>, p: nat)
    requires QuarterTurns(s, 10) && p <= m <= 2 && |x| == Pow2(m) && Clean(x) && OwnFlags(s, m, x, flags)
    ensures var y := Nest(FixButterfly(s, 10, true, flags), m, p, Reorder(x, m));
            Nest(WideInverse(s, 10, flags), m, p, Reorder(WidenAll(x), m)) == WidenAll(y) && Clean(y)
  {
    var bf, bw, z := FixButterfly(s, 10, true, flags), WideInverse(s, 10, flags), Reorder(x, m);
    if p == 0 {
      assert Reorder(WidenAll(x), m) == WidenAll(z);
    } else {
      FirstLevels(s, m, x, flags, p - 1);
      Pow2Multiple(p, m);
      FirstPass(s, 10, flags, p - 1, Nest(bf, m, p - 1, z));
    }
  }

  /** One, two or four clean samples come out right. */
  lemma SmallInverse(s: seq<Short>, m: nat, x: seq<Sample>, flags: seq<bool>)
    requires QuarterTurns(s, 10) && m <= 2 && |x| == Pow2(m) && Clean(x) && OwnFlags(s, m, x, flags)
    ensures SameInverse(s, m, x, flags)
  {
    FirstLevels(s, m, x, flags, m);
    LoopNestIsDit(FixButterfly(s, 10, true, flags), m, x);
    LoopNestIsDit(WideInverse(s, 10, flags), m, WidenAll(x));
  }

  // ------------------------------------------------------------ zeros between the samples

  lemma ZeroCross(wr: Short, wi: Short, shift: bool, q: Sample, w: Wide)
    ensures var h := Sample(Halve(shift, q.re), Halve(shift, q.im)); Cross(wr, wi, shift, q, ZERO) == (h, h)
    ensures var h := WideHalve(shift, w); WideInverseCross(wr, wi, shift, w, Wide(0, 0)) == (h, h)
  {
    MpyZero(wr);
    MpyZero(wi);
    SumZero(0);
    SumZero(Halve(shift, q.re));
    SumZero(Halve(shift, q.im));
  }

  /** With a zero partner both outputs are the first input, halved if the pass halves. */
  lemma InverseAlone(s: seq<Short>, K: nat, flags: seq<bool>, p: nat, t: nat, q: Sample, w: Wide)
    requires IsTable(s, K) && p < |flags| <= K && t < Pow2(p)
    ensures var h := Sample(Halve(flags[p], q.re), Halve(flags[p], q.im));
            FixButterfly(s, K, true, flags)(p, t, q, ZERO) == (h, h)
    ensures var h := WideHalve(flags[p], w); WideInverse(s, K, flags)(p, t, w, Wide(0, 0)) == (h, h)
  {
    var j := TwiddleIndex(K, p, t);
    var wr, wi := TwiddleRe(s, K, flags[p], j), TwiddleIm(s, K, true, flags[p], j);
    InverseByFactor(s, K, flags, p, t, j, wr, wi, q, ZERO, w, Wide(0, 0));
    ZeroCross(wr, wi, flags[p], q, w);
  }

  /** A value that the butterflies of pass p leave alone. */
  ghost predicate Keeps<T(!new)>(bf: Butterfly<T>, p: nat, v: T)
  {
    forall t: nat :: t < Pow2(p) ==> bf(p, t, v, v) == (v, v)
  }

  lemma ConstantPassAt<T(!new)>(bf: Butterfly<T>, p: nat, y: seq<T>, i: nat, v: T)
    requires Multiple(|y|, 2 * Pow2(p)) && i < |y| && AllAre(y, v) && Keeps(bf, p, v)
    ensures PassAt(bf, p, y, i) == v
  {
    var l := Pow2(p);
    var r := i % (2 * l);
    if r < l {
      LowerOf(bf, p, y, i, l, r);
    } else {
      ModLess(i, 2 * l);
      UpperOf(bf, p, y, i, l, r);
    }
  }

  lemma {:induction false} NestOfConstants<T(!new)>(bf: Butterfly<T>, b: nat, p: nat, z: seq<T>, v: T)
    requires p <= b && |z| == Pow2(b) && AllAre(z, v) && forall q: nat :: q < p ==> Keeps(bf, q, v)
    ensures AllAre(Nest(bf, b, p, z), v)
  {
    if p == 0 {
    } else {
      NestOfConstants(bf, b, p - 1, z, v);
      var y := Nest(bf, b, p - 1, z);
      Pow2Multiple(p, b);
      var u := Pass(bf, p - 1, y);
      forall i: nat | i < |u|
        ensures u[i] == v
      {
        ConstantPassAt(bf, p - 1, y, i, v);
      }
    }
  }

  lemma DitOfConstants<T(!new)>(bf: Butterfly<T>, b: nat, x: seq<T>, v: T)
    requires |x| == Pow2(b) && AllAre(x, v) && forall q: nat :: q < b ==> Keeps(bf, q, v)
    ensures AllAre(Dit(bf, b, x), v)
  {
    LoopNestIsDit(bf, b, x);
    NestOfConstants(bf, b, b, Reorder(x, b), v);
  }

  lemma InverseKeepsZero(s: seq<Short>, flags: seq<bool>, p: nat)
    requires IsTable(s, 10) && p < |flags| <= 10
    ensures Keeps(FixButterfly(s, 10, true, flags), p, ZERO) && Keeps(WideInverse(s, 10, flags), p, Wide(0, 0))
  {
    forall t: nat | t < Pow2(p)
      ensures FixButterfly(s, 10, true, flags)(p, t, ZERO, ZERO) == (ZERO, ZERO)
      ensures WideInverse(s, 10, flags)(p, t, Wide(0, 0), Wide(0, 0)) == (Wide(0, 0), Wide(0, 0))
    {
      InverseAlone(s, 10, flags, p, t, ZERO, Wide(0, 0));
    }
  }

  lemma InverseZeros(s: seq<Short>, flags: seq<bool>, b: nat, x: seq<Sample>)
    requires IsTable(s, 10) && b <= |flags| <= 10 && |x| == Pow2(b) && AllAre(x, ZERO)
    ensures AllAre(Dit(FixButterfly(s, 10, true, flags), b, x), ZERO)
    ensures AllAre(Dit(WideInverse(s, 10, flags), b, WidenAll(x)), Wide(0, 0))
  {
    var bf, bw := FixButterfly(s, 10, true, flags), WideInverse(s, 10, flags);
    forall p: nat | p < b
      ensures Keeps(bf, p, ZERO) && Keeps(bw, p, Wide(0, 0))
    {
      InverseKeepsZero(s, flags, p);
    }
    DitOfConstants(bf, b, x, ZERO);
    DitOfConstants(bw, b, WidenAll(x), Wide(0, 0));
  }

  lemma ReorderedZeros(x: seq<Sample>, b: nat)
    requires |x| == Pow2(b) && AllAre(x, ZERO)
    ensures AllAre(Reorder(x, b), ZERO)
  {
  }

  lemma ScanOfZeros(z: seq<Sample>, y: seq<Sample>)
    requires AllAre(y, ZERO)
    ensures AnyTooLarge(z + y) <==> AnyTooLarge(z)
  {
    forall i | 0 <= i < |z| + |y|
      ensures (z + y)[i] == if i < |z| then z[i] else ZERO
    {
      assert i >= |z| ==> (z + y)[i] == y[i - |z|];
    }
    if i :| 0 <= i < |z| && TooLarge(z[i]) {
      assert TooLarge((z + y)[i]);
    }
  }

  /** Before each of the first m passes, the scan of the stretched samples sees what that of
      the samples saw. */
  lemma StretchScans(s: seq<Short>, m: nat, x: seq<Sample>, flags: seq<bool>, f: bool, p: nat)
    requires IsTable(s, 10) && |x| == Pow2(m) && p <= |flags| == m < 10
    ensures |Stretch(x)| == Pow2(m + 1)
    ensures AnyTooLarge(Nest(FixButterfly(s, 10, true, flags + [f]), m + 1, p, Reorder(Stretch(x), m + 1)))
       <==> AnyTooLarge(Nest(FixButterfly(s, 10, true, flags), m, p, Reorder(x, m)))
  {
    var bf, y := FixButterfly(s, 10, true, flags + [f]), Stretch(x);
    StretchHalves(x);
    ReorderSplit(y, m + 1);
    var u, v := Reorder(x, m), Reorder(Odds(y), m);
    ReorderedZeros(Odds(y), m);
    NestSplit(bf, m, p, u, v);
    forall q: nat | q < p
      ensures Keeps(bf, q, ZERO)
    {
      InverseKeepsZero(s, flags + [f], q);
    }
    NestOfConstants(bf, m, p, v, ZERO);
    ScanOfZeros(Nest(bf, m, p, u), Nest(bf, m, p, v));
    FlagsExtend(s, 10, true, flags, f, m, u);
  }

  // ------------------------------------------------------------ signs that stay apart

  /** One part negative in one of them only. */
  predicate Apart(y: Sample, w: Wide)
  {
    y.re < 0 <= w.re || w.im < 0 <= y.im
  }

  lemma ApartHalved(shift: bool, y: Sample, w: Wide)
    requires Apart(y, w)
    ensures Apart(Sample(Halve(shift, y.re), Halve(shift, y.im)), WideHalve(shift, w))
  {
  }

  ghost predicate ApartAt(s: seq<Short>, m: nat, x: seq<Sample>, flags: seq<bool>, i: nat)
    requires IsTable(s, 10) && |x| == Pow2(m) && i < |x|
  {
    Apart(Dit(FixButterfly(s, 10, true, flags), m, x)[i], Dit(WideInverse(s, 10, flags), m, WidenAll(x))[i])
  }

  lemma DitExtensional<T>(bf: Butterfly<T>, bg: Butterfly<T>, b: nat, x: seq<T>)
    requires |x| == Pow2(b)
    requires forall q: nat, t: nat, e: T, o: T :: q < b ==> bf(q, t, e, o) == bg(q, t, e, o)
    ensures Dit(bf, b, x) == Dit(bg, b, x)
  {
    LoopNestIsDit(bf, b, x);
    LoopNestIsDit(bg, b, x);
    NestExtensional(bf, bg, b, b, Reorder(x, b));
  }

  /** One more pass, over the samples with zeros between them. */
  lemma StretchedFix(s: seq<Short>, m: nat, x: seq<Sample>, flags: seq<bool>, f: bool, i: nat)
    requires IsTable(s, 10) && |x| == Pow2(m) && |flags| == m < 10 && i < |x|
    ensures |Stretch(x)| == Pow2(m + 1)
    ensures var e := Dit(FixButterfly(s, 10, true, flags), m, x)[i];
            Dit(FixButterfly(s, 10, true, flags + [f]), m + 1, Stretch(x))[i] == Sample(Halve(f, e.re), Halve(f, e.im))
  {
    var bf, bg, y := FixButterfly(s, 10, true, flags), FixButterfly(s, 10, true, flags + [f]), Stretch(x);
    StretchHalves(x);
    InverseZeros(s, flags + [f], m, Odds(y));
    DitExtensional(bf, bg, m, x);
    var e, o := Dit(bg, m, x), Dit(bg, m, Odds(y));
    assert Dit(bg, m + 1, y) == Combine(bg, m, e, o);
    InverseAlone(s, 10, flags + [f], m, i, e[i], Wide(0, 0));
  }

  lemma StretchedWide(s: seq<Short>, m: nat, x: seq<Sample>, flags: seq<bool>, f: bool, i: nat)
    requires IsTable(s, 10) && |x| == Pow2(m) && |flags| == m < 10 && i < |x|
    ensures |Stretch(x)| == Pow2(m + 1)
    ensures Dit(WideInverse(s, 10, flags + [f]), m + 1, WidenAll(Stretch(x)))[i]
         == WideHalve(f, Dit(WideInverse(s, 10, flags), m, WidenAll(x))[i])
  {
    var bf, bg, y := WideInverse(s, 10, flags), WideInverse(s, 10, flags + [f]), Stretch(x);
    StretchHalves(x);
    WidenHalves(y);
    InverseZeros(s, flags + [f], m, Odds(y));
    DitExtensional(bf, bg, m, WidenAll(x));
    var e, o := Dit(bg, m, WidenAll(x)), Dit(bg, m, WidenAll(Odds(y)));
    assert Dit(bg, m + 1, WidenAll(y)) == Combine(bg, m, e, o);
    InverseAlone(s, 10, flags + [f], m, i, ZERO, e[i]);
  }

  /** What the scan before the last pass adds. */
  lemma OwnFlagsStretch(s: seq<Short>, m: nat, x: seq<Sample>, flags: seq<bool>, f: bool)
    requires IsTable(s, 10) && |x| == Pow2(m) && m < 10 && OwnFlags(s, m, x, flags)
    requires f == AnyTooLarge(Nest(FixButterfly(s, 10, true, flags), m, m, Reorder(x, m)))
    ensures |Stretch(x)| == Pow2(m + 1) && OwnFlags(s, m + 1, Stretch(x), flags + [f])
  {
    var longer := flags + [f];
    forall p | 0 <= p <= m
      ensures longer[p] == AnyTooLarge(Nest(FixButterfly(s, 10, true, longer), m + 1, p, Reorder(Stretch(x), m + 1)))
    {
      StretchScans(s, m, x, flags, f, p);
      assert longer[p] == if p < m then flags[p] else f;
    }
  }

  /** Signs that are apart at some index are apart there at the next size too. */
  lemma {:induction false} ApartStretched(s: seq<Short>, m: nat, x: seq<Sample>, flags: seq<bool>, i: nat)
      returns (longer: seq<bool>)
    requires IsTable(s, 10) && |x| == Pow2(m) && m < 10 && OwnFlags(s, m, x, flags) && i < |x|
    requires ApartAt(s, m, x, flags, i)
    ensures |Stretch(x)| == Pow2(m + 1) && i < |Stretch(x)|
    ensures OwnFlags(s, m + 1, Stretch(x), longer) && ApartAt(s, m + 1, Stretch(x), longer, i)
  {
    var f := AnyTooLarge(Nest(FixButterfly(s, 10, true, flags), m, m, Reorder(x, m)));
    longer := flags + [f];
    OwnFlagsStretch(s, m, x, flags, f);
    StretchedFix(s, m, x, flags, f, i);
    StretchedWide(s, m, x, flags, f, i);
    ApartHalved(f, Dit(FixButterfly(s, 10, true, flags), m, x)[i], Dit(WideInverse(s, 10, flags), m, WidenAll(x))[i]);
  }

  lemma CleanStretched(x: seq<Sample>)
    ensures Clean(Stretch(x)) <==> Clean(x)
  {
    if Clean(x) {
      forall i | 0 <= i < |Stretch(x)|
        ensures Stretch(x)[i].im != -0x8000
      {
        assert i == 2 * (i / 2) || i == 2 * (i / 2) + 1;
      }
    } else {
      var i :| 0 <= i < |x| && x[i].im == -0x8000;
      assert Stretch(x)[2 * i] == x[i];
    }
  }

  // ------------------------------------------------------------ two overlooked samples

  lemma MissedCross(wr: Short, wi: Short, z: Sample)
    requires wr == 32767 && wi == 0 && z == Sample(0, -0x8000)
    ensures Cross(wr, wi, false, z, z).0.im == 1
  {
    assert FixMpy(wr, z.im) == -32767 && FixMpy(wi, z.re) == 0;
    NarrowId(-32767);
    assert Narrow(-0x8000 - 32767) == 1;
  }

  lemma FirstOfTwo<T>(bf: Butterfly<T>, m: nat, x: seq<T>)
    requires m == 1 && |x| == 2
    ensures Pow2(m) == 2 && Dit(bf, m, x)[0] == bf(0, 0, x[0], x[1]).0
  {
    assert Dit(bf, 0, Evens(x))[0] == x[0] && Dit(bf, 0, Odds(x))[0] == x[1];
  }

  lemma MissedScan(x: seq<Sample>)
    requires x == [Sample(0, -0x8000), Sample(0, -0x8000)]
    ensures OnlyMissed(x) && !AnyTooLarge(x)
  {
    assert Missed(x[0]) && Missed(x[1]);
    TooLargeMeans(x[0]);
    assert forall i :: 0 <= i < |x| ==> x[i] == x[0];
  }

  /** The butterfly of an unscaled pass by its entries of the table. */
  lemma InverseEntry(s: seq<Short>, K: nat, flags: seq<bool>, p: nat, t: nat, j: nat, wr: Short, wi: Short,
                     q: Sample, z: Sample)
    requires IsTable(s, K) && p < |flags| <= K && !flags[p] && t < Pow2(p) && j == TwiddleIndex(K, p, t)
    requires wr == s[j + Pow2(K - 2)] && wi == s[j] != -0x8000
    ensures FixButterfly(s, K, true, flags)(p, t, q, z) == Cross(wr, wi, false, q, z)
    ensures WideInverse(s, K, flags)(p, t, Widen(q), Widen(z)) == WideInverseCross(wr, wi, false, Widen(q), Widen(z))
  {
    FactorValues(s, K, false, j, wr, wi);
    InverseByFactor(s, K, flags, p, t, j, wr, wi, q, z, Widen(q), Widen(z));
  }

  /** The first inverse pass multiplies by one. */
  lemma InverseFirst(s: seq<Short>, K: nat, flags: seq<bool>, q: Sample, z: Sample)
    requires QuarterTurns(s, K) && 0 < |flags| <= K && !flags[0]
    ensures FixButterfly(s, K, true, flags)(0, 0, q, z) == Cross(32767, 0, false, q, z)
    ensures WideInverse(s, K, flags)(0, 0, Widen(q), Widen(z)) == WideInverseCross(32767, 0, false, Widen(q), Widen(z))
  {
    InverseEntry(s, K, flags, 0, 0, 0, 32767, 0, q, z);
  }

  /** The one of butterfly 1 of pass 2, an eighth of a turn. */
  lemma InverseEighth(s: seq<Short>, K: nat, flags: seq<bool>, q: Sample, z: Sample)
    requires QuarterTurns(s, K) && s[128] == s[384] == 23169 && 2 < |flags| <= K && !flags[2]
    ensures FixButterfly(s, K, true, flags)(2, 1, q, z) == Cross(23169, 23169, false, q, z)
    ensures WideInverse(s, K, flags)(2, 1, Widen(q), Widen(z))
         == WideInverseCross(23169, 23169, false, Widen(q), Widen(z))
  {
    CornerIndices();
    InverseEntry(s, K, flags, 2, 1, 128, 23169, 23169, q, z);
  }

  lemma MissedCrossWide(wr: int, wi: int, z: Wide)
    requires wr == 32767 && wi == 0 && z == Wide(0, -0x8000)
    ensures WideInverseCross(wr, wi, false, z, z).0.im == -65535
  {
  }

  function Overlooked(): (x: seq<Sample>)
    ensures |x| == 2
  {
    [Sample(0, -0x8000), Sample(0, -0x8000)]
  }

  /** Two samples of -32768i: the scan overlooks both, the pass is not scaled, and their sum,
      -65535i, comes out as i. */
  lemma MissedWraps(s: seq<Short>, m: nat, flags: seq<bool>, x: seq<Sample>)
    requires s == Sinewave() && m == 1 && flags == [false] && x == Overlooked()
    ensures IsTable(s, 10) && Pow2(m) == 2 && OnlyMissed(x) && OwnFlags(s, m, x, flags)
    ensures Dit(FixButterfly(s, 10, true, flags), m, x)[0].im == 1
    ensures Dit(WideInverse(s, 10, flags), m, WidenAll(x))[0].im == -65535
  {
    SinewaveTurns(s, 10);
    MissedScan(x);
    MissedFlags(s, m, x, flags);
    InverseFirst(s, 10, flags, x[0], x[1]);
    MissedCross(32767, 0, x[0]);
    MissedCrossWide(32767, 0, Widen(x[0]));
    FirstOfTwo(FixButterfly(s, 10, true, flags), m, x);
    FirstOfTwo(WideInverse(s, 10, flags), m, WidenAll(x));
  }

  lemma MissedFlags(s: seq<Short>, m: nat, x: seq<Sample>, flags: seq<bool>)
    requires IsTable(s, 10) && m == 1 && flags == [false] && |x| == 2 && x[0] == x[1] && !AnyTooLarge(x)
    ensures Pow2(m) == 2 && OwnFlags(s, m, x, flags)
  {
    assert Reorder(x, m) == x;
  }

  // ------------------------------------------------------------ a peak within the threshold

  /** Two samples within half of the range, and six zeros. */
  function Peak(): (x: seq<Sample>)
    ensures |x| == 8
  {
    [Sample(16383, 16383), Sample(16383, -16383), ZERO, ZERO, ZERO, ZERO, ZERO, ZERO]
  }

  lemma PeakCross(wr: Short, wi: Short, q: Sample, z: Sample)
    requires wr == 23169 && wi == 23169 && q == Sample(16383, 16383) && z == Sample(16383, -16383)
    ensures Cross(wr, wi, false, q, z).0.re == -25985
  {
    assert FixMpy(wr, z.re) == 11584 && FixMpy(wi, z.im) == -11584;
    NarrowId(23168);
    assert Narrow(16383 + 23168) == -25985;
  }

  /** A butterfly that passes its first input on when the second is zero. */
  ghost predicate PassesOn<T(!new)>(bf: Butterfly<T>, p: nat, zero: T)
  {
    forall t: nat, q: T :: t < Pow2(p) ==> bf(p, t, q, zero) == (q, q)
  }

  lemma InversePassesOn(s: seq<Short>, K: nat, flags: seq<bool>, p: nat)
    requires IsTable(s, K) && p < |flags| <= K && !flags[p]
    ensures PassesOn(FixButterfly(s, K, true, flags), p, ZERO)
    ensures PassesOn(WideInverse(s, K, flags), p, Wide(0, 0))
  {
    forall t: nat, q: Sample | t < Pow2(p)
      ensures FixButterfly(s, K, true, flags)(p, t, q, ZERO) == (q, q)
    {
      InverseAlone(s, K, flags, p, t, q, Wide(0, 0));
    }
    forall t: nat, q: Wide | t < Pow2(p)
      ensures WideInverse(s, K, flags)(p, t, q, Wide(0, 0)) == (q, q)
    {
      InverseAlone(s, K, flags, p, t, ZERO, q);
    }
  }

  lemma PeakFirst<T(!new)>(bf: Butterfly<T>, m: nat, x: seq<T>, zero: T)
    requires m == 3 && |x| == 8 && (forall i :: 2 <= i < 8 ==> x[i] == zero)
    requires PassesOn(bf, 0, zero) && PassesOn(bf, 1, zero)
    ensures Pow2(m) == 8 && Dit(bf, m, x)[1] == bf(2, 1, x[0], x[1]).0
  {
    assert Pow2(0) == 1 && Pow2(1) == 2;
    Frequency1Of8(bf, x);
    assert bf(0, 0, x[0], zero) == (x[0], x[0]) && bf(0, 0, x[1], zero) == (x[1], x[1])
      && bf(0, 0, zero, zero) == (zero, zero);
    assert bf(1, 1, x[0], zero) == (x[0], x[0]) && bf(1, 1, x[1], zero) == (x[1], x[1]);
  }

  // ------------------------------------------------------------ what the scans of the peak see

  /** Only values of the input. */
  ghost predicate Drawn(z: seq<Sample>, a: Sample, b: Sample)
  {
    forall i :: 0 <= i < |z| ==> z[i] == a || z[i] == b || z[i] == ZERO
  }

  /** The partners of pass p are zero. */
  ghost predicate PartnersZero(z: seq<Sample>, l: nat)
    requires l > 0
  {
    forall i :: 0 <= i < |z| && i % (2 * l) >= l ==> z[i] == ZERO
  }

  lemma PassCopiesAt(bf: Butterfly<Sample>, p: nat, l: nat, z: seq<Sample>, i: nat)
    requires Multiple(|z|, 2 * Pow2(p)) && l == Pow2(p) && PassesOn(bf, p, ZERO) && PartnersZero(z, l) && i < |z|
    ensures i % (2 * l) < l ==> PassAt(bf, p, z, i) == z[i]
    ensures i % (2 * l) >= l ==> i >= l && PassAt(bf, p, z, i) == z[i - l]
  {
    var r := i % (2 * l);
    PairInRange(|z|, l, i);
    PartnerResidue(i, l);
    if r < l {
      assert z[i + l] == ZERO;
      assert bf(p, r, z[i], ZERO) == (z[i], z[i]);
    } else {
      assert z[i] == ZERO;
      assert bf(p, r - l, z[i - l], ZERO) == (z[i - l], z[i - l]);
    }
  }

  lemma RevTwo()
    ensures Rev(2, 0) == 0 && Rev(2, 1) == 2 && Rev(2, 2) == 1 && Rev(2, 3) == 3
  {
    assert Rev(1, 0) == 0 && Rev(1, 1) == 1;
  }

  lemma RevThree(m: nat)
    requires m == 3
    ensures Rev(m, 0) == 0 && Rev(m, 4) == 1
    ensures forall i: nat :: i < 8 && i != 0 && i != 4 ==> Rev(m, i) > 1
  {
    RevTwo();
    assert Pow2(2) == 4;
  }

  lemma PeakReordered(x: seq<Sample>, m: nat)
    requires x == Peak() && m == 3
    ensures Pow2(m) == 8 && Reorder(x, m) == [x[0], ZERO, ZERO, ZERO, x[1], ZERO, ZERO, ZERO]
  {
    assert Pow2(1) == 2 && Pow2(2) == 4;
    RevThree(m);
    forall i: nat | i < 8
      ensures Reorder(x, m)[i] == if i == 0 then x[0] else if i == 4 then x[1] else ZERO
    {
      assert Reorder(x, m)[i] == x[Rev(m, i)];
    }
  }

  /** One pass over eight values, when the partners are zero. */
  lemma PassDoubles(bf: Butterfly<Sample>, p: nat, l: nat, z: seq<Sample>)
    requires |z| == 8 && Multiple(8, 2 * Pow2(p)) && l == Pow2(p) && (l == 1 || l == 2)
    requires PassesOn(bf, p, ZERO) && PartnersZero(z, l)
    ensures Pass(bf, p, z) == Doubled(z, l)
  {
    forall i: nat | i < 8
      ensures Pass(bf, p, z)[i] == Doubled(z, l)[i]
    {
      PassCopiesAt(bf, p, l, z, i);
    }
  }

  /** Each value copied to its partner. */
  function Doubled(z: seq<Sample>, l: nat): (y: seq<Sample>)
    requires |z| == 8 && (l == 1 || l == 2)
    ensures |y| == 8
  {
    seq(8, i requires 0 <= i < 8 => if i % (2 * l) < l then z[i] else z[i - l])
  }

  /** What the passes leave of the peak before each scan. */
  lemma PeakLevels(bf: Butterfly<Sample>, m: nat, x: seq<Sample>)
    requires x == Peak() && m == 3 && PassesOn(bf, 0, ZERO) && PassesOn(bf, 1, ZERO)
    ensures Pow2(m) == 8
    ensures forall p :: 0 <= p < m ==> Drawn(Nest(bf, m, p, Reorder(x, m)), x[0], x[1])
  {
    PeakReordered(x, m);
    var z := Reorder(x, m);
    var y := Doubled(z, 1);
    PeakPartners(z, x[0], x[1]);
    PeakNests(bf, m, z);
    DoubledDrawn(z, 1, x[0], x[1]);
    DoubledDrawn(y, 2, x[0], x[1]);
  }

  lemma PeakPartners(z: seq<Sample>, a: Sample, b: Sample)
    requires z == [a, ZERO, ZERO, ZERO, b, ZERO, ZERO, ZERO]
    ensures Drawn(z, a, b) && PartnersZero(z, 1) && PartnersZero(Doubled(z, 1), 2)
  {
  }

  lemma DoubledDrawn(z: seq<Sample>, l: nat, a: Sample, b: Sample)
    requires |z| == 8 && (l == 1 || l == 2) && Drawn(z, a, b)
    ensures Drawn(Doubled(z, l), a, b)
  {
  }

  lemma PeakNests(bf: Butterfly<Sample>, m: nat, z: seq<Sample>)
    requires m == 3 && |z| == 8 && PassesOn(bf, 0, ZERO) && PassesOn(bf, 1, ZERO)
    requires PartnersZero(z, 1) && PartnersZero(Doubled(z, 1), 2)
    ensures Pow2(m) == 8 && Nest(bf, m, 0, z) == z && Nest(bf, m, 1, z) == Doubled(z, 1)
    ensures Nest(bf, m, 2, z) == Doubled(Doubled(z, 1), 2)
  {
    assert Pow2(0) == 1 && Pow2(1) == 2 && Multiple(8, 2) && Multiple(8, 4);
    PassDoubles(bf, 0, 1, z);
    PassDoubles(bf, 1, 2, Doubled(z, 1));
    assert Nest(bf, m, 1, z) == Pass(bf, 0, z);
  }

  lemma DrawnUnscaled(z: seq<Sample>, a: Sample, b: Sample)
    requires Drawn(z, a, b) && !Beyond(a) && !Beyond(b)
    ensures !AnyTooLarge(z)
  {
    forall i | 0 <= i < |z|
      ensures !TooLarge(z[i])
    {
      TooLargeMeans(z[i]);
    }
  }

  lemma PeakCrossWide(wr: int, wi: int, q: Wide, z: Wide)
    requires wr == 23169 && wi == 23169 && q == Wide(16383, 16383) && z == Wide(16383, -16383)
    ensures WideInverseCross(wr, wi, false, q, z).0.re == 39551
  {
    WideMpyIs(wr, z.re, 11584);
    WideMpyIs(wi, z.im, -11584);
  }

  /** No scan of the peak finds anything. */
  lemma PeakFlags(s: seq<Short>, m: nat, flags: seq<bool>, x: seq<Sample>)
    requires IsTable(s, 10) && m == 3 && flags == [false, false, false] && x == Peak()
    ensures Pow2(m) == 8 && OwnFlags(s, m, x, flags)
  {
    var bf := FixButterfly(s, 10, true, flags);
    InversePassesOn(s, 10, flags, 0);
    InversePassesOn(s, 10, flags, 1);
    PeakLevels(bf, m, x);
    forall p | 0 <= p < m
      ensures !AnyTooLarge(Nest(bf, m, p, Reorder(x, m)))
    {
      DrawnUnscaled(Nest(bf, m, p, Reorder(x, m)), x[0], x[1]);
    }
  }

  /** Index 1 of the peak is the butterfly of its first two samples. */
  lemma PeakIndex(s: seq<Short>, K: nat, m: nat, flags: seq<bool>, x: seq<Sample>)
    requires IsTable(s, K) && K >= 3 && m == 3 && flags == [false, false, false] && x == Peak()
    ensures Pow2(m) == 8
    ensures Dit(FixButterfly(s, K, true, flags), m, x)[1] == FixButterfly(s, K, true, flags)(2, 1, x[0], x[1]).0
    ensures Dit(WideInverse(s, K, flags), m, WidenAll(x))[1]
         == WideInverse(s, K, flags)(2, 1, Widen(x[0]), Widen(x[1])).0
  {
    InversePassesOn(s, K, flags, 0);
    InversePassesOn(s, K, flags, 1);
    PeakFirst(FixButterfly(s, K, true, flags), m, x, ZERO);
    PeakFirst(WideInverse(s, K, flags), m, WidenAll(x), Wide(0, 0));
  }

  lemma PeakValues(s: seq<Short>, K: nat, flags: seq<bool>, q: Sample, z: Sample)
    requires QuarterTurns(s, K) && s[128] == s[384] == 23169 && 2 < |flags| <= K && !flags[2]
    requires q == Sample(16383, 16383) && z == Sample(16383, -16383)
    ensures FixButterfly(s, K, true, flags)(2, 1, q, z).0.re == -25985
    ensures WideInverse(s, K, flags)(2, 1, Widen(q), Widen(z)).0.re == 39551
  {
    InverseEighth(s, K, flags, q, z);
    PeakCross(23169, 23169, q, z);
    PeakCrossWide(23169, 23169, Widen(q), Widen(z));
  }

  lemma PeakResult(s: seq<Short>, K: nat, m: nat, flags: seq<bool>, x: seq<Sample>)
    requires QuarterTurns(s, K) && s[128] == s[384] == 23169
    requires m == 3 && flags == [false, false, false] && x == Peak()
    ensures Pow2(m) == 8
    ensures Dit(FixButterfly(s, K, true, flags), m, x)[1].re == -25985
    ensures Dit(WideInverse(s, K, flags), m, WidenAll(x))[1].re == 39551
  {
    var q, z := Sample(16383, 16383), Sample(16383, -16383);
    PeakValues(s, K, flags, q, z);
    PeakIndex(s, K, m, flags, x);
    assert x[0] == q && x[1] == z;
  }

  /** Eight samples within half of the range: no scan finds anything, so no pass is scaled, and
      the last pass adds up to 39551, which comes out negative. */
  lemma ThresholdWraps(s: seq<Short>, m: nat, flags: seq<bool>, x: seq<Sample>)
    requires s == Sinewave() && m == 3 && flags == [false, false, false] && x == Peak()
    ensures IsTable(s, 10) && Pow2(m) == 8 && OwnFlags(s, m, x, flags)
    ensures Dit(FixButterfly(s, 10, true, flags), m, x)[1].re == 39551 - 0x1_0000
    ensures Dit(WideInverse(s, 10, flags), m, WidenAll(x))[1].re == 39551
  {
    SinewaveTurns(s, 10);
    CornerEntries(s);
    PeakFlags(s, m, flags, x);
    PeakResult(s, 10, m, flags, x);
  }

  // ------------------------------------------------------------ the exact sizes

  /** Every input has its flags. */
  lemma {:induction false} FollowScans(s: seq<Short>, m: nat, x: seq<Sample>, k: nat) returns (flags: seq<bool>)
    requires IsTable(s, 10) && |x| == Pow2(m) && k <= m
    ensures |flags| == k
    ensures forall p :: 0 <= p < k ==>
              flags[p] == AnyTooLarge(Nest(FixButterfly(s, 10, true, flags), m, p, Reorder(x, m)))
  {
    if k == 0 {
      flags := [];
    } else {
      var fewer := FollowScans(s, m, x, k - 1);
      var f := AnyTooLarge(Nest(FixButterfly(s, 10, true, fewer), m, k - 1, Reorder(x, m)));
      flags := fewer + [f];
      FlagsExtend(s, 10, true, fewer, f, m, Reorder(x, m));
    }
  }

  /** The sign is wrong at index i. */
  ghost predicate WrongAt(s: seq<Short>, m: nat, x: seq<Sample>, flags: seq<bool>, i: nat)
    requires IsTable(s, 10) && |x| == Pow2(m)
  {
    i < |x| && OwnFlags(s, m, x, flags) && ApartAt(s, m, x, flags, i)
  }

  lemma WrongStretched(s: seq<Short>, m: nat, x: seq<Sample>, flags: seq<bool>, i: nat)
    returns (y: seq<Sample>, longer: seq<bool>)
    requires IsTable(s, 10) && |x| == Pow2(m) && m < 10 && WrongAt(s, m, x, flags, i)
    ensures |y| == Pow2(m + 1) && WrongAt(s, m + 1, y, longer, i) && (Clean(x) ==> Clean(y))
  {
    y := Stretch(x);
    longer := ApartStretched(s, m, x, flags, i);
    CleanStretched(x);
  }

  /** An input that comes out with a wrong sign gives one of every larger size. */
  lemma {:induction false} WrongAtAllSizes(s: seq<Short>, m0: nat, x: seq<Sample>, flags: seq<bool>, i: nat, m: nat)
    returns (y: seq<Sample>, longer: seq<bool>)
    requires IsTable(s, 10) && |x| == Pow2(m0) && m0 <= m <= 10 && WrongAt(s, m0, x, flags, i)
    ensures |y| == Pow2(m) && WrongAt(s, m, y, longer, i) && (Clean(x) ==> Clean(y))
  {
    if m == m0 {
      y, longer := x, flags;
    } else {
      var z, fewer := WrongAtAllSizes(s, m0, x, flags, i, m - 1);
      y, longer := WrongStretched(s, m - 1, z, fewer, i);
    }
  }

  ghost predicate NeverWrong(s: seq<Short>, m: nat, clean: bool)
    requires IsTable(s, 10)
  {
    forall x: seq<Sample>, flags: seq<bool> ::
      |x| == Pow2(m) && OwnFlags(s, m, x, flags) && (clean ==> Clean(x)) ==> SameInverse(s, m, x, flags)
  }

  lemma WrongIsWrong(s: seq<Short>, m: nat, x: seq<Sample>, flags: seq<bool>, i: nat, clean: bool)
    requires IsTable(s, 10) && |x| == Pow2(m) && WrongAt(s, m, x, flags, i) && (clean ==> Clean(x))
    ensures !NeverWrong(s, m, clean)
  {
    assert !SameInverse(s, m, x, flags);
  }

  lemma PeakIsClean(x: seq<Sample>)
    requires x == Peak()
    ensures Clean(x)
  {
  }

  /** From eight samples on: the peak. */
  lemma LargeInverse(s: seq<Short>, m0: nat, m: nat, clean: bool)
    requires s == Sinewave() && 3 == m0 <= m <= 10
    ensures IsTable(s, 10) && !NeverWrong(s, m, clean)
  {
    var x, flags := Peak(), [false, false, false];
    ThresholdWraps(s, m0, flags, x);
    PeakIsClean(x);
    var y, longer := WrongAtAllSizes(s, m0, x, flags, 1, m);
    WrongIsWrong(s, m, y, longer, 1, clean);
  }

  /** From two samples on: the overlooked ones. */
  lemma UncleanInverse(s: seq<Short>, m0: nat, m: nat)
    requires s == Sinewave() && 1 == m0 <= m <= 10
    ensures IsTable(s, 10) && !NeverWrong(s, m, false)
  {
    var x, flags := Overlooked(), [false];
    MissedWraps(s, m0, flags, x);
    var y, longer := WrongAtAllSizes(s, m0, x, flags, 0, m);
    WrongIsWrong(s, m, y, longer, 0, false);
  }

  lemma CleanInverse(s: seq<Short>, m: nat)
    requires QuarterTurns(s, 10) && m <= 2
    ensures NeverWrong(s, m, true)
  {
    forall x: seq<Sample>, flags: seq<bool> | |x| == Pow2(m) && OwnFlags(s, m, x, flags) && Clean(x)
      ensures SameInverse(s, m, x, flags)
    {
      SmallInverse(s, m, x, flags);
    }
  }

  lemma SingleInverse(s: seq<Short>)
    requires IsTable(s, 10)
    ensures NeverWrong(s, 0, false)
  {
  }

  /** The variable scaling of the inverse transform, over all inputs of a size: without an
      imaginary part of -32768 none comes out wrong if and only if there are at most four
      samples, and with such parts if and only if there is one sample. */
  lemma VariableScalingSuffices(s: seq<Short>, m: nat)
    requires s == Sinewave() && m <= 10
    ensures IsTable(s, 10)
    ensures NeverWrong(s, m, true) <==> m <= 2
    ensures NeverWrong(s, m, false) <==> m == 0
  {
    SinewaveTurns(s, 10);
    if m <= 2 {
      CleanInverse(s, m);
    } else {
      LargeInverse(s, 3, m, true);
    }
    if m == 0 {
      SingleInverse(s);
    } else {
      UncleanInverse(s, 1, m);
    }
  }

  /** fix_fft, inverse, on arrays of up to four clean samples: the result of the same passes in
      unbounded integers. */
  method InverseInPlace(fr: array<Short>, fi: array<Short>, m: nat, s: seq<Short>)
    returns (scale: int, ghost flags: seq<bool>)
    requires s == Sinewave() && fr != fi && m <= 2 && fr.Length == fi.Length == Pow2(m)
    requires Clean(View(fr[..], fi[..]))
    modifies fr, fi
    ensures IsTable(s, 10) && |flags| == m && scale == |set p: nat | p < m && flags[p]|
    ensures OwnFlags(s, m, old(View(fr[..], fi[..])), flags)
    ensures WidenAll(View(fr[..], fi[..])) == Dit(WideInverse(s, 10, flags), m, WidenAll(old(View(fr[..], fi[..]))))
  {
    SinewaveTurns(s, 10);
    ghost var x := View(fr[..], fi[..]);
    scale, flags := Transform(fr, fi, m, true, s, 10);
    SmallInverse(s, m, x, flags);
  }
}
