/** lib/fix_fft.c, forward direction: when the fixed scaling really does prevent overflow.

    The header says that one halving per pass keeps the sums in range.  That holds for samples
    inside a disc of the complex plane: the modulus grows by less than 4 per pass, from
    rounding alone.  It does not hold for the corners of the 16-bit square. */
module FixFftBounds {
  import opened TransformSpec
  import opened FixFft

  /** A sample in unbounded integers. */
  datatype Wide = Wide(re: int, im: int)

  function Widen(s: Sample): Wide
  {
    Wide(s.re, s.im)
  }

  function WidenAll(x: seq<Sample>): (y: seq<Wide>)
    ensures |y| == |x|
    ensures forall i :: 0 <= i < |x| ==> y[i] == Widen(x[i])
  {
    seq(|x|, i requires 0 <= i < |x| => Widen(x[i]))
  }

  /** Product of two fractions of 2^15, rounded to nearest. */
  function WideMpy(a: int, b: int): int
  {
    (a * b + 0x4000) / 0x8000
  }

  /** The halving butterfly with nothing cut to 16 bits. */
  function WideCross(wr: int, wi: int, q: Wide, z: Wide): (Wide, Wide)
  {
    var tr := WideMpy(wr, z.re) - WideMpy(wi, z.im);
    var ti := WideMpy(wr, z.im) + WideMpy(wi, z.re);
    (Wide(q.re / 2 + tr, q.im / 2 + ti), Wide(q.re / 2 - tr, q.im / 2 - ti))
  }

  function WideButterfly(sine: seq<Short>, K: nat): Butterfly<Wide>
    requires IsTable(sine, K)
  {
    (p: nat, t: nat, q: Wide, z: Wide) =>
      if p < K && t < Pow2(p) then
        var j := TwiddleIndex(K, p, t);
        WideCross(TwiddleRe(sine, K, true, j), TwiddleIm(sine, K, false, true, j), q, z)
      else
        (q, z)
  }

  ghost predicate InDisc(s: Wide, R: int)
  {
    R >= 0 && s.re * s.re + s.im * s.im <= R * R
  }

  /** No entry pair of the table is longer than one. */
  ghost predicate UnitTable(sine: seq<Short>, K: nat)
  {
    && IsTable(sine, K)
    && forall j: nat :: j < Pow2(K - 1) ==>
         InDisc(Wide(sine[QuarterOn(K, j)], sine[j]), 0x8000)
  }

  function QuarterOn(K: nat, j: nat): nat
    requires K >= 2
  {
    j + Pow2(K - 2)
  }

  // ------------------------------------------------------------ plane geometry

  lemma Cauchy(a: int, b: int, c: int, d: int)
    ensures (a * c + b * d) * (a * c + b * d) <= (a * a + b * b) * (c * c + d * d)
  {
    var e := a * d - b * c;
    assert (a * a + b * b) * (c * c + d * d) == (a * c + b * d) * (a * c + b * d) + e * e by {
      Lagrange(a, b, c, d);
    }
    assert e * e >= 0;
  }

  lemma Lagrange(a: int, b: int, c: int, d: int)
    ensures (a * a + b * b) * (c * c + d * d)
         == (a * c + b * d) * (a * c + b * d) + (a * d - b * c) * (a * d - b * c)
  {
  }

  lemma SquareGrows(x: int, y: int)
    ensures 0 <= y < x ==> y * y < x * x
  {
  }

  lemma RootLe(x: int, y: int)
    requires y >= 0 && x * x <= y * y
    ensures -y <= x <= y
  {
    SquareGrows(x, y);
    SquareGrows(-x, y);
  }

  lemma MulLe(a: int, b: int, c: int, d: int)
    requires 0 <= a <= c && 0 <= b <= d
    ensures a * b <= c * d
  {
    assert a * b <= c * b <= c * d;
  }

  lemma Triangle(s: Wide, t: Wide, A: int, B: int)
    requires InDisc(s, A) && InDisc(t, B)
    ensures InDisc(Wide(s.re + t.re, s.im + t.im), A + B)
    ensures InDisc(Wide(s.re - t.re, s.im - t.im), A + B)
  {
    var dot := s.re * t.re + s.im * t.im;
    Cauchy(s.re, s.im, t.re, t.im);
    MulLe(s.re * s.re + s.im * s.im, t.re * t.re + t.im * t.im, A * A, B * B);
    assert dot * dot <= (A * B) * (A * B);
    RootLe(dot, A * B);
    Expand(s, t, dot);
    assert (A + B) * (A + B) == A * A + B * B + 2 * (A * B);
  }

  lemma Expand(s: Wide, t: Wide, dot: int)
    requires dot == s.re * t.re + s.im * t.im
    ensures var (u, v) := (s.re + t.re, s.im + t.im);
            u * u + v * v == s.re * s.re + s.im * s.im + (t.re * t.re + t.im * t.im) + 2 * dot
    ensures var (u, v) := (s.re - t.re, s.im - t.im);
            u * u + v * v == s.re * s.re + s.im * s.im + (t.re * t.re + t.im * t.im) - 2 * dot
  {
  }

  /** Multiplying two complex numbers multiplies their lengths. */
  lemma ProductInDisc(w: Wide, z: Wide, A: int, B: int)
    requires InDisc(w, A) && InDisc(z, B)
    ensures InDisc(Wide(w.re * z.re - w.im * z.im, w.re * z.im + w.im * z.re), A * B)
  {
    Lagrange(w.re, w.im, z.im, z.re);
    MulLe(w.re * w.re + w.im * w.im, z.re * z.re + z.im * z.im, A * A, B * B);
    assert (A * B) * (A * B) == (A * A) * (B * B);
    assert A * B >= 0;
  }

  lemma ScaleDisc(s: Wide, R: int, k: int)
    requires k > 0 && R >= 0
    ensures InDisc(Wide(k * s.re, k * s.im), k * R) <==> InDisc(s, R)
  {
    var u, v := s.re * s.re + s.im * s.im, R * R;
    var kk := k * k;
    assert (k * s.re) * (k * s.re) + (k * s.im) * (k * s.im) == kk * u;
    assert (k * R) * (k * R) == kk * v;
    assert kk > 0;
    if u > v { assert kk * u > kk * v; } else { MulLe(kk, u, kk, v); }
    assert k * R >= 0;
  }

  // ------------------------------------------------------------ one butterfly

  lemma ComponentsInRange(s: Wide, R: int)
    requires InDisc(s, R)
    ensures -R <= s.re <= R && -R <= s.im <= R
  {
    assert s.re * s.re >= 0 && s.im * s.im >= 0;
    RootLe(s.re, R);
    RootLe(s.im, R);
  }

  /** Halving the factor first loses less than one unit of the product on 2^16. */
  lemma HalvedProduct(w: Short, z: int, c: int)
    requires -0x7fff <= z <= 0x7fff
    requires c == WideMpy(Half(w), z)
    ensures -0x4000 - 0x3fff - 2 <= 0x8000 * c - (w * z) / 2 <= 0x4000 + 0x3fff + 2
    ensures -0x1_0000 <= 0x1_0000 * c - w * z <= 0x1_0000
  {
    var h := Half(w);
    assert w == 2 * h || w == 2 * h + 1;
    assert w * z == 2 * (h * z) || w * z == 2 * (h * z) + z;
  }

  lemma TwistedTerm(w: Wide, z: Wide, R: int, tr: int, ti: int)
    requires -0x8000 <= w.re < 0x8000 && -0x8000 <= w.im < 0x8000
    requires InDisc(w, 0x8000) && InDisc(z, R) && R <= 0x7fff
    requires tr == WideMpy(Half(w.re), z.re) - WideMpy(Half(w.im), z.im)
    requires ti == WideMpy(Half(w.re), z.im) + WideMpy(Half(w.im), z.re)
    ensures var (pr, pi) := (w.re * z.re - w.im * z.im, w.re * z.im + w.im * z.re);
            && InDisc(Wide(pr, pi), 0x8000 * R)
            && -0x2_0000 <= 0x1_0000 * tr - pr <= 0x2_0000
            && -0x2_0000 <= 0x1_0000 * ti - pi <= 0x2_0000
  {
    ComponentsInRange(z, R);
    ProductInDisc(w, z, 0x8000, R);
    HalvedProduct(w.re, z.re, WideMpy(Half(w.re), z.re));
    HalvedProduct(w.im, z.im, WideMpy(Half(w.im), z.im));
    HalvedProduct(w.re, z.im, WideMpy(Half(w.re), z.im));
    HalvedProduct(w.im, z.re, WideMpy(Half(w.im), z.re));
  }

  lemma RoundingInDisc(e: Wide)
    requires -0x2_8000 <= e.re <= 0x2_8000 && -0x2_8000 <= e.im <= 0x2_8000
    ensures InDisc(e, 0x4_0000)
  {
    SquareLe(e.re, 0x2_8000);
    SquareLe(e.im, 0x2_8000);
  }

  lemma SquareLe(x: int, y: int)
    requires -y <= x <= y
    ensures x * x <= y * y
  {
    var a := if x < 0 then -x else x;
    MulLe(a, a, y, y);
    assert a * a == x * x;
  }

  /** A butterfly with a halved unit factor lets the modulus grow by at most 4. */
  lemma WideCrossBound(w: Wide, q: Wide, z: Wide, R: int)
    requires -0x8000 <= w.re < 0x8000 && -0x8000 <= w.im < 0x8000
    requires InDisc(w, 0x8000) && InDisc(q, R) && InDisc(z, R) && R <= 0x7fff
    ensures var (u, v) := WideCross(Half(w.re), Half(w.im), q, z);
            InDisc(u, R + 4) && InDisc(v, R + 4)
  {
    var (u, v) := WideCross(Half(w.re), Half(w.im), q, z);
    var tr := WideMpy(Half(w.re), z.re) - WideMpy(Half(w.im), z.im);
    var ti := WideMpy(Half(w.re), z.im) + WideMpy(Half(w.im), z.re);
    TwistedTerm(w, z, R, tr, ti);
    var p := Wide(w.re * z.re - w.im * z.im, w.re * z.im + w.im * z.re);
    var q2 := Wide(0x8000 * q.re, 0x8000 * q.im);
    ScaleDisc(q, R, 0x8000);
    Triangle(q2, p, 0x8000 * R, 0x8000 * R);
    var exact, mirror := Wide(q2.re + p.re, q2.im + p.im), Wide(q2.re - p.re, q2.im - p.im);
    RoundedSum(u, exact, R);
    RoundedSum(v, mirror, R);
  }

  lemma RoundedSum(u: Wide, exact: Wide, R: int)
    requires R >= 0 && InDisc(exact, 0x1_0000 * R)
    requires -0x2_8000 <= 0x1_0000 * u.re - exact.re <= 0x2_8000
    requires -0x2_8000 <= 0x1_0000 * u.im - exact.im <= 0x2_8000
    ensures InDisc(u, R + 4)
  {
    var e := Wide(0x1_0000 * u.re - exact.re, 0x1_0000 * u.im - exact.im);
    RoundingInDisc(e);
    Triangle(exact, e, 0x1_0000 * R, 0x4_0000);
    ScaleDisc(u, R + 4, 0x1_0000);
    assert 0x1_0000 * (R + 4) == 0x1_0000 * R + 0x4_0000;
  }

  /** Inside the disc no narrowing changes anything. */
  lemma CrossIsWide(w: Wide, wr: Short, wi: Short, q: Sample, z: Sample, R: int)
    requires -0x8000 <= w.re < 0x8000 && -0x8000 <= w.im < 0x8000
    requires wr == Half(w.re) && wi == Half(w.im)
    requires InDisc(w, 0x8000) && InDisc(Widen(q), R) && InDisc(Widen(z), R) && R + 4 <= 0x7fff
    ensures var (u, v) := Cross(wr, wi, true, q, z);
            var (wu, wv) := WideCross(wr, wi, Widen(q), Widen(z));
            && Widen(u) == wu && Widen(v) == wv && InDisc(wu, R + 4) && InDisc(wv, R + 4)
  {
    WideCrossBound(w, Widen(q), Widen(z), R);
    var (wu, wv) := WideCross(wr, wi, Widen(q), Widen(z));
    ComponentsInRange(wu, R + 4);
    ComponentsInRange(wv, R + 4);
    MpyIsWide(w.re, z.re);
    MpyIsWide(w.im, z.im);
    MpyIsWide(w.re, z.im);
    MpyIsWide(w.im, z.re);
    NarrowCross(FixMpy(wr, z.re), FixMpy(wi, z.im), FixMpy(wr, z.im), FixMpy(wi, z.re), Half(q.re), Half(q.im), wu, wv);
  }

  lemma MpyIsWide(w: Short, z: Short)
    ensures FixMpy(Half(w), z) == WideMpy(Half(w), z)
  {
    assert Half(w) != -0x8000;
    FixMpyRounds(Half(w), z);
  }

  lemma NarrowCross(a: Short, b: Short, c: Short, d: Short, qr: Short, qi: Short, wu: Wide, wv: Wide)
    requires var (tr, ti) := (a - b, c + d);
             wu == Wide(qr + tr, qi + ti) && wv == Wide(qr - tr, qi - ti)
    requires -0x7fff <= wu.re <= 0x7fff && -0x7fff <= wu.im <= 0x7fff
    requires -0x7fff <= wv.re <= 0x7fff && -0x7fff <= wv.im <= 0x7fff
    ensures var (tr, ti) := (Difference(a, b), Sum(c, d));
            && wu == Wide(Sum(qr, tr), Sum(qi, ti))
            && wv == Wide(Difference(qr, tr), Difference(qi, ti))
  {
    var tr, ti: int := (a as int) - b, (c as int) + d;
    assert 2 * tr == wu.re - wv.re && 2 * ti == wu.im - wv.im;
    NarrowId(tr);
    NarrowId(ti);
    NarrowId(wu.re);
    NarrowId(wu.im);
    NarrowId(wv.re);
    NarrowId(wv.im);
  }

  // ------------------------------------------------------------ the factors

  /** The factor of index j, as an integer pair. */
  function Factor(sine: seq<Short>, K: nat, j: nat): Wide
    requires IsTable(sine, K) && j < Pow2(K - 1)
  {
    Wide(sine[QuarterOn(K, j)], Negated(sine[j]))
  }

  lemma FactorFits(sine: seq<Short>, K: nat, j: nat)
    requires UnitTable(sine, K) && j < Pow2(K - 1)
    ensures var w := Factor(sine, K, j);
            -0x8000 <= w.re < 0x8000 && -0x8000 <= w.im < 0x8000 && InDisc(w, 0x8000)
  {
    assert InDisc(Wide(sine[QuarterOn(K, j)], sine[j]), 0x8000);
    NegatedSquare(sine[j]);
  }

  /** Halved, as every forward pass uses it, a factor is no longer than half of one and a bit. */
  lemma HalvedFactorInDisc(sine: seq<Short>, K: nat, j: nat)
    requires UnitTable(sine, K) && j < Pow2(K - 1)
    ensures InDisc(Wide(TwiddleRe(sine, K, true, j), TwiddleIm(sine, K, false, true, j)), 0x4001)
  {
    var w := Factor(sine, K, j);
    FactorFits(sine, K, j);
    var h, e := Wide(Half(w.re), Half(w.im)), Wide(2 * Half(w.re) - w.re, 2 * Half(w.im) - w.im);
    SquareLe(e.re, 1);
    SquareLe(e.im, 1);
    assert InDisc(e, 2);
    Triangle(w, e, 0x8000, 2);
    ScaleDisc(h, 0x4001, 2);
  }

  // ------------------------------------------------------------ the whole transform

  /** The wide value of a 16-bit sample, inside the disc that level p allows. */
  ghost predicate Tracks(M: int, p: nat, s: Sample, w: Wide)
  {
    Widen(s) == w && InDisc(w, M + 4 * p)
  }

  /** If every sample lies in the disc of radius M and M + 4 log2(n) fits in 15 bits, the
      forward transform equals the one in unbounded integers, and stays in the larger disc. */
  lemma ForwardNeverWraps(sine: seq<Short>, K: nat, flags: seq<bool>, m: nat, x: seq<Sample>, M: int)
    requires UnitTable(sine, K) && m == |flags| <= K && |x| == Pow2(m)
    requires forall p :: 0 <= p < m ==> flags[p]
    requires forall i :: 0 <= i < |x| ==> InDisc(Widen(x[i]), M)
    requires M + 4 * m <= 0x7fff
    ensures var y := Dit(FixButterfly(sine, K, false, flags), m, x);
            var w := Dit(WideButterfly(sine, K), m, WidenAll(x));
            forall i :: 0 <= i < |x| ==> Widen(y[i]) == w[i] && InDisc(w[i], M + 4 * m)
  {
    var bf, bg := FixButterfly(sine, K, false, flags), WideButterfly(sine, K);
    forall p: nat | p < m
      ensures Carries(bf, bg, Tracking(M), p)
    {
      PassTracks(sine, K, flags, p, M);
    }
    DitSimulates(bf, bg, Tracking(M), m, x, WidenAll(x));
    Unpack(M, m, Dit(bf, m, x), Dit(bg, m, WidenAll(x)));
  }

  ghost function Tracking(M: int): (nat, Sample, Wide) -> bool
  {
    (p: nat, s: Sample, w: Wide) => Tracks(M, p, s, w)
  }

  lemma OneTracks(sine: seq<Short>, K: nat, flags: seq<bool>, p: nat, M: int, t: nat, q: Sample, z: Sample)
    requires UnitTable(sine, K) && p < |flags| <= K && flags[p] && M + 4 * (p + 1) <= 0x7fff && t < Pow2(p)
    requires InDisc(Widen(q), M + 4 * p) && InDisc(Widen(z), M + 4 * p)
    ensures var (u, v) := FixButterfly(sine, K, false, flags)(p, t, q, z);
            var (u', v') := WideButterfly(sine, K)(p, t, Widen(q), Widen(z));
            Tracks(M, p + 1, u, u') && Tracks(M, p + 1, v, v')
  {
    TwiddleAgrees(sine, K, p, t, q, z, M + 4 * p);
  }

  lemma PassTracks(sine: seq<Short>, K: nat, flags: seq<bool>, p: nat, M: int)
    requires UnitTable(sine, K) && p < |flags| <= K && flags[p] && M + 4 * (p + 1) <= 0x7fff
    ensures Carries(FixButterfly(sine, K, false, flags), WideButterfly(sine, K), Tracking(M), p)
  {
    var bf, bg, rel := FixButterfly(sine, K, false, flags), WideButterfly(sine, K), Tracking(M);
    forall t: nat, q: Sample, z: Sample, q': Wide, z': Wide | t < Pow2(p) && rel(p, q, q') && rel(p, z, z')
      ensures rel(p + 1, bf(p, t, q, z).0, bg(p, t, q', z').0) && rel(p + 1, bf(p, t, q, z).1, bg(p, t, q', z').1)
    {
      OneTracks(sine, K, flags, p, M, t, q, z);
    }
  }

  lemma Unpack(M: int, m: nat, y: seq<Sample>, w: seq<Wide>)
    requires |y| == |w|
    requires forall i :: 0 <= i < |y| ==> Tracking(M)(m, y[i], w[i])
    ensures forall i :: 0 <= i < |y| ==> Widen(y[i]) == w[i] && InDisc(w[i], M + 4 * m)
  {
  }

  lemma TwiddleAgrees(sine: seq<Short>, K: nat, p: nat, t: nat, q: Sample, z: Sample, R: int)
    requires UnitTable(sine, K) && p < K && t < Pow2(p)
    requires InDisc(Widen(q), R) && InDisc(Widen(z), R) && R + 4 <= 0x7fff
    ensures var j := TwiddleIndex(K, p, t);
            var (wr, wi) := (TwiddleRe(sine, K, true, j), TwiddleIm(sine, K, false, true, j));
            var (u, v) := Cross(wr, wi, true, q, z);
            var (wu, wv) := WideCross(wr, wi, Widen(q), Widen(z));
            && Widen(u) == wu && Widen(v) == wv && InDisc(wu, R + 4) && InDisc(wv, R + 4)
  {
    var j := TwiddleIndex(K, p, t);
    var w := Wide(sine[QuarterOn(K, j)], Negated(sine[j]));
    assert InDisc(Wide(sine[QuarterOn(K, j)], sine[j]), 0x8000);
    NegatedSquare(sine[j]);
    CrossIsWide(w, TwiddleRe(sine, K, true, j), TwiddleIm(sine, K, false, true, j), q, z, R);
  }

  lemma NegatedSquare(s: Short)
    ensures Negated(s) * Negated(s) == s * s
  {
    assert Negated(s) == s || Negated(s) == -(s as int);
    assert (-(s as int)) * (-(s as int)) == s * s;
  }
}
