/** How far the 16-bit forward transform is from the Fourier sum: the rounding of the products,
    the halvings and the table together cost at most 5.25 units of the last place per pass. */
module FftAccuracy {
  import opened TransformSpec
  import opened FixFft
  import opened FixFftBounds
  import X = ExactDft

  type C = X.C

  // ------------------------------------------------------------ lengths in the real plane

  ghost predicate Within(a: C, R: real)
  {
    R >= 0.0 && a.re * a.re + a.im * a.im <= R * R
  }

  lemma Lagrange(a: real, b: real, c: real, d: real)
    ensures (a * a + b * b) * (c * c + d * d) == (a * c + b * d) * (a * c + b * d) + (a * d - b * c) * (a * d - b * c)
  {
  }

  lemma SquareNonNegative(x: real)
    ensures x * x >= 0.0
  {
  }

  lemma MulLeReal(a: real, b: real, c: real, d: real)
    requires 0.0 <= a <= c && 0.0 <= b <= d
    ensures a * b <= c * d
  {
    assert a * b <= c * b <= c * d;
  }

  lemma TimesPositive(a: real, b: real)
    requires a > 0.0 && b > 0.0
    ensures a * b > 0.0
  {
  }

  lemma TimesNonNegative(a: real, b: real)
    requires a >= 0.0 && b >= 0.0
    ensures a * b >= 0.0
  {
  }

  lemma SquareGrowsReal(x: real, y: real)
    ensures 0.0 <= y < x ==> y * y < x * x
  {
    if 0.0 <= y < x {
      TimesPositive(x, x - y);
      TimesNonNegative(y, x - y);
      SquareDifference(x, y);
    }
  }

  lemma SquareDifference(x: real, y: real)
    ensures x * x - y * y == x * (x - y) + y * (x - y)
  {
  }

  lemma RootLeReal(x: real, y: real)
    requires y >= 0.0 && x * x <= y * y
    ensures -y <= x <= y
  {
    SquareGrowsReal(x, y);
    SquareGrowsReal(-x, y);
  }

  /** Scaling by a positive number keeps the order. */
  lemma ScaleOrder(k: real, u: real, v: real)
    requires k > 0.0
    ensures k * u <= k * v <==> u <= v
  {
    if u > v {
      TimesPositive(k, u - v);
    } else {
      TimesNonNegative(k, v - u);
    }
    assert k * (u - v) == k * u - k * v;
  }

  lemma SquareOfSum(a: real, b: real)
    ensures (a + b) * (a + b) == a * a + b * b + 2.0 * (a * b)
    ensures (a - b) * (a - b) == a * a + b * b - 2.0 * (a * b)
  {
  }

  lemma DotBound(s: C, t: C, A: real, B: real)
    requires Within(s, A) && Within(t, B)
    ensures -(A * B) <= s.re * t.re + s.im * t.im <= A * B
  {
    var dot, cross := s.re * t.re + s.im * t.im, s.re * t.im - s.im * t.re;
    Lagrange(s.re, s.im, t.re, t.im);
    SquareNonNegative(cross);
    SquareNonNegative(s.re);
    SquareNonNegative(s.im);
    SquareNonNegative(t.re);
    SquareNonNegative(t.im);
    MulLeReal(s.re * s.re + s.im * s.im, t.re * t.re + t.im * t.im, A * A, B * B);
    assert (A * A) * (B * B) == (A * B) * (A * B);
    assert A * B >= 0.0;
    RootLeReal(dot, A * B);
  }

  lemma WithinSum(s: C, t: C, A: real, B: real)
    requires Within(s, A) && Within(t, B)
    ensures Within(X.Add(s, t), A + B)
    ensures Within(X.Sub(s, t), A + B)
  {
    DotBound(s, t, A, B);
    SquareOfSum(s.re, t.re);
    SquareOfSum(s.im, t.im);
    SquareOfSum(A, B);
  }

  lemma WithinProduct(s: C, t: C, A: real, B: real)
    requires Within(s, A) && Within(t, B)
    ensures Within(X.Mul(s, t), A * B)
  {
    Lagrange(s.re, s.im, t.im, t.re);
    SquareNonNegative(s.re);
    SquareNonNegative(s.im);
    SquareNonNegative(t.re);
    SquareNonNegative(t.im);
    MulLeReal(s.re * s.re + s.im * s.im, t.re * t.re + t.im * t.im, A * A, B * B);
    assert (A * A) * (B * B) == (A * B) * (A * B);
    assert A * B >= 0.0;
  }

  lemma WithinTimes(k: real, s: C, R: real)
    requires k > 0.0 && R >= 0.0
    ensures Within(X.Times(k, s), k * R) <==> Within(s, R)
  {
    var t, S := X.Times(k, s), k * R;
    TimesNonNegative(k, R);
    ScaledOrder(k, s.re * s.re + s.im * s.im, R * R, t.re * t.re + t.im * t.im, S * S) by {
      SquaresScaled(k, s.re, s.im, t.re, t.im);
      SquaresScaled(k, R, 0.0, S, 0.0);
    }
  }

  lemma ScaledOrder(k: real, u: real, v: real, ku: real, kv: real)
    requires k > 0.0 && ku == k * (k * u) && kv == k * (k * v)
    ensures ku <= kv <==> u <= v
  {
    ScaleOrder(k, u, v);
    ScaleOrder(k, k * u, k * v);
  }

  lemma SquaresScaled(k: real, a: real, b: real, u: real, v: real)
    requires u == k * a && v == k * b
    ensures u * u + v * v == k * (k * (a * a + b * b))
  {
  }

  // ------------------------------------------------------------ integers among the reals

  function Embed(s: Wide): C
  {
    X.C(s.re as real, s.im as real)
  }

  lemma {:induction false} RealMul(a: nat, b: int)
    ensures (a * b) as real == (a as real) * (b as real)
  {
    if a == 0 {
    } else {
      RealMul(a - 1, b);
      assert a * b == (a - 1) * b + b;
    }
  }

  lemma RealProduct(a: int, b: int)
    ensures (a * b) as real == (a as real) * (b as real)
  {
    if a >= 0 {
      RealMul(a, b);
    } else {
      RealMul(-a, b);
      assert a * b == -(-a * b);
    }
  }

  lemma EmbedDisc(s: Wide, R: int)
    requires InDisc(s, R)
    ensures Within(Embed(s), R as real)
  {
    RealProduct(s.re, s.re);
    RealProduct(s.im, s.im);
    RealProduct(R, R);
  }

  function WideMul(w: Wide, z: Wide): Wide
  {
    Wide(w.re * z.re - w.im * z.im, w.re * z.im + w.im * z.re)
  }

  lemma EmbedMul(w: Wide, z: Wide)
    ensures Embed(WideMul(w, z)) == X.Mul(Embed(w), Embed(z))
  {
    RealProduct(w.re, z.re);
    RealProduct(w.im, z.im);
    RealProduct(w.re, z.im);
    RealProduct(w.im, z.re);
  }

  // ------------------------------------------------------------ one butterfly

  /** The two integer outputs, against the same sums without rounding, on the scale of 2^16. */
  lemma CrossNear(w: Wide, q: Wide, z: Wide, R: int)
    requires -0x8000 <= w.re < 0x8000 && -0x8000 <= w.im < 0x8000
    requires InDisc(w, 0x8000) && InDisc(z, R) && R <= 0x7fff
    ensures var (u, v) := WideCross(Half(w.re), Half(w.im), q, z);
            var p := WideMul(w, z);
            && InDisc(Wide(0x1_0000 * u.re - 0x8000 * q.re - p.re, 0x1_0000 * u.im - 0x8000 * q.im - p.im), 0x4_0000)
            && InDisc(Wide(0x1_0000 * v.re - 0x8000 * q.re + p.re, 0x1_0000 * v.im - 0x8000 * q.im + p.im), 0x4_0000)
  {
    var (u, v) := WideCross(Half(w.re), Half(w.im), q, z);
    var p := WideMul(w, z);
    var tr := WideMpy(Half(w.re), z.re) - WideMpy(Half(w.im), z.im);
    var ti := WideMpy(Half(w.re), z.im) + WideMpy(Half(w.im), z.re);
    TwistedTerm(w, z, R, tr, ti);
    RoundingInDisc(Wide(0x1_0000 * u.re - 0x8000 * q.re - p.re, 0x1_0000 * u.im - 0x8000 * q.im - p.im));
    RoundingInDisc(Wide(0x1_0000 * v.re - 0x8000 * q.re + p.re, 0x1_0000 * v.im - 0x8000 * q.im + p.im));
  }

  /** The twisted term: the error of the factor and the error of the sample. */
  lemma TermError(w: C, W: C, z: C, e: C, d: real)
    requires Within(w, 32768.0) && Within(X.Sub(w, X.Times(32768.0, W)), 2.5)
    requires Within(X.Sub(z, e), d) && Within(e, 32768.0)
    ensures Within(X.Sub(X.Mul(w, z), X.Times(32768.0, X.Mul(e, W))), 32768.0 * d + 81920.0)
  {
    var a, b := X.Mul(w, X.Sub(z, e)), X.Mul(X.Sub(w, X.Times(32768.0, W)), e);
    WithinProduct(w, X.Sub(z, e), 32768.0, d);
    WithinProduct(X.Sub(w, X.Times(32768.0, W)), e, 2.5, 32768.0);
    WithinSum(a, b, 32768.0 * d, 2.5 * 32768.0);
    TermSplit(w, W, z, e);
  }

  lemma TermSplit(w: C, W: C, z: C, e: C)
    ensures X.Sub(X.Mul(w, z), X.Times(32768.0, X.Mul(e, W)))
         == X.Add(X.Mul(w, X.Sub(z, e)), X.Mul(X.Sub(w, X.Times(32768.0, W)), e))
  {
    var k := X.Times(32768.0, W);
    X.MulSub(w, z, e);
    X.SubMul(w, k, e);
    X.MulComm(k, e);
    X.TimesMul(32768.0, e, W);
    Telescope(X.Mul(w, z), X.Mul(w, e), X.Times(32768.0, X.Mul(e, W)));
  }

  lemma Telescope(a: C, b: C, c: C)
    ensures X.Sub(a, c) == X.Add(X.Sub(a, b), X.Sub(b, c))
  {
  }

  /** Rounding, the error of the halved sample and the error of the twisted term together. */
  lemma SumError(u: C, q: C, t: C, e: C, s: C, d: real)
    requires Within(X.Sub(X.Sub(X.Times(65536.0, u), X.Times(32768.0, q)), t), 262144.0)
    requires Within(X.Sub(q, e), d) && Within(X.Sub(t, X.Times(32768.0, s)), 32768.0 * d + 81920.0)
    ensures Within(X.Sub(u, X.Times(0.5, X.Add(e, s))), d + 5.25)
  {
    var a := X.Sub(X.Sub(X.Times(65536.0, u), X.Times(32768.0, q)), t);
    var b, c := X.Times(32768.0, X.Sub(q, e)), X.Sub(t, X.Times(32768.0, s));
    WithinTimes(32768.0, X.Sub(q, e), d);
    WithinSum(a, b, 262144.0, 32768.0 * d);
    WithinSum(X.Add(a, b), c, 262144.0 + 32768.0 * d, 32768.0 * d + 81920.0);
    assert X.Add(X.Add(a, b), c) == X.Times(65536.0, X.Sub(u, X.Times(0.5, X.Add(e, s))));
    WithinTimes(65536.0, X.Sub(u, X.Times(0.5, X.Add(e, s))), d + 5.25);
  }

  // ------------------------------------------------------------ the whole transform

  /** Every factor of the table is within two and a half units of the root of unity it stands
      for. */
  ghost predicate Accurate(sine: seq<Short>, K: nat, W: nat -> C)
    requires IsTable(sine, K)
  {
    forall j: nat :: j < Pow2(K - 1) ==> Within(X.Sub(Embed(Factor(sine, K, j)), X.Times(32768.0, W(j))), 2.5)
  }

  /** The integer value at level p, and the exact one, which has not grown. */
  ghost predicate Close(M: int, p: nat, w: Wide, e: C)
  {
    InDisc(w, M + 4 * p) && M >= 0 && Within(e, M as real) && Within(X.Sub(Embed(w), e), 5.25 * (p as real))
  }

  lemma WithinMore(a: C, R: real, S: real)
    requires Within(a, R) && R <= S
    ensures Within(a, S)
  {
    MulLeReal(R, R, S, S);
  }

  /** The mean of two values in a disc, one of them turned, is in the disc. */
  lemma MeanWithin(q: C, z: C, W: C, R: real)
    requires Within(q, R) && Within(z, R) && Within(W, 1.0)
    ensures Within(X.Times(0.5, X.Add(q, X.Mul(z, W))), R) && Within(X.Times(0.5, X.Sub(q, X.Mul(z, W))), R)
  {
    WithinProduct(z, W, R, 1.0);
    WithinSum(q, X.Mul(z, W), R, R);
    WithinTimes(0.5, X.Add(q, X.Mul(z, W)), 2.0 * R);
    WithinTimes(0.5, X.Sub(q, X.Mul(z, W)), 2.0 * R);
  }

  /** The error of one butterfly: rounding, halving and table together. */
  lemma CrossError(w: Wide, W: C, R: int, d: real, q: Wide, z: Wide, qe: C, ze: C)
    requires -0x8000 <= w.re < 0x8000 && -0x8000 <= w.im < 0x8000 && InDisc(w, 0x8000)
    requires Within(X.Sub(Embed(w), X.Times(32768.0, W)), 2.5)
    requires InDisc(z, R) && R <= 0x7fff && Within(ze, 32768.0)
    requires Within(X.Sub(Embed(q), qe), d) && Within(X.Sub(Embed(z), ze), d)
    ensures var (u, v) := WideCross(Half(w.re), Half(w.im), q, z);
            && Within(X.Sub(Embed(u), X.Times(0.5, X.Add(qe, X.Mul(ze, W)))), d + 5.25)
            && Within(X.Sub(Embed(v), X.Times(0.5, X.Sub(qe, X.Mul(ze, W)))), d + 5.25)
  {
    var (u, v) := WideCross(Half(w.re), Half(w.im), q, z);
    var t, s := WideMul(w, z), X.Mul(ze, W);
    CrossNear(w, q, z, R);
    EmbedDisc(w, 0x8000);
    EmbedMul(w, z);
    TermError(Embed(w), W, Embed(z), ze, d);
    Residue(u, q, t);
    Residue(v, q, Wide(-t.re, -t.im));
    SumError(Embed(u), Embed(q), Embed(t), qe, s, d);
    MirrorTerm(Embed(t), s, 32768.0 * d + 81920.0);
    SumError(Embed(v), Embed(q), X.Times(-1.0, Embed(t)), qe, X.Times(-1.0, s), d);
    assert X.Add(qe, X.Times(-1.0, s)) == X.Sub(qe, s);
  }

  lemma CrossClose(w: Wide, W: C, M: int, p: nat, q: Wide, z: Wide, qe: C, ze: C)
    requires -0x8000 <= w.re < 0x8000 && -0x8000 <= w.im < 0x8000 && InDisc(w, 0x8000)
    requires Within(X.Sub(Embed(w), X.Times(32768.0, W)), 2.5) && Within(W, 1.0)
    requires Close(M, p, q, qe) && Close(M, p, z, ze) && M + 4 * p + 4 <= 0x7fff
    ensures var (u, v) := WideCross(Half(w.re), Half(w.im), q, z);
            var (ue, ve) := X.Cross(W, true, qe, ze);
            Close(M, p + 1, u, ue) && Close(M, p + 1, v, ve)
  {
    WideCrossBound(w, q, z, M + 4 * p);
    MeanWithin(qe, ze, W, M as real);
    WithinMore(ze, M as real, 32768.0);
    CrossError(w, W, M + 4 * p, 5.25 * (p as real), q, z, qe, ze);
  }

  /** The integer residue of CrossNear, among the reals. */
  lemma Residue(u: Wide, q: Wide, t: Wide)
    requires InDisc(Wide(0x1_0000 * u.re - 0x8000 * q.re - t.re, 0x1_0000 * u.im - 0x8000 * q.im - t.im), 0x4_0000)
    ensures Within(X.Sub(X.Sub(X.Times(65536.0, Embed(u)), X.Times(32768.0, Embed(q))), Embed(t)), 262144.0)
  {
    EmbedDisc(Wide(0x1_0000 * u.re - 0x8000 * q.re - t.re, 0x1_0000 * u.im - 0x8000 * q.im - t.im), 0x4_0000);
  }

  lemma MirrorTerm(t: C, s: C, R: real)
    requires Within(X.Sub(t, X.Times(32768.0, s)), R)
    ensures Within(X.Sub(X.Times(-1.0, t), X.Times(32768.0, X.Times(-1.0, s))), R)
  {
    var a := X.Sub(t, X.Times(32768.0, s));
    assert X.Sub(X.Times(-1.0, t), X.Times(32768.0, X.Times(-1.0, s))) == X.C(-a.re, -a.im);
    assert (-a.re) * (-a.re) == a.re * a.re && (-a.im) * (-a.im) == a.im * a.im;
  }

  // ------------------------------------------------------------ roots of one have length one

  function Square(a: C): real
  {
    a.re * a.re + a.im * a.im
  }

  lemma SquareMul(a: C, b: C)
    ensures Square(X.Mul(a, b)) == Square(a) * Square(b)
  {
    Lagrange(a.re, a.im, b.im, b.re);
  }

  lemma SquareIsOne(x: real)
    requires x >= 0.0 && x * x == 1.0
    ensures x == 1.0
  {
    SquareGrowsReal(x, 1.0);
    SquareGrowsReal(1.0, x);
  }

  /** j, doubled i times. */
  function Doublings(i: nat, j: nat): nat
  {
    if i == 0 then j else Doublings(i - 1, 2 * j)
  }

  lemma {:induction false} DoublingsAdd(i: nat, j: nat, k: nat)
    ensures Doublings(i, j + k) == Doublings(i, j) + Doublings(i, k)
  {
    if i == 0 {
    } else {
      DoublingsAdd(i - 1, 2 * j, 2 * k);
      assert 2 * (j + k) == 2 * j + 2 * k;
    }
  }

  lemma {:induction false} DoublingsOfPow2(i: nat, k: nat)
    ensures Doublings(i, Pow2(k)) == Pow2(k + i)
  {
    if i == 0 {
    } else {
      DoublingsOfPow2(i - 1, k + 1);
    }
  }

  lemma {:induction false} DoublingsOfZero(i: nat)
    ensures Doublings(i, 0) == 0
  {
    if i == 0 {
    } else {
      DoublingsOfZero(i - 1);
    }
  }

  lemma {:induction false} DoublingsProduct(i: nat, j: nat)
    ensures Doublings(i, j) == j * Pow2(i)
  {
    if i == 0 {
    } else {
      DoublingsProduct(i - 1, 2 * j);
      DoubledProduct(j, Pow2(i - 1));
    }
  }

  lemma DoubledProduct(j: nat, n: nat)
    ensures 2 * j * n == j * (2 * n)
  {
  }

  lemma {:induction false} LengthFromDoublings(W: nat -> C, K: nat, i: nat, j: nat)
    requires X.RootTable(W, K) && Square(W(Doublings(i, j))) == 1.0
    ensures Square(W(j)) == 1.0
  {
    if i == 0 {
    } else {
      LengthFromDoublings(W, K, i - 1, 2 * j);
      X.TurnBy(W, K, j, j);
      assert j + j == 2 * j;
      SquareMul(W(j), W(j));
      SquareNonNegative(W(j).re);
      SquareNonNegative(W(j).im);
      SquareIsOne(Square(W(j)));
    }
  }

  lemma RootWithin(W: nat -> C, K: nat, j: nat)
    requires X.RootTable(W, K)
    ensures Square(W(j)) == 1.0 && Within(W(j), 1.0)
  {
    X.WholeTurns(W, K, j);
    DoublingsProduct(K, j);
    LengthFromDoublings(W, K, K, j);
  }

  // ------------------------------------------------------------ against the Fourier sum

  function EmbedAll(x: seq<Wide>): (y: seq<C>)
    ensures |y| == |x|
    ensures forall i :: 0 <= i < |x| ==> y[i] == Embed(x[i])
  {
    seq(|x|, i requires 0 <= i < |x| => Embed(x[i]))
  }

  ghost function Closeness(M: int): (nat, Wide, C) -> bool
  {
    (p: nat, w: Wide, e: C) => Close(M, p, w, e)
  }

  lemma FactorNear(sine: seq<Short>, K: nat, W: nat -> C, j: nat)
    requires UnitTable(sine, K) && Accurate(sine, K, W) && X.RootTable(W, K) && j < Pow2(K - 1)
    ensures Within(X.Sub(Embed(Factor(sine, K, j)), X.Times(32768.0, W(j))), 2.5) && Within(W(j), 1.0)
  {
    RootWithin(W, K, j);
  }

  /** The integer butterfly by its factor. */
  lemma WideByFactor(sine: seq<Short>, K: nat, p: nat, t: nat, j: nat, q: Wide, z: Wide)
    requires UnitTable(sine, K) && p < K && t < Pow2(p) && j == TwiddleIndex(K, p, t)
    ensures WideButterfly(sine, K)(p, t, q, z)
         == WideCross(Half(Factor(sine, K, j).re), Half(Factor(sine, K, j).im), q, z)
  {
    FactorFits(sine, K, j);
  }

  /** The exact one by the root of the same index. */
  lemma ExactByRoot(W: nat -> C, K: nat, halves: seq<bool>, p: nat, t: nat, j: nat, q: C, z: C)
    requires p < |halves| <= K && halves[p] && t < Pow2(p) && j == TwiddleIndex(K, p, t)
    ensures X.ExactButterfly(W, K, halves)(p, t, q, z) == X.Cross(W(j), true, q, z)
  {
  }

  lemma OneClose(sine: seq<Short>, K: nat, W: nat -> C, halves: seq<bool>, p: nat, M: int, t: nat,
                 q: Wide, z: Wide, q': C, z': C)
    requires UnitTable(sine, K) && Accurate(sine, K, W) && X.RootTable(W, K)
    requires p < |halves| <= K && halves[p] && M >= 0 && M + 4 * (p + 1) <= 0x7fff
    requires t < Pow2(p) && Close(M, p, q, q') && Close(M, p, z, z')
    ensures var (u, v) := WideButterfly(sine, K)(p, t, q, z);
            var (u', v') := X.ExactButterfly(W, K, halves)(p, t, q', z');
            Close(M, p + 1, u, u') && Close(M, p + 1, v, v')
  {
    var j := TwiddleIndex(K, p, t);
    FactorFits(sine, K, j);
    FactorNear(sine, K, W, j);
    WideByFactor(sine, K, p, t, j, q, z);
    ExactByRoot(W, K, halves, p, t, j, q', z');
    CrossClose(Factor(sine, K, j), W(j), M, p, q, z, q', z');
  }

  lemma PassClose(sine: seq<Short>, K: nat, W: nat -> C, halves: seq<bool>, p: nat, M: int)
    requires UnitTable(sine, K) && Accurate(sine, K, W) && X.RootTable(W, K)
    requires p < |halves| <= K && halves[p] && M >= 0 && M + 4 * (p + 1) <= 0x7fff
    ensures Carries(WideButterfly(sine, K), X.ExactButterfly(W, K, halves), Closeness(M), p)
  {
    var bf, bg, rel := WideButterfly(sine, K), X.ExactButterfly(W, K, halves), Closeness(M);
    forall t: nat, q: Wide, z: Wide, q': C, z': C | t < Pow2(p) && rel(p, q, q') && rel(p, z, z')
      ensures rel(p + 1, bf(p, t, q, z).0, bg(p, t, q', z').0) && rel(p + 1, bf(p, t, q, z).1, bg(p, t, q', z').1)
    {
      OneClose(sine, K, W, halves, p, M, t, q, z, q', z');
    }
  }

  lemma StartsClose(M: int, w: Wide)
    requires InDisc(w, M)
    ensures Close(M, 0, w, Embed(w))
  {
    EmbedDisc(w, M);
  }

  /** n times v is F, up to n times R. */
  ghost predicate NearMultiple(n: real, v: C, F: C, R: real)
  {
    Within(X.Sub(X.Times(n, v), F), n * R)
  }

  /** The 16-bit forward transform, multiplied by its length, is within 5.25 units per pass (and
      per sample) of the Fourier sum. */
  lemma ForwardNearFourier(W: nat -> C, sine: seq<Short>, K: nat, flags: seq<bool>, m: nat, x: seq<Sample>, M: int,
                           c: nat)
    requires UnitTable(sine, K) && Accurate(sine, K, W) && X.RootTable(W, K)
    requires m == |flags| <= K && |x| == Pow2(m) && c < |x|
    requires forall p :: 0 <= p < m ==> flags[p]
    requires forall i :: 0 <= i < |x| ==> InDisc(Widen(x[i]), M)
    requires M + 4 * m <= 0x7fff
    ensures var y := Dit(FixButterfly(sine, K, false, flags), m, x);
            NearMultiple(|x| as real, Embed(Widen(y[c])), X.Fourier(W, Pow2(K - m), EmbedAll(WidenAll(x)), c),
                         5.25 * (m as real))
  {
    ForwardNeverWraps(sine, K, flags, m, x, M);
    var w, r := WidenAll(x), EmbedAll(WidenAll(x));
    WideNearExact(W, sine, K, flags, m, w, M, c);
    X.TransformIsFourier(W, K, flags, m, r, c);
    X.FullGain(flags, m);
    var n, v, e := |x| as real, Dit(WideButterfly(sine, K), m, w)[c], Dit(X.ExactButterfly(W, K, flags), m, r)[c];
    assert Widen(Dit(FixButterfly(sine, K, false, flags), m, x)[c]) == v;
    ScaledNear(n, Embed(v), e, X.Fourier(W, Pow2(K - m), r, c), 5.25 * (m as real));
  }

  lemma ScaledNear(n: real, v: C, e: C, F: C, R: real)
    requires n > 0.0 && Within(X.Sub(v, e), R) && X.Times(n, e) == F
    ensures NearMultiple(n, v, F, R)
  {
    WithinTimes(n, X.Sub(v, e), R);
    assert X.Times(n, X.Sub(v, e)) == X.Sub(X.Times(n, v), X.Times(n, e));
  }

  lemma WideNearExact(W: nat -> C, sine: seq<Short>, K: nat, flags: seq<bool>, m: nat, w: seq<Wide>, M: int, c: nat)
    requires UnitTable(sine, K) && Accurate(sine, K, W) && X.RootTable(W, K)
    requires m == |flags| <= K && |w| == Pow2(m) && c < |w|
    requires forall p :: 0 <= p < m ==> flags[p]
    requires forall i :: 0 <= i < |w| ==> InDisc(w[i], M)
    requires M + 4 * m <= 0x7fff
    ensures var v := Dit(WideButterfly(sine, K), m, w)[c];
            var e := Dit(X.ExactButterfly(W, K, flags), m, EmbedAll(w))[c];
            Close(M, m, v, e)
  {
    assert InDisc(w[0], M);
    var bf, bg := WideButterfly(sine, K), X.ExactButterfly(W, K, flags);
    forall p: nat | p < m
      ensures Carries(bf, bg, Closeness(M), p)
    {
      PassClose(sine, K, W, flags, p, M);
    }
    forall i | 0 <= i < |w|
      ensures Closeness(M)(0, w[i], EmbedAll(w)[i])
    {
      StartsClose(M, w[i]);
    }
    DitSimulates(bf, bg, Closeness(M), m, w, EmbedAll(w));
    FromCloseness(M, m, Dit(bf, m, w), Dit(bg, m, EmbedAll(w)), c);
  }

  lemma FromCloseness(M: int, m: nat, v: seq<Wide>, e: seq<C>, c: nat)
    requires c < |v| == |e| && forall i :: 0 <= i < |v| ==> Closeness(M)(m, v[i], e[i])
    ensures Close(M, m, v[c], e[c])
  {
    assert Closeness(M)(m, v[c], e[c]);
  }

  /** All frequencies of y at once, n being the length. */
  ghost predicate NearFourier(W: nat -> C, K: nat, m: nat, x: seq<Sample>, y: seq<Sample>)
    requires m <= K && |y| == |x|
  {
    forall c: nat :: c < |x| ==>
      NearMultiple(|x| as real, Embed(Widen(y[c])), X.Fourier(W, Pow2(K - m), EmbedAll(WidenAll(x)), c),
                   5.25 * (m as real))
  }

  /** fix_fft, forward, on arrays whose samples lie in the disc. */
  method Forward(fr: array<Short>, fi: array<Short>, m: nat, sine: seq<Short>, K: nat, ghost W: nat -> C, ghost M: int)
    requires fr != fi && m <= K && fr.Length == fi.Length == Pow2(m)
    requires UnitTable(sine, K) && Accurate(sine, K, W) && X.RootTable(W, K)
    requires forall s <- View(fr[..], fi[..]) :: InDisc(Widen(s), M)
    requires M + 4 * m <= 0x7fff
    modifies fr, fi
    ensures NearFourier(W, K, m, old(View(fr[..], fi[..])), View(fr[..], fi[..]))
  {
    ghost var x := View(fr[..], fi[..]);
    var scale: int;
    ghost var flags: seq<bool>;
    scale, flags := Transform(fr, fi, m, false, sine, K);
    forall c: nat | c < |x|
      ensures NearMultiple(|x| as real, Embed(Widen(View(fr[..], fi[..])[c])),
                           X.Fourier(W, Pow2(K - m), EmbedAll(WidenAll(x)), c), 5.25 * (m as real))
    {
      ForwardNearFourier(W, sine, K, flags, m, x, M, c);
    }
  }

  // ------------------------------------------------------------ a table that meets the conditions

  /** The quarter turns, clockwise. */
  function Turn(r: nat): C
  {
    if r == 0 then X.C(1.0, 0.0) else if r == 1 then X.C(0.0, -1.0) else if r == 2 then X.C(-1.0, 0.0)
      else X.C(0.0, 1.0)
  }

  function Quarters(n: nat): C
  {
    Turn(n % 4)
  }

  /** c, turned by i quarters. */
  function Turned(i: nat, c: C): C
  {
    if i == 0 then c else if i == 1 then X.C(c.im, -c.re) else if i == 2 then X.C(-c.re, -c.im) else X.C(-c.im, c.re)
  }

  lemma TurnTimes(w: C, i: nat, c: C)
    requires i < 4 && w == Turn(i)
    ensures X.Mul(w, c) == Turned(i, c)
  {
  }

  lemma TurnedTwice(i: nat, j: nat)
    requires i < 4 && j < 4
    ensures Turned(i, Turn(j)) == Turn(if i + j < 4 then i + j else i + j - 4)
  {
  }

  lemma QuartersTurn(a: nat, b: nat)
    ensures Quarters(a + b) == X.Mul(Quarters(a), Quarters(b))
  {
    var i, j := a % 4, b % 4;
    assert (a + b) % 4 == if i + j < 4 then i + j else i + j - 4;
    TurnTimes(Turn(i), i, Turn(j));
    TurnedTwice(i, j);
  }

  lemma QuarterEntries(sine: seq<Short>, K: nat, j: nat)
    requires K == 2 && sine == [0, 32767, 0] && j < 2
    ensures IsTable(sine, K) && j < Pow2(K - 1) == 2
    ensures InDisc(Wide(sine[QuarterOn(K, j)], sine[j]), 0x8000)
    ensures Within(X.Sub(Embed(Factor(sine, K, j)), X.Times(32768.0, Quarters(j))), 2.5)
  {
    assert Pow2(0) == 1;
    assert j == 0 || j == 1;
  }

  lemma QuartersAreRoots(K: nat)
    requires K == 2
    ensures X.RootTable(Quarters, K)
  {
    assert Pow2(1) == 2;
    forall a: nat, b: nat
      ensures Quarters(X.Plus(a, b)) == X.Mul(Quarters(a), Quarters(b))
    {
      QuartersTurn(a, b);
    }
  }

  /** For four samples the table 0, 32767, 0 and the quarter turns meet all that Forward asks. */
  lemma QuarterTable(sine: seq<Short>, K: nat)
    requires K == 2 && sine == [0, 32767, 0]
    ensures UnitTable(sine, K) && Accurate(sine, K, Quarters) && X.RootTable(Quarters, K)
  {
    QuarterEntries(sine, K, 0);
    forall j: nat | j < 2
      ensures InDisc(Wide(sine[QuarterOn(K, j)], sine[j]), 0x8000)
      ensures Within(X.Sub(Embed(Factor(sine, K, j)), X.Times(32768.0, Quarters(j))), 2.5)
    {
      QuarterEntries(sine, K, j);
    }
    QuartersAreRoots(K);
  }
}
