/** What fix_fft computes when the arithmetic is exact: the discrete Fourier sum, divided by
    two once for every pass that halves.  The loop nest is the one the 16-bit code runs. */
module ExactDft {
  import opened Sequences
  import opened TransformSpec

  datatype C = C(re: real, im: real)

  const ZERO := C(0.0, 0.0)
  const ONE := C(1.0, 0.0)
  const MINUS_ONE := C(-1.0, 0.0)

  function Add(a: C, b: C): C { C(a.re + b.re, a.im + b.im) }
  function Sub(a: C, b: C): C { C(a.re - b.re, a.im - b.im) }
  function Mul(a: C, b: C): C { C(a.re * b.re - a.im * b.im, a.re * b.im + a.im * b.re) }
  function Times(k: real, a: C): C { C(k * a.re, k * a.im) }

  lemma MulAssoc(a: C, b: C, c: C)
    ensures Mul(a, Mul(b, c)) == Mul(Mul(a, b), c)
  {
  }

  lemma MulComm(a: C, b: C)
    ensures Mul(a, b) == Mul(b, a)
  {
  }

  lemma MulSub(a: C, b: C, c: C)
    ensures Mul(a, Sub(b, c)) == Sub(Mul(a, b), Mul(a, c))
  {
  }

  lemma AddMul(b: C, c: C, a: C)
    ensures Mul(Add(b, c), a) == Add(Mul(b, a), Mul(c, a))
  {
  }

  lemma SubMul(b: C, c: C, a: C)
    ensures Mul(Sub(b, c), a) == Sub(Mul(b, a), Mul(c, a))
  {
  }

  lemma TimesMul(k: real, a: C, b: C)
    ensures Mul(a, Times(k, b)) == Times(k, Mul(a, b))
  {
  }

  // ------------------------------------------------------------ the table

  function Plus(a: nat, b: nat): nat { a + b }

  /** A table of the powers of a primitive 2^K-th root of one. */
  ghost predicate RootTable(W: nat -> C, K: nat)
  {
    && K >= 1
    && W(0) == ONE
    && W(Pow2(K - 1)) == MINUS_ONE
    && forall a: nat, b: nat {:trigger Plus(a, b)} :: W(Plus(a, b)) == Mul(W(a), W(b))
  }

  lemma TurnBy(W: nat -> C, K: nat, a: nat, b: nat)
    requires RootTable(W, K)
    ensures W(a + b) == Mul(W(a), W(b))
  {
    assert Plus(a, b) == a + b;
  }

  lemma OneTurn(W: nat -> C, K: nat)
    requires RootTable(W, K)
    ensures W(Pow2(K)) == ONE
  {
    TurnBy(W, K, Pow2(K - 1), Pow2(K - 1));
    assert Mul(MINUS_ONE, MINUS_ONE) == ONE;
    assert Pow2(K) == Pow2(K - 1) + Pow2(K - 1);
  }

  lemma {:induction false} WholeTurns(W: nat -> C, K: nat, t: nat)
    requires RootTable(W, K)
    ensures W(t * Pow2(K)) == ONE
  {
    if t == 0 {
      assert t * Pow2(K) == 0;
    } else {
      WholeTurns(W, K, t - 1);
      OneTurn(W, K);
      RegroupProduct(t, Pow2(K));
      TurnBy(W, K, (t - 1) * Pow2(K), Pow2(K));
    }
  }

  lemma RegroupProduct(t: nat, n: nat)
    requires t > 0
    ensures t * n == (t - 1) * n + n
  {
  }

  // ------------------------------------------------------------ finite sums

  function Sum(f: nat -> C, n: nat): C
  {
    if n == 0 then ZERO else Add(Sum(f, n - 1), f(n - 1))
  }

  lemma {:induction false} SumEqual(f: nat -> C, g: nat -> C, n: nat)
    requires forall i: nat :: i < n ==> f(i) == g(i)
    ensures Sum(f, n) == Sum(g, n)
  {
    if n == 0 {
    } else {
      SumEqual(f, g, n - 1);
    }
  }

  lemma {:induction false} SumEvenOdd(f: nat -> C, e: nat -> C, o: nat -> C, n: nat)
    requires forall i: nat :: i < n ==> e(i) == f(2 * i) && o(i) == f(2 * i + 1)
    ensures Sum(f, 2 * n) == Add(Sum(e, n), Sum(o, n))
  {
    if n == 0 {
    } else {
      SumEvenOdd(f, e, o, n - 1);
      assert Sum(f, 2 * n) == Add(Add(Sum(f, 2 * (n - 1)), f(2 * (n - 1))), f(2 * (n - 1) + 1));
    }
  }

  lemma {:induction false} SumHalves(f: nat -> C, lo: nat -> C, m: nat, n: nat)
    requires forall i: nat :: i < n ==> lo(i) == f(m + i)
    ensures Sum(f, m + n) == Add(Sum(f, m), Sum(lo, n))
  {
    if n == 0 {
    } else {
      SumHalves(f, lo, m, n - 1);
    }
  }

  lemma {:induction false} SumAdd(f: nat -> C, g: nat -> C, h: nat -> C, n: nat)
    requires forall i: nat :: i < n ==> h(i) == Add(f(i), g(i))
    ensures Sum(h, n) == Add(Sum(f, n), Sum(g, n))
  {
    if n == 0 {
    } else {
      SumAdd(f, g, h, n - 1);
    }
  }

  lemma {:induction false} SumFactor(k: C, f: nat -> C, g: nat -> C, n: nat)
    requires forall i: nat :: i < n ==> g(i) == Mul(f(i), k)
    ensures Sum(g, n) == Mul(Sum(f, n), k)
  {
    if n == 0 {
    } else {
      SumFactor(k, f, g, n - 1);
      AddMul(Sum(f, n - 1), f(n - 1), k);
    }
  }

  /** Table position of sample t at frequency c. */
  function At(t: nat, c: nat, s: nat): nat
  {
    t * c * s
  }

  /** The Fourier sum at frequency c, over a table read with stride s. */
  function Term(W: nat -> C, s: nat, x: seq<C>, c: nat): nat -> C
  {
    (t: nat) => if t < |x| then Mul(x[t], W(At(t, c, s))) else ZERO
  }

  function Fourier(W: nat -> C, s: nat, x: seq<C>, c: nat): C
  {
    Sum(Term(W, s, x, c), |x|)
  }

  // ------------------------------------------------------------ decimation in time

  lemma Split3(t: nat, c: nat, s: nat)
    ensures At(2 * t, c, s) == At(t, c, 2 * s)
    ensures At(2 * t + 1, c, s) == At(t, c, 2 * s) + c * s
  {
    assert (2 * t) * c * s == 2 * (t * c * s);
    assert t * c * (2 * s) == 2 * (t * c * s);
    assert (2 * t + 1) * c * s == (2 * t) * c * s + c * s;
  }

  lemma OddTerm(W: nat -> C, K: nat, s: nat, v: C, t: nat, c: nat)
    requires RootTable(W, K)
    ensures Mul(v, W(At(2 * t + 1, c, s))) == Mul(Mul(v, W(At(t, c, 2 * s))), W(c * s))
  {
    Split3(t, c, s);
    TurnBy(W, K, At(t, c, 2 * s), c * s);
    MulAssoc(v, W(At(t, c, 2 * s)), W(c * s));
  }

  lemma FourierSplit(W: nat -> C, K: nat, s: nat, x: seq<C>, c: nat)
    requires RootTable(W, K) && |x| % 2 == 0
    ensures Fourier(W, s, x, c)
         == Add(Fourier(W, 2 * s, Evens(x), c), Mul(Fourier(W, 2 * s, Odds(x), c), W(c * s)))
  {
    var h, w := |x| / 2, W(c * s);
    var f, e, o := Term(W, s, x, c), Term(W, 2 * s, Evens(x), c), Term(W, 2 * s, Odds(x), c);
    var twisted := (t: nat) => Mul(o(t), w);
    forall t: nat | t < h
      ensures e(t) == f(2 * t) && twisted(t) == f(2 * t + 1)
    {
      Split3(t, c, s);
      OddTerm(W, K, s, x[2 * t + 1], t, c);
    }
    SumEvenOdd(f, e, twisted, h);
    SumFactor(w, o, twisted, h);
  }

  lemma PeriodicTerm(W: nat -> C, K: nat, s: nat, n: nat, t: nat, c: nat)
    requires RootTable(W, K) && n * s == Pow2(K)
    ensures W(At(t, c + n, s)) == W(At(t, c, s))
  {
    Expand3(t, c, n, s);
    WholeTurns(W, K, t);
    TurnBy(W, K, At(t, c, s), t * Pow2(K));
  }

  /** One period further on, the sums repeat. */
  lemma FourierPeriodic(W: nat -> C, K: nat, s: nat, x: seq<C>, c: nat)
    requires RootTable(W, K) && |x| * s == Pow2(K)
    ensures Fourier(W, s, x, c + |x|) == Fourier(W, s, x, c)
  {
    var f, g := Term(W, s, x, c + |x|), Term(W, s, x, c);
    forall t: nat | t < |x|
      ensures f(t) == g(t)
    {
      PeriodicTerm(W, K, s, |x|, t, c);
    }
    SumEqual(f, g, |x|);
  }

  lemma Expand3(t: nat, c: nat, n: nat, s: nat)
    ensures t * (c + n) * s == t * c * s + t * (n * s)
  {
    assert t * (c + n) * s == (t * c + t * n) * s == t * c * s + t * n * s;
    assert t * n * s == t * (n * s);
  }

  lemma HalfTurn(W: nat -> C, K: nat, c: nat, h: nat, s: nat)
    requires RootTable(W, K) && h * s == Pow2(K - 1)
    ensures W((c + h) * s) == Sub(ZERO, W(c * s))
  {
    assert (c + h) * s == c * s + h * s;
    TurnBy(W, K, c * s, h * s);
  }

  // ------------------------------------------------------------ the transform

  /** (q +- w z), halved or not.  halves[p] says whether pass p halves. */
  function Cross(w: C, halve: bool, q: C, z: C): (C, C)
  {
    var k := if halve then 0.5 else 1.0;
    (Times(k, Add(q, Mul(z, w))), Times(k, Sub(q, Mul(z, w))))
  }

  function ExactButterfly(W: nat -> C, K: nat, halves: seq<bool>): Butterfly<C>
  {
    (p: nat, t: nat, q: C, z: C) =>
      if p < |halves| && p < K then Cross(W(t * Pow2(K - 1 - p)), halves[p], q, z) else (q, z)
  }

  /** Two to the number of passes below b that halve. */
  function Gain(halves: seq<bool>, b: nat): real
    requires b <= |halves|
  {
    if b == 0 then 1.0 else Gain(halves, b - 1) * if halves[b - 1] then 2.0 else 1.0
  }

  lemma CrossGain(w: C, halve: bool, g: real, q: C, z: C)
    ensures var k := g * if halve then 2.0 else 1.0;
            && Times(k, Cross(w, halve, q, z).0) == Add(Times(g, q), Mul(Times(g, z), w))
            && Times(k, Cross(w, halve, q, z).1) == Sub(Times(g, q), Mul(Times(g, z), w))
  {
  }

  lemma LowFrequency(W: nat -> C, K: nat, s: nat, x: seq<C>, t: nat, halve: bool, g: real, q: C, z: C)
    requires RootTable(W, K) && |x| % 2 == 0
    requires Times(g, q) == Fourier(W, 2 * s, Evens(x), t) && Times(g, z) == Fourier(W, 2 * s, Odds(x), t)
    ensures Times(g * if halve then 2.0 else 1.0, Cross(W(t * s), halve, q, z).0) == Fourier(W, s, x, t)
  {
    FourierSplit(W, K, s, x, t);
    CrossGain(W(t * s), halve, g, q, z);
  }

  lemma HalvesPeriodic(W: nat -> C, K: nat, s: nat, x: seq<C>, h: nat, t: nat)
    requires RootTable(W, K) && |x| == 2 * h && h * s == Pow2(K - 1)
    ensures Fourier(W, 2 * s, Evens(x), t + h) == Fourier(W, 2 * s, Evens(x), t)
    ensures Fourier(W, 2 * s, Odds(x), t + h) == Fourier(W, 2 * s, Odds(x), t)
  {
    assert h * (2 * s) == 2 * (h * s);
    FourierPeriodic(W, K, 2 * s, Evens(x), t);
    FourierPeriodic(W, K, 2 * s, Odds(x), t);
  }

  lemma FourierShifted(W: nat -> C, K: nat, s: nat, x: seq<C>, h: nat, t: nat)
    requires RootTable(W, K) && |x| == 2 * h && h * s == Pow2(K - 1)
    ensures Fourier(W, s, x, t + h)
         == Sub(Fourier(W, 2 * s, Evens(x), t), Mul(Fourier(W, 2 * s, Odds(x), t), W(t * s)))
  {
    FourierSplit(W, K, s, x, t + h);
    HalvesPeriodic(W, K, s, x, h, t);
    HalfTurn(W, K, t, h, s);
    MinusProduct(Fourier(W, 2 * s, Evens(x), t), Fourier(W, 2 * s, Odds(x), t), W(t * s), W((t + h) * s),
                 Fourier(W, s, x, t + h));
  }

  lemma HighFrequency(W: nat -> C, K: nat, s: nat, x: seq<C>, h: nat, t: nat, halve: bool, g: real, q: C, z: C)
    requires RootTable(W, K) && |x| == 2 * h && h * s == Pow2(K - 1)
    requires Times(g, q) == Fourier(W, 2 * s, Evens(x), t) && Times(g, z) == Fourier(W, 2 * s, Odds(x), t)
    ensures Times(g * if halve then 2.0 else 1.0, Cross(W(t * s), halve, q, z).1) == Fourier(W, s, x, t + h)
  {
    FourierShifted(W, K, s, x, h, t);
    CrossGain(W(t * s), halve, g, q, z);
  }

  lemma CombineAt(W: nat -> C, K: nat, halves: seq<bool>, p: nat, e: seq<C>, o: seq<C>, c: nat)
    requires p < K && p < |halves| && |e| == |o| == Pow2(p) && c < 2 * |e|
    ensures var y := Combine(ExactButterfly(W, K, halves), p, e, o);
            var (t, s) := (if c < |e| then c else c - |e|, Pow2(K - 1 - p));
            var (u, v) := Cross(W(t * s), halves[p], e[t], o[t]);
            y[c] == if c < |e| then u else v
  {
  }

  /** Frequency c of the recursion, scaled back by the halvings, is that of the Fourier sum. */
  ghost predicate IsFourierAt(W: nat -> C, K: nat, halves: seq<bool>, b: nat, x: seq<C>, c: nat)
    requires b <= K && b <= |halves| && |x| == Pow2(b) && c < |x|
  {
    Times(Gain(halves, b), Dit(ExactButterfly(W, K, halves), b, x)[c]) == Fourier(W, Pow2(K - b), x, c)
  }

  lemma SingleIsFourier(W: nat -> C, K: nat, halves: seq<bool>, x: seq<C>)
    requires RootTable(W, K) && |x| == Pow2(0)
    ensures IsFourierAt(W, K, halves, 0, x, 0)
  {
    SingleSample(W, K, Pow2(K), x);
  }

  /** The loop nest, scaled back by the halvings, is the Fourier sum at every frequency. */
  lemma {:induction false} TransformIsFourier(W: nat -> C, K: nat, halves: seq<bool>, b: nat, x: seq<C>, c: nat)
    requires RootTable(W, K) && b <= K && b <= |halves| && |x| == Pow2(b) && c < |x|
    ensures Times(Gain(halves, b), Dit(ExactButterfly(W, K, halves), b, x)[c]) == Fourier(W, Pow2(K - b), x, c)
  {
    FourierAt(W, K, halves, b, x, c);
  }

  lemma {:induction false} FourierAt(W: nat -> C, K: nat, halves: seq<bool>, b: nat, x: seq<C>, c: nat)
    requires RootTable(W, K) && b <= K && b <= |halves| && |x| == Pow2(b) && c < |x|
    ensures IsFourierAt(W, K, halves, b, x, c)
  {
    if b == 0 {
      SingleIsFourier(W, K, halves, x);
    } else {
      var h := Pow2(b - 1);
      var t := if c < h then c else c - h;
      FourierAt(W, K, halves, b - 1, Evens(x), t);
      FourierAt(W, K, halves, b - 1, Odds(x), t);
      HalvesToWhole(W, K, halves, b - 1, x, c, t);
    }
  }

  /** From the two halves of the recursion to the whole. */
  lemma HalvesToWhole(W: nat -> C, K: nat, halves: seq<bool>, p: nat, x: seq<C>, c: nat, t: nat)
    requires RootTable(W, K) && p < K && p < |halves| && |x| == 2 * Pow2(p) && c < |x|
    requires t == if c < Pow2(p) then c else c - Pow2(p)
    requires IsFourierAt(W, K, halves, p, Evens(x), t) && IsFourierAt(W, K, halves, p, Odds(x), t)
    ensures IsFourierAt(W, K, halves, p + 1, x, c)
  {
    var bf := ExactButterfly(W, K, halves);
    var e, o := Dit(bf, p, Evens(x)), Dit(bf, p, Odds(x));
    DitIsCombine(bf, p + 1, x);
    assert Dit(bf, p + 1, x) == Combine(bf, p, e, o);
    CombineIsFourier(W, K, halves, p, x, c, e, o);
  }

  lemma DitIsCombine(bf: Butterfly<C>, b: nat, x: seq<C>)
    requires b > 0 && |x| == Pow2(b)
    ensures Dit(bf, b, x) == Combine(bf, b - 1, Dit(bf, b - 1, Evens(x)), Dit(bf, b - 1, Odds(x)))
  {
  }

  lemma CombineIsFourier(W: nat -> C, K: nat, halves: seq<bool>, p: nat, x: seq<C>, c: nat, e: seq<C>, o: seq<C>)
    requires RootTable(W, K) && p < K && p < |halves| && |e| == |o| == Pow2(p) && |x| == 2 * |e| && c < |x|
    requires var (t, s) := (if c < |e| then c else c - |e|, Pow2(K - p));
             && Times(Gain(halves, p), e[t]) == Fourier(W, s, Evens(x), t)
             && Times(Gain(halves, p), o[t]) == Fourier(W, s, Odds(x), t)
    ensures Times(Gain(halves, p + 1), Combine(ExactButterfly(W, K, halves), p, e, o)[c])
         == Fourier(W, Pow2(K - 1 - p), x, c)
  {
    var h, s := |e|, Pow2(K - 1 - p);
    var t := if c < h then c else c - h;
    Pow2Add(p, K - 1 - p);
    CombineAt(W, K, halves, p, e, o, c);
    if c < h {
      LowFrequency(W, K, s, x, t, halves[p], Gain(halves, p), e[t], o[t]);
    } else {
      HighFrequency(W, K, s, x, h, t, halves[p], Gain(halves, p), e[t], o[t]);
    }
  }

  lemma SingleSample(W: nat -> C, K: nat, s: nat, x: seq<C>)
    requires RootTable(W, K) && |x| == 1
    ensures Fourier(W, s, x, 0) == x[0] == Times(1.0, x[0])
  {
    assert At(0, 0, s) == 0;
    assert Sum(Term(W, s, x, 0), 1) == Add(Sum(Term(W, s, x, 0), 0), Mul(x[0], W(0)));
  }

  lemma MinusProduct(a: C, b: C, w: C, v: C, r: C)
    requires v == Sub(ZERO, w) && r == Add(a, Mul(b, v))
    ensures r == Sub(a, Mul(b, w))
  {
  }

  // ------------------------------------------------------------ inversion

  /** V turns the other way. */
  ghost predicate Opposite(W: nat -> C, V: nat -> C)
  {
    forall j: nat {:trigger Plus(j, j)} :: Mul(W(j), V(j)) == ONE
  }

  lemma Undo(W: nat -> C, V: nat -> C, j: nat)
    requires Opposite(W, V)
    ensures Mul(W(j), V(j)) == ONE
  {
    assert Plus(j, j) == 2 * j;
  }

  /** All frequencies of a sequence. */
  function Spectrum(W: nat -> C, s: nat, x: seq<C>): (y: seq<C>)
    ensures |y| == |x|
    ensures forall c :: 0 <= c < |x| ==> y[c] == Fourier(W, s, x, c)
  {
    seq(|x|, c requires 0 <= c < |x| => Fourier(W, s, x, c))
  }

  /** Folding the two halves onto each other: the sums feed the even frequencies. */
  function Folded(x: seq<C>): (u: seq<C>)
    ensures |u| == |x| / 2
  {
    seq(|x| / 2, t requires 0 <= t < |x| / 2 => Add(x[t], x[t + |x| / 2]))
  }

  /** ... and the twisted differences feed the odd ones. */
  function Twisted(W: nat -> C, s: nat, x: seq<C>): (u: seq<C>)
    ensures |u| == |x| / 2
  {
    seq(|x| / 2, t requires 0 <= t < |x| / 2 => Mul(Sub(x[t], x[t + |x| / 2]), W(t * s)))
  }

  lemma FoldedTable(W: nat -> C, K: nat, s: nat, h: nat, t: nat, c: nat)
    requires RootTable(W, K) && h * s == Pow2(K - 1)
    ensures var (w, v) := (W(At(t, c, 2 * s)), W(t * s));
            && W(At(t, 2 * c, s)) == w
            && W(At(t, 2 * c + 1, s)) == Mul(w, v)
            && W(At(h + t, 2 * c, s)) == Mul(w, ONE)
            && W(At(h + t, 2 * c + 1, s)) == Mul(Mul(w, ONE), Sub(ZERO, v))
  {
    var i := At(t, c, 2 * s);
    Split3(c, t, s);
    Fold3(h, t, c, s);
    assert c * (2 * (h * s)) == c * Pow2(K);
    Same(t, c, s);
    WholeTurns(W, K, c);
    TurnBy(W, K, i, c * Pow2(K));
    TurnBy(W, K, i, t * s);
    TurnBy(W, K, i + c * Pow2(K), (t + h) * s);
    HalfTurn(W, K, t, h, s);
  }

  lemma Same(t: nat, c: nat, s: nat)
    ensures t * (2 * c) * s == (2 * c) * t * s && t * (2 * c + 1) * s == (2 * c + 1) * t * s
    ensures c * t * (2 * s) == t * c * (2 * s)
  {
    assert t * (2 * c) == (2 * c) * t && t * (2 * c + 1) == (2 * c + 1) * t && c * t == t * c;
  }

  lemma EvenTerm(W: nat -> C, K: nat, s: nat, h: nat, t: nat, c: nat, a: C, b: C)
    requires RootTable(W, K) && h * s == Pow2(K - 1)
    ensures Add(Mul(a, W(At(t, 2 * c, s))), Mul(b, W(At(h + t, 2 * c, s)))) == Mul(Add(a, b), W(At(t, c, 2 * s)))
  {
    FoldedTable(W, K, s, h, t, c);
    FoldEven(a, b, W(At(t, c, 2 * s)), W(At(h + t, 2 * c, s)));
  }

  lemma TwistedTerm(W: nat -> C, K: nat, s: nat, h: nat, t: nat, c: nat, a: C, b: C)
    requires RootTable(W, K) && h * s == Pow2(K - 1)
    ensures Add(Mul(a, W(At(t, 2 * c + 1, s))), Mul(b, W(At(h + t, 2 * c + 1, s))))
         == Mul(Mul(Sub(a, b), W(t * s)), W(At(t, c, 2 * s)))
  {
    FoldedTable(W, K, s, h, t, c);
    FoldOdd(a, b, W(At(t, c, 2 * s)), W(t * s), W(At(t, 2 * c + 1, s)), W(At(h + t, 2 * c + 1, s)));
  }

  lemma Fold3(h: nat, t: nat, c: nat, s: nat)
    ensures (h + t) * (2 * c) * s == t * c * (2 * s) + c * (2 * (h * s))
    ensures (h + t) * (2 * c + 1) * s == t * c * (2 * s) + c * (2 * (h * s)) + (t + h) * s
  {
    Split3(c, h + t, s);
    assert (h + t) * (2 * c) * s == (h + t) * c * (2 * s);
    assert (h + t) * c * (2 * s) == h * c * (2 * s) + t * c * (2 * s);
    assert h * c * (2 * s) == c * (2 * (h * s)) by {
      assert h * c * (2 * s) == c * h * (2 * s) == c * (h * (2 * s));
    }
  }

  lemma FoldEven(a: C, b: C, w: C, even: C)
    requires even == Mul(w, ONE)
    ensures Add(Mul(a, w), Mul(b, even)) == Mul(Add(a, b), w)
  {
    assert Mul(w, ONE) == w;
    AddMul(a, b, w);
  }

  lemma FoldOdd(a: C, b: C, w: C, v: C, odd: C, odd': C)
    requires odd == Mul(w, v) && odd' == Mul(Mul(w, ONE), Sub(ZERO, v))
    ensures Add(Mul(a, odd), Mul(b, odd')) == Mul(Mul(Sub(a, b), v), w)
  {
    MulComm(w, v);
    MulAssoc(a, v, w);
    MulAssoc(b, v, w);
    SubMul(a, b, v);
    SubMul(Mul(a, v), Mul(b, v), w);
    assert Mul(w, ONE) == w;
    MulSub(w, ZERO, v);
    MulSub(b, ZERO, Mul(w, v));
  }

  lemma EvenFrequency(W: nat -> C, K: nat, s: nat, x: seq<C>, c: nat)
    requires RootTable(W, K) && |x| % 2 == 0 && |x| / 2 * s == Pow2(K - 1)
    ensures Fourier(W, s, x, 2 * c) == Fourier(W, 2 * s, Folded(x), c)
  {
    var h := |x| / 2;
    var f, sum := Term(W, s, x, 2 * c), Term(W, 2 * s, Folded(x), c);
    var lo := (t: nat) => f(h + t);
    forall t: nat | t < h
      ensures sum(t) == Add(f(t), lo(t))
    {
      EvenTerm(W, K, s, h, t, c, x[t], x[t + h]);
    }
    SumHalves(f, lo, h, h);
    SumAdd(f, lo, sum, h);
  }

  lemma OddFrequency(W: nat -> C, K: nat, s: nat, x: seq<C>, c: nat)
    requires RootTable(W, K) && |x| % 2 == 0 && |x| / 2 * s == Pow2(K - 1)
    ensures Fourier(W, s, x, 2 * c + 1) == Fourier(W, 2 * s, Twisted(W, s, x), c)
  {
    var h := |x| / 2;
    var f, dif := Term(W, s, x, 2 * c + 1), Term(W, 2 * s, Twisted(W, s, x), c);
    var lo := (t: nat) => f(h + t);
    forall t: nat | t < h
      ensures dif(t) == Add(f(t), lo(t))
    {
      TwistedTerm(W, K, s, h, t, c, x[t], x[t + h]);
    }
    SumHalves(f, lo, h, h);
    SumAdd(f, lo, dif, h);
  }

  lemma SpectrumSplit(W: nat -> C, K: nat, s: nat, x: seq<C>)
    requires RootTable(W, K) && |x| % 2 == 0 && |x| / 2 * s == Pow2(K - 1)
    ensures Evens(Spectrum(W, s, x)) == Spectrum(W, 2 * s, Folded(x))
    ensures Odds(Spectrum(W, s, x)) == Spectrum(W, 2 * s, Twisted(W, s, x))
  {
    forall c: nat | c < |x| / 2
      ensures Evens(Spectrum(W, s, x))[c] == Spectrum(W, 2 * s, Folded(x))[c]
      ensures Odds(Spectrum(W, s, x))[c] == Spectrum(W, 2 * s, Twisted(W, s, x))[c]
    {
      EvenFrequency(W, K, s, x, c);
      OddFrequency(W, K, s, x, c);
    }
  }

  lemma Untwist(k: real, a: C, b: C, w: C, v: C)
    requires Mul(w, v) == ONE
    ensures Add(Times(k, Add(a, b)), Mul(Times(k, Mul(Sub(a, b), w)), v)) == Times(2.0 * k, a)
    ensures Sub(Times(k, Add(a, b)), Mul(Times(k, Mul(Sub(a, b), w)), v)) == Times(2.0 * k, b)
  {
    var d := Sub(a, b);
    MulAssoc(d, w, v);
    assert Mul(d, ONE) == d;
    TimesMul(k, v, Mul(d, w));
    MulComm(v, Times(k, Mul(d, w)));
    MulComm(v, Mul(d, w));
    assert Mul(Times(k, Mul(d, w)), v) == Times(k, d);
  }

  /** Transforming there and back returns the input, times its length. */
  lemma {:induction false} Inversion(W: nat -> C, V: nat -> C, K: nat, b: nat, x: seq<C>, u: nat)
    requires RootTable(W, K) && RootTable(V, K) && Opposite(W, V)
    requires b <= K && |x| == Pow2(b) && u < |x|
    ensures Fourier(V, Pow2(K - b), Spectrum(W, Pow2(K - b), x), u) == Times(|x| as real, x[u])
  {
    if b == 0 {
      SingleSample(W, K, Pow2(K), x);
      SingleSample(V, K, Pow2(K), Spectrum(W, Pow2(K), x));
    } else {
      var h, s := Pow2(b - 1), Pow2(K - b);
      var t := if u < h then u else u - h;
      Pow2Add(b - 1, K - b);
      Inversion(W, V, K, b - 1, Folded(x), t);
      Inversion(W, V, K, b - 1, Twisted(W, s, x), t);
      Unfold(W, V, K, s, h, x, t);
    }
  }

  lemma Unfold(W: nat -> C, V: nat -> C, K: nat, s: nat, h: nat, x: seq<C>, t: nat)
    requires RootTable(W, K) && RootTable(V, K) && Opposite(W, V)
    requires |x| == 2 * h && t < h && h * s == Pow2(K - 1)
    requires Fourier(V, 2 * s, Spectrum(W, 2 * s, Folded(x)), t) == Times(h as real, Folded(x)[t])
    requires Fourier(V, 2 * s, Spectrum(W, 2 * s, Twisted(W, s, x)), t) == Times(h as real, Twisted(W, s, x)[t])
    ensures Fourier(V, s, Spectrum(W, s, x), t) == Times((2 * h) as real, x[t])
    ensures Fourier(V, s, Spectrum(W, s, x), t + h) == Times((2 * h) as real, x[t + h])
  {
    var y := Spectrum(W, s, x);
    assert |x| / 2 == h;
    SpectrumSplit(W, K, s, x);
    FourierSplit(V, K, s, y, t);
    FourierShifted(V, K, s, y, h, t);
    Undo(W, V, t * s);
    Untwist(h as real, x[t], x[t + h], W(t * s), V(t * s));
    assert (2 * h) as real == 2.0 * h as real;
  }

  lemma {:induction false} SumTimes(k: real, f: nat -> C, g: nat -> C, n: nat)
    requires forall i: nat :: i < n ==> g(i) == Times(k, f(i))
    ensures Sum(g, n) == Times(k, Sum(f, n))
  {
    if n == 0 {
    } else {
      SumTimes(k, f, g, n - 1);
    }
  }

  lemma FourierTimes(W: nat -> C, s: nat, k: real, y: seq<C>, z: seq<C>, c: nat)
    requires |y| == |z| && forall i :: 0 <= i < |y| ==> z[i] == Times(k, y[i])
    ensures Fourier(W, s, z, c) == Times(k, Fourier(W, s, y, c))
  {
    var f, g := Term(W, s, y, c), Term(W, s, z, c);
    forall t: nat | t < |y|
      ensures g(t) == Times(k, f(t))
    {
      var w := W(At(t, c, s));
      MulComm(z[t], w);
      TimesMul(k, w, y[t]);
      MulComm(w, y[t]);
    }
    SumTimes(k, f, g, |y|);
  }

  lemma {:induction false} FullGain(halves: seq<bool>, b: nat)
    requires b <= |halves| && forall p :: 0 <= p < b ==> halves[p]
    ensures Gain(halves, b) == Pow2(b) as real
  {
    if b == 0 {
    } else {
      FullGain(halves, b - 1);
    }
  }

  lemma Cancel(n: real, g: real, a: C, z: C)
    requires n != 0.0 && Times(n, Times(g, z)) == Times(n, a)
    ensures Times(g, z) == a
  {
  }

  /** The forward loop nest halves on every pass.  The inverse loop nest, run on its output
      with the opposite table and scaled back by the passes that halved, restores the input. */
  lemma RoundTrip(W: nat -> C, V: nat -> C, K: nat, all: seq<bool>, some: seq<bool>, b: nat, x: seq<C>, u: nat)
    requires RootTable(W, K) && RootTable(V, K) && Opposite(W, V)
    requires b <= K && |x| == Pow2(b) && u < |x| && |all| == |some| == b
    requires forall p :: 0 <= p < b ==> all[p]
    ensures Times(Gain(some, b),
                  LoopNest(ExactButterfly(V, K, some), b, LoopNest(ExactButterfly(W, K, all), b, x))[u]) == x[u]
  {
    var s, n := Pow2(K - b), Pow2(b) as real;
    LoopNestIsDit(ExactButterfly(W, K, all), b, x);
    var y := LoopNest(ExactButterfly(W, K, all), b, x);
    LoopNestIsDit(ExactButterfly(V, K, some), b, y);
    var z := LoopNest(ExactButterfly(V, K, some), b, y);
    FullGain(all, b);
    forall c: nat | c < |x|
      ensures Spectrum(W, s, x)[c] == Times(n, y[c])
    {
      TransformIsFourier(W, K, all, b, x, c);
    }
    FourierTimes(V, s, n, y, Spectrum(W, s, x), u);
    TransformIsFourier(V, K, some, b, y, u);
    Inversion(W, V, K, b, x, u);
    Cancel(n, Gain(some, b), x[u], z[u]);
  }

  /** The gain is two to the number of passes that halve: a shift by the scale that fix_fft returns. */
  lemma {:induction false} GainIsShift(halves: seq<bool>, b: nat)
    requires b <= |halves|
    ensures Gain(halves, b) == Pow2(|set p: nat | p < b && halves[p]|) as real
  {
    var all := set p: nat | p < b && halves[p];
    if b == 0 {
      assert all == {};
    } else {
      GainIsShift(halves, b - 1);
      OneMoreTrue(halves, b - 1);
    }
  }

  /** Forward, then inverse, then left by the scale: the input. */
  lemma RoundTripShifted(W: nat -> C, V: nat -> C, K: nat, all: seq<bool>, some: seq<bool>, b: nat, x: seq<C>, u: nat,
                         scale: nat)
    requires RootTable(W, K) && RootTable(V, K) && Opposite(W, V)
    requires b <= K && |x| == Pow2(b) && u < |x| && |all| == |some| == b
    requires (forall p :: 0 <= p < b ==> all[p]) && scale == |set p: nat | p < b && some[p]|
    ensures Times(Pow2(scale) as real,
                  LoopNest(ExactButterfly(V, K, some), b, LoopNest(ExactButterfly(W, K, all), b, x))[u]) == x[u]
  {
    RoundTrip(W, V, K, all, some, b, x, u);
    GainIsShift(some, b);
  }
}
