/** The forward transform with every narrowing watched: a value that has come about without any
    16-bit narrowing changing anything, or the news that one did. */
module CheckedFft {
  import opened TransformSpec
  import opened FixFft
  import opened FixFftBounds

  datatype Checked = Exact(w: Wide) | Cut

  predicate Fits(x: int)
  {
    -0x8000 <= x < 0x8000
  }

  predicate FitsBoth(w: Wide)
  {
    Fits(w.re) && Fits(w.im)
  }

  /** The four products and the two sums of them. */
  predicate ProductsFit(wr: int, wi: int, z: Wide)
  {
    && Fits(WideMpy(wr, z.re)) && Fits(WideMpy(wi, z.im)) && Fits(WideMpy(wr, z.im)) && Fits(WideMpy(wi, z.re))
    && Fits(WideMpy(wr, z.re) - WideMpy(wi, z.im)) && Fits(WideMpy(wr, z.im) + WideMpy(wi, z.re))
  }

  function Keep(ok: bool, w: Wide): Checked
  {
    if ok && FitsBoth(w) then Exact(w) else Cut
  }

  function CheckedCross(wr: int, wi: int, q: Checked, z: Checked): (Checked, Checked)
  {
    if q.Cut? || z.Cut? then (Cut, Cut)
    else
      var (u, v) := WideCross(wr, wi, q.w, z.w);
      var ok := ProductsFit(wr, wi, z.w);
      (Keep(ok, u), Keep(ok, v))
  }

  function CheckedButterfly(sine: seq<Short>, K: nat): Butterfly<Checked>
    requires IsTable(sine, K)
  {
    (p: nat, t: nat, q: Checked, z: Checked) =>
      if p < K && t < Pow2(p) then
        var j := TwiddleIndex(K, p, t);
        CheckedCross(TwiddleRe(sine, K, true, j), TwiddleIm(sine, K, false, true, j), q, z)
      else
        (q, z)
  }

  function ExactAll(x: seq<Sample>): (y: seq<Checked>)
    ensures |y| == |x|
    ensures forall i :: 0 <= i < |x| ==> y[i] == Exact(Widen(x[i]))
  {
    seq(|x|, i requires 0 <= i < |x| => Exact(Widen(x[i])))
  }

  function AllTrue(n: nat): (flags: seq<bool>)
    ensures |flags| == n
    ensures forall p :: 0 <= p < n ==> flags[p]
  {
    seq(n, p => true)
  }

  /** A cut spreads to all outputs that depend on it, so none of them cut means none anywhere. */
  ghost predicate NothingCut(sine: seq<Short>, K: nat, m: nat, x: seq<Sample>)
    requires IsTable(sine, K) && |x| == Pow2(m)
  {
    forall i :: 0 <= i < |x| ==> Dit(CheckedButterfly(sine, K), m, ExactAll(x))[i].Exact?
  }

  /** The 16-bit result is the unbounded one. */
  ghost predicate SameAsWide(sine: seq<Short>, K: nat, m: nat, x: seq<Sample>)
    requires IsTable(sine, K) && |x| == Pow2(m)
  {
    forall i :: 0 <= i < |x| ==>
      Widen(Dit(FixButterfly(sine, K, false, AllTrue(m)), m, x)[i]) == Dit(WideButterfly(sine, K), m, WidenAll(x))[i]
  }

  // ------------------------------------------------------------ the watch is right

  lemma ProductSound(a: Short, b: Short)
    ensures Fits(WideMpy(a, b)) ==> FixMpy(a, b) == WideMpy(a, b)
  {
    RoundingShift(a * b);
    NarrowId(WideMpy(a, b));
  }

  /** The two shifts and the rounding bit. */
  lemma RoundingShift(p: int)
    ensures p / 0x4000 / 2 + p / 0x4000 % 2 == (p + 0x4000) / 0x8000
  {
  }

  lemma SumSound(a: Short, b: Short)
    ensures Fits((a as int) + b) ==> Sum(a, b) == (a as int) + b
    ensures Fits((a as int) - b) ==> Difference(a, b) == (a as int) - b
  {
    NarrowId((a as int) + b);
    NarrowId((a as int) - b);
  }

  /** The twisted sample, narrowed four times and twice more. */
  lemma TwistedSound(wr: Short, wi: Short, z: Sample)
    requires ProductsFit(wr, wi, Widen(z))
    ensures Difference(FixMpy(wr, z.re), FixMpy(wi, z.im)) == WideMpy(wr, z.re) - WideMpy(wi, z.im)
    ensures Sum(FixMpy(wr, z.im), FixMpy(wi, z.re)) == WideMpy(wr, z.im) + WideMpy(wi, z.re)
  {
    ProductSound(wr, z.re);
    ProductSound(wi, z.im);
    ProductSound(wr, z.im);
    ProductSound(wi, z.re);
    SumSound(FixMpy(wr, z.re), FixMpy(wi, z.im));
    SumSound(FixMpy(wr, z.im), FixMpy(wi, z.re));
  }

  lemma CheckedCrossSound(wr: Short, wi: Short, q: Sample, z: Sample)
    ensures var (c, d) := CheckedCross(wr, wi, Exact(Widen(q)), Exact(Widen(z)));
            var (u, v) := Cross(wr, wi, true, q, z);
            Agrees(u, c) && Agrees(v, d)
  {
    if ProductsFit(wr, wi, Widen(z)) {
      TwistedSound(wr, wi, z);
      var tr, ti := Difference(FixMpy(wr, z.re), FixMpy(wi, z.im)), Sum(FixMpy(wr, z.im), FixMpy(wi, z.re));
      SumSound(Half(q.re), tr);
      SumSound(Half(q.im), ti);
    }
  }

  ghost predicate Agrees(s: Sample, c: Checked)
  {
    c.Exact? ==> c.w == Widen(s)
  }

  ghost predicate AgreesWide(w: Wide, c: Checked)
  {
    c.Exact? ==> c.w == w
  }

  ghost function Agreement(): (nat, Sample, Checked) -> bool
  {
    (p: nat, s: Sample, c: Checked) => Agrees(s, c)
  }

  ghost function WideAgreement(): (nat, Wide, Checked) -> bool
  {
    (p: nat, w: Wide, c: Checked) => AgreesWide(w, c)
  }

  lemma FixAgrees(sine: seq<Short>, K: nat, m: nat, p: nat, t: nat, q: Sample, z: Sample, q': Checked, z': Checked)
    requires IsTable(sine, K) && p < m <= K && t < Pow2(p) && Agrees(q, q') && Agrees(z, z')
    ensures var (u, v) := FixButterfly(sine, K, false, AllTrue(m))(p, t, q, z);
            var (c, d) := CheckedButterfly(sine, K)(p, t, q', z');
            Agrees(u, c) && Agrees(v, d)
  {
    var j := TwiddleIndex(K, p, t);
    CheckedCrossSound(TwiddleRe(sine, K, true, j), TwiddleIm(sine, K, false, true, j), q, z);
  }

  lemma FixCarries(sine: seq<Short>, K: nat, m: nat, p: nat)
    requires IsTable(sine, K) && p < m <= K
    ensures Carries(FixButterfly(sine, K, false, AllTrue(m)), CheckedButterfly(sine, K), Agreement(), p)
  {
    var bf, bg, rel := FixButterfly(sine, K, false, AllTrue(m)), CheckedButterfly(sine, K), Agreement();
    forall t: nat, q: Sample, z: Sample, q': Checked, z': Checked | t < Pow2(p) && rel(p, q, q') && rel(p, z, z')
      ensures rel(p + 1, bf(p, t, q, z).0, bg(p, t, q', z').0) && rel(p + 1, bf(p, t, q, z).1, bg(p, t, q', z').1)
    {
      FixAgrees(sine, K, m, p, t, q, z, q', z');
    }
  }

  lemma WideCarries(sine: seq<Short>, K: nat, p: nat)
    requires IsTable(sine, K) && p < K
    ensures Carries(WideButterfly(sine, K), CheckedButterfly(sine, K), WideAgreement(), p)
  {
  }

  /** Where nothing is cut, the 16-bit transform is the unbounded one. */
  lemma NothingCutIsSame(sine: seq<Short>, K: nat, m: nat, x: seq<Sample>)
    requires IsTable(sine, K) && m <= K && |x| == Pow2(m) && NothingCut(sine, K, m, x)
    ensures SameAsWide(sine, K, m, x)
  {
    var bf, bc, bw := FixButterfly(sine, K, false, AllTrue(m)), CheckedButterfly(sine, K), WideButterfly(sine, K);
    forall p: nat | p < m
      ensures Carries(bf, bc, Agreement(), p) && Carries(bw, bc, WideAgreement(), p)
    {
      FixCarries(sine, K, m, p);
      WideCarries(sine, K, p);
    }
    DitSimulates(bf, bc, Agreement(), m, x, ExactAll(x));
    DitSimulates(bw, bc, WideAgreement(), m, WidenAll(x), ExactAll(x));
    forall i | 0 <= i < |x|
      ensures Widen(Dit(bf, m, x)[i]) == Dit(bw, m, WidenAll(x))[i]
    {
      assert Agreement()(m, Dit(bf, m, x)[i], Dit(bc, m, ExactAll(x))[i]);
      assert WideAgreement()(m, Dit(bw, m, WidenAll(x))[i], Dit(bc, m, ExactAll(x))[i]);
    }
  }

  // ------------------------------------------------------------ inside the disc

  lemma ProductBound(h: int, z: int, A: int, B: int)
    requires -A <= h <= A && -B <= z <= B
    ensures -(A * B) <= h * z <= A * B
  {
    var a, b := if h < 0 then -h else h, if z < 0 then -z else z;
    MulLe(a, b, A, B);
    assert h * z == a * b || h * z == -(a * b);
  }

  lemma ProductFits(w: Short, z: int)
    requires Fits(z)
    ensures Fits(WideMpy(Half(w), z))
  {
    ProductBound(Half(w), z, 0x4000, 0x8000);
  }

  /** With both outputs in range, nothing on the way to them was cut either. */
  lemma OutputsFit(wr: Short, wi: Short, q: Wide, z: Wide, R: int)
    requires R <= 0x7fff && FitsBoth(z)
    requires var (u, v) := WideCross(Half(wr), Half(wi), q, z); InDisc(u, R) && InDisc(v, R)
    ensures var (u, v) := WideCross(Half(wr), Half(wi), q, z);
            CheckedCross(Half(wr), Half(wi), Exact(q), Exact(z)) == (Exact(u), Exact(v))
  {
    var (u, v) := WideCross(Half(wr), Half(wi), q, z);
    ComponentsInRange(u, R);
    ComponentsInRange(v, R);
    ProductFits(wr, z.re);
    ProductFits(wi, z.im);
    ProductFits(wr, z.im);
    ProductFits(wi, z.re);
    var tr, ti := WideMpy(Half(wr), z.re) - WideMpy(Half(wi), z.im), WideMpy(Half(wr), z.im) + WideMpy(Half(wi), z.re);
    assert 2 * tr == u.re - v.re && 2 * ti == u.im - v.im;
  }

  /** The exact value, inside the disc that level p allows. */
  ghost function Inside(M: int): (nat, Wide, Checked) -> bool
  {
    (p: nat, w: Wide, c: Checked) => c == Exact(w) && InDisc(w, M + 4 * p)
  }

  lemma OneInside(sine: seq<Short>, K: nat, M: int, p: nat, t: nat, q: Wide, z: Wide)
    requires UnitTable(sine, K) && p < K && t < Pow2(p) && M + 4 * (p + 1) <= 0x7fff
    requires InDisc(q, M + 4 * p) && InDisc(z, M + 4 * p)
    ensures var (u, v) := WideButterfly(sine, K)(p, t, q, z);
            && CheckedButterfly(sine, K)(p, t, Exact(q), Exact(z)) == (Exact(u), Exact(v))
            && InDisc(u, M + 4 * (p + 1)) && InDisc(v, M + 4 * (p + 1))
  {
    var j, R := TwiddleIndex(K, p, t), M + 4 * p;
    var w := Factor(sine, K, j);
    FactorFits(sine, K, j);
    WideCrossBound(w, q, z, R);
    ComponentsInRange(z, R);
    OutputsFit(w.re, w.im, q, z, R + 4);
  }

  lemma InsideCarries(sine: seq<Short>, K: nat, M: int, p: nat)
    requires UnitTable(sine, K) && p < K && M + 4 * (p + 1) <= 0x7fff
    ensures Carries(WideButterfly(sine, K), CheckedButterfly(sine, K), Inside(M), p)
  {
    var bf, bg, rel := WideButterfly(sine, K), CheckedButterfly(sine, K), Inside(M);
    forall t: nat, q: Wide, z: Wide, q': Checked, z': Checked | t < Pow2(p) && rel(p, q, q') && rel(p, z, z')
      ensures rel(p + 1, bf(p, t, q, z).0, bg(p, t, q', z').0) && rel(p + 1, bf(p, t, q, z).1, bg(p, t, q', z').1)
    {
      OneInside(sine, K, M, p, t, q, z);
    }
  }

  /** Samples of modulus at most M, with M + 4 log2(n) at most 32767: no product, no sum and no
      result is cut, in any pass. */
  lemma ForwardCutsNothing(sine: seq<Short>, K: nat, m: nat, x: seq<Sample>, M: int)
    requires UnitTable(sine, K) && m <= K && |x| == Pow2(m)
    requires forall i :: 0 <= i < |x| ==> InDisc(Widen(x[i]), M)
    requires M + 4 * m <= 0x7fff
    ensures NothingCut(sine, K, m, x) && SameAsWide(sine, K, m, x)
  {
    var bf, bg := WideButterfly(sine, K), CheckedButterfly(sine, K);
    forall p: nat | p < m
      ensures Carries(bf, bg, Inside(M), p)
    {
      InsideCarries(sine, K, M, p);
    }
    DitSimulates(bf, bg, Inside(M), m, WidenAll(x), ExactAll(x));
    forall i | 0 <= i < |x|
      ensures Dit(bg, m, ExactAll(x))[i].Exact?
    {
      assert Inside(M)(m, Dit(bf, m, WidenAll(x))[i], Dit(bg, m, ExactAll(x))[i]);
    }
    NothingCutIsSame(sine, K, m, x);
  }
}
