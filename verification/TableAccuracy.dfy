/** The shipped table against the true roots of unity: every factor is within two and a half units.

    The roots are found from the quarter turn by halving the angle, eight times, with an error
    that halving keeps small; products of them give all others.  The scale is 2^30. */
module TableAccuracy {
  import opened TransformSpec
  import opened FixFft
  import opened FixFftBounds
  import opened SineTable
  import opened FftAccuracy
  import X = ExactDft

  /** Onto the scale. */
  function Up(x: real): real { 1073741824.0 * x }

  function Scaled(w: C): C { X.C(Up(w.re), Up(w.im)) }

  /** Of all tables of roots, the one that turns clockwise by the smallest step: the quarter turn
      is downwards, and each half of it, half of that and so on is on the right.  For K = 10
      these are the powers of e^(-2 pi i / 1024). */
  ghost predicate Clockwise(W: nat -> C, K: nat)
    requires K >= 2
  {
    W(Pow2(K - 2)).im < 0.0 && forall k: nat :: k < K - 2 ==> W(Pow2(k)).re > 0.0
  }

  /** W, on the scale, is within e of a. */
  ghost predicate Near(w: C, a: C, e: real)
  {
    Within(X.Sub(Scaled(w), a), e)
  }

  /** The same of each part. */
  ghost predicate Boxed(w: C, a: C, e: real)
  {
    a.re - e <= Up(w.re) <= a.re + e && a.im - e <= Up(w.im) <= a.im + e
  }

  // ------------------------------------------------------------ halving the angle

  /** a is right for a root of half of 1 + A, when A is right up to e. */
  predicate RootBounds(a: real, A: real, e: real)
  {
    && a > 4.0 && 2.0 * ((a - 4.0) * (a - 4.0)) <= Up(Up(1.0) + A - e)
    && Up(Up(1.0) + A + e) <= 2.0 * ((a + 4.0) * (a + 4.0))
  }

  /** b is right for B over twice a. */
  predicate QuotientBounds(a: real, b: real, B: real, e: real)
  {
    && a > 4.0 && b > 4.0 && 2.0 * ((a + 4.0) * (b - 4.0)) <= Up(B - e)
    && Up(B + e) <= 2.0 * ((a - 4.0) * (b + 4.0))
  }

  /** The cosine of half an angle from that of the angle, and, with the sign changed, the sine. */
  lemma Halved(x: real, u: real, A: real, a: real, e: real)
    requires x > 0.0 && 2.0 * (x * x) == Up(Up(1.0) + u) && A - e <= u <= A + e && RootBounds(a, A, e)
    ensures a - 4.0 <= x <= a + 4.0
  {
    SquareGrowsReal(a - 4.0, x);
    SquareGrowsReal(x, a + 4.0);
  }

  /** The sine of half an angle from its cosine and the sine of the angle. */
  lemma HalvedByProduct(x: real, z: real, v: real, B: real, a: real, b: real, e: real)
    requires a - 4.0 <= x <= a + 4.0 && 2.0 * (x * z) == Up(v) && B - e <= v <= B + e && QuotientBounds(a, b, B, e)
    ensures b - 4.0 <= z <= b + 4.0
  {
    if z > b + 4.0 {
      StrictProduct(a - 4.0, x, b + 4.0, z);
    }
    if z < b - 4.0 {
      StrictProduct(x, a + 4.0, z, b - 4.0);
    }
  }

  lemma StrictProduct(a: real, c: real, b: real, d: real)
    requires 0.0 < a <= c && b < d && d >= 0.0
    ensures a * b < c * d
  {
    ScaleOrder(a, d, b);
    if a < c {
      TimesNonNegative(c - a, d);
      assert (c - a) * d == c * d - a * d;
    }
  }

  /** What holds between a root and its square, on the scale. */
  lemma SquareParts(u: C, v: C)
    requires v == X.Mul(u, u) && Square(u) == 1.0
    ensures var (x, z) := (Up(u.re), -Up(u.im));
            && 2.0 * (x * x) == Up(Up(1.0) + Up(v.re))
            && 2.0 * (z * z) == Up(Up(1.0) - Up(v.re))
            && 2.0 * (x * z) == Up(-Up(v.im))
  {
  }

  /** a is right for the half of an angle for which A is right up to e. */
  predicate HalfOf(a: C, A: C, e: real)
  {
    && -A.im > e && RootBounds(a.re, A.re, e)
    && (RootBounds(-a.im, -A.re, e) || QuotientBounds(a.re, -a.im, -A.im, e))
  }

  lemma HalfSine(x: real, z: real, u: real, v: real, a: C, A: C, e: real)
    requires x > 0.0 && a.re - 4.0 <= x <= a.re + 4.0 && HalfOf(a, A, e)
    requires A.re - e <= u <= A.re + e && -A.im - e <= v <= -A.im + e
    requires 2.0 * (z * z) == Up(Up(1.0) - u) && 2.0 * (x * z) == Up(v)
    ensures -a.im - 4.0 <= z <= -a.im + 4.0
  {
    if RootBounds(-a.im, -A.re, e) {
      PositiveFactor(x, z, Up(v));
      Halved(z, -u, -A.re, -a.im, e);
    } else {
      HalvedByProduct(x, z, v, -A.im, a.re, -a.im, e);
    }
  }

  lemma HalfParts(x: real, z: real, p: real, q: real, a: C, A: C, e: real)
    requires x > 0.0 && HalfOf(a, A, e) && A.re - e <= p <= A.re + e && -A.im - e <= q <= -A.im + e
    requires 2.0 * (x * x) == Up(Up(1.0) + p) && 2.0 * (z * z) == Up(Up(1.0) - p) && 2.0 * (x * z) == Up(q)
    ensures a.re - 4.0 <= x <= a.re + 4.0 && -a.im - 4.0 <= z <= -a.im + 4.0
  {
    Halved(x, p, A.re, a.re, e);
    HalfSine(x, z, p, q, a, A, e);
  }

  lemma HalfAngle(u: C, v: C, a: C, A: C, e: real)
    requires v == X.Mul(u, u) && Square(u) == 1.0 && u.re > 0.0 && Boxed(v, A, e) && HalfOf(a, A, e)
    ensures Boxed(u, a, 4.0)
  {
    SquareParts(u, v);
    HalfParts(Up(u.re), -Up(u.im), Up(v.re), -Up(v.im), a, A, e);
  }

  lemma PositiveFactor(x: real, z: real, p: real)
    requires x > 0.0 && 2.0 * (x * z) == p && p > 0.0
    ensures z > 0.0
  {
    if z <= 0.0 {
      TimesNonNegative(x, -z);
    }
  }

  /** Half a turn is -1, so a quarter of it is -i. */
  lemma QuarterTurnIs(W: nat -> C)
    requires X.RootTable(W, 10) && Clockwise(W, 10)
    ensures W(Pow2(8)) == X.C(0.0, -1.0)
  {
    var u := W(Pow2(8));
    X.TurnBy(W, 10, Pow2(8), Pow2(8));
    assert Pow2(9) == Pow2(8) + Pow2(8);
    RootOfMinusOne(u);
  }

  lemma RootOfMinusOne(u: C)
    requires X.Mul(u, u) == X.MINUS_ONE && u.im < 0.0
    ensures u == X.C(0.0, -1.0)
  {
    if u.re > 0.0 {
      TimesPositive(u.re, -u.im);
    } else if u.re < 0.0 {
      TimesPositive(-u.re, -u.im);
    }
    SquareIsOne(-u.im);
  }

  /** Halving goes down from the quarter turn. */
  ghost predicate PowerTable(power: seq<C>)
  {
    && |power| == 9 && power[8] == X.C(0.0, -Up(1.0))
    && forall k :: 0 <= k < 8 ==> HalfOf(power[k], power[k + 1], if k == 7 then 0.0 else 4.0)
  }

  lemma {:induction false} PowersAreRight(W: nat -> C, power: seq<C>, k: nat)
    requires X.RootTable(W, 10) && Clockwise(W, 10) && PowerTable(power) && k <= 8
    ensures Boxed(W(Pow2(k)), power[k], if k == 8 then 0.0 else 4.0)
    decreases 8 - k
  {
    if k == 8 {
      QuarterTurnIs(W);
    } else {
      PowersAreRight(W, power, k + 1);
      RootWithin(W, 10, Pow2(k));
      X.TurnBy(W, 10, Pow2(k), Pow2(k));
      HalfAngle(W(Pow2(k)), W(Pow2(k + 1)), power[k], power[k + 1], if k == 7 then 0.0 else 4.0);
    }
  }

  lemma PowerNear(W: nat -> C, power: seq<C>, k: nat)
    requires X.RootTable(W, 10) && Clockwise(W, 10) && PowerTable(power) && k < 8
    ensures Near(W(Pow2(k)), power[k], 6.0)
  {
    PowersAreRight(W, power, k);
    BoxedIsNear(W(Pow2(k)), power[k]);
  }

  lemma BoxedIsNear(w: C, a: C)
    requires Boxed(w, a, 4.0)
    ensures Near(w, a, 6.0)
  {
    SquareBelow(Up(w.re) - a.re, 4.0);
    SquareBelow(Up(w.im) - a.im, 4.0);
  }

  lemma SquareBelow(x: real, R: real)
    requires -R <= x <= R
    ensures x * x <= R * R
  {
    SquareGrowsReal(R, x);
    SquareGrowsReal(R, -x);
  }

  // ------------------------------------------------------------ products

  /** c is the product of a and b, on the scale, up to two units. */
  ghost predicate ProductOf(c: C, a: C, b: C)
  {
    Within(b, Up(1.0)) && Within(X.Sub(X.Mul(a, b), Scaled(c)), Up(2.0))
  }

  lemma ScaledIsTimes(w: C)
    ensures Scaled(w) == X.Times(Up(1.0), w)
  {
  }

  lemma WithinScaled(w: C, R: real)
    requires R >= 0.0
    ensures Within(Scaled(w), Up(R)) <==> Within(w, R)
  {
    ScaledIsTimes(w);
    WithinTimes(Up(1.0), w, R);
  }

  /** The product of two approximations against that of the roots. */
  lemma ProductError(u: C, v: C, a: C, b: C, e: real, f: real)
    requires Near(u, a, e) && Near(v, b, f) && Within(u, 1.0) && Within(b, Up(1.0))
    ensures Within(X.Sub(Scaled(Scaled(X.Mul(u, v))), X.Mul(a, b)), Up(e + f))
  {
    var (U, V) := (Scaled(u), Scaled(v));
    WithinScaled(u, 1.0);
    WithinProduct(U, X.Sub(V, b), Up(1.0), f);
    WithinProduct(X.Sub(U, a), b, e, Up(1.0));
    WithinSum(X.Mul(U, X.Sub(V, b)), X.Mul(X.Sub(U, a), b), Up(1.0) * f, e * Up(1.0));
    X.MulSub(U, V, b);
    X.SubMul(U, a, b);
    Telescope(X.Mul(U, V), X.Mul(U, b), X.Mul(a, b));
    ScaledProduct(u, v);
  }

  lemma ScaledProduct(u: C, v: C)
    ensures X.Mul(Scaled(u), Scaled(v)) == Scaled(Scaled(X.Mul(u, v)))
  {
  }

  lemma Joined(W: nat -> C, i: nat, j: nat, a: C, b: C, c: C, e: real, f: real)
    requires X.RootTable(W, 10) && Near(W(i), a, e) && Near(W(j), b, f) && ProductOf(c, a, b)
    ensures Near(W(i + j), c, e + f + 2.0)
  {
    RootWithin(W, 10, i);
    X.TurnBy(W, 10, i, j);
    ProductError(W(i), W(j), a, b, e, f);
    ScaledDown(W(i + j), c, X.Mul(a, b), e + f);
  }

  lemma ScaledDown(w: C, c: C, p: C, e: real)
    requires e >= 0.0 && Within(X.Sub(Scaled(Scaled(w)), p), Up(e)) && Within(X.Sub(p, Scaled(c)), Up(2.0))
    ensures Near(w, c, e + 2.0)
  {
    WithinSum(X.Sub(Scaled(Scaled(w)), p), X.Sub(p, Scaled(c)), Up(e), Up(2.0));
    Telescope(Scaled(Scaled(w)), p, Scaled(c));
    assert X.Sub(Scaled(Scaled(w)), Scaled(c)) == Scaled(X.Sub(Scaled(w), c));
    WithinScaled(X.Sub(Scaled(w), c), e + 2.0);
  }

  // ------------------------------------------------------------ the first eighth of the turn

  /** Item i of table is the product of the root of its top bit k and the item of the rest. */
  ghost predicate Built(table: seq<C>, power: seq<C>, s: nat, k: nat, i: nat)
  {
    Pow2(k) <= i < 2 * Pow2(k) && i < |table| && s + k < |power| ==>
      ProductOf(table[i], power[s + k], table[i - Pow2(k)])
  }

  /** A table of W(0), W(2^s), W(2 2^s) and so on. */
  ghost predicate ProductTable(table: seq<C>, power: seq<C>, s: nat)
  {
    && |table| > 0 && table[0] == X.C(Up(1.0), 0.0)
    && forall k: nat, i: nat :: Built(table, power, s, k, i)
  }

  lemma MoreNear(w: C, a: C, e: real, f: real)
    requires Near(w, a, e) && e <= f
    ensures Near(w, a, f)
  {
    WithinMore(X.Sub(Scaled(w), a), e, f);
  }

  /** Every bit of the index costs eight units. */
  function BitError(k: nat): (e: real)
    ensures e >= 0.0
  {
    if k == 0 then 0.0 else BitError(k - 1) + 8.0
  }

  lemma {:induction false} ProductsAreRight(W: nat -> C, power: seq<C>, s: nat, table: seq<C>, k: nat, i: nat, n: nat)
    requires X.RootTable(W, 10) && Clockwise(W, 10) && PowerTable(power) && n == Doublings(s, i)
    requires s + k <= 8 && ProductTable(table, power, s) && i < Pow2(k) && i < |table|
    ensures Near(W(n), table[i], BitError(k))
  {
    if k == 0 {
      DoublingsOfZero(s);
    } else if i < Pow2(k - 1) {
      ProductsAreRight(W, power, s, table, k - 1, i, n);
      MoreNear(W(n), table[i], BitError(k - 1), BitError(k));
    } else {
      var m := Doublings(s, i - Pow2(k - 1));
      ProductsAreRight(W, power, s, table, k - 1, i - Pow2(k - 1), m);
      TopBit(W, power, s, table, k - 1, i, m, n, BitError(k - 1));
    }
  }

  lemma BitOnTop(s: nat, k: nat, i: nat)
    requires Pow2(k) <= i
    ensures Doublings(s, i) == Pow2(k + s) + Doublings(s, i - Pow2(k))
  {
    DoublingsAdd(s, Pow2(k), i - Pow2(k));
    DoublingsOfPow2(s, k);
  }

  lemma TopBit(W: nat -> C, power: seq<C>, s: nat, table: seq<C>, k: nat, i: nat, m: nat, n: nat, e: real)
    requires X.RootTable(W, 10) && Clockwise(W, 10) && PowerTable(power)
    requires s + k < 8 && ProductTable(table, power, s) && Pow2(k) <= i < 2 * Pow2(k) && i < |table|
    requires m == Doublings(s, i - Pow2(k)) && n == Doublings(s, i) && Near(W(m), table[i - Pow2(k)], e)
    ensures Near(W(n), table[i], e + 8.0)
  {
    assert Built(table, power, s, k, i);
    PowerNear(W, power, s + k);
    BitOnTop(s, k, i);
    Joined(W, Pow2(s + k), m, power[s + k], table[i - Pow2(k)], table[i], 6.0, e);
  }

  // ------------------------------------------------------------ the numbers

  function Power(k: nat): C
    requires k <= 8
  {
    if k == 0 then X.C(1073721611.0, -6588355.0)
    else if k == 1 then X.C(1073660973.0, -13176463.0)
    else if k == 2 then X.C(1073418433.0, -26350943.0)
    else if k == 3 then X.C(1072448454.0, -52686014.0)
    else if k == 4 then X.C(1068571463.0, -105245103.0)
    else if k == 5 then X.C(1053110175.0, -209476638.0)
    else if k == 6 then X.C(992008094.0, -410903206.0)
    else if k == 7 then X.C(759250124.0, -759250124.0)
    else X.C(0.0, -1073741824.0)
  }

  function Column(c: nat): C
    requires c < 16
  {
    if c == 0 then X.C(1073741824.0, 0.0)
    else if c == 1 then X.C(1073721611.0, -6588355.0)
    else if c == 2 then X.C(1073660973.0, -13176463.0)
    else if c == 3 then X.C(1073559912.0, -19764075.0)
    else if c == 4 then X.C(1073418433.0, -26350943.0)
    else if c == 5 then X.C(1073236539.0, -32936819.0)
    else if c == 6 then X.C(1073014239.0, -39521454.0)
    else if c == 7 then X.C(1072751541.0, -46104602.0)
    else if c == 8 then X.C(1072448454.0, -52686014.0)
    else if c == 9 then X.C(1072104991.0, -59265442.0)
    else if c == 10 then X.C(1071721163.0, -65842639.0)
    else if c == 11 then X.C(1071296985.0, -72417357.0)
    else if c == 12 then X.C(1070832474.0, -78989348.0)
    else if c == 13 then X.C(1070327646.0, -85558366.0)
    else if c == 14 then X.C(1069782521.0, -92124162.0)
    else X.C(1069197119.0, -98686490.0)
  }

  function RowStart(r: nat): C
    requires r <= 8
  {
    if r == 0 then X.C(1073741824.0, 0.0)
    else if r == 1 then X.C(1068571463.0, -105245103.0)
    else if r == 2 then X.C(1053110175.0, -209476638.0)
    else if r == 3 then X.C(1027506861.0, -311690798.0)
    else if r == 4 then X.C(992008094.0, -410903206.0)
    else if r == 5 then X.C(946955747.0, -506158392.0)
    else if r == 6 then X.C(892783698.0, -596538995.0)
    else if r == 7 then X.C(830013654.0, -681174602.0)
    else X.C(759250124.0, -759250124.0)
  }

  function Powers(): (power: seq<C>)
    ensures |power| == 9 && forall k :: 0 <= k < 9 ==> power[k] == Power(k)
  {
    seq(9, k requires 0 <= k < 9 => Power(k))
  }

  function Columns(): (column: seq<C>)
    ensures |column| == 16 && forall c :: 0 <= c < 16 ==> column[c] == Column(c)
  {
    seq(16, c requires 0 <= c < 16 => Column(c))
  }

  function RowStarts(): (row: seq<C>)
    ensures |row| == 9 && forall r :: 0 <= r < 9 ==> row[r] == RowStart(r)
  {
    seq(9, r requires 0 <= r < 9 => RowStart(r))
  }

  lemma PowerHalves(k: nat)
    requires k < 8
    ensures HalfOf(Power(k), Power(k + 1), if k == 7 then 0.0 else 4.0)
  {
  }

  lemma PowersHalve()
    ensures PowerTable(Powers())
  {
    forall k | 0 <= k < 8
      ensures HalfOf(Powers()[k], Powers()[k + 1], if k == 7 then 0.0 else 4.0)
    {
      PowerHalves(k);
    }
  }

  lemma ColumnBuilt(k: nat, c: nat)
    requires k < 4 && Pow2(k) <= c < 2 * Pow2(k) && c < 16
    ensures ProductOf(Column(c), Power(k), Column(c - Pow2(k)))
  {
    SmallPowers();
  }

  lemma RowBuilt(k: nat, r: nat)
    requires k < 4 && Pow2(k) <= r < 2 * Pow2(k) && r <= 8
    ensures ProductOf(RowStart(r), Power(k + 4), RowStart(r - Pow2(k)))
  {
    SmallPowers();
  }

  lemma SmallPowers()
    ensures Pow2(0) == 1 && Pow2(1) == 2 && Pow2(2) == 4 && Pow2(3) == 8 && Pow2(4) == 16
  {
  }

  lemma FourBits(k: nat, i: nat)
    requires Pow2(k) <= i < 16
    ensures k < 4
  {
    SmallPowers();
    if k >= 4 {
      Pow2Mono(4, k);
    }
  }

  lemma ColumnsBuilt()
    ensures ProductTable(Columns(), Powers(), 0)
  {
    forall k: nat, c: nat
      ensures Built(Columns(), Powers(), 0, k, c)
    {
      if Pow2(k) <= c < 2 * Pow2(k) && c < 16 {
        FourBits(k, c);
        ColumnBuilt(k, c);
      }
    }
  }

  lemma RowsBuilt()
    ensures ProductTable(RowStarts(), Powers(), 4)
  {
    forall k: nat, r: nat
      ensures Built(RowStarts(), Powers(), 4, k, r)
    {
      if Pow2(k) <= r < 2 * Pow2(k) && r < 9 {
        FourBits(k, r);
        RowBuilt(k, r);
      }
    }
  }

  // ------------------------------------------------------------ the entries of the table

  /** A factor against the product of two approximations, on the scale of 2^45 per unit. */
  ghost predicate EntryNear(x: int, y: int, a: C, b: C)
  {
    var p := X.Mul(a, b);
    Within(X.C(35184372088832.0 * (x as real) - p.re, 35184372088832.0 * -(y as real) - p.im), 84000000000000.0)
  }

  lemma EntryRow0(c: nat)
    requires 0 < c < 16
    ensures EntryNear(Row(15)[16 - c], Row(0)[c], RowStart(0), Column(c))
  {
  }

  lemma EntryRow1(c: nat)
    requires 0 < c < 16
    ensures EntryNear(Row(14)[16 - c], Row(1)[c], RowStart(1), Column(c))
  {
  }

  lemma EntryRow2(c: nat)
    requires 0 < c < 16
    ensures EntryNear(Row(13)[16 - c], Row(2)[c], RowStart(2), Column(c))
  {
  }

  lemma EntryRow3(c: nat)
    requires 0 < c < 16
    ensures EntryNear(Row(12)[16 - c], Row(3)[c], RowStart(3), Column(c))
  {
  }

  lemma EntryRow4(c: nat)
    requires 0 < c < 16
    ensures EntryNear(Row(11)[16 - c], Row(4)[c], RowStart(4), Column(c))
  {
  }

  lemma EntryRow5(c: nat)
    requires 0 < c < 16
    ensures EntryNear(Row(10)[16 - c], Row(5)[c], RowStart(5), Column(c))
  {
  }

  lemma EntryRow6(c: nat)
    requires 0 < c < 16
    ensures EntryNear(Row(9)[16 - c], Row(6)[c], RowStart(6), Column(c))
  {
  }

  lemma EntryRow7(c: nat)
    requires 0 < c < 16
    ensures EntryNear(Row(8)[16 - c], Row(7)[c], RowStart(7), Column(c))
  {
  }

  lemma EntryEdges(r: nat, x: int, y: int, a: C, b: C)
    requires 0 < r <= 8 && x == Row(16 - r)[0] as int && y == Row(r)[0] as int && a == RowStart(r)
    requires b == X.C(Up(1.0), 0.0)
    ensures EntryNear(x, y, a, b)
  {
  }

  lemma EntryZero(x: int, y: int, a: C, b: C)
    requires x == 32767 && y == 0 && a == b == X.C(Up(1.0), 0.0)
    ensures EntryNear(x, y, a, b)
  {
  }

  lemma EntryRows(r: nat, c: nat)
    requires r < 8 && 0 < c < 16
    ensures EntryNear(Row(15 - r)[16 - c], Row(r)[c], RowStart(r), Column(c))
  {
    if r == 0 { EntryRow0(c); } else if r == 1 { EntryRow1(c); } else if r == 2 { EntryRow2(c); }
    else if r == 3 { EntryRow3(c); } else if r == 4 { EntryRow4(c); } else if r == 5 { EntryRow5(c); }
    else if r == 6 { EntryRow6(c); } else { EntryRow7(c); }
  }

  lemma RisingAt(r: nat, c: nat)
    requires r < 16 && c < 16
    ensures Rising(16 * r + c) == Row(r)[c]
  {
    assert (16 * r + c) / 16 == r && (16 * r + c) % 16 == c;
  }

  lemma EntryInner(q: seq<Short>, row: seq<C>, column: seq<C>, r: nat, c: nat)
    requires q == Quarter() && row == RowStarts() && column == Columns() && r < 8 && 0 < c < 16
    ensures EntryNear(q[256 - (16 * r + c)], q[16 * r + c], row[r], column[c])
  {
    RisingAt(r, c);
    RisingAt(15 - r, 16 - c);
    assert 16 * (15 - r) + (16 - c) == 256 - (16 * r + c);
    assert row[r] == RowStart(r) && column[c] == Column(c);
    EntryRows(r, c);
  }

  lemma RowFirst(r: nat, j: nat)
    requires r < 16 && j == 16 * r
    ensures Rising(j) == Row(r)[0]
  {
    RisingAt(r, 0);
  }

  lemma EdgeValues(r: nat, x: int, y: int, a: C, b: C)
    requires 0 < r <= 8 && x == Rising(256 - 16 * r) as int && y == Rising(16 * r) as int && a == RowStart(r)
    requires b == X.C(Up(1.0), 0.0)
    ensures EntryNear(x, y, a, b)
  {
    RowFirst(r, 16 * r);
    RowFirst(16 - r, 256 - 16 * r);
    EntryEdges(r, x, y, a, b);
  }

  lemma EdgeTables(row: seq<C>, column: seq<C>, r: nat)
    requires row == RowStarts() && column == Columns() && 0 < r <= 8
    ensures row[r] == RowStart(r) && column[0] == X.C(Up(1.0), 0.0)
  {
  }

  lemma EntryOuter(q: seq<Short>, row: seq<C>, column: seq<C>, r: nat)
    requires q == Quarter() && row == RowStarts() && column == Columns() && 0 < r <= 8
    ensures EntryNear(q[256 - 16 * r], q[16 * r], row[r], column[0])
  {
    EdgeTables(row, column, r);
    EdgeValues(r, q[256 - 16 * r], q[16 * r], row[r], column[0]);
  }

  lemma EntryCorner(q: seq<Short>, row: seq<C>, column: seq<C>)
    requires q == Quarter() && row == RowStarts() && column == Columns()
    ensures EntryNear(q[256], q[0], row[0], column[0])
  {
    RisingAt(0, 0);
    EntryZero(q[256], q[0], row[0], column[0]);
  }

  /** The first half of the rising quarter, in rows of 16. */
  ghost predicate EntriesFit(q: seq<Short>, row: seq<C>, column: seq<C>)
    requires |q| == 257 && |row| == 9 && |column| == 16
  {
    forall r: nat, c: nat {:trigger row[r], column[c]} :: r <= 8 && c < 16 && 16 * r + c <= 128 ==>
      EntryNear(q[256 - (16 * r + c)], q[16 * r + c], row[r], column[c])
  }

  lemma EntryFits(q: seq<Short>, row: seq<C>, column: seq<C>, r: nat, c: nat)
    requires q == Quarter() && row == RowStarts() && column == Columns() && r <= 8 && c < 16 && 16 * r + c <= 128
    ensures EntryNear(q[256 - (16 * r + c)], q[16 * r + c], row[r], column[c])
  {
    if c > 0 {
      EntryInner(q, row, column, r, c);
    } else if r > 0 {
      EntryOuter(q, row, column, r);
    } else {
      EntryCorner(q, row, column);
    }
  }

  lemma QuarterFits(q: seq<Short>, row: seq<C>, column: seq<C>)
    requires q == Quarter() && row == RowStarts() && column == Columns()
    ensures EntriesFit(q, row, column)
  {
    forall r: nat, c: nat | r <= 8 && c < 16 && 16 * r + c <= 128
      ensures EntryNear(q[256 - (16 * r + c)], q[16 * r + c], row[r], column[c])
    {
      EntryFits(q, row, column, r, c);
    }
  }

  /** The factor with parts x and -y is within two and a half units of w. */
  ghost predicate UnitsFrom(x: int, y: int, w: C)
  {
    Within(X.Sub(X.C(x as real, -(y as real)), X.Times(32768.0, w)), 2.5)
  }

  lemma EntryFromProduct(x: int, y: int, w: C, p: C)
    requires Within(X.C(35184372088832.0 * (x as real) - p.re, 35184372088832.0 * -(y as real) - p.im),
                    84000000000000.0)
    requires Within(X.Sub(Scaled(Scaled(w)), p), Up(64.0))
    ensures UnitsFrom(x, y, w)
  {
    var f := X.C(x as real, -(y as real));
    var d := X.Sub(f, X.Times(32768.0, w));
    WithinSum(X.Sub(X.Times(35184372088832.0, f), p), X.Sub(Scaled(Scaled(w)), p), 84000000000000.0, Up(64.0));
    assert X.Sub(X.Sub(X.Times(35184372088832.0, f), p), X.Sub(Scaled(Scaled(w)), p)) == X.Times(35184372088832.0, d);
    WithinMore(X.Times(35184372088832.0, d), 84000000000000.0 + Up(64.0), 35184372088832.0 * 2.5);
    WithinTimes(35184372088832.0, d, 2.5);
  }

  lemma RootFromProduct(W: nat -> C, i: nat, c: nat, x: int, y: int, a: C, b: C)
    requires X.RootTable(W, 10) && Near(W(i), a, 32.0) && Near(W(c), b, 32.0) && Within(b, Up(1.0))
    requires EntryNear(x, y, a, b)
    ensures UnitsFrom(x, y, W(i + c))
  {
    RootWithin(W, 10, i);
    ProductError(W(i), W(c), a, b, 32.0, 32.0);
    X.TurnBy(W, 10, i, c);
    EntryFromProduct(x, y, W(i + c), X.Mul(a, b));
  }

  ghost predicate Fits(q: seq<Short>, power: seq<C>, row: seq<C>, column: seq<C>)
  {
    && |q| == 257 && |row| == 9 && |column| == 16 && EntriesFit(q, row, column)
    && PowerTable(power) && ProductTable(row, power, 4) && ProductTable(column, power, 0)
    && forall c :: 0 <= c < 16 ==> Within(column[c], Up(1.0))
  }

  lemma NumbersFit()
    ensures Fits(Quarter(), Powers(), RowStarts(), Columns())
  {
    PowersHalve();
    ColumnsBuilt();
    RowsBuilt();
    QuarterFits(Quarter(), RowStarts(), Columns());
    forall c | 0 <= c < 16
      ensures Within(Columns()[c], Up(1.0))
    {
      ColumnInScale(c);
    }
  }

  lemma ColumnInScale(c: nat)
    requires c < 16
    ensures Within(Column(c), Up(1.0))
  {
  }

  /** The first eighth of the turn. */
  lemma FirstEighth(W: nat -> C, q: seq<Short>, power: seq<C>, row: seq<C>, column: seq<C>, r: nat, c: nat)
    requires X.RootTable(W, 10) && Clockwise(W, 10) && Fits(q, power, row, column)
    requires r <= 8 && c < 16 && 16 * r + c <= 128
    ensures UnitsFrom(q[256 - (16 * r + c)], q[16 * r + c], W(16 * r + c))
  {
    assert Pow2(3) == 8 && Pow2(4) == 16 && BitError(4) == 32.0;
    assert Doublings(4, r) == 16 * r && Doublings(0, c) == c;
    ProductsAreRight(W, power, 4, row, 4, r, 16 * r);
    ProductsAreRight(W, power, 0, column, 4, c, c);
    RootFromProduct(W, 16 * r, c, q[256 - (16 * r + c)], q[16 * r + c], row[r], column[c]);
  }

  // ------------------------------------------------------------ the rest of the half turn

  /** The cosine is the sine of the rest of the quarter. */
  lemma MirrorRoot(u: C, v: C)
    requires Square(u) == 1.0 && X.Mul(u, v) == X.C(0.0, -1.0)
    ensures v == X.C(-u.im, -u.re)
  {
    assert v.re == u.re * X.Mul(u, v).re + u.im * X.Mul(u, v).im by { CrossedParts(u.re, u.im, v.re, v.im); }
    assert v.im == u.re * X.Mul(u, v).im - u.im * X.Mul(u, v).re by { CrossedParts(u.re, u.im, v.re, v.im); }
  }

  lemma CrossedParts(a: real, b: real, c: real, d: real)
    requires a * a + b * b == 1.0
    ensures a * (a * c - b * d) + b * (a * d + b * c) == c
    ensures a * (a * d + b * c) - b * (a * c - b * d) == d
  {
    assert a * (a * c - b * d) + b * (a * d + b * c) == (a * a + b * b) * c;
    assert a * (a * d + b * c) - b * (a * c - b * d) == (a * a + b * b) * d;
  }

  lemma MirrorUnits(x: int, y: int, w: C)
    requires UnitsFrom(x, y, w)
    ensures UnitsFrom(y, x, X.C(-w.im, -w.re))
  {
    var d := X.Sub(X.C(x as real, -(y as real)), X.Times(32768.0, w));
    assert X.Sub(X.C(y as real, -(x as real)), X.Times(32768.0, X.C(-w.im, -w.re))) == X.C(-d.im, -d.re);
    assert (-d.im) * (-d.im) == d.im * d.im && (-d.re) * (-d.re) == d.re * d.re;
  }

  lemma QuarterUnits(x: int, y: int, w: C)
    requires UnitsFrom(x, y, w)
    ensures UnitsFrom(-y, x, X.C(w.im, -w.re))
  {
    var d := X.Sub(X.C(x as real, -(y as real)), X.Times(32768.0, w));
    assert X.Sub(X.C(-y as real, -(x as real)), X.Times(32768.0, X.C(w.im, -w.re))) == X.C(d.im, -d.re);
    assert (-d.re) * (-d.re) == d.re * d.re;
  }

  /** The factors of the first j0 steps. */
  ghost predicate StepsNear(W: nat -> C, q: seq<Short>, most: nat)
    requires |q| == 257 && most <= 256
  {
    forall j: nat {:trigger W(j)} :: j <= most ==> UnitsFrom(q[256 - j], q[j], W(j))
  }

  lemma EighthNear(W: nat -> C, q: seq<Short>, power: seq<C>, row: seq<C>, column: seq<C>)
    requires X.RootTable(W, 10) && Clockwise(W, 10) && Fits(q, power, row, column)
    ensures StepsNear(W, q, 128)
  {
    forall j: nat | j <= 128
      ensures UnitsFrom(q[256 - j], q[j], W(j))
    {
      FirstEighth(W, q, power, row, column, j / 16, j % 16);
      assert 16 * (j / 16) + j % 16 == j;
    }
  }

  lemma Mirrored(W: nat -> C, i: nat, j: nat, x: int, y: int)
    requires X.RootTable(W, 10) && Clockwise(W, 10) && i + j == 256 && UnitsFrom(x, y, W(i))
    ensures UnitsFrom(y, x, W(j))
  {
    QuarterTurnIs(W);
    Sizes();
    X.TurnBy(W, 10, i, j);
    RootWithin(W, 10, i);
    MirrorRoot(W(i), W(j));
    MirrorUnits(x, y, W(i));
  }

  lemma QuarterNear(W: nat -> C, q: seq<Short>)
    requires X.RootTable(W, 10) && Clockwise(W, 10) && |q| == 257 && StepsNear(W, q, 128)
    ensures StepsNear(W, q, 256)
  {
    forall j: nat | j <= 256
      ensures UnitsFrom(q[256 - j], q[j], W(j))
    {
      if j > 128 {
        var i: nat := 256 - j;
        assert UnitsFrom(q[256 - i], q[i], W(i));
        Mirrored(W, i, j, q[256 - i], q[i]);
      }
    }
  }

  lemma TurnedOn(W: nat -> C, i: nat, x: int, y: int)
    requires X.RootTable(W, 10) && Clockwise(W, 10) && UnitsFrom(x, y, W(i))
    ensures UnitsFrom(-y, x, W(256 + i))
  {
    QuarterTurnIs(W);
    Sizes();
    X.TurnBy(W, 10, 256, i);
    QuarterUnits(x, y, W(i));
  }

  lemma HalfTurnNear(W: nat -> C, q: seq<Short>, j: nat)
    requires X.RootTable(W, 10) && Clockwise(W, 10) && |q| == 257 && StepsNear(W, q, 256) && j < 512
    requires forall i :: 0 <= i < 257 ==> q[i] > -0x8000
    ensures UnitsFrom(Entry(q, j + 256), Entry(q, j), W(j))
  {
    if j <= 256 {
      assert UnitsFrom(q[256 - j], q[j], W(j));
      assert Entry(q, 512) == q[0] && Entry(q, 256) == q[256];
    } else {
      var i := j - 256;
      assert UnitsFrom(q[256 - i], q[i], W(i));
      NarrowId(-(q[i] as int));
      TurnedOn(W, i, q[256 - i], q[i]);
    }
  }

  lemma FactorFromEntry(W: nat -> C, q: seq<Short>, s: seq<Short>, j: nat, f: Wide)
    requires |q| == 257 && s == ThreeQuarters(q) && IsTable(s, 10) && j < Pow2(9) == 512
    requires f == Factor(s, 10, j) && s[j] > -0x8000 && UnitsFrom(Entry(q, j + 256), Entry(q, j), W(j))
    ensures Within(X.Sub(Embed(f), X.Times(32768.0, W(j))), 2.5)
  {
    Sizes();
    NarrowId(-(s[j] as int));
    assert Embed(f) == X.C(Entry(q, j + 256) as real, -(Entry(q, j) as real));
  }

  lemma AccurateAt(W: nat -> C, q: seq<Short>, s: seq<Short>, j: nat)
    requires X.RootTable(W, 10) && Clockwise(W, 10) && |q| == 257 && StepsNear(W, q, 256)
    requires s == ThreeQuarters(q) && forall i :: 0 <= i < 257 ==> 0 <= q[i]
    requires IsTable(s, 10) && j < Pow2(9) == 512
    ensures Within(X.Sub(Embed(Factor(s, 10, j)), X.Times(32768.0, W(j))), 2.5)
  {
    HalfTurnNear(W, q, j);
    EntryInRange(q, j);
    FactorFromEntry(W, q, s, j, Factor(s, 10, j));
  }

  lemma NearIsAccurate(W: nat -> C, q: seq<Short>, s: seq<Short>)
    requires X.RootTable(W, 10) && Clockwise(W, 10) && |q| == 257 && StepsNear(W, q, 256)
    requires s == ThreeQuarters(q) && forall i :: 0 <= i < 257 ==> 0 <= q[i]
    requires IsTable(s, 10)
    ensures Accurate(s, 10, W)
  {
    Sizes();
    forall j: nat | j < Pow2(9)
      ensures Within(X.Sub(Embed(Factor(s, 10, j)), X.Times(32768.0, W(j))), 2.5)
    {
      AccurateAt(W, q, s, j);
    }
  }

  lemma EntryInRange(q: seq<Short>, j: nat)
    requires |q| == 257 && j < 512 && forall i :: 0 <= i < 257 ==> 0 <= q[i]
    ensures Entry(q, j) > -0x8000
  {
  }

  lemma RowIsPositive0(r: nat, c: nat)
    requires 0 <= r < 4 && c < 16
    ensures Row(r)[c] >= 0
  {
  }

  lemma RowIsPositive1(r: nat, c: nat)
    requires 4 <= r < 8 && c < 16
    ensures Row(r)[c] >= 0
  {
  }

  lemma RowIsPositive2(r: nat, c: nat)
    requires 8 <= r < 12 && c < 16
    ensures Row(r)[c] >= 0
  {
  }

  lemma RowIsPositive3(r: nat, c: nat)
    requires 12 <= r < 16 && c < 16
    ensures Row(r)[c] >= 0
  {
  }

  lemma RisingIsPositive(j: nat)
    requires j <= 256
    ensures Rising(j) >= 0
  {
    if j < 256 {
      var r, c := j / 16, j % 16;
      if r < 4 { RowIsPositive0(r, c); } else if r < 8 { RowIsPositive1(r, c); }
      else if r < 12 { RowIsPositive2(r, c); } else { RowIsPositive3(r, c); }
    }
  }

  /** Every factor that the transform takes from the shipped table is within two and a half
      units of the root of unity it stands for. */
  lemma ShippedTableAccurate(W: nat -> C)
    requires X.RootTable(W, 10) && Clockwise(W, 10)
    ensures UnitTable(Sinewave(), 10) && Accurate(Sinewave(), 10, W)
  {
    SinewaveIsUnit();
    NumbersFit();
    EighthNear(W, Quarter(), Powers(), RowStarts(), Columns());
    QuarterNear(W, Quarter());
    forall i | 0 <= i < 257
      ensures 0 <= Quarter()[i]
    {
      RisingIsPositive(i);
    }
    NearIsAccurate(W, Quarter(), Sinewave());
  }

  /** fix_fft as shipped, forward, in the disc: within 5.25 units per pass of the Fourier average. */
  lemma ShippedNearFourier(s: seq<Short>, W: nat -> C, flags: seq<bool>, m: nat, x: seq<Sample>, M: int, c: nat)
    requires s == Sinewave() && X.RootTable(W, 10) && Clockwise(W, 10)
    requires m == |flags| <= 10 && |x| == Pow2(m) && c < |x|
    requires forall p :: 0 <= p < m ==> flags[p]
    requires forall i :: 0 <= i < |x| ==> InDisc(Widen(x[i]), M)
    requires M + 4 * m <= 0x7fff
    ensures IsTable(s, 10)
    ensures var y := Dit(FixButterfly(s, 10, false, flags), m, x);
            NearMultiple(|x| as real, Embed(Widen(y[c])), X.Fourier(W, Pow2(10 - m), EmbedAll(WidenAll(x)), c),
                         5.25 * (m as real))
  {
    ShippedTableAccurate(W);
    ForwardNearFourier(W, s, 10, flags, m, x, M, c);
  }

  /** The same of the arrays. */
  method ForwardShipped(fr: array<Short>, fi: array<Short>, m: nat, s: seq<Short>, ghost W: nat -> C, ghost M: int)
    requires fr != fi && m <= 10 && fr.Length == fi.Length == Pow2(m)
    requires s == Sinewave() && X.RootTable(W, 10) && Clockwise(W, 10)
    requires forall z <- View(fr[..], fi[..]) :: InDisc(Widen(z), M)
    requires M + 4 * m <= 0x7fff
    modifies fr, fi
    ensures NearFourier(W, 10, m, old(View(fr[..], fi[..])), View(fr[..], fi[..]))
  {
    ShippedTableAccurate(W);
    Forward(fr, fi, m, s, 10, W, M);
  }
}
