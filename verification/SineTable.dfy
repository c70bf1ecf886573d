/** The table of lib/fix_fft.c, and the proof that it meets the bound on its entries.  Its
    three quarters are one rising quarter, the same reversed, and the first one negated; the
    rising quarter is given in rows of 16 entries. */
module SineTable {
  import opened Sequences
  import opened TransformSpec
  import opened FixFft
  import opened FixFftBounds

  function Row(r: nat): (s: seq<Short>)
    requires r < 16
    ensures |s| == 16
  {
    if r == 0 then [0, 201, 402, 603, 804, 1005, 1206, 1406, 1607, 1808, 2009, 2209, 2410, 2610, 2811, 3011]
    else if r == 1 then [3211, 3411, 3611, 3811, 4011, 4210, 4409, 4608, 4807, 5006, 5205, 5403, 5601, 5799, 5997, 6195]
    else if r == 2 then [6392, 6589, 6786, 6982, 7179, 7375, 7571, 7766, 7961, 8156, 8351, 8545, 8739, 8932, 9126, 9319]
    else if r == 3 then [9511, 9703, 9895, 10087, 10278, 10469, 10659, 10849, 11038, 11227, 11416, 11604, 11792,
                         11980, 12166, 12353]
    else if r == 4 then [12539, 12724, 12909, 13094, 13278, 13462, 13645, 13827, 14009, 14191, 14372, 14552, 14732,
                         14911, 15090, 15268]
    else if r == 5 then [15446, 15623, 15799, 15975, 16150, 16325, 16499, 16672, 16845, 17017, 17189, 17360, 17530,
                         17699, 17868, 18036]
    else if r == 6 then [18204, 18371, 18537, 18702, 18867, 19031, 19194, 19357, 19519, 19680, 19840, 20000, 20159,
                         20317, 20474, 20631]
    else if r == 7 then [20787, 20942, 21096, 21249, 21402, 21554, 21705, 21855, 22004, 22153, 22301, 22448, 22594,
                         22739, 22883, 23027]
    else if r == 8 then [23169, 23311, 23452, 23592, 23731, 23869, 24006, 24143, 24278, 24413, 24546, 24679, 24811,
                         24942, 25072, 25201]
    else if r == 9 then [25329, 25456, 25582, 25707, 25831, 25954, 26077, 26198, 26318, 26437, 26556, 26673, 26789,
                         26905, 27019, 27132]
    else if r == 10 then [27244, 27355, 27466, 27575, 27683, 27790, 27896, 28001, 28105, 28208, 28309, 28410, 28510,
                          28608, 28706, 28802]
    else if r == 11 then [28897, 28992, 29085, 29177, 29268, 29358, 29446, 29534, 29621, 29706, 29790, 29873, 29955,
                          30036, 30116, 30195]
    else if r == 12 then [30272, 30349, 30424, 30498, 30571, 30643, 30713, 30783, 30851, 30918, 30984, 31049, 31113,
                          31175, 31236, 31297]
    else if r == 13 then [31356, 31413, 31470, 31525, 31580, 31633, 31684, 31735, 31785, 31833, 31880, 31926, 31970,
                          32014, 32056, 32097]
    else if r == 14 then [32137, 32176, 32213, 32249, 32284, 32318, 32350, 32382, 32412, 32441, 32468, 32495, 32520,
                          32544, 32567, 32588]
    else [32609, 32628, 32646, 32662, 32678, 32692, 32705, 32717, 32727, 32736, 32744, 32751, 32757, 32761, 32764,
          32766]
  }

  /** The rising quarter: entries 0 to 256. */
  function Rising(j: nat): Short
    requires j <= 256
  {
    if j == 256 then 32767 else Row(j / 16)[j % 16]
  }

  function Quarter(): (q: seq<Short>)
    ensures |q| == 257
    ensures forall j :: 0 <= j <= 256 ==> q[j] == Rising(j)
  {
    seq(257, j requires 0 <= j < 257 => Rising(j))
  }

  /** A table of three quarters from its rising quarter. */
  function Entry(q: seq<Short>, j: nat): Short
    requires |q| == 257 && j < 768
  {
    if j <= 256 then q[j] else if j <= 512 then q[512 - j] else Negated(q[j - 512])
  }

  function ThreeQuarters(q: seq<Short>): (s: seq<Short>)
    requires |q| == 257
    ensures |s| == 768
    ensures forall j :: 0 <= j < 768 ==> s[j] == Entry(q, j)
  {
    seq(768, j requires 0 <= j < 768 => Entry(q, j))
  }

  function Sinewave(): (s: seq<Short>)
    ensures |s| == 768
  {
    ThreeQuarters(Quarter())
  }

  lemma UnitRows0(c: nat)
    requires 0 < c < 16
    ensures InDisc(Wide(Row(15)[16 - c], Row(0)[c]), 0x8000)
    ensures InDisc(Wide(Row(14)[16 - c], Row(1)[c]), 0x8000)
  {
  }

  lemma UnitRows1(c: nat)
    requires 0 < c < 16
    ensures InDisc(Wide(Row(13)[16 - c], Row(2)[c]), 0x8000)
    ensures InDisc(Wide(Row(12)[16 - c], Row(3)[c]), 0x8000)
  {
  }

  lemma UnitRows2(c: nat)
    requires 0 < c < 16
    ensures InDisc(Wide(Row(11)[16 - c], Row(4)[c]), 0x8000)
    ensures InDisc(Wide(Row(10)[16 - c], Row(5)[c]), 0x8000)
  {
  }

  lemma UnitRows3(c: nat)
    requires 0 < c < 16
    ensures InDisc(Wide(Row(9)[16 - c], Row(6)[c]), 0x8000)
    ensures InDisc(Wide(Row(8)[16 - c], Row(7)[c]), 0x8000)
  {
  }

  lemma UnitEdges()
    ensures forall r :: 0 < r <= 8 ==> InDisc(Wide(Row(16 - r)[0], Row(r)[0]), 0x8000)
    ensures InDisc(Wide(32767, Row(0)[0]), 0x8000)
  {
  }

  lemma UnitRow(r: nat, c: nat)
    requires r < 8 && 0 < c < 16
    ensures InDisc(Wide(Row(15 - r)[16 - c], Row(r)[c]), 0x8000)
  {
    if r < 2 { UnitRows0(c); } else if r < 4 { UnitRows1(c); } else if r < 6 { UnitRows2(c); } else { UnitRows3(c); }
  }

  lemma UnitRising(j: nat)
    requires j <= 128
    ensures InDisc(Wide(Rising(256 - j), Rising(j)), 0x8000)
  {
    var r, c := j / 16, j % 16;
    if c > 0 {
      assert (256 - j) / 16 == 15 - r && (256 - j) % 16 == 16 - c;
      UnitRow(r, c);
    } else {
      UnitEdges();
    }
  }

  ghost predicate UnitQuarter(q: seq<Short>)
  {
    |q| == 257 && forall j :: 0 <= j <= 128 ==> InDisc(Wide(q[256 - j], q[j]), 0x8000)
  }

  lemma UnitEntry(q: seq<Short>, j: nat)
    requires UnitQuarter(q) && j < 512
    ensures InDisc(Wide(Entry(q, j + 256), Entry(q, j)), 0x8000)
  {
    var i := if j <= 256 then j else 512 - j;
    var k := if i <= 128 then i else 256 - i;
    assert InDisc(Wide(q[256 - k], q[k]), 0x8000);
    if j > 256 {
      NegatedSquare(q[j - 256]);
    }
  }

  lemma Sizes()
    ensures Pow2(8) == 256 && Pow2(9) == 512
  {
    assert Pow2(4) == 16;
  }

  /** The table of the source, with 1024 entries per turn. */
  lemma SinewaveIsUnit()
    ensures UnitTable(Sinewave(), 10)
  {
    Sizes();
    var q := Quarter();
    assert UnitQuarter(q) by {
      forall j: nat | j <= 128
        ensures InDisc(Wide(q[256 - j], q[j]), 0x8000)
      {
        UnitRising(j);
      }
    }
    QuarterIsUnit(q);
  }

  lemma QuarterIsUnit(q: seq<Short>)
    requires UnitQuarter(q)
    ensures UnitTable(ThreeQuarters(q), 10)
  {
    Sizes();
    var s := ThreeQuarters(q);
    forall j: nat | j < Pow2(9)
      ensures InDisc(Wide(s[QuarterOn(10, j)], s[j]), 0x8000)
    {
      UnitEntry(q, j);
    }
  }

  /** fix_fft as shipped, forward: no sum wraps for up to 1024 samples of modulus at most
      32767 - 4m. */
  lemma ShippedTableNeverWraps(flags: seq<bool>, m: nat, x: seq<Sample>, M: int)
    requires m == |flags| <= 10 && |x| == Pow2(m)
    requires forall p :: 0 <= p < m ==> flags[p]
    requires forall i :: 0 <= i < |x| ==> InDisc(Widen(x[i]), M)
    requires M + 4 * m <= 0x7fff
    ensures UnitTable(Sinewave(), 10)
    ensures var y := Dit(FixButterfly(Sinewave(), 10, false, flags), m, x);
            var w := Dit(WideButterfly(Sinewave(), 10), m, WidenAll(x));
            forall i :: 0 <= i < |x| ==> Widen(y[i]) == w[i] && InDisc(w[i], M + 4 * m)
  {
    SinewaveIsUnit();
    ForwardNeverWraps(Sinewave(), 10, flags, m, x, M);
  }

  /** In terms of the two parts: up to 23141 either way nothing wraps, whatever the size. */
  lemma BoxNeverWraps(flags: seq<bool>, m: nat, x: seq<Sample>, B: int)
    requires m == |flags| <= 10 && |x| == Pow2(m)
    requires forall p :: 0 <= p < m ==> flags[p]
    requires 0 <= B <= 23141
    requires forall i :: 0 <= i < |x| ==> -B <= x[i].re as int <= B && -B <= x[i].im as int <= B
    ensures UnitTable(Sinewave(), 10)
    ensures var y := Dit(FixButterfly(Sinewave(), 10, false, flags), m, x);
            var w := Dit(WideButterfly(Sinewave(), 10), m, WidenAll(x));
            forall i :: 0 <= i < |x| ==> Widen(y[i]) == w[i]
  {
    forall i | 0 <= i < |x|
      ensures InDisc(Widen(x[i]), 32727)
    {
      BoxInDisc(Widen(x[i]), B, 23141, 32727);
    }
    ShippedTableNeverWraps(flags, m, x, 32727);
  }

  lemma BoxInDisc(s: Wide, B: int, most: int, R: int)
    requires 0 <= B <= most && -B <= s.re <= B && -B <= s.im <= B
    requires most * most + most * most <= R * R && 0 <= R
    ensures InDisc(s, R)
  {
    SquareLe(s.re, most);
    SquareLe(s.im, most);
  }

  // ------------------------------------------------------------ outside the disc

  lemma Frequency1Of8<T>(bf: Butterfly<T>, x: seq<T>)
    requires |x| == 8
    ensures Pow2(3) == 8
    ensures Dit(bf, 3, x)[1]
         == bf(2, 1, bf(1, 1, bf(0, 0, x[0], x[4]).1, bf(0, 0, x[2], x[6]).1).0,
                     bf(1, 1, bf(0, 0, x[1], x[5]).1, bf(0, 0, x[3], x[7]).1).0).0
  {
    Frequency1Of4(bf, Evens(x));
    Frequency1Of4(bf, Odds(x));
  }

  lemma Frequency1Of4<T>(bf: Butterfly<T>, x: seq<T>)
    requires |x| == 4
    ensures Pow2(2) == 4
    ensures Dit(bf, 2, x)[1] == bf(1, 1, bf(0, 0, x[0], x[2]).1, bf(0, 0, x[1], x[3]).1).0
  {
    Frequency1Of2(bf, Evens(x));
    Frequency1Of2(bf, Odds(x));
  }

  lemma Frequency1Of2<T>(bf: Butterfly<T>, x: seq<T>)
    requires |x| == 2
    ensures Pow2(1) == 2
    ensures Dit(bf, 1, x)[1] == bf(0, 0, x[0], x[1]).1
  {
    assert Dit(bf, 0, Evens(x))[0] == x[0] && Dit(bf, 0, Odds(x))[0] == x[1];
  }

  lemma CornerEntries(s: seq<Short>)
    requires s == Sinewave()
    ensures s[0] == 0 && s[128] == 23169 && s[256] == 32767 && s[384] == 23169 && s[512] == 0
  {
    var q := Quarter();
    assert q[0] == Row(0)[0] && q[128] == Row(8)[0] && q[256] == 32767;
    assert s[0] == Entry(q, 0) && s[128] == Entry(q, 128) && s[256] == Entry(q, 256);
    assert s[384] == Entry(q, 384) && s[512] == Entry(q, 512);
  }

  /** The factors of the butterflies above: one, a quarter turn, an eighth of a turn. */
  lemma CornerFactors(s: seq<Short>, j0: nat, j1: nat, j2: nat)
    requires IsTable(s, 10) && j0 == 0 && j1 == 256 && j2 == 128 && Pow2(8) == 256 && Pow2(9) == 512
    requires s[0] == 0 && s[128] == 23169 && s[256] == 32767 && s[384] == 23169 && s[512] == 0
    ensures TwiddleRe(s, 10, true, j0) == 16383 && TwiddleIm(s, 10, false, true, j0) == 0
    ensures TwiddleRe(s, 10, true, j1) == 0 && TwiddleIm(s, 10, false, true, j1) == -16384
    ensures TwiddleRe(s, 10, true, j2) == 11584 && TwiddleIm(s, 10, false, true, j2) == -11585
  {
  }

  lemma CornerIndices()
    ensures Pow2(0) == 1 && Pow2(1) == 2 && Pow2(2) == 4 && Pow2(7) == 128 && Pow2(8) == 256 && Pow2(9) == 512
    ensures TwiddleIndex(10, 0, 0) == 0 && TwiddleIndex(10, 1, 1) == 256 && TwiddleIndex(10, 2, 1) == 128
  {
    assert Pow2(4) == 16;
  }

  lemma WideMpyIs(a: int, b: int, r: int)
    requires 0x8000 * r - 0x4000 <= a * b < 0x8000 * r + 0x4000
    ensures WideMpy(a, b) == r
  {
  }

  /** A butterfly from its four products. */
  lemma WideCrossIs(wr: int, wi: int, q: Wide, z: Wide, rr: int, ii: int, ri: int, ir: int)
    requires 0x8000 * rr - 0x4000 <= wr * z.re < 0x8000 * rr + 0x4000
    requires 0x8000 * ii - 0x4000 <= wi * z.im < 0x8000 * ii + 0x4000
    requires 0x8000 * ri - 0x4000 <= wr * z.im < 0x8000 * ri + 0x4000
    requires 0x8000 * ir - 0x4000 <= wi * z.re < 0x8000 * ir + 0x4000
    ensures WideCross(wr, wi, q, z).0 == Wide(q.re / 2 + (rr - ii), q.im / 2 + (ri + ir))
    ensures WideCross(wr, wi, q, z).1 == Wide(q.re / 2 - (rr - ii), q.im / 2 - (ri + ir))
  {
    WideMpyIs(wr, z.re, rr);
    WideMpyIs(wi, z.im, ii);
    WideMpyIs(wr, z.im, ri);
    WideMpyIs(wi, z.re, ir);
  }

  lemma CornerTable()
    ensures UnitTable(Sinewave(), 10)
    ensures forall q, z :: WideButterfly(Sinewave(), 10)(0, 0, q, z) == WideCross(16383, 0, q, z)
    ensures forall q, z :: WideButterfly(Sinewave(), 10)(1, 1, q, z) == WideCross(0, -16384, q, z)
    ensures forall q, z :: WideButterfly(Sinewave(), 10)(2, 1, q, z) == WideCross(11584, -11585, q, z)
  {
    SinewaveIsUnit();
    CornerIndices();
    CornerEntries(Sinewave());
    CornerFactors(Sinewave(), TwiddleIndex(10, 0, 0), TwiddleIndex(10, 1, 1), TwiddleIndex(10, 2, 1));
  }

  lemma CornerOneValue(wr: int, wi: int, q: Wide, z: Wide)
    requires wr == 16383 && wi == 0 && q == Wide(32767, 32767) && z == Wide(-32767, -32767)
    ensures WideCross(wr, wi, q, z).1 == Wide(32766, 32766)
  {
    WideCrossIs(wr, wi, q, z, -16383, 0, -16383, 0);
  }

  lemma CornerOne(q: Wide, z: Wide)
    requires q == Wide(32767, 32767) && z == Wide(-32767, -32767)
    ensures UnitTable(Sinewave(), 10) && WideButterfly(Sinewave(), 10)(0, 0, q, z).1 == Wide(32766, 32766)
  {
    CornerTable();
    CornerOneValue(16383, 0, q, z);
  }

  lemma CornerOneTurnedValue(wr: int, wi: int, q: Wide, z: Wide)
    requires wr == 16383 && wi == 0 && q == Wide(-32767, 32767) && z == Wide(32767, -32767)
    ensures WideCross(wr, wi, q, z).1 == Wide(-32767, 32766)
  {
    WideCrossIs(wr, wi, q, z, 16383, 0, -16383, 0);
  }

  lemma CornerOneTurned(q: Wide, z: Wide)
    requires q == Wide(-32767, 32767) && z == Wide(32767, -32767)
    ensures UnitTable(Sinewave(), 10) && WideButterfly(Sinewave(), 10)(0, 0, q, z).1 == Wide(-32767, 32766)
  {
    CornerTable();
    CornerOneTurnedValue(16383, 0, q, z);
  }

  lemma CornerTwoValue(wr: int, wi: int, q: Wide, z: Wide)
    requires wr == 0 && wi == -16384 && q == Wide(32766, 32766) && z == Wide(-32767, 32766)
    ensures WideCross(wr, wi, q, z).0 == Wide(32766, 32767)
  {
    WideCrossIs(wr, wi, q, z, 0, -16383, 0, 16384);
  }

  lemma CornerTwo(q: Wide, z: Wide)
    requires q == Wide(32766, 32766) && z == Wide(-32767, 32766)
    ensures UnitTable(Sinewave(), 10) && WideButterfly(Sinewave(), 10)(1, 1, q, z).0 == Wide(32766, 32767)
  {
    CornerTable();
    CornerTwoValue(0, -16384, q, z);
  }

  lemma CornerThreeValue(wr: int, wi: int, q: Wide, z: Wide)
    requires wr == 11584 && wi == -11585 && q == z == Wide(32766, 32767)
    ensures WideCross(wr, wi, q, z).0.re == 39551
  {
    WideCrossIs(wr, wi, q, z, 11583, -11585, 11584, -11584);
  }

  lemma CornerThree(q: Wide, z: Wide)
    requires q == z == Wide(32766, 32767)
    ensures UnitTable(Sinewave(), 10) && WideButterfly(Sinewave(), 10)(2, 1, q, z).0.re == 39551
  {
    CornerTable();
    CornerThreeValue(11584, -11585, q, z);
  }
}
