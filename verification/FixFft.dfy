/** lib/fix_fft.c: the in-place 16-bit transform, proved to leave exactly the result of the
    even/odd recursion with the same rounded multiply, the same scaling and the same table
    entries.  The table has 2^K entries per turn, of which the first three quarters are kept;
    the source has K = 10. */
module FixFft {
  import opened Arithmetic
  import opened Sequences
  import opened TransformSpec

  type Short = x: int | -0x8000 <= x < 0x8000

  /** Conversion of an int to a 16-bit word. */
  function Narrow(x: int): (s: Short)
  {
    (x + 0x8000) % 0x1_0000 - 0x8000
  }

  /** int arithmetic on two words, stored back into one. */
  function Sum(a: Short, b: Short): Short
  {
    Narrow((a as int) + (b as int))
  }

  function Difference(a: Short, b: Short): Short
  {
    Narrow((a as int) - (b as int))
  }

  function Negated(s: Short): Short
  {
    Narrow(-(s as int))
  }

  /** The word that is congruent to x. */
  lemma NarrowCongruent(x: int)
    ensures exists q: int :: x - Narrow(x) == 0x1_0000 * q
  {
    assert x - Narrow(x) == 0x1_0000 * ((x + 0x8000) / 0x1_0000);
  }

  lemma NarrowId(x: int)
    ensures Narrow(x) == x <==> -0x8000 <= x < 0x8000
  {
  }

  /** Division by a positive literal rounds down, as the arithmetic shift does; the low bit of
      a two's complement word is its remainder modulo 2. */
  function FixMpy(a: Short, b: Short): Short
  {
    var c := (a * b) / 0x4000;
    Narrow(c / 2 + c % 2)
  }

  /** The rounded product, except where the exact result does not fit. */
  lemma FixMpyRounds(a: Short, b: Short)
    ensures FixMpy(a, b) == (a * b + 0x4000) / 0x8000 <==> !(a == -0x8000 && b == -0x8000)
  {
    ProductRange(a, b);
    var p := a * b;
    var c := p / 0x4000;
    assert c / 2 + c % 2 == (p + 0x4000) / 0x8000;
  }

  lemma ProductRange(a: Short, b: Short)
    ensures -0x3fff_8000 <= a * b <= 0x4000_0000
    ensures a * b > 0x3fff_8000 <==> a == b == -0x8000
  {
    var u, v := if a < 0 then -(a as int) else a, if b < 0 then -(b as int) else b;
    MulUp(u, v, if a == -0x8000 then 0x8000 else 0x7fff, if b == -0x8000 then 0x8000 else 0x7fff);
    assert a * b == u * v || a * b == -(u * v);
  }

  lemma MulUp(u: nat, v: nat, U: nat, V: nat)
    requires u <= U && v <= V
    ensures 0 <= u * v <= U * V
  {
    assert u * v <= U * v <= U * V;
  }

  datatype Sample = Sample(re: Short, im: Short)

  function View(fr: seq<Short>, fi: seq<Short>): (z: seq<Sample>)
    requires |fr| == |fi|
    ensures |z| == |fr|
    ensures forall i :: 0 <= i < |fr| ==> z[i] == Sample(fr[i], fi[i])
  {
    seq(|fr|, i requires 0 <= i < |fr| => Sample(fr[i], fi[i]))
  }

  /** The sine table: three quarters of a turn of 2^K entries. */
  ghost predicate IsTable(sine: seq<Short>, K: nat)
  {
    K >= 2 && |sine| == 3 * Pow2(K - 2)
  }

  lemma IndexBelow(t: nat, u: nat, v: nat)
    requires t < u && v > 0
    ensures t * v < u * v
  {
  }

  /** m << k: pass p uses every 2^(K-1-p)-th entry. */
  function TwiddleIndex(K: nat, p: nat, t: nat): (j: nat)
    requires p < K && t < Pow2(p)
    ensures j < Pow2(K - 1)
  {
    Pow2Add(p, K - 1 - p);
    IndexBelow(t, Pow2(p), Pow2(K - 1 - p));
    t * Pow2(K - 1 - p)
  }

  /** x >>= 1 */
  function Half(x: Short): Short
  {
    x / 2
  }

  function Halve(shift: bool, x: Short): Short
  {
    if shift then Half(x) else x
  }

  function TwiddleRe(sine: seq<Short>, K: nat, shift: bool, j: nat): Short
    requires IsTable(sine, K) && j < Pow2(K - 1)
  {
    Halve(shift, sine[j + Pow2(K - 2)])
  }

  function TwiddleIm(sine: seq<Short>, K: nat, inverse: bool, shift: bool, j: nat): Short
    requires IsTable(sine, K) && j < Pow2(K - 1)
  {
    var wi := Negated(sine[j]);
    Halve(shift, if inverse then Negated(wi) else wi)
  }

  function Cross(wr: Short, wi: Short, shift: bool, q: Sample, z: Sample): (Sample, Sample)
  {
    var tr := Difference(FixMpy(wr, z.re), FixMpy(wi, z.im));
    var ti := Sum(FixMpy(wr, z.im), FixMpy(wi, z.re));
    var qr, qi := Halve(shift, q.re), Halve(shift, q.im);
    (Sample(Sum(qr, tr), Sum(qi, ti)), Sample(Difference(qr, tr), Difference(qi, ti)))
  }

  /** The butterfly of pass p, where flags[p] says whether that pass halves. */
  function FixButterfly(sine: seq<Short>, K: nat, inverse: bool, flags: seq<bool>): Butterfly<Sample>
    requires IsTable(sine, K)
  {
    (p: nat, t: nat, q: Sample, z: Sample) =>
      if p < |flags| && p < K && t < Pow2(p) then
        var j := TwiddleIndex(K, p, t);
        Cross(TwiddleRe(sine, K, flags[p], j), TwiddleIm(sine, K, inverse, flags[p], j), flags[p], q, z)
      else
        (q, z)
  }

  /** The test of the inverse transform's scan.  The imaginary magnitude is kept in a 16-bit
      word, so it misses -32768. */
  predicate TooLarge(s: Sample)
  {
    (if s.re < 0 then -(s.re as int) else s.re) > 16383 || (if s.im < 0 then Negated(s.im) else s.im) > 16383
  }

  predicate AnyTooLarge(z: seq<Sample>)
  {
    exists i :: 0 <= i < |z| && TooLarge(z[i])
  }

  /** What the scan is for: a magnitude above half of the range. */
  predicate Beyond(s: Sample)
  {
    !(-16383 <= s.re <= 16383 && -16383 <= s.im <= 16383)
  }

  /** The samples that it overlooks. */
  predicate Missed(s: Sample)
  {
    s.im == -0x8000 && -16383 <= s.re <= 16383
  }

  lemma TooLargeMeans(s: Sample)
    ensures TooLarge(s) <==>
      s.re < -16383 || s.re > 16383 || (s.im < -16383 && s.im != -32768) || s.im > 16383
    ensures TooLarge(s) <==> Beyond(s) && !Missed(s)
    ensures (TooLarge(s) <==> Beyond(s)) <==> !Missed(s)
  {
  }

  ghost predicate AnyBeyond(z: seq<Sample>)
  {
    exists i :: 0 <= i < |z| && Beyond(z[i])
  }

  ghost predicate OnlyMissed(z: seq<Sample>)
  {
    (exists i :: 0 <= i < |z| && Missed(z[i])) && forall i :: 0 <= i < |z| && Beyond(z[i]) ==> Missed(z[i])
  }

  /** The scan of the whole array is right unless all that it should find are overlooked. */
  lemma ScanMeans(z: seq<Sample>)
    ensures (AnyTooLarge(z) <==> AnyBeyond(z)) <==> !OnlyMissed(z)
  {
    forall i | 0 <= i < |z|
      ensures TooLarge(z[i]) <==> Beyond(z[i]) && !Missed(z[i])
    {
      TooLargeMeans(z[i]);
    }
    assert forall i :: 0 <= i < |z| && Missed(z[i]) ==> Beyond(z[i]);
  }

  function CountTrue(s: seq<bool>): nat
  {
    if s == [] then 0 else CountTrue(s[..|s| - 1]) + if s[|s| - 1] then 1 else 0
  }

  /** The number of passes that halve. */
  lemma {:induction false} CountTrueIs(flags: seq<bool>)
    ensures CountTrue(flags) == |set p: nat | p < |flags| && flags[p]|
  {
    var all := set p: nat | p < |flags| && flags[p];
    if flags == [] {
      assert all == {};
    } else {
      var n := |flags| - 1;
      CountTrueIs(flags[..n]);
      assert forall p: nat :: p < n ==> flags[..n][p] == flags[p];
      var fewer, same := set p: nat | p < n && flags[..n][p], set p: nat | p < n && flags[p];
      assert fewer == same;
      OneMoreTrue(flags, n);
    }
  }

  // ------------------------------------------------------------ reorder

  /** The state of the reorder loop after index m: position j is settled once m has reached
      j or its mirror. */
  ghost predicate Swapped(z: seq<Sample>, x: seq<Sample>, b: nat, m: nat)
    requires |z| == |x| == Pow2(b)
  {
    forall j :: 0 <= j < |x| ==> z[j] == if j <= m || Rev(b, j) <= m then x[Rev(b, j)] else x[j]
  }

  /** The search for the carry has come down to bit c: all bits above it are set, and the carry
      from it leads to `target`. */
  ghost predicate Carrying(b: nat, c: int, l: int, mr: nat, target: nat)
  {
    && 0 <= c < b && l == Pow2(c) && Pow2(b) - 2 * l <= mr < Pow2(b) - 1
    && mr - (Pow2(b) - 2 * l) < Pow2(c + 1) - 1
    && target == CarryDown(c + 1, mr - (Pow2(b) - 2 * l))
  }

  lemma CarryStarts(b: nat, m: nat)
    requires 1 <= m < Pow2(b)
    ensures b > 0 && Carrying(b, b - 1, Pow2(b) / 2, Rev(b, m - 1), Rev(b, m))
  {
    RevSuccessor(b, m - 1);
  }

  /** A set bit is cleared and the carry goes on to the one below. */
  lemma CarryGoesOn(b: nat, c: int, l: int, mr: nat, target: nat)
    requires Carrying(b, c, l, mr, target) && mr + l > Pow2(b) - 1
    ensures l > 1 && Carrying(b, c - 1, l / 2, mr, target)
  {
  }

  /** The carry stops at the first clear bit. */
  lemma CarryEnds(b: nat, c: int, l: int, mr: nat, target: nat)
    requires Carrying(b, c, l, mr, target) && mr + l <= Pow2(b) - 1
    ensures l > 0 && target == mr % l + l
  {
    LowBits(b, c, mr);
  }

  /** The search for the carry: from the reversal of m-1 to the reversal of m. */
  method NextReversed(b: nat, n: nat, mr0: nat, ghost m: nat) returns (mr: nat)
    requires n == Pow2(b) && 1 <= m < n && mr0 == Rev(b, m - 1)
    ensures mr == Rev(b, m)
  {
    CarryStarts(b, m);
    var l := n / 2;
    ghost var c := b - 1;
    while mr0 + l > n - 1
      invariant Carrying(b, c, l, mr0, Rev(b, m))
      decreases l
    {
      CarryGoesOn(b, c, l, mr0, Rev(b, m));
      l := l / 2;
      c := c - 1;
    }
    CarryEnds(b, c, l, mr0, Rev(b, m));
    // mr & (l-1), for a power of two l
    mr := mr0 % l + l;
  }

  /** Below a run of ones that reaches the top, masking subtracts the run. */
  lemma LowBits(b: nat, c: nat, mr: nat)
    requires c < b && Pow2(b) - 2 * Pow2(c) <= mr < Pow2(b) - Pow2(c)
    ensures mr % Pow2(c) == mr - (Pow2(b) - 2 * Pow2(c))
  {
    Pow2Add(c, b - c);
    BlockButOne(Pow2(c), Pow2(b - c), mr);
  }

  /** The last block but one of length l. */
  lemma BlockButOne(l: nat, q: nat, mr: nat)
    requires l > 0 && l * q - 2 * l <= mr < l * q - l
    ensures mr % l == mr - (l * q - 2 * l)
  {
    Distribute(l, q, 2);
    DivModUnique(mr, l, q - 2, mr - (l * q - 2 * l));
  }

  lemma Distribute(l: int, u: int, v: int)
    ensures l * (u - v) == l * u - v * l
  {
  }

  method ReorderInPlace(fr: array<Short>, fi: array<Short>, b: nat, n: nat)
    requires fr != fi && fr.Length == fi.Length == n == Pow2(b)
    modifies fr, fi
    ensures View(fr[..], fi[..]) == Reorder(old(View(fr[..], fi[..])), b)
  {
    ghost var x := View(fr[..], fi[..]);
    var mr, m := 0, 1;
    RevZero(b);
    assert Swapped(x, x, b, 0) by { OnlyZeroReversesToZero(b); }
    while m <= n - 1
      invariant 1 <= m <= n && mr == Rev(b, m - 1)
      invariant Swapped(View(fr[..], fi[..]), x, b, m - 1)
    {
      mr := NextReversed(b, n, mr, m);
      ghost var z := View(fr[..], fi[..]);
      if mr > m {
        fr[m], fr[mr] := fr[mr], fr[m];
        fi[m], fi[mr] := fi[mr], fi[m];
        assert View(fr[..], fi[..]) == z[m := z[mr]][mr := z[m]];
      }
      SwapStep(z, View(fr[..], fi[..]), x, b, m);
      m := m + 1;
    }
    assert View(fr[..], fi[..]) == Reorder(x, b);
  }

  lemma RevZero(b: nat)
    ensures Rev(b, 0) == 0
  {
  }

  lemma OnlyZeroReversesToZero(b: nat)
    ensures forall j :: 0 <= j < Pow2(b) && Rev(b, j) == 0 ==> j == 0
  {
    RevZero(b);
    forall j | 0 <= j < Pow2(b) && Rev(b, j) == 0
      ensures j == 0
    {
      RevInvolution(b, j);
    }
  }

  lemma SwapStep(z: seq<Sample>, z': seq<Sample>, x: seq<Sample>, b: nat, m: nat)
    requires |z| == |z'| == |x| == Pow2(b) && 1 <= m < |x|
    requires Swapped(z, x, b, m - 1)
    requires var mr := Rev(b, m);
             z' == if mr > m then z[m := z[mr]][mr := z[m]] else z
    ensures Swapped(z', x, b, m)
  {
    RevInvolution(b, m);
    forall j: nat | j < |x|
      ensures z'[j] == if j <= m || Rev(b, j) <= m then x[Rev(b, j)] else x[j]
    {
      RevInvolution(b, j);
    }
  }

  // ------------------------------------------------------------ one pass

  /** The residues that column t of a pass with half-size l writes. */
  predicate InColumn(idx: nat, l: nat, t: nat)
    requires l > 0
  {
    idx % (2 * l) == t || idx % (2 * l) == t + l
  }

  predicate BeforeColumn(idx: nat, l: nat, t: nat)
    requires l > 0
  {
    idx % (2 * l) < t || l <= idx % (2 * l) < t + l
  }

  /** Column t of a pass, done for the blocks below base. */
  ghost predicate ColumnDone(bf: Butterfly<Sample>, p: nat, l: nat, t: nat, z: seq<Sample>, y: seq<Sample>, base: int)
    requires l > 0 && Multiple(|z|, 2 * Pow2(p))
  {
    && |y| == |z|
    && forall idx :: 0 <= idx < |z| ==>
         y[idx] == if idx < base && InColumn(idx, l, t) then PassAt(bf, p, z, idx) else z[idx]
  }

  /** Butterfly t of pass p multiplies by (wr, wi). */
  ghost predicate Multiplies(bf: Butterfly<Sample>, p: nat, t: nat, wr: Short, wi: Short, shift: bool)
  {
    forall q, z {:trigger Cross(wr, wi, shift, q, z)} :: bf(p, t, q, z) == Cross(wr, wi, shift, q, z)
  }

  /** The arithmetic of the innermost loop. */
  method CrossValues(wr: Short, wi: Short, shift: bool, q: Sample, z: Sample) returns (u: Sample, v: Sample)
    ensures (u, v) == Cross(wr, wi, shift, q, z)
  {
    var tr := Difference(FixMpy(wr, z.re), FixMpy(wi, z.im));
    var ti := Sum(FixMpy(wr, z.im), FixMpy(wi, z.re));
    var qr, qi := q.re, q.im;
    if shift {
      qr, qi := Half(qr), Half(qi);
    }
    v := Sample(Difference(qr, tr), Difference(qi, ti));
    u := Sample(Sum(qr, tr), Sum(qi, ti));
  }

  /** The body of the innermost loop. */
  method CrossAt(fr: array<Short>, fi: array<Short>, ghost bf: Butterfly<Sample>, ghost p: nat, ghost t: nat,
                 i: nat, j: nat, wr: Short, wi: Short, shift: bool)
    requires fr != fi && fr.Length == fi.Length && i < fr.Length && j < fr.Length && i != j
    requires Multiplies(bf, p, t, wr, wi, shift)
    modifies fr, fi
    ensures var z := old(View(fr[..], fi[..]));
            var (u, v) := bf(p, t, z[i], z[j]);
            View(fr[..], fi[..]) == z[j := v][i := u]
  {
    ghost var z := View(fr[..], fi[..]);
    var u, v := CrossValues(wr, wi, shift, Sample(fr[i], fi[i]), Sample(fr[j], fi[j]));
    fr[j], fi[j] := v.re, v.im;
    fr[i], fi[i] := u.re, u.im;
    assert View(fr[..], fi[..]) == z[j := v][i := u];
  }

  /** One turn of the innermost loop, which stands at i. */
  method ColumnTurn(fr: array<Short>, fi: array<Short>, ghost bf: Butterfly<Sample>, ghost p: nat,
                    l: nat, t: nat, i: nat, wr: Short, wi: Short, shift: bool, ghost z: seq<Sample>)
    requires fr != fi && fr.Length == fi.Length == |z| && l == Pow2(p) && t < l && t <= i < fr.Length
    requires Multiple(fr.Length, 2 * Pow2(p)) && Multiple(i - t, 2 * l)
    requires Multiplies(bf, p, t, wr, wi, shift)
    requires ColumnDone(bf, p, l, t, z, View(fr[..], fi[..]), i - t)
    modifies fr, fi
    ensures i + 2 * l - t <= fr.Length && Multiple(i + 2 * l - t, 2 * l)
    ensures ColumnDone(bf, p, l, t, z, View(fr[..], fi[..]), i + 2 * l - t)
  {
    ghost var y := View(fr[..], fi[..]);
    NextBlock(i - t, 2 * l, fr.Length);
    CrossAt(fr, fi, bf, p, t, i, i + l, wr, wi, shift);
    ColumnStep(bf, p, l, t, z, y, View(fr[..], fi[..]), i - t);
  }

  method Column(fr: array<Short>, fi: array<Short>, ghost bf: Butterfly<Sample>, ghost p: nat,
                l: nat, t: nat, wr: Short, wi: Short, shift: bool)
    requires fr != fi && fr.Length == fi.Length && l == Pow2(p) && t < l
    requires Multiple(fr.Length, 2 * Pow2(p))
    requires Multiplies(bf, p, t, wr, wi, shift)
    modifies fr, fi
    ensures ColumnDone(bf, p, l, t, old(View(fr[..], fi[..])), View(fr[..], fi[..]), fr.Length)
  {
    var n: int, istep := fr.Length, 2 * l;
    ghost var z := View(fr[..], fi[..]);
    var i: int := t;
    while i < n
      invariant t <= i && i - t <= n && Multiple(i - t, istep)
      invariant ColumnDone(bf, p, l, t, z, View(fr[..], fi[..]), i - t)
      decreases n - i
    {
      ColumnTurn(fr, fi, bf, p, l, t, i, wr, wi, shift, z);
      i := i + istep;
    }
    ColumnEnd(l, t, n, i - t);
  }

  lemma ColumnStep(bf: Butterfly<Sample>, p: nat, l: nat, t: nat, z: seq<Sample>,
                   y: seq<Sample>, y': seq<Sample>, base: nat)
    requires l == Pow2(p) && t < l && Multiple(|z|, 2 * Pow2(p))
    requires Multiple(base, 2 * l) && base + 2 * l <= |z|
    requires ColumnDone(bf, p, l, t, z, y, base)
    requires var (u, v) := bf(p, t, y[base + t], y[base + t + l]);
             y' == y[base + t + l := v][base + t := u]
    ensures ColumnDone(bf, p, l, t, z, y', base + 2 * l)
  {
    forall idx: nat | idx < |z|
      ensures y'[idx] == if idx < base + 2 * l && InColumn(idx, l, t) then PassAt(bf, p, z, idx) else z[idx]
    {
      assert y[idx] == if idx < base && InColumn(idx, l, t) then PassAt(bf, p, z, idx) else z[idx];
      if base <= idx < base + 2 * l {
        ModOfBlock(base, 2 * l, idx - base);
        assert y[base + t] == z[base + t] && y[base + t + l] == z[base + t + l];
      }
    }
  }

  /** When the walk leaves the array, no position of the column is left. */
  lemma ColumnEnd(l: nat, t: nat, n: nat, base: nat)
    requires l > 0 && t < l && Multiple(n, 2 * l) && Multiple(base, 2 * l) && base <= n <= base + t
    ensures base == n
  {
    if base < n {
      NextBlock(base, 2 * l, n);
    }
  }

  /** The columns below t of a pass, done. */
  ghost predicate PassDone(bf: Butterfly<Sample>, p: nat, l: nat, t: nat, z: seq<Sample>, y: seq<Sample>)
    requires l > 0 && Multiple(|z|, 2 * Pow2(p))
  {
    && |y| == |z|
    && forall idx :: 0 <= idx < |z| ==> y[idx] == if BeforeColumn(idx, l, t) then PassAt(bf, p, z, idx) else z[idx]
  }

  /** The butterflies of pass p are those of the table. */
  ghost predicate FollowsTable(bf: Butterfly<Sample>, sine: seq<Short>, K: nat, inverse: bool, p: nat, shift: bool)
    requires IsTable(sine, K) && p < K
  {
    forall t: nat {:trigger TwiddleIndex(K, p, t)} :: t < Pow2(p) ==>
      var j := TwiddleIndex(K, p, t);
      Multiplies(bf, p, t, TwiddleRe(sine, K, shift, j), TwiddleIm(sine, K, inverse, shift, j), shift)
  }

  method PassInPlace(fr: array<Short>, fi: array<Short>, sine: seq<Short>, K: nat, inverse: bool,
                     ghost bf: Butterfly<Sample>, ghost p: nat, l: nat, k: nat, shift: bool)
    requires fr != fi && fr.Length == fi.Length && l == Pow2(p) && p < K && k == K - 1 - p
    requires Multiple(fr.Length, 2 * Pow2(p)) && IsTable(sine, K)
    requires FollowsTable(bf, sine, K, inverse, p, shift)
    modifies fr, fi
    ensures View(fr[..], fi[..]) == Pass(bf, p, old(View(fr[..], fi[..])))
  {
    ghost var z := View(fr[..], fi[..]);
    var m := 0;
    while m < l
      invariant 0 <= m <= l
      invariant PassDone(bf, p, l, m, z, View(fr[..], fi[..]))
    {
      ghost var y := View(fr[..], fi[..]);
      var j := m * Pow2(k);
      assert j == TwiddleIndex(K, p, m);
      var wr, wi := Twiddle(sine, K, inverse, shift, j);
      Column(fr, fi, bf, p, l, m, wr, wi, shift);
      PassStep(bf, p, l, m, z, y, View(fr[..], fi[..]));
      m := m + 1;
    }
    PassEnd(bf, p, l, z, View(fr[..], fi[..]));
  }

  /** Table lookup; 0 <= j < 2^(K-1), so the cosine is found below three quarters of a turn. */
  method Twiddle(sine: seq<Short>, K: nat, inverse: bool, shift: bool, j: nat) returns (wr: Short, wi: Short)
    requires IsTable(sine, K) && j < Pow2(K - 1)
    ensures wr == TwiddleRe(sine, K, shift, j) && wi == TwiddleIm(sine, K, inverse, shift, j)
  {
    wr := sine[j + Pow2(K - 2)];
    wi := Negated(sine[j]);
    if inverse {
      wi := Negated(wi);
    }
    if shift {
      wr, wi := Half(wr), Half(wi);
    }
  }

  lemma PassEnd(bf: Butterfly<Sample>, p: nat, l: nat, z: seq<Sample>, y: seq<Sample>)
    requires l == Pow2(p) && Multiple(|z|, 2 * Pow2(p)) && PassDone(bf, p, l, l, z, y)
    ensures y == Pass(bf, p, z)
  {
    forall idx: nat | idx < |z|
      ensures y[idx] == Pass(bf, p, z)[idx]
    {
      assert BeforeColumn(idx, l, l);
    }
  }

  /** Columns are independent: column t still finds the values from before the pass. */
  lemma PassStep(bf: Butterfly<Sample>, p: nat, l: nat, t: nat, z: seq<Sample>, y: seq<Sample>, y': seq<Sample>)
    requires l == Pow2(p) && t < l && |y| == |z| && Multiple(|z|, 2 * Pow2(p))
    requires PassDone(bf, p, l, t, z, y)
    requires ColumnDone(bf, p, l, t, y, y', |z|)
    ensures PassDone(bf, p, l, t + 1, z, y')
  {
    forall idx: nat | idx < |z|
      ensures y'[idx] == if BeforeColumn(idx, l, t + 1) then PassAt(bf, p, z, idx) else z[idx]
    {
      assert y'[idx] == if InColumn(idx, l, t) then PassAt(bf, p, y, idx) else y[idx];
      assert y[idx] == if BeforeColumn(idx, l, t) then PassAt(bf, p, z, idx) else z[idx];
      if InColumn(idx, l, t) {
        SamePair(bf, p, l, t, z, y, idx);
      }
    }
  }

  lemma SamePair(bf: Butterfly<Sample>, p: nat, l: nat, t: nat, z: seq<Sample>, y: seq<Sample>, idx: nat)
    requires l == Pow2(p) && t < l && |y| == |z| && Multiple(|z|, 2 * Pow2(p))
    requires PassDone(bf, p, l, t, z, y) && idx < |z| && InColumn(idx, l, t)
    ensures PassAt(bf, p, y, idx) == PassAt(bf, p, z, idx)
  {
    PairInRange(|z|, l, idx);
    PartnerResidue(idx, l);
    var other := if idx % (2 * l) < l then idx + l else idx - l;
    assert !BeforeColumn(idx, l, t) && !BeforeColumn(other, l, t);
    assert y[idx] == z[idx] && y[other] == z[other];
  }

  lemma PartnerResidue(idx: nat, l: nat)
    requires l > 0
    ensures idx % (2 * l) < l ==> (idx + l) % (2 * l) == idx % (2 * l) + l
    ensures idx % (2 * l) >= l && idx >= l ==> (idx - l) % (2 * l) == idx % (2 * l) - l
  {
    var m, r := 2 * l, idx % (2 * l);
    if r < l {
      DivModUnique(idx + l, m, idx / m, r + l);
    } else if idx >= l {
      DivModUnique(idx - l, m, idx / m, r - l);
    }
  }

  /** The scan before a pass of the inverse transform: whether some magnitude is above half of
      the range, wrong exactly when all such samples are the overlooked ones. */
  method NeedsScaling(fr: array<Short>, fi: array<Short>, n: nat) returns (shift: bool)
    requires fr.Length == fi.Length == n
    ensures shift == AnyTooLarge(View(fr[..], fi[..]))
    ensures (shift <==> AnyBeyond(View(fr[..], fi[..]))) <==> !OnlyMissed(View(fr[..], fi[..]))
  {
    ScanMeans(View(fr[..], fi[..]));
    ghost var z := View(fr[..], fi[..]);
    shift := false;
    var i := 0;
    while i < n
      invariant 0 <= i <= n && !shift
      invariant forall k :: 0 <= k < i ==> !TooLarge(z[k])
    {
      var j: int := fr[i];
      if j < 0 {
        j := -j;
      }
      var m := fi[i];
      if m < 0 {
        m := Negated(m);
      }
      if j > 16383 || m > 16383 {
        assert TooLarge(z[i]);
        shift := true;
        break;
      }
      i := i + 1;
    }
  }

  // ------------------------------------------------------------ the transform

  /** What |flags| passes leave of the reordered samples z, and which of them halved. */
  ghost predicate PassesDone(sine: seq<Short>, K: nat, inverse: bool, flags: seq<bool>, scale: int,
                             m: nat, z: seq<Sample>, y: seq<Sample>)
    requires IsTable(sine, K) && |z| == Pow2(m)
  {
    var bf := FixButterfly(sine, K, inverse, flags);
    && |flags| <= m
    && y == Nest(bf, m, |flags|, z)
    && (!inverse ==> scale == 0 && forall p :: 0 <= p < |flags| ==> flags[p])
    && (inverse ==> scale == CountTrue(flags))
    && (inverse ==> forall p :: 0 <= p < |flags| ==> flags[p] == AnyTooLarge(Nest(bf, m, p, z)))
  }

  lemma PassesStep(sine: seq<Short>, K: nat, inverse: bool, flags: seq<bool>, scale: int, shift: bool,
                   m: nat, z: seq<Sample>, y: seq<Sample>, y': seq<Sample>)
    requires IsTable(sine, K) && |z| == Pow2(m) && |y| == |z| && |flags| < m
    requires PassesDone(sine, K, inverse, flags, scale, m, z, y)
    requires shift == if inverse then AnyTooLarge(y) else true
    requires Multiple(|y|, 2 * Pow2(|flags|))
    requires y' == Pass(FixButterfly(sine, K, inverse, flags + [shift]), |flags|, y)
    ensures PassesDone(sine, K, inverse, flags + [shift], if inverse && shift then scale + 1 else scale, m, z, y')
  {
    var longer := flags + [shift];
    assert longer[..|longer| - 1] == flags;
    FlagsExtend(sine, K, inverse, flags, shift, m, z);
  }

  /** Deciding one more pass leaves the earlier ones as they were. */
  lemma FlagsExtend(sine: seq<Short>, K: nat, inverse: bool, flags: seq<bool>, shift: bool, m: nat, z: seq<Sample>)
    requires IsTable(sine, K) && |flags| <= m && |z| == Pow2(m)
    ensures forall q :: 0 <= q <= |flags| ==>
      Nest(FixButterfly(sine, K, inverse, flags + [shift]), m, q, z)
        == Nest(FixButterfly(sine, K, inverse, flags), m, q, z)
  {
    var bf, bg := FixButterfly(sine, K, inverse, flags + [shift]), FixButterfly(sine, K, inverse, flags);
    forall q | 0 <= q <= |flags|
      ensures Nest(bf, m, q, z) == Nest(bg, m, q, z)
    {
      NestExtensional(bf, bg, m, q, z);
    }
  }

  lemma TableFollowed(sine: seq<Short>, K: nat, inverse: bool, flags: seq<bool>, p: nat)
    requires IsTable(sine, K) && p < K && p < |flags|
    ensures FollowsTable(FixButterfly(sine, K, inverse, flags), sine, K, inverse, p, flags[p])
  {
  }

  /** fix_fft.  The ghost result says which passes halved: all of them in the forward
      direction; in the inverse direction those whose scan found a large sample. */
  method Transform(fr: array<Short>, fi: array<Short>, m: nat, inverse: bool, sine: seq<Short>, K: nat)
    returns (scale: int, ghost flags: seq<bool>)
    requires fr != fi && IsTable(sine, K)
    requires m <= K ==> fr.Length == fi.Length == Pow2(m)
    modifies fr, fi
    ensures m > K ==> scale == -1 && fr[..] == old(fr[..]) && fi[..] == old(fi[..])
    ensures m <= K ==>
      var x := old(View(fr[..], fi[..]));
      && |flags| == m
      && scale == (if inverse then |set p: nat | p < m && flags[p]| else 0)
      && (!inverse ==> forall p :: 0 <= p < m ==> flags[p])
      && View(fr[..], fi[..]) == Dit(FixButterfly(sine, K, inverse, flags), m, x)
      && PassesDone(sine, K, inverse, flags, scale, m, Reorder(x, m), View(fr[..], fi[..]))
  {
    flags := [];
    if m > K {
      return -1, flags;
    }
    var n := Pow2(m);
    ghost var x := View(fr[..], fi[..]);
    ReorderInPlace(fr, fi, m, n);
    ghost var z := Reorder(x, m);
    scale := 0;
    var l, k := 1, K - 1;
    while l < n
      invariant |flags| <= m && l == Pow2(|flags|) <= n && k == K - 1 - |flags|
      invariant PassesDone(sine, K, inverse, flags, scale, m, z, View(fr[..], fi[..]))
      decreases n - l
    {
      ghost var p, y := |flags|, View(fr[..], fi[..]);
      Pow2Mono(p, m);
      Pow2Multiple(p + 1, m);
      ghost var before := scale;
      var shift := true;
      if inverse {
        shift := NeedsScaling(fr, fi, n);
        if shift {
          scale := scale + 1;
        }
      }
      ghost var longer := flags + [shift];
      TableFollowed(sine, K, inverse, longer, p);
      PassInPlace(fr, fi, sine, K, inverse, FixButterfly(sine, K, inverse, longer), p, l, k, shift);
      PassesStep(sine, K, inverse, flags, before, shift, m, z, y, View(fr[..], fi[..]));
      flags := longer;
      k := k - 1;
      l := 2 * l;
    }
    assert |flags| == m by { Pow2Mono(|flags|, m); }
    CountTrueIs(flags);
    LoopNestIsDit(FixButterfly(sine, K, inverse, flags), m, x);
  }

  // ------------------------------------------------------------ in plain arithmetic

  /** x and y leave the same 16-bit word. */
  predicate SameWord(x: int, y: int)
  {
    (x - y) % 0x1_0000 == 0
  }

  lemma MpyWord(a: Short, b: Short)
    ensures SameWord(FixMpy(a, b), (a * b + 0x4000) / 0x8000)
  {
    FixMpyRounds(a, b);
  }

  lemma Whole(d: int, k: int)
    requires d == 0x1_0000 * k
    ensures d % 0x1_0000 == 0
  {
  }

  lemma {:induction false} Times(d: int) returns (k: int)
    requires d % 0x1_0000 == 0
    ensures d == 0x1_0000 * k
  {
    k := d / 0x1_0000;
  }

  lemma NarrowWord(x: int, y: int)
    requires SameWord(x, y)
    ensures SameWord(Narrow(x), y)
  {
    var k := Times(x - y);
    var n := (x + 0x8000) / 0x1_0000;
    assert x - Narrow(x) == 0x1_0000 * n;
    Whole(Narrow(x) - y, k - n);
  }

  lemma SumWord(a: Short, b: Short, x: int, y: int)
    requires SameWord(a, x) && SameWord(b, y)
    ensures SameWord(Sum(a, b), x + y)
  {
    var i := Times(a - x);
    var k := Times(b - y);
    var s := (a as int) + (b as int);
    Whole(s - (x + y), i + k);
    NarrowWord(s, x + y);
  }

  lemma DifferenceWord(a: Short, b: Short, x: int, y: int)
    requires SameWord(a, x) && SameWord(b, y)
    ensures SameWord(Difference(a, b), x - y)
  {
    var i := Times(a - x);
    var k := Times(b - y);
    var s := (a as int) - (b as int);
    Whole(s - (x - y), i - k);
    NarrowWord(s, x - y);
  }

  /** The factor that a pass takes from entry j. */
  lemma FactorMeans(sine: seq<Short>, K: nat, inverse: bool, shift: bool, j: nat, c: int, w: int)
    requires IsTable(sine, K) && j < Pow2(K - 1) && c == sine[j + Pow2(K - 2)] && w == sine[j]
    ensures TwiddleRe(sine, K, shift, j) == if shift then c / 2 else c
    ensures var s := if inverse || w == -32768 then w else -w;
            TwiddleIm(sine, K, inverse, shift, j) == if shift then s / 2 else s
  {
  }

  lemma ButterflyAt(sine: seq<Short>, K: nat, inverse: bool, flags: seq<bool>, p: nat, t: nat, j: nat, wr: Short,
                    wi: Short, q: Sample, z: Sample)
    requires IsTable(sine, K) && p < |flags| && p < K && t < Pow2(p) && j == TwiddleIndex(K, p, t)
    requires wr == TwiddleRe(sine, K, flags[p], j) && wi == TwiddleIm(sine, K, inverse, flags[p], j)
    ensures FixButterfly(sine, K, inverse, flags)(p, t, q, z) == Cross(wr, wi, flags[p], q, z)
  {
  }

  /** A butterfly of the transform by its numbers alone: where its factor stands in the table, and
      the two rounded products that are added to the first sample and taken from it, modulo 2^16. */
  lemma {:induction false} ButterflyMeans(sine: seq<Short>, K: nat, inverse: bool, flags: seq<bool>, p: nat, t: nat,
                                          q: Sample, z: Sample)
    returns (j: nat, wr: int, wi: int, qr: int, qi: int, tr: int, ti: int)
    requires K >= 2 && |sine| == 3 * Pow2(K - 2) && p < |flags| && p < K && t < Pow2(p)
    ensures j == t * Pow2(K - 1 - p) && j + Pow2(K - 2) < |sine|
    ensures wr == if flags[p] then sine[j + Pow2(K - 2)] / 2 else sine[j + Pow2(K - 2)]
    ensures var s := if inverse || sine[j] == -32768 then sine[j] as int else -(sine[j] as int);
            wi == if flags[p] then s / 2 else s
    ensures qr == (if flags[p] then q.re / 2 else q.re) && qi == (if flags[p] then q.im / 2 else q.im)
    ensures tr == (wr * z.re + 0x4000) / 0x8000 - (wi * z.im + 0x4000) / 0x8000
    ensures ti == (wr * z.im + 0x4000) / 0x8000 + (wi * z.re + 0x4000) / 0x8000
    ensures var (u, v) := FixButterfly(sine, K, inverse, flags)(p, t, q, z);
            && (u.re - (qr + tr)) % 0x1_0000 == 0 && (u.im - (qi + ti)) % 0x1_0000 == 0
            && (v.re - (qr - tr)) % 0x1_0000 == 0 && (v.im - (qi - ti)) % 0x1_0000 == 0
  {
    j := TwiddleIndex(K, p, t);
    var a, b := TwiddleRe(sine, K, flags[p], j), TwiddleIm(sine, K, inverse, flags[p], j);
    FactorMeans(sine, K, inverse, flags[p], j, sine[j + Pow2(K - 2)], sine[j]);
    ButterflyAt(sine, K, inverse, flags, p, t, j, a, b, q, z);
    wr, wi, qr, qi, tr, ti := CrossNumbers(a, b, flags[p], q, z);
  }

  lemma {:induction false} CrossNumbers(a: Short, b: Short, shift: bool, q: Sample, z: Sample)
    returns (wr: int, wi: int, qr: int, qi: int, tr: int, ti: int)
    ensures wr == a && wi == b
    ensures qr == (if shift then q.re / 2 else q.re) && qi == (if shift then q.im / 2 else q.im)
    ensures tr == (wr * z.re + 0x4000) / 0x8000 - (wi * z.im + 0x4000) / 0x8000
    ensures ti == (wr * z.im + 0x4000) / 0x8000 + (wi * z.re + 0x4000) / 0x8000
    ensures var (u, v) := Cross(a, b, shift, q, z);
            && (u.re - (qr + tr)) % 0x1_0000 == 0 && (u.im - (qi + ti)) % 0x1_0000 == 0
            && (v.re - (qr - tr)) % 0x1_0000 == 0 && (v.im - (qi - ti)) % 0x1_0000 == 0
  {
    wr, wi, qr, qi := a, b, Halve(shift, q.re), Halve(shift, q.im);
    tr := (wr * z.re + 0x4000) / 0x8000 - (wi * z.im + 0x4000) / 0x8000;
    ti := (wr * z.im + 0x4000) / 0x8000 + (wi * z.re + 0x4000) / 0x8000;
    CrossMeans(a, b, shift, q, z, qr, qi, tr, ti);
  }

  lemma CrossMeans(wr: Short, wi: Short, shift: bool, q: Sample, z: Sample, qr: int, qi: int, tr: int, ti: int)
    requires qr == Halve(shift, q.re) && qi == Halve(shift, q.im)
    requires tr == (wr * z.re + 0x4000) / 0x8000 - (wi * z.im + 0x4000) / 0x8000
    requires ti == (wr * z.im + 0x4000) / 0x8000 + (wi * z.re + 0x4000) / 0x8000
    ensures var (u, v) := Cross(wr, wi, shift, q, z);
            && SameWord(u.re, qr + tr) && SameWord(u.im, qi + ti)
            && SameWord(v.re, qr - tr) && SameWord(v.im, qi - ti)
  {
    MpyWord(wr, z.re);
    MpyWord(wi, z.im);
    MpyWord(wr, z.im);
    MpyWord(wi, z.re);
    var a, b := FixMpy(wr, z.re), FixMpy(wi, z.im);
    var c, d := FixMpy(wr, z.im), FixMpy(wi, z.re);
    DifferenceWord(a, b, (wr * z.re + 0x4000) / 0x8000, (wi * z.im + 0x4000) / 0x8000);
    SumWord(c, d, (wr * z.im + 0x4000) / 0x8000, (wi * z.re + 0x4000) / 0x8000);
    SumWord(Halve(shift, q.re), Difference(a, b), qr, tr);
    SumWord(Halve(shift, q.im), Sum(c, d), qi, ti);
    DifferenceWord(Halve(shift, q.re), Difference(a, b), qr, tr);
    DifferenceWord(Halve(shift, q.im), Sum(c, d), qi, ti);
  }
}
