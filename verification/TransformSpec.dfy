/** Bit reversal and the decimation-in-time recursion, for any element type and any butterfly.

    `LoopNest` is the value-level picture of the two phases of fix_fft: reorder, then one
    `Pass` per power of two.  `Dit` is the textbook recursion on even and odd samples.
    The two are proved equal for every butterfly, so the same theorem serves the 16-bit
    arithmetic and the exact one. */
module TransformSpec {
  import opened Arithmetic
  import opened Sequences

  function Pow2(b: nat): (p: nat)
    ensures p >= 1
  {
    if b == 0 then 1 else 2 * Pow2(b - 1)
  }

  lemma {:induction false} Pow2Add(a: nat, b: nat)
    ensures Pow2(a + b) == Pow2(a) * Pow2(b)
  {
    if a == 0 {
    } else {
      Pow2Add(a - 1, b);
    }
  }

  lemma Pow2Mono(a: nat, b: nat)
    requires a <= b
    ensures Pow2(a) <= Pow2(b)
    ensures a < b ==> 2 * Pow2(a) <= Pow2(b)
  {
  }

  /** Multiples of a positive number, without division. */
  ghost predicate Multiple(x: int, m: nat)
    requires m > 0
  {
    x % m == 0
  }

  lemma ModOfBlock(base: nat, m: nat, r: nat)
    requires m > 0 && Multiple(base, m) && r < m
    ensures (base + r) % m == r
  {
    DivModUnique(base + r, m, base / m, r);
  }

  lemma NextBlock(base: nat, m: nat, n: nat)
    requires m > 0 && Multiple(base, m) && Multiple(n, m)
    ensures Multiple(base + m, m)
    ensures base < n ==> base + m <= n
  {
    assert (base + m) % m == base % m by {
      var q := base / m;
      assert base + m == m * (q + 1);
      MulMod(q + 1, m);
    }
    if base < n {
      var q, k := base / m, n / m;
      assert m * q < m * k;
      assert q < k;
      assert m * (q + 1) <= m * k;
    }
  }

  lemma MulMod(q: int, m: nat)
    requires m > 0
    ensures (m * q) % m == 0
  {
    DivModUnique(m * q, m, q, 0);
  }

  lemma Pow2Multiple(a: nat, b: nat)
    requires a <= b
    ensures Multiple(Pow2(b), Pow2(a))
  {
    Pow2Add(a, b - a);
    MulMod(Pow2(b - a), Pow2(a));
  }

  // ------------------------------------------------------------ bit reversal

  function Rev(b: nat, i: nat): (r: nat)
    requires i < Pow2(b)
    ensures r < Pow2(b)
  {
    if b == 0 then 0 else (if i % 2 == 1 then Pow2(b - 1) else 0) + Rev(b - 1, i / 2)
  }

  /** The same reversal read from the other end of the index. */
  lemma {:induction false} RevTop(b: nat, i: nat)
    requires i < Pow2(b + 1)
    ensures i < Pow2(b) ==> Rev(b + 1, i) == 2 * Rev(b, i)
    ensures i >= Pow2(b) ==> Rev(b + 1, i) == 2 * Rev(b, i - Pow2(b)) + 1
  {
    if b == 0 {
      assert i < 2 && Pow2(0) == 1 && Rev(0, i / 2) == 0;
    } else {
      RevTop(b - 1, i / 2);
      var h := Pow2(b - 1);
      if i >= Pow2(b) {
        assert (i - 2 * h) / 2 == i / 2 - h && (i - 2 * h) % 2 == i % 2;
      }
    }
  }

  lemma {:induction false} RevInvolution(b: nat, i: nat)
    requires i < Pow2(b)
    ensures Rev(b, Rev(b, i)) == i
  {
    if b == 0 {
    } else {
      RevInvolution(b - 1, i / 2);
      RevTop(b - 1, Rev(b, i));
    }
  }

  /** Addition of one with the carry running towards the low bits: clear the leading ones,
      set the first zero. */
  function CarryDown(c: nat, r: nat): nat
    requires r < Pow2(c) - 1
  {
    var l := Pow2(c - 1);
    if r < l then r + l else CarryDown(c - 1, r - l)
  }

  lemma {:induction false} RevSuccessor(b: nat, i: nat)
    requires i + 1 < Pow2(b)
    ensures Rev(b, i) < Pow2(b) - 1
    ensures Rev(b, i + 1) == CarryDown(b, Rev(b, i))
  {
    var h := Pow2(b - 1);
    if i % 2 == 0 {
      assert (i + 1) / 2 == i / 2 && (i + 1) % 2 == 1;
    } else {
      assert (i + 1) / 2 == i / 2 + 1 && (i + 1) % 2 == 0;
      RevSuccessor(b - 1, i / 2);
    }
  }

  function Reorder<T>(x: seq<T>, b: nat): (z: seq<T>)
    requires |x| == Pow2(b)
    ensures |z| == |x|
    ensures forall i :: 0 <= i < |x| ==> z[i] == x[Rev(b, i)]
  {
    seq(|x|, i requires 0 <= i < |x| => x[Rev(b, i)])
  }

  /** Reordering twice gives the original back. */
  lemma ReorderTwice<T>(x: seq<T>, b: nat)
    requires |x| == Pow2(b)
    ensures Reorder(Reorder(x, b), b) == x
  {
    var z := Reorder(x, b);
    forall i | 0 <= i < |x|
      ensures Reorder(z, b)[i] == x[i]
    {
      RevInvolution(b, i);
    }
  }

  // ------------------------------------------------- the recursion and the loop nest

  /** bf(p, t, e, o): the two results of the butterfly number t of pass p. */
  type Butterfly<!T> = (nat, nat, T, T) -> (T, T)

  function Combine<T>(bf: Butterfly<T>, p: nat, e: seq<T>, o: seq<T>): (y: seq<T>)
    requires |e| == |o|
    ensures |y| == 2 * |e|
  {
    seq(2 * |e|, i requires 0 <= i < 2 * |e| =>
      if i < |e| then bf(p, i, e[i], o[i]).0 else bf(p, i - |e|, e[i - |e|], o[i - |e|]).1)
  }

  function Dit<T>(bf: Butterfly<T>, b: nat, x: seq<T>): (y: seq<T>)
    requires |x| == Pow2(b)
    ensures |y| == |x|
  {
    if b == 0 then x
    else Combine(bf, b - 1, Dit(bf, b - 1, Evens(x)), Dit(bf, b - 1, Odds(x)))
  }

  /** The value pass p leaves at position idx, from the values before the pass. */
  function PassAt<T>(bf: Butterfly<T>, p: nat, z: seq<T>, idx: nat): T
    requires Multiple(|z|, 2 * Pow2(p)) && idx < |z|
  {
    var l := Pow2(p);
    var r := idx % (2 * l);
    PairInRange(|z|, l, idx);
    if r < l then bf(p, r, z[idx], z[idx + l]).0 else bf(p, r - l, z[idx - l], z[idx]).1
  }

  lemma PairInRange(n: nat, l: nat, idx: nat)
    requires l > 0 && Multiple(n, 2 * l) && idx < n
    ensures idx % (2 * l) < l ==> idx + l < n
    ensures idx % (2 * l) >= l ==> idx >= l
  {
    var m := 2 * l;
    var base := m * (idx / m);
    assert idx == base + idx % m;
    MulMod(idx / m, m);
    NextBlock(base, m, n);
  }

  function Pass<T>(bf: Butterfly<T>, p: nat, z: seq<T>): (y: seq<T>)
    requires Multiple(|z|, 2 * Pow2(p))
    ensures |y| == |z|
    ensures forall i :: 0 <= i < |z| ==> y[i] == PassAt(bf, p, z, i)
  {
    seq(|z|, i requires 0 <= i < |z| => PassAt(bf, p, z, i))
  }

  /** The first p passes over a sequence of 2^b values. */
  function Nest<T>(bf: Butterfly<T>, b: nat, p: nat, z: seq<T>): (y: seq<T>)
    requires |z| == Pow2(b) && p <= b
    ensures |y| == |z|
  {
    if p == 0 then z
    else
      Pow2Multiple(p, b);
      Pass(bf, p - 1, Nest(bf, b, p - 1, z))
  }

  function LoopNest<T>(bf: Butterfly<T>, b: nat, x: seq<T>): (y: seq<T>)
    requires |x| == Pow2(b)
    ensures |y| == |x|
  {
    Nest(bf, b, b, Reorder(x, b))
  }

  // ------------------------------------------------- they agree

  lemma ReorderSplit<T>(x: seq<T>, b: nat)
    requires b > 0 && |x| == Pow2(b)
    ensures |Evens(x)| == |Odds(x)| == Pow2(b - 1)
    ensures Reorder(x, b) == Reorder(Evens(x), b - 1) + Reorder(Odds(x), b - 1)
  {
    var u, v := Reorder(Evens(x), b - 1), Reorder(Odds(x), b - 1);
    forall i: nat | i < |x|
      ensures Reorder(x, b)[i] == (u + v)[i]
    {
      ReorderSplitAt(x, b, i);
    }
  }

  lemma ReorderSplitAt<T>(x: seq<T>, b: nat, i: nat)
    requires b > 0 && |x| == Pow2(b) && i < |x|
    ensures Reorder(x, b)[i] == if i < Pow2(b - 1) then Reorder(Evens(x), b - 1)[i]
                                else Reorder(Odds(x), b - 1)[i - Pow2(b - 1)]
  {
    if i < Pow2(b - 1) {
      RevLow(b, i);
    } else {
      RevHigh(b, i, i - Pow2(b - 1));
    }
  }

  lemma RevLow(b: nat, i: nat)
    requires b > 0 && i < Pow2(b - 1)
    ensures i < Pow2(b) && Rev(b, i) == 2 * Rev(b - 1, i)
  {
    RevTop(b - 1, i);
  }

  lemma RevHigh(b: nat, i: nat, k: nat)
    requires b > 0 && Pow2(b - 1) <= i < Pow2(b) && k == i - Pow2(b - 1)
    ensures Rev(b, i) == 2 * Rev(b - 1, k) + 1
  {
    RevTop(b - 1, i);
  }

  lemma PassSplit<T>(bf: Butterfly<T>, p: nat, u: seq<T>, v: seq<T>)
    requires Multiple(|u|, 2 * Pow2(p)) && Multiple(|v|, 2 * Pow2(p)) && Multiple(|u + v|, 2 * Pow2(p))
    ensures Pass(bf, p, u + v) == Pass(bf, p, u) + Pass(bf, p, v)
  {
    var l, y := Pow2(p), Pass(bf, p, u) + Pass(bf, p, v);
    forall i | 0 <= i < |u + v|
      ensures Pass(bf, p, u + v)[i] == y[i]
    {
      PairInRange(|u + v|, l, i);
      if i < |u| {
        PairInRange(|u|, l, i);
      } else {
        PairInRange(|v|, l, i - |u|);
        ModShift(|u|, 2 * l, i - |u|);
      }
    }
  }

  lemma ModShift(base: nat, m: nat, r: nat)
    requires m > 0 && Multiple(base, m)
    ensures (base + r) % m == r % m
  {
    var q, k := base / m, r / m;
    assert base + (r - r % m) == m * (q + k);
    MulMod(q + k, m);
    ModOfBlock(base + (r - r % m), m, r % m);
  }

  lemma {:induction false} NestSplit<T>(bf: Butterfly<T>, b: nat, p: nat, u: seq<T>, v: seq<T>)
    requires |u| == |v| == Pow2(b) && p <= b
    ensures Nest(bf, b + 1, p, u + v) == Nest(bf, b, p, u) + Nest(bf, b, p, v)
  {
    if p == 0 {
    } else {
      NestSplit(bf, b, p - 1, u, v);
      Pow2Multiple(p, b);
      Pow2Multiple(p, b + 1);
      PassSplit(bf, p - 1, Nest(bf, b, p - 1, u), Nest(bf, b, p - 1, v));
    }
  }

  lemma LastPass<T>(bf: Butterfly<T>, p: nat, u: seq<T>, v: seq<T>)
    requires |u| == |v| == Pow2(p) && Multiple(|u + v|, 2 * Pow2(p))
    ensures Pass(bf, p, u + v) == Combine(bf, p, u, v)
  {
    forall i | 0 <= i < |u + v|
      ensures Pass(bf, p, u + v)[i] == Combine(bf, p, u, v)[i]
    {
      ModOfBlock(0, 2 * Pow2(p), i);
      PairInRange(|u + v|, Pow2(p), i);
    }
  }

  /** Reordering in bit-reversed order and sweeping once per power of two computes the
      recursion, whatever the butterfly does. */
  lemma {:induction false} LoopNestIsDit<T>(bf: Butterfly<T>, b: nat, x: seq<T>)
    requires |x| == Pow2(b)
    ensures LoopNest(bf, b, x) == Dit(bf, b, x)
  {
    if b == 0 {
      var z := Reorder(x, 0);
      assert z[0] == x[0];
      assert z == x;
    } else {
      LoopNestIsDit(bf, b - 1, Evens(x));
      LoopNestIsDit(bf, b - 1, Odds(x));
      LoopNestSplit(bf, b, x);
    }
  }

  lemma LoopNestSplit<T>(bf: Butterfly<T>, b: nat, x: seq<T>)
    requires b > 0 && |x| == Pow2(b)
    ensures |Evens(x)| == |Odds(x)| == Pow2(b - 1)
    ensures LoopNest(bf, b, x) == Combine(bf, b - 1, LoopNest(bf, b - 1, Evens(x)), LoopNest(bf, b - 1, Odds(x)))
  {
    ReorderSplit(x, b);
    LastOfSplit(bf, b - 1, Reorder(Evens(x), b - 1), Reorder(Odds(x), b - 1));
  }

  lemma LastOfSplit<T>(bf: Butterfly<T>, p: nat, u: seq<T>, v: seq<T>)
    requires |u| == |v| == Pow2(p)
    ensures Nest(bf, p + 1, p + 1, u + v) == Combine(bf, p, Nest(bf, p, p, u), Nest(bf, p, p, v))
  {
    NestSplit(bf, p, p, u, v);
    Pow2Multiple(p + 1, p + 1);
    LastPass(bf, p, Nest(bf, p, p, u), Nest(bf, p, p, v));
  }

  /** Passes only see the butterflies of their own number. */
  lemma {:induction false} NestExtensional<T>(bf: Butterfly<T>, bg: Butterfly<T>, b: nat, p: nat, z: seq<T>)
    requires |z| == Pow2(b) && p <= b
    requires forall q: nat, t: nat, e: T, o: T :: q < p ==> bf(q, t, e, o) == bg(q, t, e, o)
    ensures Nest(bf, b, p, z) == Nest(bg, b, p, z)
  {
    if p == 0 {
    } else {
      NestExtensional(bf, bg, b, p - 1, z);
      Pow2Multiple(p, b);
      var y := Nest(bf, b, p - 1, z);
      var u, v := Pass(bf, p - 1, y), Pass(bg, p - 1, y);
      forall i: nat | i < |z|
        ensures u[i] == v[i]
      {
        PairInRange(|z|, Pow2(p - 1), i);
        assert PassAt(bf, p - 1, y, i) == PassAt(bg, p - 1, y, i);
      }
    }
  }

  /** A relation that every butterfly of pass p carries from level p to level p + 1 holds
      between the results of the two recursions. */
  ghost predicate Carries<A(!new), B(!new)>(bf: Butterfly<A>, bg: Butterfly<B>, rel: (nat, A, B) -> bool, p: nat)
  {
    forall t: nat, q: A, z: A, q': B, z': B {:trigger bf(p, t, q, z), bg(p, t, q', z')} ::
      t < Pow2(p) && rel(p, q, q') && rel(p, z, z') ==>
        rel(p + 1, bf(p, t, q, z).0, bg(p, t, q', z').0) && rel(p + 1, bf(p, t, q, z).1, bg(p, t, q', z').1)
  }

  lemma {:induction false} DitSimulates<A(!new), B(!new)>(bf: Butterfly<A>, bg: Butterfly<B>,
                                                         rel: (nat, A, B) -> bool, b: nat, x: seq<A>, y: seq<B>)
    requires |x| == |y| == Pow2(b)
    requires forall i :: 0 <= i < |x| ==> rel(0, x[i], y[i])
    requires forall p: nat :: p < b ==> Carries(bf, bg, rel, p)
    ensures forall i :: 0 <= i < |x| ==> rel(b, Dit(bf, b, x)[i], Dit(bg, b, y)[i])
  {
    if b == 0 {
    } else {
      DitSimulates(bf, bg, rel, b - 1, Evens(x), Evens(y));
      DitSimulates(bf, bg, rel, b - 1, Odds(x), Odds(y));
      assert Carries(bf, bg, rel, b - 1);
    }
  }
}
