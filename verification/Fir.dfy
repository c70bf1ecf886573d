/** apps/eeg/SeizureDetection.cpp: the FIR filter with its carried memory, the even/odd split, the
    delay-and-add, and the network built of them.  Samples are reals. */
module Fir {
  import opened Sequences

  /** A stream, silent outside what has been received. */
  function At(x: seq<real>, n: int): real
  {
    if 0 <= n < |x| then x[n] else 0.0
  }

  /** The first j terms of the convolution sum at n. */
  function Conv(h: seq<real>, x: seq<real>, n: int, j: nat): real
    requires j <= |h|
  {
    if j == 0 then 0.0 else Conv(h, x, n, j - 1) + h[j - 1] * At(x, n - (j - 1))
  }

  function Filtered(h: seq<real>, x: seq<real>): seq<real>
  {
    seq(|x|, n requires 0 <= n < |x| => Conv(h, x, n, |h|))
  }

  /** Later samples do not matter. */
  lemma {:induction false} ConvCausal(h: seq<real>, x: seq<real>, y: seq<real>, n: int, j: nat)
    requires j <= |h| && n < |x|
    ensures Conv(h, x + y, n, j) == Conv(h, x, n, j)
  {
    if j == 0 {
    } else {
      ConvCausal(h, x, y, n, j - 1);
      assert At(x + y, n - (j - 1)) == At(x, n - (j - 1));
    }
  }

  lemma SameUpTo(s: seq<real>, t: seq<real>)
    requires |s| == |t| + 1 && forall i :: 0 <= i < |t| ==> s[i] == t[i]
    ensures s == t + [s[|t|]]
  {
  }

  lemma FilteredCausal(h: seq<real>, x: seq<real>, y: seq<real>)
    ensures |Filtered(h, x + y)| == |x| + |y| && forall n :: 0 <= n < |x| ==> Filtered(h, x + y)[n] == Filtered(h, x)[n]
  {
    forall n | 0 <= n < |x|
      ensures Filtered(h, x + y)[n] == Filtered(h, x)[n]
    {
      ConvCausal(h, x, y, n, |h|);
    }
  }

  lemma FilteredGrows(h: seq<real>, x: seq<real>, v: real)
    ensures Filtered(h, x + [v]) == Filtered(h, x) + [Conv(h, x + [v], |x|, |h|)]
  {
    FilteredCausal(h, x, [v]);
    SameUpTo(Filtered(h, x + [v]), Filtered(h, x));
  }

  // ------------------------------------------------------------ what fixes the convolution

  /** A single one at k. */
  ghost predicate Impulse(x: seq<real>, k: nat)
  {
    k < |x| && x[k] == 1.0 && forall i :: 0 <= i < |x| && i != k ==> x[i] == 0.0
  }

  /** The answer to a single one is the coefficients, from there on. */
  lemma {:induction false} ConvImpulse(h: seq<real>, x: seq<real>, k: nat, n: int, j: nat)
    requires j <= |h| && Impulse(x, k)
    ensures Conv(h, x, n, j) == if 0 <= n - k < j then h[n - k] else 0.0
  {
    if j == 0 {
    } else {
      ConvImpulse(h, x, k, n, j - 1);
      assert At(x, n - (j - 1)) == if n - (j - 1) == k then 1.0 else 0.0;
    }
  }

  /** The answer to a sum is the sum of the answers, each multiplied as its part is. */
  lemma {:induction false} ConvLinear(h: seq<real>, x: seq<real>, y: seq<real>, z: seq<real>, a: real, b: real, n: int,
                                      j: nat)
    requires j <= |h| && |x| == |y| == |z| && forall i :: 0 <= i < |z| ==> z[i] == a * x[i] + b * y[i]
    ensures Conv(h, z, n, j) == a * Conv(h, x, n, j) + b * Conv(h, y, n, j)
  {
    if j == 0 {
    } else {
      ConvLinear(h, x, y, z, a, b, n, j - 1);
      var i := n - (j - 1);
      assert At(z, i) == a * At(x, i) + b * At(y, i);
      OneLinear(h[j - 1], At(x, i), At(y, i), a, b);
    }
  }

  lemma OneLinear(h: real, x: real, y: real, a: real, b: real)
    ensures h * (a * x + b * y) == a * (h * x) + b * (h * y)
  {
  }

  lemma FilteredImpulse(h: seq<real>, x: seq<real>, k: nat, n: nat)
    requires Impulse(x, k) && n < |x|
    ensures |Filtered(h, x)| == |x| && Filtered(h, x)[n] == if k <= n < k + |h| then h[n - k] else 0.0
  {
    ConvImpulse(h, x, k, n, |h|);
  }

  lemma FilteredLinear(h: seq<real>, x: seq<real>, y: seq<real>, z: seq<real>, a: real, b: real, n: nat)
    requires |x| == |y| == |z| && n < |z| && forall i :: 0 <= i < |z| ==> z[i] == a * x[i] + b * y[i]
    ensures Filtered(h, z)[n] == a * Filtered(h, x)[n] + b * Filtered(h, y)[n]
  {
    ConvLinear(h, x, y, z, a, b, n, |h|);
  }

  class FIRFilter {
    const flipped: array<real>
    var memory: seq<real>

    /** The coefficients as given, and everything filtered so far. */
    ghost const coeff: seq<real>
    ghost var seen: seq<real>

    ghost predicate Valid()
      reads this, flipped
    {
      && flipped.Length == |coeff| > 0 && |memory| == |coeff| - 1
      && (forall i :: 0 <= i < |coeff| ==> flipped[i] == coeff[|coeff| - 1 - i])
      && Remembers(memory, |seen| - (|coeff| - 1))
    }

    /** s is what the stream had from position p on. */
    ghost predicate Remembers(s: seq<real>, p: int)
      reads this
    {
      forall i :: 0 <= i < |s| ==> s[i] == At(seen, p + i)
    }

    constructor (coeff: seq<real>)
      requires |coeff| > 0
      ensures Valid() && this.coeff == coeff && seen == [] && fresh(flipped)
    {
      var n := |coeff|;
      var f := new real[n];
      for i := 0 to n
        invariant forall k :: n - i <= k < n ==> f[k] == coeff[n - 1 - k]
      {
        f[n - 1 - i] := coeff[i];
      }
      var m: seq<real> := [];
      for i := 0 to n - 1
        invariant m == seq(i, _ => 0.0)
      {
        m := m + [0.0];
      }
      flipped, memory, this.coeff, seen := f, m, coeff, [];
    }

    /** One output sample: the memory holds the last nCoeff inputs. */
    method Sample() returns (y: real)
      requires flipped.Length == |coeff| == |memory|
      requires forall i :: 0 <= i < |coeff| ==> flipped[i] == coeff[|coeff| - 1 - i]
      requires Remembers(memory, |seen| - |coeff|)
      ensures y == Conv(coeff, seen, |seen| - 1, |coeff|)
    {
      y := 0.0;
      var n := flipped.Length;
      for i := 0 to n
        invariant y + Conv(coeff, seen, |seen| - 1, n - i) == Conv(coeff, seen, |seen| - 1, n)
      {
        assert memory[i] == At(seen, |seen| - 1 - (n - i - 1));
        y := y + flipped[i] * memory[i];
      }
    }

    /** The body of the loop: one sample in, one out. */
    method Step(v: real) returns (y: real)
      requires Valid()
      modifies this
      ensures Valid() && seen == old(seen) + [v]
      ensures Filtered(coeff, seen) == old(Filtered(coeff, seen)) + [y]
    {
      ghost var was := seen;
      FilteredGrows(coeff, seen, v);
      memory, seen := memory + [v], seen + [v];
      assert forall k :: k < |was| ==> At(seen, k) == At(was, k);
      y := Sample();
      memory := memory[1..];
    }

    /** One segment in, one of the same length out; together the outputs are the convolution of
        everything received, wherever the segments were cut. */
    method Iterate(buf: seq<real>) returns (out: seq<real>)
      requires Valid()
      modifies this
      ensures Valid() && seen == old(seen) + buf && |out| == |buf|
      ensures Filtered(coeff, seen) == old(Filtered(coeff, seen)) + out
    {
      out := [];
      for j := 0 to |buf|
        invariant Valid() && seen == old(seen) + buf[..j] && |out| == j
        invariant Filtered(coeff, seen) == old(Filtered(coeff, seen)) + out
      {
        ghost var was := out;
        var y := Step(buf[j]);
        assert buf[..j + 1] == buf[..j] + [buf[j]];
        Regroup(old(seen), buf[..j], [buf[j]]);
        Regroup(old(Filtered(coeff, seen)), was, [y]);
        out := out + [y];
      }
      assert buf[..|buf|] == buf;
    }
  }

  // ------------------------------------------------------------ even and odd

  /** Cutting at even positions does not change what the halves see. */
  lemma HalvesJoin(x: seq<real>, y: seq<real>)
    requires |x| % 2 == 0
    ensures Evens(x + y) == Evens(x) + Evens(y) && Odds(x + y) == Odds(x) + Odds(y)
  {
    forall i | 0 <= i < |x + y| / 2
      ensures Evens(x + y)[i] == (Evens(x) + Evens(y))[i] && Odds(x + y)[i] == (Odds(x) + Odds(y))[i]
    {
    }
  }

  /** A segment of odd length loses its last sample. */
  lemma WholePairs(x: seq<real>)
    ensures Evens(x) == Evens(x[..|x| / 2 * 2]) && Odds(x) == Odds(x[..|x| / 2 * 2])
  {
    var w := x[..|x| / 2 * 2];
    forall i | 0 <= i < |x| / 2
      ensures Evens(x)[i] == Evens(w)[i] && Odds(x)[i] == Odds(w)[i]
    {
    }
  }

  method GetEven(samples: seq<real>) returns (even: seq<real>)
    ensures even == Evens(samples)
  {
    var length := |samples| / 2;
    even := [];
    for i := 0 to length
      invariant even == Evens(samples)[..i]
    {
      even := even + [samples[2 * i]];
    }
  }

  method GetOdd(samples: seq<real>) returns (odd: seq<real>)
    ensures odd == Odds(samples)
  {
    var length := |samples| / 2;
    odd := [];
    for i := 0 to length
      invariant odd == Odds(samples)[..i]
    {
      odd := odd + [samples[2 * i + 1]];
    }
  }

  // ------------------------------------------------------------ delay and add

  /** Each sample of e plus the previous one of o. */
  function Delayed(e: seq<real>, o: seq<real>): seq<real>
  {
    seq(|e|, n requires 0 <= n < |e| => e[n] + At(o, n - 1))
  }

  class MergeZip {
    var stored: real

    ghost var firsts: seq<real>
    ghost var seconds: seq<real>

    ghost predicate Valid()
      reads this
    {
      |firsts| == |seconds| && stored == At(seconds, |seconds| - 1)
    }

    constructor ()
      ensures Valid() && firsts == seconds == []
    {
      stored, firsts, seconds := 0.0, [], [];
    }

    method Iterate(first: seq<real>, second: seq<real>) returns (buf: seq<real>)
      requires Valid() && |first| == |second|
      modifies this
      ensures Valid() && firsts == old(firsts) + first && seconds == old(seconds) + second && |buf| == |first|
      ensures Delayed(firsts, seconds) == old(Delayed(firsts, seconds)) + buf
    {
      buf := [];
      for i := 0 to |first|
        invariant Valid() && |buf| == i
        invariant firsts == old(firsts) + first[..i] && seconds == old(seconds) + second[..i]
        invariant Delayed(firsts, seconds) == old(Delayed(firsts, seconds)) + buf
      {
        ghost var e, o, was := firsts, seconds, buf;
        buf := buf + [first[i] + stored];
        stored := second[i];
        firsts, seconds := firsts + [first[i]], seconds + [second[i]];
        assert first[..i + 1] == first[..i] + [first[i]] && second[..i + 1] == second[..i] + [second[i]];
        assert Delayed(firsts, seconds) == Delayed(e, o) + [first[i] + At(o, |o| - 1)];
        assert old(Delayed(firsts, seconds)) + was + [first[i] + At(o, |o| - 1)] == old(Delayed(firsts, seconds)) + buf;
      }
      assert first[..|first|] == first && second[..|second|] == second;
    }
  }

  // ------------------------------------------------------------ the network

  /** The coefficients of the whole: even ones from one array, odd ones from the other. */
  function Interleave(he: seq<real>, ho: seq<real>): seq<real>
    requires |he| == |ho|
  {
    seq(2 * |he|, j requires 0 <= j < 2 * |he| => if j % 2 == 0 then he[j / 2] else ho[j / 2])
  }

  /** Every other sample of the convolution. */
  function Decimated(h: seq<real>, x: seq<real>): seq<real>
  {
    seq(|x| / 2, n requires 0 <= n < |x| / 2 => Conv(h, x, 2 * n, |h|))
  }

  /** Output n of the network is what 2n is to the filter of all coefficients. */
  lemma DecimatedImpulse(h: seq<real>, x: seq<real>, k: nat, n: nat)
    requires Impulse(x, k) && 2 * n + 1 < |x|
    ensures |Decimated(h, x)| == |x| / 2
    ensures Decimated(h, x)[n] == if k <= 2 * n < k + |h| then h[2 * n - k] else 0.0
  {
    ConvImpulse(h, x, k, 2 * n, |h|);
  }

  lemma DecimatedLinear(h: seq<real>, x: seq<real>, y: seq<real>, z: seq<real>, a: real, b: real, n: nat)
    requires |x| == |y| == |z| && 2 * n + 1 < |z| && forall i :: 0 <= i < |z| ==> z[i] == a * x[i] + b * y[i]
    ensures Decimated(h, z)[n] == a * Decimated(h, x)[n] + b * Decimated(h, y)[n]
  {
    ConvLinear(h, x, y, z, a, b, 2 * n, |h|);
  }

  /** Filtering the halves apart and adding with a delay is filtering the whole with the
      interleaved coefficients. */
  lemma {:induction false} Polyphase(he: seq<real>, ho: seq<real>, x: seq<real>, n: int, k: nat)
    requires |he| == |ho| && k <= |he| && |x| % 2 == 0
    ensures Conv(Interleave(he, ho), x, 2 * n, 2 * k) == Conv(he, Evens(x), n, k) + Conv(ho, Odds(x), n - 1, k)
  {
    if k == 0 {
    } else {
      Polyphase(he, ho, x, n, k - 1);
      EvenGrowth(he, ho, x, n, k - 1);
      OddGrowth(he, ho, x, n, k - 1);
    }
  }

  /** What term j adds. */
  function Growth(h: seq<real>, x: seq<real>, n: int, j: nat): real
    requires j < |h|
  {
    Conv(h, x, n, j + 1) - Conv(h, x, n, j)
  }

  /** Term 2c of the whole is term c of the even half, and term 2c + 1 is term c of the odd. */
  lemma EvenGrowth(he: seq<real>, ho: seq<real>, x: seq<real>, n: int, c: nat)
    requires |he| == |ho| && c < |he| && |x| % 2 == 0
    ensures Growth(Interleave(he, ho), x, 2 * n, 2 * c) == Growth(he, Evens(x), n, c)
  {
    EvenAt(x, n - c);
    SameGrowth(Interleave(he, ho), x, 2 * n, 2 * c, he, Evens(x), n, c);
  }

  lemma OddGrowth(he: seq<real>, ho: seq<real>, x: seq<real>, n: int, c: nat)
    requires |he| == |ho| && c < |he| && |x| % 2 == 0
    ensures Growth(Interleave(he, ho), x, 2 * n, 2 * c + 1) == Growth(ho, Odds(x), n - 1, c)
  {
    OddAt(x, n - 1 - c);
    SameGrowth(Interleave(he, ho), x, 2 * n, 2 * c + 1, ho, Odds(x), n - 1, c);
  }

  lemma SameGrowth(h: seq<real>, x: seq<real>, n: int, j: nat, g: seq<real>, y: seq<real>, m: int, i: nat)
    requires j < |h| && i < |g| && h[j] == g[i] && At(x, n - j) == At(y, m - i)
    ensures Growth(h, x, n, j) == Growth(g, y, m, i)
  {
  }

  lemma EvenAt(x: seq<real>, i: int)
    requires |x| % 2 == 0
    ensures At(x, 2 * i) == At(Evens(x), i)
  {
  }

  lemma OddAt(x: seq<real>, i: int)
    requires |x| % 2 == 0
    ensures At(x, 2 * i + 1) == At(Odds(x), i)
  {
  }

  lemma NetworkIsDecimated(he: seq<real>, ho: seq<real>, x: seq<real>)
    requires |he| == |ho| && |x| % 2 == 0
    ensures Delayed(Filtered(he, Evens(x)), Filtered(ho, Odds(x))) == Decimated(Interleave(he, ho), x)
  {
    var e, o := Filtered(he, Evens(x)), Filtered(ho, Odds(x));
    forall n | 0 <= n < |x| / 2
      ensures Delayed(e, o)[n] == Decimated(Interleave(he, ho), x)[n]
    {
      Polyphase(he, ho, x, n, |he|);
      if n == 0 {
        ConvSilent(ho, Odds(x), -1, |ho|);
      }
    }
  }

  lemma {:induction false} ConvSilent(h: seq<real>, x: seq<real>, n: int, j: nat)
    requires j <= |h| && n < 0
    ensures Conv(h, x, n, j) == 0.0
  {
    if j == 0 {
    } else {
      ConvSilent(h, x, n, j - 1);
    }
  }

  class Network {
    const even: FIRFilter
    const odd: FIRFilter
    const merge: MergeZip

    /** The samples that reached the filters. */
    ghost var seen: seq<real>

    ghost predicate Valid()
      reads this, even, odd, merge, even.flipped, odd.flipped
    {
      && even != odd && even.Valid() && odd.Valid() && merge.Valid()
      && |even.coeff| == |odd.coeff| && |seen| % 2 == 0
      && even.seen == Evens(seen) && odd.seen == Odds(seen)
      && merge.firsts == Filtered(even.coeff, even.seen) && merge.seconds == Filtered(odd.coeff, odd.seen)
    }

    ghost function Coefficients(): seq<real>
      requires |even.coeff| == |odd.coeff|
    {
      Interleave(even.coeff, odd.coeff)
    }

    constructor (he: seq<real>, ho: seq<real>)
      requires |he| == |ho| > 0
      ensures Valid() && seen == [] && even.coeff == he && odd.coeff == ho
      ensures fresh(even) && fresh(odd) && fresh(merge)
    {
      even := new FIRFilter(he);
      odd := new FIRFilter(ho);
      merge := new MergeZip();
      seen := [];
    }

    /** One segment through the network.  The outputs together are every other sample of the
        convolution with the interleaved coefficients; a segment of odd length counts without
        its last sample. */
    method Iterate(samples: seq<real>) returns (out: seq<real>)
      requires Valid()
      modifies this, even, odd, merge
      ensures Valid() && |out| == |samples| / 2
      ensures seen == old(seen) + samples[..|samples| / 2 * 2]
      ensures Decimated(Coefficients(), seen) == old(Decimated(Coefficients(), seen)) + out
    {
      NetworkIsDecimated(even.coeff, odd.coeff, seen);
      out := Pass(samples);
      NetworkIsDecimated(even.coeff, odd.coeff, seen);
    }

    /** The same, said of the halves. */
    method Pass(samples: seq<real>) returns (out: seq<real>)
      requires Valid()
      modifies this, even, odd, merge
      ensures Valid() && |out| == |samples| / 2
      ensures seen == old(seen) + samples[..|samples| / 2 * 2]
      ensures Delayed(merge.firsts, merge.seconds) == old(Delayed(merge.firsts, merge.seconds)) + out
    {
      WholePairs(samples);
      HalvesJoin(seen, samples[..|samples| / 2 * 2]);
      var e := GetEven(samples);
      var o := GetOdd(samples);
      var fe := even.Iterate(e);
      var fo := odd.Iterate(o);
      out := merge.Iterate(fe, fo);
      seen := seen + samples[..|samples| / 2 * 2];
    }
  }

  /** The output depends on the stream only, not on how it was cut into even-length segments. */
  method RunNetwork(he: seq<real>, ho: seq<real>, segments: seq<seq<real>>) returns (out: seq<real>)
    requires |he| == |ho| > 0
    requires forall s <- segments :: |s| % 2 == 0
    ensures out == Decimated(Interleave(he, ho), Flatten(segments))
  {
    var net := new Network(he, ho);
    out := [];
    for k := 0 to |segments|
      invariant fresh(net) && fresh(net.even) && fresh(net.odd) && fresh(net.merge)
      invariant net.Valid() && net.even.coeff == he && net.odd.coeff == ho
      invariant net.seen == Flatten(segments[..k]) && out == Decimated(Interleave(he, ho), net.seen)
    {
      assert segments[..k + 1][..k] == segments[..k];
      assert segments[k][..|segments[k]| / 2 * 2] == segments[k];
      var y := net.Iterate(segments[k]);
      out := out + y;
    }
    assert segments[..|segments|] == segments;
  }

  // ------------------------------------------------------------ the two networks used

  const HIGH_EVEN: seq<real> := [-0.2304, -0.6309, 0.1870, -0.0329]
  const HIGH_ODD: seq<real> := [0.7148, -0.0280, 0.0308, -0.0106]
  const LOW_EVEN: seq<real> := [-0.0106, 0.0308, -0.0280, 0.7148]
  const LOW_ODD: seq<real> := [0.0329, -0.1870, 0.6309, 0.2304]

  method HighFreqFilter(segments: seq<seq<real>>) returns (out: seq<real>)
    requires forall s <- segments :: |s| % 2 == 0
    ensures out == Decimated(Interleave(HIGH_EVEN, HIGH_ODD), Flatten(segments))
  {
    out := RunNetwork(HIGH_EVEN, HIGH_ODD, segments);
  }

  method LowFreqFilter(segments: seq<seq<real>>) returns (out: seq<real>)
    requires forall s <- segments :: |s| % 2 == 0
    ensures out == Decimated(Interleave(LOW_EVEN, LOW_ODD), Flatten(segments))
  {
    out := RunNetwork(LOW_EVEN, LOW_ODD, segments);
  }

  /** The eight coefficients of each network, in the order in which they meet the samples. */
  lemma Coefficients()
    ensures Interleave(HIGH_EVEN, HIGH_ODD) == [-0.2304, 0.7148, -0.6309, -0.0280, 0.1870, 0.0308, -0.0329, -0.0106]
    ensures Interleave(LOW_EVEN, LOW_ODD) == [-0.0106, 0.0329, 0.0308, -0.1870, -0.0280, 0.6309, 0.7148, 0.2304]
  {
  }
}
