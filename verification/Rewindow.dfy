/** The rewindow operator: src/demos/wavescope/bug.cpp holds the box generated for windows of 32
    samples with gaps of 96; the box here keeps both widths as parameters, as its source
    src/demos/wavescope/demo7b_marmot_phase1.ws has them, overlapping windows included. */
module Rewindow {
  import opened Arithmetic
  import opened Sequences

  datatype SigSeg<T> = NullSeg | Seg(start: int, data: seq<T>)

  function Width<T>(s: SigSeg<T>): nat
  {
    if s.NullSeg? then 0 else |s.data|
  }

  function Data<T>(s: SigSeg<T>): seq<T>
  {
    if s.NullSeg? then [] else s.data
  }

  /** The two segments follow one another. */
  predicate Contiguous<T>(a: SigSeg<T>, b: SigSeg<T>)
  {
    a.NullSeg? || b.NullSeg? || b.start == a.start + |a.data|
  }

  function JoinSegs<T>(a: SigSeg<T>, b: SigSeg<T>): SigSeg<T>
    requires Contiguous(a, b)
  {
    if a.NullSeg? then b else if b.NullSeg? then a else Seg(a.start, a.data + b.data)
  }

  function SubSeg<T>(s: SigSeg<T>, start: int, len: nat): SigSeg<T>
    requires s.Seg? && s.start <= start && start + len <= s.start + |s.data|
  {
    Seg(start, s.data[start - s.start..start - s.start + len])
  }

  lemma SubSegOf<T>(s: SigSeg<T>, base: int, x: seq<T>, p: nat, d: nat, len: nat)
    requires p <= |x| && s == Seg(base + p, x[p..]) && p + d + len <= |x|
    ensures SubSeg(s, base + p + d, len) == Seg(base + p + d, x[p + d..p + d + len])
    ensures p + d + len == |x| ==> SubSeg(s, base + p + d, len) == Seg(base + p + d, x[p + d..])
  {
    assert x[p..][d..d + len] == x[p + d..p + d + len];
  }

  /** What joins a tail of x lengthens it. */
  lemma JoinTail<T>(base: int, x: seq<T>, p: nat, win: SigSeg<T>)
    requires p <= |x| && (win.Seg? ==> win.start == base + |x|)
    ensures JoinSegs(Seg(base + p, x[p..]), win) == Seg(base + p, (x + Data(win))[p..])
  {
    assert x[p..] + Data(win) == (x + Data(win))[p..];
  }

  // ------------------------------------------------------------ which windows there are

  /** How many windows of the given width, one every feed samples, lie before sample n - 1. */
  function Due(n: nat, width: nat, feed: int): nat
    requires feed > 0
  {
    if n <= width then 0 else (n - width - 1) / feed + 1
  }

  lemma DueMeans(n: nat, width: nat, feed: int, k: nat)
    requires feed > 0
    ensures k < Due(n, width, feed) <==> feed * k + width < n
  {
    if n > width {
      var q := (n - width - 1) / feed;
      assert n - width - 1 == feed * q + (n - width - 1) % feed;
      if k <= q {
        MulMono(k, q, feed);
      } else {
        MulMono(q + 1, k, feed);
        assert feed * (q + 1) == feed * q + feed;
      }
    } else {
      MulMono(0, k, feed);
    }
  }

  lemma DueIs(n: nat, width: nat, feed: int, k: nat)
    requires feed > 0
    requires k > 0 ==> feed * (k - 1) + width < n
    requires n <= feed * k + width
    ensures Due(n, width, feed) == k
  {
    DueMeans(n, width, feed, k);
    if k > 0 {
      DueMeans(n, width, feed, k - 1);
    }
  }

  /** Window k of the stream x whose first sample has number base. */
  function Window<T>(base: int, x: seq<T>, width: nat, feed: int, k: nat): SigSeg<T>
    requires feed > 0 && feed * k + width <= |x|
  {
    MulMono(0, k, feed);
    Seg(base + feed * k, x[feed * k..feed * k + width])
  }

  function Windows<T>(base: int, x: seq<T>, width: nat, feed: int, m: nat): seq<SigSeg<T>>
    requires feed > 0 && (m > 0 ==> feed * (m - 1) + width <= |x|)
  {
    if m == 0 then []
    else
      MulMono(if m > 1 then m - 2 else 0, m - 1, feed);
      Windows(base, x, width, feed, m - 1) + [Window(base, x, width, feed, m - 1)]
  }

  /** Later samples change no window. */
  lemma {:induction false} WindowsGrow<T>(base: int, x: seq<T>, y: seq<T>, width: nat, feed: int, m: nat)
    requires feed > 0 && (m > 0 ==> feed * (m - 1) + width <= |x|)
    ensures Windows(base, x + y, width, feed, m) == Windows(base, x, width, feed, m)
  {
    if m == 0 {
    } else {
      MulMono(if m > 1 then m - 2 else 0, m - 1, feed);
      MulMono(0, m - 1, feed);
      WindowsGrow(base, x, y, width, feed, m - 1);
      assert (x + y)[feed * (m - 1)..feed * (m - 1) + width] == x[feed * (m - 1)..feed * (m - 1) + width];
    }
  }

  lemma {:induction false} WindowsAre<T>(base: int, x: seq<T>, width: nat, feed: int, m: nat)
    requires feed > 0 && (m > 0 ==> feed * (m - 1) + width <= |x|)
    ensures |Windows(base, x, width, feed, m)| == m
    ensures forall k: nat :: k < m ==>
      feed * k + width <= |x| && Windows(base, x, width, feed, m)[k] == Window(base, x, width, feed, k)
  {
    if m == 0 {
    } else {
      MulMono(if m > 1 then m - 2 else 0, m - 1, feed);
      WindowsAre(base, x, width, feed, m - 1);
    }
  }

  // ------------------------------------------------------------ the box

  class Rewindow<T> {
    const newwidth: nat
    const gap: int
    const feed: int
    var acc: SigSeg<T>
    var needFeed: bool

    /** The number of the first sample, every sample so far, how many windows went out, and where
        the next one begins. */
    ghost const base: int
    ghost var seen: seq<T>
    ghost var count: nat
    ghost var next: int

    /** Where acc begins: at the next window, or at the gap before it. */
    ghost function Position(): int
      reads this
    {
      if needFeed then next - gap else next
    }

    ghost predicate Aligned()
      reads this
    {
      && feed == newwidth + gap > 0 && next == feed * count
      && (count > 0 ==> next - feed + newwidth < |seen|)
    }

    ghost predicate Holds()
      reads this
    {
      && Aligned() && (needFeed ==> gap > 0 && count > 0)
      && 0 <= Position() <= |seen|
      && (if acc.NullSeg? then count == 0 && seen == [] else acc == Seg(base + Position(), seen[Position()..]))
    }

    /** Between segments: every window that is due has gone out, and no other. */
    ghost predicate Valid()
      reads this
    {
      Holds() && count == Due(|seen|, newwidth, feed)
    }

    lemma SentFits()
      requires Aligned()
      ensures count > 0 ==> feed * (count - 1) == next - feed && feed * (count - 1) + newwidth <= |seen|
    {
    }

    ghost function Sent(): seq<SigSeg<T>>
      requires Aligned()
      reads this
    {
      SentFits();
      Windows(base, seen, newwidth, feed, count)
    }

    constructor (newwidth: nat, gap: int, ghost base: int)
      requires gap > 0 - newwidth as int
      ensures Valid() && seen == [] && Sent() == []
      ensures this.newwidth == newwidth && this.feed == newwidth + gap && this.base == base
    {
      this.newwidth, this.gap, this.feed, this.base := newwidth, gap, newwidth + gap, base;
      acc, needFeed := NullSeg, false;
      seen, count, next := [], 0, 0;
    }

    lemma SentAre()
      requires Aligned()
      ensures |Sent()| == count
      ensures forall k: nat :: k < count ==>
        feed * k + newwidth <= |seen| && Sent()[k] == Window(base, seen, newwidth, feed, k)
    {
      SentFits();
      WindowsAre(base, seen, newwidth, feed, count);
    }

    /** The true state of the flag: leave out a gap. */
    method Skip()
      requires Holds() && needFeed && Width(acc) > gap
      modifies this`acc, this`needFeed
      ensures Holds() && !needFeed && Width(acc) < old(Width(acc))
    {
      SubSegOf(acc, base, seen, Position(), gap, Width(acc) - gap);
      acc := SubSeg(acc, acc.start + gap, Width(acc) - gap);
      needFeed := false;
    }

    /** The other one: send a window. */
    method Send() returns (w: SigSeg<T>)
      requires Holds() && !needFeed && Width(acc) > newwidth
      modifies this`acc, this`needFeed, this`count, this`next
      ensures Holds() && Sent() == old(Sent()) + [w]
      ensures Width(acc) < old(Width(acc)) || (Width(acc) == old(Width(acc)) && needFeed)
    {
      SubSegOf(acc, base, seen, next, 0, newwidth);
      w := SubSeg(acc, acc.start, newwidth);
      assert w == Window(base, seen, newwidth, feed, count);
      Advance();
    }

    method Advance()
      requires Holds() && !needFeed && Width(acc) > newwidth
      modifies this`acc, this`needFeed, this`count, this`next
      ensures Holds() && count == old(count) + 1
      ensures Width(acc) < old(Width(acc)) || (Width(acc) == old(Width(acc)) && needFeed)
    {
      MulNext(feed, count);
      if gap > 0 {
        SubSegOf(acc, base, seen, next, newwidth, Width(acc) - newwidth);
        acc := SubSeg(acc, acc.start + newwidth, Width(acc) - newwidth);
        needFeed := true;
      } else {
        SubSegOf(acc, base, seen, next, feed, Width(acc) - feed);
        acc := SubSeg(acc, acc.start + feed, Width(acc) - feed);
      }
      count, next := count + 1, next + feed;
    }

    lemma MulNext(feed: int, k: nat)
      ensures feed * (k + 1) == feed * k + feed
    {
    }

    /** One input segment.  Altogether the box has sent exactly the windows due in everything it
        has received, in order, however the input was cut. */
    method Iterate(win: SigSeg<T>) returns (out: seq<SigSeg<T>>)
      requires Valid() && (win.Seg? ==> win.start == base + |seen|)
      modifies this
      ensures Valid() && seen == old(seen) + Data(win)
      ensures Sent() == old(Sent()) + out
    {
      Join(win);
      out := [];
      var go := true;
      while go
        invariant Holds() && seen == old(seen) + Data(win)
        invariant Sent() == old(Sent()) + out
        invariant !go ==> |seen| <= next + newwidth
        decreases Width(acc), !needFeed, go
      {
        if needFeed {
          if Width(acc) > gap {
            Skip();
          } else {
            go := false;
          }
        } else {
          if Width(acc) > newwidth {
            ghost var sent := out;
            var w := Send();
            out := out + [w];
            Regroup(old(Sent()), sent, [w]);
          } else {
            go := false;
          }
        }
      }
      SentFits();
      DueIs(|seen|, newwidth, feed, count);
    }

    method Join(win: SigSeg<T>)
      requires Holds() && (win.Seg? ==> win.start == base + |seen|)
      modifies this`acc, this`seen
      ensures Holds() && seen == old(seen) + Data(win) && Sent() == old(Sent())
    {
      SentFits();
      WindowsGrow(base, seen, Data(win), newwidth, feed, count);
      JoinTail(base, seen, Position(), win);
      acc := JoinSegs(acc, win);
      seen := seen + Data(win);
    }
  }

  lemma WindowOf<T>(base: int, x: seq<T>, width: nat, feed: int, k: nat)
    requires feed > 0 && feed * k + width <= |x|
    ensures 0 <= feed * k && Window(base, x, width, feed, k) == Seg(base + feed * k, x[feed * k..feed * k + width])
  {
    MulMono(0, k, feed);
  }

  /** Any chunking: the samples of all the chunks, cut anywhere, give window k exactly when more
      than feed * k + newwidth of them have come, with its own samples and start number. */
  method RunRewindow<T>(newwidth: nat, gap: int, feed: int, base: int, chunks: seq<seq<T>>)
    returns (out: seq<SigSeg<T>>)
    requires feed == newwidth + gap > 0
    ensures forall k: nat :: k < |out| ==>
      && 0 <= feed * k && feed * k + newwidth < |Flatten(chunks)|
      && out[k] == Seg(base + feed * k, Flatten(chunks)[feed * k..feed * k + newwidth])
    ensures |Flatten(chunks)| <= feed * |out| + newwidth
  {
    var box := new Rewindow(newwidth, gap, base);
    out := [];
    var start := base;
    for i := 0 to |chunks|
      invariant fresh(box) && box.Valid() && box.newwidth == newwidth && box.feed == feed && box.base == base
      invariant box.seen == Flatten(chunks[..i]) && start == base + |box.seen|
      invariant out == box.Sent()
    {
      assert chunks[..i + 1][..i] == chunks[..i];
      var more := box.Iterate(Seg(start, chunks[i]));
      out := out + more;
      start := start + |chunks[i]|;
    }
    assert chunks[..|chunks|] == chunks;
    box.SentAre();
    DueMeans(|Flatten(chunks)|, newwidth, feed, |out|);
    forall k: nat | k < |out|
      ensures 0 <= feed * k && feed * k + newwidth < |Flatten(chunks)|
      ensures out[k] == Seg(base + feed * k, Flatten(chunks)[feed * k..feed * k + newwidth])
    {
      DueMeans(|Flatten(chunks)|, newwidth, feed, k);
      WindowOf(base, Flatten(chunks), newwidth, feed, k);
    }
  }
}
