/** The incremental join emits exactly the matches of the whole history that end in the
    current batch and do not start too early; pruning and clearing lose and repeat nothing. */
module JoinProofs {
  import opened JoinSpec
  import opened Sequences

  // ------------------------------------------------------------ ordered, duplicate-free buffers

  ghost predicate ByEnd(buf: seq<Rec>)
  {
    forall i, j :: 0 <= i < j < |buf| ==> End(buf[i]) <= End(buf[j])
  }

  ghost predicate ByTime(es: seq<Event>)
  {
    forall i, j :: 0 <= i < j < |es| ==> es[i].time <= es[j].time
  }

  ghost predicate Tidy(buf: seq<Rec>)
  {
    Distinct(buf) && ByEnd(buf)
  }

  lemma TidyConcat(a: seq<Rec>, b: seq<Rec>)
    requires Tidy(a) && Tidy(b)
    requires forall x, y :: x in a && y in b ==> x != y && End(x) <= End(y)
    ensures Tidy(a + b)
  {
  }

  /** Only records that start before sqno may be missing from L'. */
  ghost predicate Keeps(L: seq<Rec>, L': seq<Rec>, sqno: nat)
  {
    && (forall x :: x in L' ==> x in L)
    && (forall x :: x in L && Start(x) >= sqno ==> x in L')
  }

  lemma {:induction false} PruneKeeps(buf: seq<Rec>, sqno: nat)
    ensures Keeps(buf, Prune(buf, sqno), sqno)
    ensures Tidy(buf) ==> Tidy(Prune(buf, sqno))
  {
    if buf != [] && Start(buf[0]) < sqno {
      PruneKeeps(buf[1..], sqno);
      forall x | x in buf && Start(x) >= sqno
        ensures x in Prune(buf, sqno)
      {
        assert x in buf[1..];
      }
    }
  }

  lemma PruneNothing(buf: seq<Rec>, sqno: nat)
    requires forall x :: x in buf ==> Start(x) >= sqno
    ensures Prune(buf, sqno) == buf
  {
    if buf != [] {
      assert buf[0] in buf;
    }
  }

  // ------------------------------------------------------------ the inner loop

  /** u pairs a record of L with r. */
  ghost predicate Pairs(L: seq<Rec>, r: Rec, sqno: nat, plist: seq<PPred>, n: nat, u: Rec)
    requires Ranged(plist, n, |r|)
  {
    && |u| == n + |r| && n > 0
    && u[n..] == r
    && u[..n] in L && End(u[..n]) < Start(r) && Start(u[..n]) >= sqno
    && Filter(plist, u[..n], r)
  }

  lemma {:induction false} InnerKeeps(L: seq<Rec>, r: Rec, sqno: nat, plist: seq<PPred>, n: nat)
    requires n > 0 && Uniform(L, n) && Ranged(plist, n, |r|) && Tidy(L)
    ensures Keeps(L, Inner(L, r, sqno, plist, n).0, sqno)
    ensures Tidy(Inner(L, r, sqno, plist, n).0)
  {
    if L != [] && End(L[0]) < Start(r) {
      InnerKeeps(L[1..], r, sqno, plist, n);
      var rest := Inner(L[1..], r, sqno, plist, n).0;
      assert forall x :: x in L <==> x == L[0] || x in L[1..];
      assert forall x :: x in rest ==> x in L[1..];
      TidyConcat([L[0]], rest) by {
        forall y | y in rest
          ensures L[0] != y && End(L[0]) <= End(y)
        {
          var j :| 0 <= j < |L[1..]| && L[1..][j] == y;
          assert L[j + 1] == y;
        }
      }
    }
  }

  lemma PairsTail(L: seq<Rec>, r: Rec, sqno: nat, plist: seq<PPred>, n: nat, u: Rec)
    requires L != [] && Ranged(plist, n, |r|)
    ensures Pairs(L, r, sqno, plist, n, u) <==>
      Pairs(L[1..], r, sqno, plist, n, u) || Pairs([L[0]], r, sqno, plist, n, u)
  {
    assert forall x :: x in L <==> x == L[0] || x in L[1..];
  }

  lemma {:induction false} InnerEmits(L: seq<Rec>, r: Rec, sqno: nat, plist: seq<PPred>, n: nat, u: Rec)
    requires n > 0 && Uniform(L, n) && Ranged(plist, n, |r|) && ByEnd(L)
    ensures u in Inner(L, r, sqno, plist, n).1 <==> Pairs(L, r, sqno, plist, n, u)
  {
    if L == [] {
    } else if End(L[0]) >= Start(r) {
      assert forall x :: x in L ==> End(x) >= Start(r);
    } else {
      PairsTail(L, r, sqno, plist, n, u);
      InnerEmits(L[1..], r, sqno, plist, n, u);
      var out := Inner(L[1..], r, sqno, plist, n).1;
      if Start(L[0]) >= sqno {
        var l: Rec := L[0];
        assert (l + r)[..n] == l && (l + r)[n..] == r;
        assert Pairs([l], r, sqno, plist, n, u) <==> u == l + r && Filter(plist, l, r) by {
          if |u| == n + |r| { assert u == u[..n] + u[n..]; }
        }
      }
    }
  }

  lemma {:induction false} InnerTidy(L: seq<Rec>, r: Rec, sqno: nat, plist: seq<PPred>, n: nat)
    requires n > 0 && Uniform(L, n) && Ranged(plist, n, |r|) && Tidy(L)
    ensures Tidy(Inner(L, r, sqno, plist, n).1)
  {
    if L != [] && End(L[0]) < Start(r) {
      InnerTidy(L[1..], r, sqno, plist, n);
      if Start(L[0]) >= sqno && Filter(plist, L[0], r) {
        var out := Inner(L[1..], r, sqno, plist, n).1;
        var u: Rec := L[0] + r;
        TidyConcat([u], out) by {
          forall y | y in out
            ensures u != y && End(u) <= End(y)
          {
            InnerEmits(L[1..], r, sqno, plist, n, y);
            assert y == y[..n] + y[n..] && u[..n] == L[0];
            var j :| 0 <= j < |L[1..]| && L[1..][j] == y[..n];
            assert L[j + 1] == y[..n];
          }
        }
      }
    }
  }

  // ------------------------------------------------------------ the outer loop

  ghost predicate Crosses(L: seq<Rec>, R: seq<Rec>, sqno: nat, plist: seq<PPred>, n: nat, m: nat, u: Rec)
    requires Ranged(plist, n, m)
  {
    && |u| == n + m && n > 0 && m > 0
    && u[..n] in L && u[n..] in R && End(u[..n]) < Start(u[n..]) && Start(u[..n]) >= sqno
    && Filter(plist, u[..n], u[n..])
  }

  lemma CrossesKeeps(L: seq<Rec>, L': seq<Rec>, R: seq<Rec>, sqno: nat, plist: seq<PPred>, n: nat, m: nat, u: Rec)
    requires Ranged(plist, n, m) && Keeps(L, L', sqno)
    ensures Crosses(L, R, sqno, plist, n, m, u) <==> Crosses(L', R, sqno, plist, n, m, u)
  {
  }

  lemma CrossesHead(L: seq<Rec>, R: seq<Rec>, sqno: nat, plist: seq<PPred>, n: nat, m: nat, u: Rec)
    requires R != [] && n > 0 && m > 0 && Ranged(plist, n, m) && Uniform(R, m)
    ensures Crosses(L, R, sqno, plist, n, m, u) <==>
      Pairs(L, R[0], sqno, plist, n, u) || Crosses(L, R[1..], sqno, plist, n, m, u)
  {
    assert forall x :: x in R <==> x == R[0] || x in R[1..];
  }

  lemma KeepsTrans(a: seq<Rec>, b: seq<Rec>, c: seq<Rec>, sqno: nat)
    requires Keeps(a, b, sqno) && Keeps(b, c, sqno)
    ensures Keeps(a, c, sqno)
  {
  }

  lemma {:induction false} OuterKeeps(L: seq<Rec>, R: seq<Rec>, sqno: nat, plist: seq<PPred>, n: nat, m: nat)
    requires n > 0 && m > 0 && Uniform(L, n) && Uniform(R, m) && Ranged(plist, n, m) && Tidy(L)
    ensures Keeps(L, Outer(L, R, sqno, plist, n, m).0, sqno)
    ensures Tidy(Outer(L, R, sqno, plist, n, m).0)
    decreases |R|
  {
    if R == [] {
    } else {
      InnerKeeps(L, R[0], sqno, plist, n);
      var L1 := Inner(L, R[0], sqno, plist, n).0;
      OuterKeeps(L1, R[1..], sqno, plist, n, m);
      KeepsTrans(L, L1, Outer(L1, R[1..], sqno, plist, n, m).0, sqno);
    }
  }

  lemma {:induction false} OuterEmits(L: seq<Rec>, R: seq<Rec>, sqno: nat, plist: seq<PPred>, n: nat, m: nat, u: Rec)
    requires n > 0 && m > 0 && Uniform(L, n) && Uniform(R, m) && Ranged(plist, n, m) && Tidy(L)
    ensures u in Outer(L, R, sqno, plist, n, m).1 <==> Crosses(L, R, sqno, plist, n, m, u)
    decreases |R|
  {
    if R == [] {
    } else {
      InnerKeeps(L, R[0], sqno, plist, n);
      InnerEmits(L, R[0], sqno, plist, n, u);
      var L1 := Inner(L, R[0], sqno, plist, n).0;
      OuterEmits(L1, R[1..], sqno, plist, n, m, u);
      CrossesKeeps(L, L1, R[1..], sqno, plist, n, m, u);
      CrossesHead(L, R, sqno, plist, n, m, u);
    }
  }

  lemma {:induction false} OuterTidy(L: seq<Rec>, R: seq<Rec>, sqno: nat, plist: seq<PPred>, n: nat, m: nat)
    requires n > 0 && m > 0 && Uniform(L, n) && Uniform(R, m) && Ranged(plist, n, m) && Tidy(L) && Tidy(R)
    ensures Tidy(Outer(L, R, sqno, plist, n, m).1)
    decreases |R|
  {
    if R == [] {
    } else {
      InnerKeeps(L, R[0], sqno, plist, n);
      InnerTidy(L, R[0], sqno, plist, n);
      var (L1, out1) := Inner(L, R[0], sqno, plist, n);
      OuterTidy(L1, R[1..], sqno, plist, n, m);
      var out2 := Outer(L1, R[1..], sqno, plist, n, m).1;
      forall x, y | x in out1 && y in out2
        ensures x != y && End(x) <= End(y)
      {
        EarlierRightFirst(L, L1, R, sqno, plist, n, m, x, y);
      }
      TidyConcat(out1, out2);
    }
  }

  /** What an earlier right record gives comes before what a later one gives. */
  lemma EarlierRightFirst(L: seq<Rec>, L1: seq<Rec>, R: seq<Rec>, sqno: nat, plist: seq<PPred>, n: nat, m: nat,
                          x: Rec, y: Rec)
    requires n > 0 && m > 0 && Uniform(L, n) && Uniform(L1, n) && Uniform(R, m) && Ranged(plist, n, m)
    requires Tidy(L) && Tidy(L1) && Tidy(R) && R != []
    requires x in Inner(L, R[0], sqno, plist, n).1 && y in Outer(L1, R[1..], sqno, plist, n, m).1
    ensures x != y && End(x) <= End(y)
  {
    InnerEmits(L, R[0], sqno, plist, n, x);
    OuterEmits(L1, R[1..], sqno, plist, n, m, y);
    var j :| 0 <= j < |R[1..]| && R[1..][j] == y[n..];
    assert R[j + 1] == y[n..] && x[n..] == R[0];
  }

  // ------------------------------------------------------------ histories

  function Append(hist: Feed, feed: Feed): (h: Feed)
    requires |hist| == |feed|
    ensures |h| == |hist|
    ensures forall i :: 0 <= i < |hist| ==> h[i] == hist[i] + feed[i]
  {
    seq(|hist|, i requires 0 <= i < |hist| => hist[i] + feed[i])
  }

  /** What leaf i receives is in time order and has not been seen before. */
  ghost predicate Arrives(hist: Feed, feed: Feed, i: nat)
    requires i < |hist| == |feed|
  {
    Distinct(hist[i] + feed[i]) && ByTime(feed[i])
  }

  /** Nothing leaf j receives is earlier than what leaf i already has. */
  ghost predicate NotEarlier(hist: Feed, feed: Feed, i: nat, j: nat)
    requires i < |hist| == |feed| && j < |feed|
  {
    forall a, b :: a in hist[i] && b in feed[j] ==> a.time <= b.time
  }

  /** The next batch of a stream in time order. */
  ghost predicate Follows(hist: Feed, feed: Feed)
  {
    && |hist| == |feed|
    && (forall i: nat {:trigger Arrives(hist, feed, i)} :: i < |hist| ==> Arrives(hist, feed, i))
    && forall i: nat, j: nat {:trigger NotEarlier(hist, feed, i, j)} ::
         i < |hist| && j < |hist| ==> NotEarlier(hist, feed, i, j)
  }

  lemma FollowsPart(hist: Feed, feed: Feed, n: nat)
    requires Follows(hist, feed) && n <= |hist|
    ensures Follows(hist[..n], feed[..n]) && Follows(hist[n..], feed[n..])
    ensures Append(hist, feed)[..n] == Append(hist[..n], feed[..n])
    ensures Append(hist, feed)[n..] == Append(hist[n..], feed[n..])
  {
    forall i: nat | i < n
      ensures Arrives(hist[..n], feed[..n], i)
    {
      assert Arrives(hist, feed, i);
    }
    forall i: nat | i < |hist| - n
      ensures Arrives(hist[n..], feed[n..], i)
    {
      assert Arrives(hist, feed, n + i);
    }
    forall i: nat, j: nat | i < n && j < n
      ensures NotEarlier(hist[..n], feed[..n], i, j)
    {
      assert NotEarlier(hist, feed, i, j);
    }
    forall i: nat, j: nat | i < |hist| - n && j < |hist| - n
      ensures NotEarlier(hist[n..], feed[n..], i, j)
    {
      assert NotEarlier(hist, feed, n + i, n + j);
    }
  }

  // ------------------------------------------------------------ what the buffers hold

  /** Only matches; all those that start late enough; in order, without repetition. */
  ghost predicate Holds(t: Tree, hist: Feed, sqno: nat, buf: seq<Rec>)
    requires WellFormed(t) && |hist| == Width(t)
  {
    && Tidy(buf)
    && (forall m :: m in buf ==> IsMatch(t, hist, m))
    && (forall m: Rec :: IsMatch(t, hist, m) && Start(m) >= sqno ==> m in buf)
  }

  /** m ends in the batch and starts late enough. */
  ghost predicate Fresh(t: Tree, hist: Feed, feed: Feed, sqno: nat, m: Rec)
    requires WellFormed(t) && |hist| == |feed| == Width(t)
  {
    && IsMatch(t, Append(hist, feed), m)
    && m[|m| - 1] in feed[|feed| - 1]
    && Start(m) >= sqno
  }

  /** Exactly the fresh matches. */
  ghost predicate Emits(t: Tree, hist: Feed, feed: Feed, sqno: nat, buf: seq<Rec>)
    requires WellFormed(t) && |hist| == |feed| == Width(t)
  {
    && Tidy(buf)
    && forall m: Rec :: m in buf <==> Fresh(t, hist, feed, sqno, m)
  }

  /** Between batches: a node that is kept holds its matches, one that is cleared holds none;
      left children are kept and right children cleared. */
  ghost predicate Settled(t: Tree, hist: Feed, sqno: nat, keep: bool)
    requires WellFormed(t) && |hist| == Width(t)
  {
    && (keep ==> Holds(t, hist, sqno, t.buf))
    && (!keep ==> t.buf == [])
    && (t.Join? ==>
          var n := Width(t.left);
          Settled(t.left, hist[..n], sqno, true) && Settled(t.right, hist[n..], sqno, false))
  }

  // ------------------------------------------------------------ a leaf

  lemma {:induction false} AcceptedExactly(flist: Event -> bool, es: seq<Event>, m: Rec)
    ensures m in Accepted(flist, es) <==> |m| == 1 && m[0] in es && flist(m[0])
  {
    if es == [] {
    } else {
      var n := |es| - 1;
      AcceptedExactly(flist, es[..n], m);
      assert forall e :: e in es <==> e in es[..n] || e == es[n];
      if |m| == 1 { assert m == [m[0]]; }
    }
  }

  lemma {:induction false} AcceptedTidy(flist: Event -> bool, es: seq<Event>)
    requires Distinct(es) && ByTime(es)
    ensures Tidy(Accepted(flist, es))
  {
    if es == [] {
    } else {
      var n := |es| - 1;
      AcceptedTidy(flist, es[..n]);
      if flist(es[n]) {
        TidyConcat(Accepted(flist, es[..n]), [[es[n]]]) by {
          forall x | x in Accepted(flist, es[..n])
            ensures x != [es[n]] && End(x) <= es[n].time
          {
            AcceptedExactly(flist, es[..n], x);
            var j :| 0 <= j < n && es[j] == x[0];
          }
        }
      }
    }
  }

  lemma LeafEmits(t: Tree, hist: Feed, feed: Feed)
    requires t.Leaf? && WellFormed(t) && |hist| == 1 && Follows(hist, feed)
    ensures Emits(t, hist, feed, 0, Accepted(t.flist, feed[0]))
  {
    assert Arrives(hist, feed, 0);
    assert forall i :: 0 <= i < |feed[0]| ==> feed[0][i] == (hist[0] + feed[0])[|hist[0]| + i];
    AcceptedTidy(t.flist, feed[0]);
    forall m: Rec
      ensures m in Accepted(t.flist, feed[0]) <==> Fresh(t, hist, feed, 0, m)
    {
      AcceptedExactly(t.flist, feed[0], m);
    }
  }

  // ------------------------------------------------------------ old matches and new ones

  lemma OldMatchStays(t: Tree, hist: Feed, feed: Feed, m: Rec)
    requires WellFormed(t) && |hist| == |feed| == Width(t) && IsMatch(t, hist, m)
    ensures IsMatch(t, Append(hist, feed), m)
    ensures m[|m| - 1] in hist[|hist| - 1]
  {
    forall i | 0 <= i < |m|
      ensures m[i] in hist[i]
    {
      MatchDraws(t, hist, m, i);
    }
    MatchTransfers(t, hist, Append(hist, feed), m);
  }

  lemma OldElement(hist: Feed, feed: Feed, i: nat, k: nat, a: Event, b: Event)
    requires Follows(hist, feed) && i < |hist| && k < |hist|
    requires a in hist[i] + feed[i] && b in hist[k] && a.time < b.time
    ensures a in hist[i]
  {
    assert NotEarlier(hist, feed, k, i);
  }

  lemma LastIsOldOrFresh(hist: Feed, feed: Feed, k: nat, a: Event)
    requires |hist| == |feed| && k < |hist| && a in Append(hist, feed)[k]
    ensures a in hist[k] || a in feed[k]
  {
  }

  /** The events and the order of a match, for all positions at once. */
  lemma MatchFacts(t: Tree, hist: Feed, m: Rec)
    requires WellFormed(t) && |hist| == Width(t) && IsMatch(t, hist, m)
    ensures |m| == |hist|
    ensures forall i :: 0 <= i < |m| ==> m[i] in hist[i]
    ensures forall i :: 0 <= i < |m| - 1 ==> m[i].time < m[|m| - 1].time
  {
    forall i | 0 <= i < |m|
      ensures m[i] in hist[i] && (i < |m| - 1 ==> m[i].time < m[|m| - 1].time)
    {
      MatchDraws(t, hist, m, i);
      if i < |m| - 1 { MatchIncreases(t, hist, m, i, |m| - 1); }
    }
  }

  lemma AllOld(hist: Feed, feed: Feed, m: Rec)
    requires Follows(hist, feed) && |m| == |hist|
    requires forall i :: 0 <= i < |m| ==> m[i] in Append(hist, feed)[i]
    requires forall i :: 0 <= i < |m| - 1 ==> m[i].time < m[|m| - 1].time
    ensures (forall i :: 0 <= i < |m| ==> m[i] in hist[i]) || m[|m| - 1] in feed[|m| - 1]
  {
    var k := |m| - 1;
    LastIsOldOrFresh(hist, feed, k, m[k]);
    if m[k] in hist[k] {
      forall i | 0 <= i < k
        ensures m[i] in hist[i]
      {
        OldElement(hist, feed, i, k, m[i], m[k]);
      }
    }
  }

  /** A match that does not end in the batch lies wholly before it. */
  lemma MatchIsOld(t: Tree, hist: Feed, feed: Feed, m: Rec)
    requires WellFormed(t) && |hist| == |feed| == |m| == Width(t) && Follows(hist, feed)
    requires IsMatch(t, Append(hist, feed), m) && m[|m| - 1] !in feed[|m| - 1]
    ensures IsMatch(t, hist, m)
  {
    MatchFacts(t, Append(hist, feed), m);
    AllOld(hist, feed, m);
    MatchTransfers(t, Append(hist, feed), hist, m);
  }

  lemma MergeTidy(t: Tree, hist: Feed, feed: Feed, sqno: nat, sq: nat, buf: seq<Rec>, out: seq<Rec>)
    requires WellFormed(t) && |hist| == |feed| == Width(t) && Follows(hist, feed)
    requires Holds(t, hist, sqno, buf) && Emits(t, hist, feed, sq, out)
    ensures Tidy(buf + out)
  {
    var k := Width(t) - 1;
    forall x, y | x in buf && y in out
      ensures x != y && End(x) <= End(y)
    {
      OldBeforeFresh(t, hist, feed, sq, x, y);
    }
    TidyConcat(buf, out);
  }

  lemma OldBeforeFresh(t: Tree, hist: Feed, feed: Feed, sq: nat, x: Rec, y: Rec)
    requires WellFormed(t) && |hist| == |feed| == Width(t) && Follows(hist, feed)
    requires IsMatch(t, hist, x) && Fresh(t, hist, feed, sq, y)
    ensures x != y && End(x) <= End(y)
  {
    var k := Width(t) - 1;
    MatchDraws(t, hist, x, k);
    LastOrdered(hist, feed, k, x[k], y[k]);
  }

  lemma LastOrdered(hist: Feed, feed: Feed, k: nat, a: Event, b: Event)
    requires Follows(hist, feed) && k < |hist| && a in hist[k] && b in feed[k]
    ensures a != b && a.time <= b.time
  {
    assert Arrives(hist, feed, k) && NotEarlier(hist, feed, k, k);
    OldAndNew(hist[k], feed[k], a, b);
  }

  /** Adding the fresh matches and pruning the front keeps a buffer complete. */
  lemma Merge(t: Tree, hist: Feed, feed: Feed, sqno: nat, sq: nat, sqno': nat, buf: seq<Rec>, out: seq<Rec>)
    requires WellFormed(t) && |hist| == |feed| == Width(t) && Follows(hist, feed)
    requires Holds(t, hist, sqno, buf) && Emits(t, hist, feed, sq, out)
    requires sqno <= sqno' && sq <= sqno'
    ensures Holds(t, Append(hist, feed), sqno', Prune(buf + out, sqno'))
  {
    var h, all := Append(hist, feed), buf + out;
    MergeTidy(t, hist, feed, sqno, sq, buf, out);
    PruneKeeps(all, sqno');
    forall m | m in Prune(all, sqno')
      ensures IsMatch(t, h, m)
    {
      if m in buf { OldMatchStays(t, hist, feed, m); }
    }
    forall m: Rec | IsMatch(t, h, m) && Start(m) >= sqno'
      ensures m in Prune(all, sqno')
    {
      MergeComplete(t, hist, feed, sqno, sq, buf, out, m);
    }
  }

  lemma MergeComplete(t: Tree, hist: Feed, feed: Feed, sqno: nat, sq: nat, buf: seq<Rec>, out: seq<Rec>, m: Rec)
    requires WellFormed(t) && |hist| == |feed| == Width(t) && Follows(hist, feed)
    requires Holds(t, hist, sqno, buf) && Emits(t, hist, feed, sq, out)
    requires IsMatch(t, Append(hist, feed), m) && Start(m) >= sqno && Start(m) >= sq
    ensures m in buf + out
  {
    if m[|m| - 1] in feed[|feed| - 1] {
      assert Fresh(t, hist, feed, sq, m);
    } else {
      MatchIsOld(t, hist, feed, m);
    }
  }

  lemma OldAndNew(a: seq<Event>, b: seq<Event>, x: Event, y: Event)
    requires Distinct(a + b) && x in a && y in b
    ensures x != y
  {
    var i :| 0 <= i < |a| && a[i] == x;
    var j :| 0 <= j < |b| && b[j] == y;
    assert (a + b)[i] == x && (a + b)[|a| + j] == y;
  }

  /** Single events in time order: pruning the front removes everything that is too early. */
  lemma {:induction false} SortedPrune(buf: seq<Rec>, sqno: nat)
    requires Uniform(buf, 1) && ByEnd(buf)
    ensures forall m :: m in Prune(buf, sqno) ==> Start(m) >= sqno
  {
    if buf != [] && Start(buf[0]) < sqno {
      SortedPrune(buf[1..], sqno);
    }
  }

  // ------------------------------------------------------------ a join

  /** Every fresh match of a join is a kept left match followed by a fresh right match. */
  lemma JoinEmits(t: Tree, hist: Feed, feed: Feed, sqno: nat, L: seq<Rec>, R: seq<Rec>)
    requires t.Join? && WellFormed(t) && |hist| == |feed| == Width(t) && Follows(hist, feed)
    requires var n := Width(t.left);
             && Uniform(L, n) && Uniform(R, Width(t.right))
             && Holds(t.left, Append(hist, feed)[..n], sqno, L)
             && Emits(t.right, hist[n..], feed[n..], sqno, R)
    ensures Emits(t, hist, feed, sqno, Outer(L, R, sqno, t.plist, Width(t.left), Width(t.right)).1)
  {
    var n, k, h := Width(t.left), Width(t.right), Append(hist, feed);
    FollowsPart(hist, feed, n);
    OuterTidy(L, R, sqno, t.plist, n, k);
    forall u: Rec
      ensures u in Outer(L, R, sqno, t.plist, n, k).1 <==> Fresh(t, hist, feed, sqno, u)
    {
      OuterEmits(L, R, sqno, t.plist, n, k, u);
      CrossesIsFresh(t, hist, feed, sqno, L, R, u);
    }
  }

  lemma CrossesIsFresh(t: Tree, hist: Feed, feed: Feed, sqno: nat, L: seq<Rec>, R: seq<Rec>, u: Rec)
    requires t.Join? && WellFormed(t) && |hist| == |feed| == Width(t) && Follows(hist, feed)
    requires var n := Width(t.left);
             && Holds(t.left, Append(hist, feed)[..n], sqno, L)
             && Emits(t.right, hist[n..], feed[n..], sqno, R)
    ensures Crosses(L, R, sqno, t.plist, Width(t.left), Width(t.right), u) <==> Fresh(t, hist, feed, sqno, u)
  {
    var n, h := Width(t.left), Append(hist, feed);
    if |u| == Width(t) {
      var l, r: Rec := u[..n], u[n..];
      FreshHalves(t, hist, feed, sqno, u, l, r);
      assert r in R <==> Fresh(t.right, hist[n..], feed[n..], sqno, r);
      assert l in L ==> IsMatch(t.left, h[..n], l);
      assert IsMatch(t.left, h[..n], l) && Start(l) >= sqno ==> l in L;
    }
  }

  /** A fresh match of a join, read off its two halves. */
  lemma FreshHalves(t: Tree, hist: Feed, feed: Feed, sqno: nat, u: Rec, l: Rec, r: Rec)
    requires t.Join? && WellFormed(t) && |hist| == |feed| == |u| == Width(t) && Follows(hist, feed)
    requires l == u[..Width(t.left)] && r == u[Width(t.left)..]
    ensures var n := Width(t.left);
            Fresh(t, hist, feed, sqno, u) <==>
              && IsMatch(t.left, Append(hist, feed)[..n], l) && Start(l) >= sqno
              && Fresh(t.right, hist[n..], feed[n..], sqno, r)
              && End(l) < Start(r) && Filter(t.plist, l, r)
  {
    var n, h := Width(t.left), Append(hist, feed);
    FollowsPart(hist, feed, n);
    MatchHalves(t, h, u);
    assert Start(l) == Start(u) && End(l) == u[n - 1].time && Start(r) == u[n].time;
    assert feed[n..][|feed| - n - 1] == feed[|feed| - 1];
    if IsMatch(t.left, h[..n], l) && n > 1 {
      MatchIncreases(t.left, h[..n], l, 0, n - 1);
    }
  }

  lemma MatchHalves(t: Tree, hist: Feed, u: Rec)
    requires t.Join? && WellFormed(t) && |hist| == |u| == Width(t)
    ensures var n := Width(t.left);
            IsMatch(t, hist, u) <==>
              && IsMatch(t.left, hist[..n], u[..n]) && IsMatch(t.right, hist[n..], u[n..])
              && u[n - 1].time < u[n].time && Filter(t.plist, u[..n], u[n..])
  {
    var n := Width(t.left);
    var (p, q) := (u[..n], u[n..]);
    assert p[n - 1] == u[n - 1] && q[0] == u[n];
  }

  // ------------------------------------------------------------ one batch, any tree

  lemma HoldsShape(t: Tree, u: Tree, hist: Feed, sqno: nat, buf: seq<Rec>)
    requires WellFormed(t) && WellFormed(u) && SameShape(t, u) && |hist| == Width(t) == Width(u)
    ensures Holds(t, hist, sqno, buf) <==> Holds(u, hist, sqno, buf)
  {
    forall m: Rec
      ensures IsMatch(t, hist, m) <==> IsMatch(u, hist, m)
    {
      SameShapeMatches(t, u, hist, m);
    }
  }

  lemma {:induction false} ShapeStays(t: Tree, feed: Feed, sqno: nat)
    requires WellFormed(t) && |feed| == Width(t)
    ensures SameShape(t, Next(Push(t, feed), sqno))
  {
    match t
    case Leaf(_, _) =>
    case Join(left, right, plist, buf) =>
      ShapeStays(left, feed[..Width(left)], sqno);
      ShapeStays(right, feed[Width(left)..], sqno);
  }

  /** One batch: push, next, and clear what the parent clears. */
  lemma {:induction false} Step(t: Tree, hist: Feed, sqno: nat, keep: bool, feed: Feed, sqno': nat)
    requires WellFormed(t) && |hist| == |feed| == Width(t)
    requires Settled(t, hist, sqno, keep) && Follows(hist, feed) && sqno <= sqno'
    ensures var t' := Next(Push(t, feed), sqno');
            && SameShape(t, t')
            && (keep ==> Settled(t', Append(hist, feed), sqno', true))
            && (!keep ==> Emits(t, hist, feed, sqno', t'.buf))
            && (!keep ==> Settled(WithBuf(t', []), Append(hist, feed), sqno', false))
  {
    var t', h := Next(Push(t, feed), sqno'), Append(hist, feed);
    ShapeStays(t, feed, sqno');
    match t
    case Leaf(flist, buf) =>
      LeafStep(t, hist, sqno, keep, feed, sqno');
      if keep { HoldsShape(t, t', h, sqno', t'.buf); }
    case Join(left, right, plist, buf) =>
      var n := Width(left);
      FollowsPart(hist, feed, n);
      Step(left, hist[..n], sqno, true, feed[..n], sqno');
      Step(right, hist[n..], sqno, false, feed[n..], sqno');
      JoinBatch(t, hist, sqno, keep, feed, sqno', Next(Push(left, feed[..n]), sqno'),
                Next(Push(right, feed[n..]), sqno'));
  }

  lemma LeafStep(t: Tree, hist: Feed, sqno: nat, keep: bool, feed: Feed, sqno': nat)
    requires t.Leaf? && WellFormed(t) && |hist| == 1 && Settled(t, hist, sqno, keep) && Follows(hist, feed)
      && sqno <= sqno'
    ensures keep ==> Holds(t, Append(hist, feed), sqno', Prune(t.buf + Accepted(t.flist, feed[0]), sqno'))
    ensures !keep ==> Emits(t, hist, feed, sqno', Prune(t.buf + Accepted(t.flist, feed[0]), sqno'))
  {
    var added := Accepted(t.flist, feed[0]);
    LeafEmits(t, hist, feed);
    if keep {
      Merge(t, hist, feed, sqno, 0, sqno', t.buf, added);
    } else {
      assert t.buf + added == added;
      PruneKeeps(added, sqno');
      SortedPrune(added, sqno');
    }
  }

  /** A join whose left child holds its matches and whose right child has just emitted. */
  lemma JoinBatch(t: Tree, hist: Feed, sqno: nat, keep: bool, feed: Feed, sqno': nat, l: Tree, r: Tree)
    requires t.Join? && WellFormed(t) && |hist| == |feed| == Width(t)
    requires Settled(t, hist, sqno, keep) && Follows(hist, feed) && sqno <= sqno'
    requires WellFormed(l) && WellFormed(r) && SameShape(t.left, l) && SameShape(t.right, r)
    requires Width(l) == Width(t.left) && Width(r) == Width(t.right)
    requires var (n, h) := (Width(l), Append(hist, feed));
             && Settled(l, h[..n], sqno', true)
             && Emits(t.right, hist[n..], feed[n..], sqno', r.buf) && Settled(WithBuf(r, []), h[n..], sqno', false)
    ensures var t' := JoinStep(l, r, t.plist, t.buf, sqno');
            && (keep ==> Settled(t', Append(hist, feed), sqno', true))
            && (!keep ==> Emits(t, hist, feed, sqno', t'.buf))
            && (!keep ==> Settled(WithBuf(t', []), Append(hist, feed), sqno', false))
  {
    var n, k, h := Width(l), Width(r), Append(hist, feed);
    var t' := JoinStep(l, r, t.plist, t.buf, sqno');
    var (L, out) := Outer(l.buf, r.buf, sqno', t.plist, n, k);
    HoldsShape(t.left, l, h[..n], sqno', l.buf);
    JoinEmits(t, hist, feed, sqno', l.buf, r.buf);
    LeftStays(l, h[..n], sqno', r.buf, t.plist, k);
    assert SameShape(t, t') by { WithBufShape(t.left, l, L); WithBufShape(t.right, r, []); }
    if keep {
      Merge(t, hist, feed, sqno, sqno', sqno', t.buf, out);
      HoldsShape(t, t', h, sqno', t'.buf);
    } else {
      assert t.buf + out == out;
      PruneNothing(out, sqno');
    }
  }

  lemma WithBufShape(t: Tree, u: Tree, buf: seq<Rec>)
    requires SameShape(t, u)
    ensures SameShape(t, WithBuf(u, buf))
  {
  }

  /** Erasing early records from the left buffer leaves it holding its matches. */
  lemma LeftStays(l: Tree, hist: Feed, sqno: nat, R: seq<Rec>, plist: seq<PPred>, k: nat)
    requires WellFormed(l) && |hist| == Width(l) && Settled(l, hist, sqno, true)
    requires k > 0 && Uniform(R, k) && Ranged(plist, Width(l), k)
    ensures var L := Outer(l.buf, R, sqno, plist, Width(l), k).0;
            WellFormed(WithBuf(l, L)) && Width(WithBuf(l, L)) == Width(l) && Settled(WithBuf(l, L), hist, sqno, true)
  {
    var L := Outer(l.buf, R, sqno, plist, Width(l), k).0;
    OuterKeeps(l.buf, R, sqno, plist, Width(l), k);
    WithBufWellFormed(l, L);
    assert Holds(l, hist, sqno, L);
    SelfShape(l);
    WithBufShape(l, l, L);
    HoldsShape(l, WithBuf(l, L), hist, sqno, L);
  }

  lemma SelfShape(t: Tree)
    ensures SameShape(t, t)
  {
  }
}
