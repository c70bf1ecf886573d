/** Whole runs of an operator tree, and the equivalence of plans: what a run emits depends on
    the leaves and on the predicates, not on how the tree is shaped. */
module JoinPlans {
  import opened JoinSpec
  import opened JoinProofs
  import opened Sequences

  /** A comparison between two leaves of the whole pattern. */
  datatype GPred = GPred(i: nat, j: nat, test: (Event, Event) -> bool)

  function Filters(t: Tree): (fs: seq<Event -> bool>)
    ensures |fs| == Width(t)
  {
    match t
    case Leaf(flist, _) => [flist]
    case Join(left, right, _, _) => Filters(left) + Filters(right)
  }

  function Shift(ps: seq<GPred>, n: nat): (qs: seq<GPred>)
    ensures |qs| == |ps|
    ensures forall k :: 0 <= k < |ps| ==> qs[k] == GPred(ps[k].i + n, ps[k].j + n, ps[k].test)
  {
    seq(|ps|, k requires 0 <= k < |ps| => GPred(ps[k].i + n, ps[k].j + n, ps[k].test))
  }

  /** A node's list, renumbered from its operands' events to the node's. */
  function Own(plist: seq<PPred>, n: nat): (qs: seq<GPred>)
    ensures |qs| == |plist|
    ensures forall k :: 0 <= k < |plist| ==> qs[k] == GPred(plist[k].left, plist[k].right + n, plist[k].test)
  {
    seq(|plist|, k requires 0 <= k < |plist| => GPred(plist[k].left, plist[k].right + n, plist[k].test))
  }

  function Preds(t: Tree): seq<GPred>
  {
    match t
    case Leaf(_, _) => []
    case Join(left, right, plist, _) =>
      var n := Width(left);
      Preds(left) + Shift(Preds(right), n) + Own(plist, n)
  }

  ghost predicate InRange(ps: seq<GPred>, n: nat)
  {
    forall k :: 0 <= k < |ps| ==> ps[k].i < n && ps[k].j < n
  }

  lemma {:induction false} PredsInRange(t: Tree)
    requires WellFormed(t)
    ensures InRange(Preds(t), Width(t))
  {
    match t
    case Leaf(_, _) =>
    case Join(left, right, _, _) =>
      PredsInRange(left);
      PredsInRange(right);
  }

  ghost predicate Satisfies(ps: seq<GPred>, m: seq<Event>)
    requires InRange(ps, |m|)
  {
    forall k :: 0 <= k < |ps| ==> ps[k].test(m[ps[k].i], m[ps[k].j])
  }

  ghost predicate Drawn(fs: seq<Event -> bool>, hist: Feed, m: seq<Event>)
    requires |fs| == |hist| == |m|
  {
    forall i :: 0 <= i < |m| ==> m[i] in hist[i] && fs[i](m[i])
  }

  ghost predicate Rising(m: seq<Event>)
  {
    forall i :: 0 < i < |m| ==> m[i - 1].time < m[i].time
  }

  /** The query, with no tree in it: one accepted event per leaf, in strictly increasing time,
      with every comparison true. */
  ghost predicate Pattern(fs: seq<Event -> bool>, ps: seq<GPred>, hist: Feed, m: seq<Event>)
    requires |fs| == |hist| && InRange(ps, |fs|)
  {
    |m| == |fs| && Drawn(fs, hist, m) && Rising(m) && Satisfies(ps, m)
  }

  lemma SatisfiesConcat(a: seq<GPred>, b: seq<GPred>, m: seq<Event>)
    requires InRange(a, |m|) && InRange(b, |m|)
    ensures InRange(a + b, |m|)
    ensures Satisfies(a + b, m) <==> Satisfies(a, m) && Satisfies(b, m)
  {
    if Satisfies(a + b, m) {
      assert forall k :: 0 <= k < |a| ==> a[k] == (a + b)[k];
      assert forall k :: 0 <= k < |b| ==> b[k] == (a + b)[|a| + k];
    }
  }

  lemma SatisfiesParts(t: Tree, m: seq<Event>)
    requires t.Join? && WellFormed(t) && |m| == Width(t)
    ensures InRange(Preds(t), |m|)
    ensures var n := Width(t.left);
            && InRange(Preds(t.left), n) && InRange(Preds(t.right), |m| - n)
            && (Satisfies(Preds(t), m) <==>
                Satisfies(Preds(t.left), m[..n]) && Satisfies(Preds(t.right), m[n..])
                  && Filter(t.plist, m[..n], m[n..]))
  {
    var n := Width(t.left);
    var l, r, o := Preds(t.left), Preds(t.right), Own(t.plist, n);
    PredsInRange(t.left);
    PredsInRange(t.right);
    SatisfiesConcat(l, Shift(r, n), m);
    SatisfiesConcat(l + Shift(r, n), o, m);
    assert Satisfies(l, m) <==> Satisfies(l, m[..n]);
    ShiftSatisfies(r, m, n);
    OwnSatisfies(t.plist, m, n);
  }

  lemma ShiftSatisfies(r: seq<GPred>, m: seq<Event>, n: nat)
    requires n <= |m| && InRange(r, |m| - n)
    ensures Satisfies(Shift(r, n), m) <==> Satisfies(r, m[n..])
  {
    forall k | 0 <= k < |r|
      ensures Shift(r, n)[k].test(m[Shift(r, n)[k].i], m[Shift(r, n)[k].j]) <==>
        r[k].test(m[n..][r[k].i], m[n..][r[k].j])
    {
    }
  }

  lemma OwnSatisfies(plist: seq<PPred>, m: seq<Event>, n: nat)
    requires 0 < n < |m| && Ranged(plist, n, |m| - n)
    ensures Satisfies(Own(plist, n), m) <==> Filter(plist, m[..n], m[n..])
  {
    forall k | 0 <= k < |plist|
      ensures Own(plist, n)[k].test(m[Own(plist, n)[k].i], m[Own(plist, n)[k].j])
         <==> plist[k].test(m[..n][plist[k].left], m[n..][plist[k].right])
    {
    }
  }

  /** Flattening: the tree's matches are the pattern's. */
  lemma {:induction false} MatchIsPattern(t: Tree, hist: Feed, m: seq<Event>)
    requires WellFormed(t) && |hist| == Width(t)
    ensures InRange(Preds(t), Width(t))
    ensures IsMatch(t, hist, m) <==> Pattern(Filters(t), Preds(t), hist, m)
  {
    PredsInRange(t);
    match t
    case Leaf(flist, _) =>
    case Join(left, right, _, _) =>
      if |m| == Width(t) {
        var n := Width(left);
        MatchIsPattern(left, hist[..n], m[..n]);
        MatchIsPattern(right, hist[n..], m[n..]);
        MatchHalves(t, hist, m);
        PatternHalves(t, hist, m);
      }
  }

  lemma PatternHalves(t: Tree, hist: Feed, m: seq<Event>)
    requires t.Join? && WellFormed(t) && |hist| == |m| == Width(t)
    ensures var n := Width(t.left);
            && InRange(Preds(t), |m|) && InRange(Preds(t.left), n) && InRange(Preds(t.right), |m| - n)
            && (Pattern(Filters(t), Preds(t), hist, m) <==>
                && Pattern(Filters(t.left), Preds(t.left), hist[..n], m[..n])
                && Pattern(Filters(t.right), Preds(t.right), hist[n..], m[n..])
                && m[n - 1].time < m[n].time && Filter(t.plist, m[..n], m[n..]))
  {
    var n := Width(t.left);
    SatisfiesParts(t, m);
    DrawnHalves(Filters(t.left), Filters(t.right), hist, m, n);
    RisingHalves(m, n);
  }

  lemma DrawnHalves(fl: seq<Event -> bool>, fr: seq<Event -> bool>, hist: Feed, m: seq<Event>, n: nat)
    requires |fl| == n && |fl| + |fr| == |hist| == |m|
    ensures Drawn(fl + fr, hist, m) <==> Drawn(fl, hist[..n], m[..n]) && Drawn(fr, hist[n..], m[n..])
  {
    if Drawn(fl + fr, hist, m) {
      forall i | 0 <= i < |m| - n
        ensures m[n..][i] in hist[n..][i] && fr[i](m[n..][i])
      {
        assert m[n + i] in hist[n + i] && (fl + fr)[n + i](m[n + i]);
      }
      forall i | 0 <= i < n
        ensures m[..n][i] in hist[..n][i] && fl[i](m[..n][i])
      {
        assert m[i] in hist[i] && (fl + fr)[i](m[i]);
      }
    }
    if Drawn(fl, hist[..n], m[..n]) && Drawn(fr, hist[n..], m[n..]) {
      forall i | 0 <= i < |m|
        ensures m[i] in hist[i] && (fl + fr)[i](m[i])
      {
        if i < n { assert m[..n][i] in hist[..n][i]; } else { assert m[n..][i - n] in hist[n..][i - n]; }
      }
    }
  }

  lemma RisingHalves(m: seq<Event>, n: nat)
    requires 0 < n < |m|
    ensures Rising(m) <==> Rising(m[..n]) && Rising(m[n..]) && m[n - 1].time < m[n].time
  {
    if Rising(m) {
      forall i | 0 < i < |m| - n
        ensures m[n..][i - 1].time < m[n..][i].time
      {
        assert m[n + i - 1].time < m[n + i].time;
      }
    }
    if Rising(m[..n]) && Rising(m[n..]) && m[n - 1].time < m[n].time {
      forall i | 0 < i < |m|
        ensures m[i - 1].time < m[i].time
      {
        if i < n {
          assert m[..n][i - 1].time < m[..n][i].time;
        } else if i > n {
          assert m[n..][i - n - 1].time < m[n..][i - n].time;
        }
      }
    }
  }

  // ------------------------------------------------------------ whole runs

  /** A batch: what the leaves receive, and the earliest start allowed from now on. */
  datatype Batch = Batch(feed: Feed, sqno: nat)

  /** Push a batch, ask the root, note its buffer, clear it. */
  function Run(t: Tree, batches: seq<Batch>): (outs: seq<seq<Rec>>)
    requires WellFormed(t) && forall k :: 0 <= k < |batches| ==> |batches[k].feed| == Width(t)
    ensures |outs| == |batches|
    decreases |batches|
  {
    if batches == [] then []
    else
      [AfterBatch(t, batches[0]).buf] + Run(Cleared(t, batches[0]), batches[1..])
  }

  lemma RunTail(t: Tree, batches: seq<Batch>, k: nat)
    requires WellFormed(t) && forall i :: 0 <= i < |batches| ==> |batches[i].feed| == Width(t)
    requires 0 < k < |batches|
    ensures Run(t, batches)[k] == Run(Cleared(t, batches[0]), batches[1..])[k - 1]
  {
  }

  /** Everything received before batch k. */
  function History(hist: Feed, batches: seq<Batch>, k: nat): (h: Feed)
    requires k <= |batches| && forall i :: 0 <= i < |batches| ==> |batches[i].feed| == |hist|
    ensures |h| == |hist|
  {
    if k == 0 then hist else Append(History(hist, batches, k - 1), batches[k - 1].feed)
  }

  lemma {:induction false} HistoryTail(hist: Feed, batches: seq<Batch>, k: nat)
    requires 0 < k <= |batches| && forall i :: 0 <= i < |batches| ==> |batches[i].feed| == |hist|
    ensures History(hist, batches, k) == History(Append(hist, batches[0].feed), batches[1..], k - 1)
  {
    if k > 1 {
      HistoryTail(hist, batches, k - 1);
    }
  }

  /** A stream in time order, asked with never decreasing sqno. */
  ghost predicate Stream(hist: Feed, sqno: nat, batches: seq<Batch>)
    decreases |batches|
  {
    batches != [] ==>
      && Follows(hist, batches[0].feed)
      && sqno <= batches[0].sqno
      && Stream(Append(hist, batches[0].feed), batches[0].sqno, batches[1..])
  }

  lemma {:induction false} StreamWidths(hist: Feed, sqno: nat, batches: seq<Batch>)
    requires Stream(hist, sqno, batches)
    ensures forall k :: 0 <= k < |batches| ==> |batches[k].feed| == |hist|
    decreases |batches|
  {
    if batches == [] {
    } else {
      StreamWidths(Append(hist, batches[0].feed), batches[0].sqno, batches[1..]);
      assert forall k :: 0 < k < |batches| ==> batches[k] == batches[1..][k - 1];
    }
  }

  /** m answers the query in batch k: it matches, it ends in the batch, it does not start too
      early. */
  ghost predicate Answers(fs: seq<Event -> bool>, ps: seq<GPred>, before: Feed, batch: Batch, m: Rec)
    requires |fs| == |before| == |batch.feed| && |fs| > 0 && InRange(ps, |fs|)
  {
    && Pattern(fs, ps, Append(before, batch.feed), m)
    && m[|m| - 1] in batch.feed[|fs| - 1]
    && Start(m) >= batch.sqno
  }

  /** A root's output for a batch: the answers, once each and in end order. */
  ghost predicate Gives(fs: seq<Event -> bool>, ps: seq<GPred>, before: Feed, batch: Batch, out: seq<Rec>)
    requires |fs| == |before| == |batch.feed| && |fs| > 0 && InRange(ps, |fs|)
  {
    Tidy(out) && forall m: Rec :: m in out <==> Answers(fs, ps, before, batch, m)
  }

  lemma EmitsAnswers(t: Tree, before: Feed, batch: Batch, buf: seq<Rec>)
    requires WellFormed(t) && |before| == |batch.feed| == Width(t) && Emits(t, before, batch.feed, batch.sqno, buf)
    ensures InRange(Preds(t), Width(t)) && Gives(Filters(t), Preds(t), before, batch, buf)
  {
    PredsInRange(t);
    forall m: Rec
      ensures m in buf <==> Answers(Filters(t), Preds(t), before, batch, m)
    {
      MatchIsPattern(t, Append(before, batch.feed), m);
    }
  }

  lemma {:induction false} SameShapeFlat(t: Tree, u: Tree)
    requires SameShape(t, u)
    ensures Filters(t) == Filters(u) && Preds(t) == Preds(u)
  {
    match t
    case Leaf(_, _) =>
    case Join(left, right, _, _) =>
      SameShapeWidth(left, u.left);
      SameShapeFlat(left, u.left);
      SameShapeFlat(right, u.right);
  }

  lemma FirstBatch(t: Tree, hist: Feed, sqno: nat, b: Batch)
    requires WellFormed(t) && |hist| == |b.feed| == Width(t) && Settled(t, hist, sqno, false)
    requires Follows(hist, b.feed) && sqno <= b.sqno
    ensures InRange(Preds(t), Width(t)) && Gives(Filters(t), Preds(t), hist, b, AfterBatch(t, b).buf)
    ensures Settled(Cleared(t, b), Append(hist, b.feed), b.sqno, false)
  {
    Step(t, hist, sqno, false, b.feed, b.sqno);
    EmitsAnswers(t, hist, b, AfterBatch(t, b).buf);
  }

  /** Incremental equals batch: in every batch of every run the root emits, once each and in
      end order, exactly the answers of the query over all that has arrived. */
  lemma {:induction false} RunAnswers(t: Tree, hist: Feed, sqno: nat, batches: seq<Batch>, k: nat)
    requires WellFormed(t) && |hist| == Width(t) && Settled(t, hist, sqno, false) && Stream(hist, sqno, batches)
    requires k < |batches|
    ensures forall i :: 0 <= i < |batches| ==> |batches[i].feed| == Width(t)
    ensures InRange(Preds(t), Width(t))
    ensures Gives(Filters(t), Preds(t), History(hist, batches, k), batches[k], Run(t, batches)[k])
    decreases |batches|
  {
    StreamWidths(hist, sqno, batches);
    var b := batches[0];
    FirstBatch(t, hist, sqno, b);
    if k == 0 {
    } else {
      var u := Cleared(t, b);
      RunAnswers(u, Append(hist, b.feed), b.sqno, batches[1..], k - 1);
      HistoryTail(hist, batches, k);
      RunTail(t, batches, k);
    }
  }

  function AfterBatch(t: Tree, b: Batch): (t': Tree)
    requires WellFormed(t) && |b.feed| == Width(t)
    ensures WellFormed(t') && Width(t') == Width(t)
  {
    Next(Push(t, b.feed), b.sqno)
  }

  function Cleared(t: Tree, b: Batch): (u: Tree)
    requires WellFormed(t) && |b.feed| == Width(t)
    ensures WellFormed(u) && Width(u) == Width(t)
    ensures Filters(u) == Filters(t) && Preds(u) == Preds(t)
  {
    var t' := AfterBatch(t, b);
    WithBufWellFormed(t', []);
    ShapeStays(t, b.feed, b.sqno);
    WithBufShape(t, t', []);
    SameShapeFlat(t, WithBuf(t', []));
    WithBuf(t', [])
  }

  // ------------------------------------------------------------ plans

  /** Same leaves, same comparisons: the shape of the tree and the node each comparison is
      placed at do not matter. */
  ghost predicate SameQuery(t: Tree, u: Tree)
  {
    && Filters(t) == Filters(u)
    && forall p :: p in Preds(t) <==> p in Preds(u)
  }

  lemma SameAnswers(fs: seq<Event -> bool>, ps: seq<GPred>, qs: seq<GPred>, before: Feed, batch: Batch, m: Rec)
    requires |fs| == |before| == |batch.feed| && |fs| > 0 && InRange(ps, |fs|) && InRange(qs, |fs|)
    requires forall p :: p in ps <==> p in qs
    ensures Answers(fs, ps, before, batch, m) <==> Answers(fs, qs, before, batch, m)
  {
    if |m| == |fs| {
      assert Satisfies(ps, m) <==> forall p :: p in ps ==> p.test(m[p.i], m[p.j]);
      assert Satisfies(qs, m) <==> forall p :: p in qs ==> p.test(m[p.i], m[p.j]);
    }
  }

  lemma {:induction false} DistinctCount<T>(s: seq<T>, x: T)
    requires Distinct(s)
    ensures multiset(s)[x] == if x in s then 1 else 0
  {
    if s == [] {
    } else {
      var n := |s| - 1;
      DistinctCount(s[..n], x);
      assert s == s[..n] + [s[n]];
    }
  }

  lemma SameElements<T>(s: seq<T>, r: seq<T>)
    requires Distinct(s) && Distinct(r) && forall x :: x in s <==> x in r
    ensures multiset(s) == multiset(r)
  {
    forall x: T
      ensures multiset(s)[x] == multiset(r)[x]
    {
      DistinctCount(s, x);
      DistinctCount(r, x);
    }
  }

  /** Two plans for the same query emit the same tuples in every batch. */
  lemma PlansAgree(t: Tree, u: Tree, hist: Feed, sqno: nat, batches: seq<Batch>, k: nat)
    requires WellFormed(t) && WellFormed(u) && |hist| == Width(t) && SameQuery(t, u)
    requires Settled(t, hist, sqno, false) && Width(u) == Width(t) && Settled(u, hist, sqno, false)
    requires Stream(hist, sqno, batches) && k < |batches|
    ensures forall i :: 0 <= i < |batches| ==> |batches[i].feed| == Width(t)
    ensures multiset(Run(t, batches)[k]) == multiset(Run(u, batches)[k])
  {
    RunAnswers(t, hist, sqno, batches, k);
    RunAnswers(u, hist, sqno, batches, k);
    forall m: Rec
      ensures m in Run(t, batches)[k] <==> m in Run(u, batches)[k]
    {
      SameAnswers(Filters(t), Preds(t), Preds(u), History(hist, batches, k), batches[k], m);
    }
    SameElements(Run(t, batches)[k], Run(u, batches)[k]);
  }

  // ------------------------------------------------------------ the five plans for one query

  /** A tree before anything has arrived. */
  ghost predicate Blank(t: Tree)
  {
    t.buf == [] && (t.Join? ==> Blank(t.left) && Blank(t.right))
  }

  function Nothing(n: nat): (h: Feed)
    ensures |h| == n
    ensures forall i :: 0 <= i < n ==> h[i] == []
  {
    seq(n, i => [])
  }

  lemma {:induction false} BlankSettled(t: Tree, sqno: nat, keep: bool)
    requires WellFormed(t) && Blank(t)
    ensures Settled(t, Nothing(Width(t)), sqno, keep)
  {
    forall m: Rec
      ensures !IsMatch(t, Nothing(Width(t)), m)
    {
      if IsMatch(t, Nothing(Width(t)), m) { MatchDraws(t, Nothing(Width(t)), m, 0); }
    }
    if t.Join? {
      var n := Width(t.left);
      assert Nothing(Width(t))[..n] == Nothing(n) && Nothing(Width(t))[n..] == Nothing(Width(t.right));
      BlankSettled(t.left, sqno, true);
      BlankSettled(t.right, sqno, false);
    }
  }

  /** The pattern of large.cc: four leaves, Sun below Oracle and Oracle above Google. */
  datatype Query = Query(ibm: Event -> bool, sun: Event -> bool, oracle: Event -> bool, google: Event -> bool,
                         less: (Event, Event) -> bool, greater: (Event, Event) -> bool)

  datatype Plan = LeftDeep | RightDeep | Bushy | InnerRight | InnerLeft

  function Node(l: Tree, r: Tree, plist: seq<PPred>): Tree
  {
    Join(l, r, plist, [])
  }

  /** Each plan with the event indices its node's predicate list is given. */
  function Build(plan: Plan, q: Query): Tree
  {
    var (ibm, sun, oracle, google) := (Leaf(q.ibm, []), Leaf(q.sun, []), Leaf(q.oracle, []), Leaf(q.google, []));
    match plan
    case LeftDeep => Node(Node(Node(ibm, sun, []), oracle, [PPred(1, 0, q.less)]), google, [PPred(2, 0, q.greater)])
    case RightDeep => Node(ibm, Node(sun, Node(oracle, google, [PPred(0, 0, q.greater)]), [PPred(0, 0, q.less)]), [])
    case Bushy => Node(Node(ibm, sun, []), Node(oracle, google, [PPred(0, 0, q.greater)]), [PPred(1, 0, q.less)])
    case InnerRight => Node(ibm, Node(Node(sun, oracle, [PPred(0, 0, q.less)]), google, [PPred(1, 0, q.greater)]), [])
    case InnerLeft => Node(Node(ibm, Node(sun, oracle, [PPred(0, 0, q.less)]), []), google, [PPred(2, 0, q.greater)])
  }

  /** A blank tree of width n with the given filters and comparisons. */
  ghost predicate Flat(t: Tree, n: nat, fs: seq<Event -> bool>, ps: seq<GPred>)
  {
    WellFormed(t) && Blank(t) && Width(t) == n && Filters(t) == fs && Preds(t) == ps
  }

  lemma FlatNode(l: Tree, nl: nat, fl: seq<Event -> bool>, pl: seq<GPred>,
                 r: Tree, nr: nat, fr: seq<Event -> bool>, pr: seq<GPred>, plist: seq<PPred>)
    requires Flat(l, nl, fl, pl) && Flat(r, nr, fr, pr) && Ranged(plist, nl, nr)
    ensures Flat(Node(l, r, plist), nl + nr, fl + fr, pl + Shift(pr, nl) + Own(plist, nl))
  {
  }

  function First(q: Query): GPred { GPred(1, 2, q.less) }
  function Second(q: Query): GPred { GPred(2, 3, q.greater) }

  /** The four leaves of a plan. */
  lemma FlatLeaves(q: Query)
    ensures Flat(Leaf(q.ibm, []), 1, [q.ibm], []) && Flat(Leaf(q.sun, []), 1, [q.sun], [])
    ensures Flat(Leaf(q.oracle, []), 1, [q.oracle], []) && Flat(Leaf(q.google, []), 1, [q.google], [])
  {
  }

  lemma LeftDeepFlat(q: Query)
    ensures Flat(Build(LeftDeep, q), 4, [q.ibm, q.sun, q.oracle, q.google], [First(q), Second(q)])
  {
    var (ibm, sun, oracle, google) := (Leaf(q.ibm, []), Leaf(q.sun, []), Leaf(q.oracle, []), Leaf(q.google, []));
    FlatLeaves(q);
    var a := [PPred(1, 0, q.less)];
    FlatNode(ibm, 1, [q.ibm], [], sun, 1, [q.sun], [], []);
    FlatNode(Node(ibm, sun, []), 2, [q.ibm, q.sun], [], oracle, 1, [q.oracle], [], a);
    FlatNode(Node(Node(ibm, sun, []), oracle, a), 3, [q.ibm, q.sun, q.oracle], [First(q)], google, 1, [q.google], [],
             [PPred(2, 0, q.greater)]);
  }

  lemma RightDeepFlat(q: Query)
    ensures Flat(Build(RightDeep, q), 4, [q.ibm, q.sun, q.oracle, q.google], [Second(q), First(q)])
  {
    var (ibm, sun, oracle, google) := (Leaf(q.ibm, []), Leaf(q.sun, []), Leaf(q.oracle, []), Leaf(q.google, []));
    FlatLeaves(q);
    var a, b := [PPred(0, 0, q.greater)], [PPred(0, 0, q.less)];
    FlatNode(oracle, 1, [q.oracle], [], google, 1, [q.google], [], a);
    FlatNode(sun, 1, [q.sun], [], Node(oracle, google, a), 2, [q.oracle, q.google], [GPred(0, 1, q.greater)], b);
    FlatNode(ibm, 1, [q.ibm], [], Node(sun, Node(oracle, google, a), b), 3, [q.sun, q.oracle, q.google],
             [GPred(1, 2, q.greater), GPred(0, 1, q.less)], []);
  }

  lemma BushyFlat(q: Query)
    ensures Flat(Build(Bushy, q), 4, [q.ibm, q.sun, q.oracle, q.google], [Second(q), First(q)])
  {
    var (ibm, sun, oracle, google) := (Leaf(q.ibm, []), Leaf(q.sun, []), Leaf(q.oracle, []), Leaf(q.google, []));
    FlatLeaves(q);
    var a := [PPred(0, 0, q.greater)];
    FlatNode(ibm, 1, [q.ibm], [], sun, 1, [q.sun], [], []);
    FlatNode(oracle, 1, [q.oracle], [], google, 1, [q.google], [], a);
    assert Flat(Node(ibm, sun, []), 2, [q.ibm, q.sun], []);
    assert Flat(Node(oracle, google, a), 2, [q.oracle, q.google], [GPred(0, 1, q.greater)]);
    FlatNode(Node(ibm, sun, []), 2, [q.ibm, q.sun], [], Node(oracle, google, a), 2, [q.oracle, q.google],
             [GPred(0, 1, q.greater)], [PPred(1, 0, q.less)]);
    assert Shift([GPred(0, 1, q.greater)], 2) == [Second(q)] && Own([PPred(1, 0, q.less)], 2) == [First(q)];
  }

  lemma InnerRightFlat(q: Query)
    ensures Flat(Build(InnerRight, q), 4, [q.ibm, q.sun, q.oracle, q.google], [First(q), Second(q)])
  {
    var (ibm, sun, oracle, google) := (Leaf(q.ibm, []), Leaf(q.sun, []), Leaf(q.oracle, []), Leaf(q.google, []));
    FlatLeaves(q);
    var a, b := [PPred(0, 0, q.less)], [PPred(1, 0, q.greater)];
    FlatNode(sun, 1, [q.sun], [], oracle, 1, [q.oracle], [], a);
    FlatNode(Node(sun, oracle, a), 2, [q.sun, q.oracle], [GPred(0, 1, q.less)], google, 1, [q.google], [], b);
    FlatNode(ibm, 1, [q.ibm], [], Node(Node(sun, oracle, a), google, b), 3, [q.sun, q.oracle, q.google],
             [GPred(0, 1, q.less), GPred(1, 2, q.greater)], []);
  }

  lemma InnerLeftFlat(q: Query)
    ensures Flat(Build(InnerLeft, q), 4, [q.ibm, q.sun, q.oracle, q.google], [First(q), Second(q)])
  {
    var (ibm, sun, oracle, google) := (Leaf(q.ibm, []), Leaf(q.sun, []), Leaf(q.oracle, []), Leaf(q.google, []));
    FlatLeaves(q);
    var a := [PPred(0, 0, q.less)];
    FlatNode(sun, 1, [q.sun], [], oracle, 1, [q.oracle], [], a);
    FlatNode(ibm, 1, [q.ibm], [], Node(sun, oracle, a), 2, [q.sun, q.oracle], [GPred(0, 1, q.less)], []);
    assert Flat(Node(ibm, Node(sun, oracle, a), []), 3, [q.ibm, q.sun, q.oracle], [First(q)]);
    FlatNode(Node(ibm, Node(sun, oracle, a), []), 3, [q.ibm, q.sun, q.oracle], [First(q)], google, 1, [q.google], [],
             [PPred(2, 0, q.greater)]);
  }

  lemma PlanFlat(plan: Plan, q: Query)
    ensures var fs := [q.ibm, q.sun, q.oracle, q.google];
            Flat(Build(plan, q), 4, fs, [First(q), Second(q)]) || Flat(Build(plan, q), 4, fs, [Second(q), First(q)])
  {
    match plan
    case LeftDeep => LeftDeepFlat(q);
    case RightDeep => RightDeepFlat(q);
    case Bushy => BushyFlat(q);
    case InnerRight => InnerRightFlat(q);
    case InnerLeft => InnerLeftFlat(q);
  }

  /** Any two of the five plans emit the same tuples in every batch of every stream. */
  lemma FivePlansAgree(p: Plan, q: Plan, query: Query, batches: seq<Batch>, k: nat)
    requires Stream(Nothing(4), 0, batches) && k < |batches|
    ensures WellFormed(Build(p, query)) && WellFormed(Build(q, query))
    ensures Width(Build(p, query)) == Width(Build(q, query)) == 4
    ensures forall i :: 0 <= i < |batches| ==> |batches[i].feed| == 4
    ensures multiset(Run(Build(p, query), batches)[k]) == multiset(Run(Build(q, query), batches)[k])
  {
    var t, u := Build(p, query), Build(q, query);
    PlanFlat(p, query);
    PlanFlat(q, query);
    BlankSettled(t, 0, false);
    BlankSettled(u, 0, false);
    PlansAgree(t, u, Nothing(4), 0, batches, k);
  }

  /** What large.cc asks, without any tree. */
  ghost predicate GivesQuery(q: Query, batches: seq<Batch>, k: nat, out: seq<Rec>)
    requires k < |batches| && forall i :: 0 <= i < |batches| ==> |batches[i].feed| == 4
  {
    Gives([q.ibm, q.sun, q.oracle, q.google], [First(q), Second(q)], History(Nothing(4), batches, k), batches[k], out)
  }

  lemma SwappedPreds(fs: seq<Event -> bool>, p: GPred, q: GPred, before: Feed, batch: Batch, out: seq<Rec>)
    requires |fs| == |before| == |batch.feed| && |fs| > 0 && InRange([p, q], |fs|) && InRange([q, p], |fs|)
    requires Gives(fs, [q, p], before, batch, out)
    ensures Gives(fs, [p, q], before, batch, out)
  {
    forall m: Rec
      ensures m in out <==> Answers(fs, [p, q], before, batch, m)
    {
      SameAnswers(fs, [p, q], [q, p], before, batch, m);
    }
  }

  lemma PredsOfQuery(q: Query)
    ensures InRange([First(q), Second(q)], 4) && InRange([Second(q), First(q)], 4)
  {
  }

  /** Every plan, from a blank start, answers the query in every batch of every stream. */
  lemma PlanAnswers(plan: Plan, q: Query, batches: seq<Batch>, k: nat)
    requires Stream(Nothing(4), 0, batches) && k < |batches|
    ensures WellFormed(Build(plan, q)) && Width(Build(plan, q)) == 4
    ensures forall i :: 0 <= i < |batches| ==> |batches[i].feed| == 4
    ensures GivesQuery(q, batches, k, Run(Build(plan, q), batches)[k])
  {
    var t := Build(plan, q);
    PlanFlat(plan, q);
    PredsOfQuery(q);
    BlankSettled(t, 0, false);
    RunAnswers(t, Nothing(4), 0, batches, k);
    if Preds(t) == [Second(q), First(q)] {
      SwappedPreds(Filters(t), First(q), Second(q), History(Nothing(4), batches, k), batches[k], Run(t, batches)[k]);
    }
  }

  // ------------------------------------------------------------ the query, spelled out

  lemma {:induction false} HistoryHolds(batches: seq<Batch>, k: nat, i: nat, e: Event)
    requires k <= |batches| && i < 4 && forall j :: 0 <= j < |batches| ==> |batches[j].feed| == 4
    ensures e in History(Nothing(4), batches, k)[i] <==> exists j :: 0 <= j < k && e in batches[j].feed[i]
  {
    if k > 0 {
      HistoryHolds(batches, k - 1, i, e);
      var before := History(Nothing(4), batches, k - 1);
      assert Append(before, batches[k - 1].feed)[i] == before[i] + batches[k - 1].feed[i];
    }
  }

  lemma DrawnMeans(q: Query, batches: seq<Batch>, k: nat, m: seq<Event>)
    requires k < |batches| && |m| == 4 && forall j :: 0 <= j < |batches| ==> |batches[j].feed| == 4
    ensures Drawn([q.ibm, q.sun, q.oracle, q.google], History(Nothing(4), batches, k + 1), m) <==>
      && q.ibm(m[0]) && q.sun(m[1]) && q.oracle(m[2]) && q.google(m[3])
      && forall i: nat :: i < 4 ==> exists j :: 0 <= j <= k && m[i] in batches[j].feed[i]
  {
    var fs, hist := [q.ibm, q.sun, q.oracle, q.google], History(Nothing(4), batches, k + 1);
    forall i: nat | i < 4
      ensures m[i] in hist[i] <==> exists j :: 0 <= j <= k && m[i] in batches[j].feed[i]
    {
      HistoryHolds(batches, k + 1, i, m[i]);
    }
    assert fs[0] == q.ibm && fs[1] == q.sun && fs[2] == q.oracle && fs[3] == q.google;
  }

  lemma ComparedMeans(q: Query, m: seq<Event>)
    requires |m| == 4
    ensures InRange([First(q), Second(q)], 4)
    ensures Satisfies([First(q), Second(q)], m) <==> q.less(m[1], m[2]) && q.greater(m[2], m[3])
    ensures Rising(m) <==> m[0].time < m[1].time < m[2].time < m[3].time
  {
    var ps := [First(q), Second(q)];
    assert ps[0] == GPred(1, 2, q.less) && ps[1] == GPred(2, 3, q.greater);
  }

  /** Which tuples a batch gives: an IBM, a Sun, an Oracle and a Google event that have arrived by
      now, at strictly increasing times, Sun below Oracle and Oracle above Google, the last one in
      this batch, the first one not before sqno. */
  lemma QueryMeans(q: Query, batches: seq<Batch>, k: nat, out: seq<Rec>, m: Rec)
    requires k < |batches| && (forall j :: 0 <= j < |batches| ==> |batches[j].feed| == 4)
    requires GivesQuery(q, batches, k, out)
    ensures m in out <==>
      && |m| == 4 && q.ibm(m[0]) && q.sun(m[1]) && q.oracle(m[2]) && q.google(m[3])
      && (forall i: nat :: i < 4 ==> exists j :: 0 <= j <= k && m[i] in batches[j].feed[i])
      && m[0].time < m[1].time < m[2].time < m[3].time && q.less(m[1], m[2]) && q.greater(m[2], m[3])
      && m[3] in batches[k].feed[3] && m[0].time >= batches[k].sqno
  {
    if |m| == 4 {
      DrawnMeans(q, batches, k, m);
      ComparedMeans(q, m);
    }
  }

  /** In which order: by the time of the last event, and none twice. */
  lemma QueryOrder(q: Query, batches: seq<Batch>, k: nat, out: seq<Rec>, i: nat, j: nat)
    requires k < |batches| && (forall j :: 0 <= j < |batches| ==> |batches[j].feed| == 4)
    requires GivesQuery(q, batches, k, out) && i < j < |out|
    ensures |out[i]| == |out[j]| == 4 && out[i] != out[j] && out[i][3].time <= out[j][3].time
  {
    assert out[i] in out && out[j] in out;
    assert End(out[i]) <= End(out[j]);
  }
}
