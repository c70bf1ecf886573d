/** The operator tree of the sequence query, on values: what one call of next does to the
    buffers, and which tuples the tree is meant to produce. */
module JoinSpec {

  /** An event of the input; time is its position in the stream order. */
  datatype Event = Event(id: nat, time: nat, fields: seq<int>)

  /** A record: the events of a partial match, earliest first. */
  type Rec = r: seq<Event> | |r| > 0 witness [Event(0, 0, [])]

  function Start(r: Rec): nat { r[0].time }
  function End(r: Rec): nat { r[|r| - 1].time }

  /** A comparison between event `left` of the left record and event `right` of the right one. */
  datatype PPred = PPred(left: nat, right: nat, test: (Event, Event) -> bool)

  predicate Filter(plist: seq<PPred>, l: Rec, r: Rec)
    requires forall k :: 0 <= k < |plist| ==> plist[k].left < |l| && plist[k].right < |r|
  {
    forall k :: 0 <= k < |plist| ==> plist[k].test(l[plist[k].left], r[plist[k].right])
  }

  /** A leaf buffers single events; a join buffers concatenations.  No list and the empty list
      both let everything through. */
  datatype Tree =
    | Leaf(flist: Event -> bool, buf: seq<Rec>)
    | Join(left: Tree, right: Tree, plist: seq<PPred>, buf: seq<Rec>)

  function WithBuf(t: Tree, buf: seq<Rec>): (t': Tree)
    ensures t'.buf == buf
  {
    match t
    case Leaf(flist, _) => Leaf(flist, buf)
    case Join(left, right, plist, _) => Join(left, right, plist, buf)
  }

  function Width(t: Tree): (n: nat)
    ensures n > 0
  {
    match t
    case Leaf(_, _) => 1
    case Join(l, r, _, _) => Width(l) + Width(r)
  }

  ghost predicate Uniform(buf: seq<Rec>, n: nat)
  {
    forall k :: 0 <= k < |buf| ==> |buf[k]| == n
  }

  ghost predicate Ranged(plist: seq<PPred>, n: nat, m: nat)
  {
    forall k :: 0 <= k < |plist| ==> plist[k].left < n && plist[k].right < m
  }

  /** Predicates name events their operands have, and buffers hold records of the node's width. */
  ghost predicate WellFormed(t: Tree)
  {
    && Uniform(t.buf, Width(t))
    && (t.Join? ==> WellFormed(t.left) && WellFormed(t.right) && Ranged(t.plist, Width(t.left), Width(t.right)))
  }

  // ------------------------------------------------------------ one step, on values

  /** Where an iterator at the beginning stands: the first record, if there is one. */
  function Front(buf: seq<Rec>): seq<Rec>
  {
    if buf == [] then [] else [buf[0]]
  }

  /** It does not start before sqno. */
  predicate Late(front: seq<Rec>, sqno: nat)
  {
    front != [] ==> Start(front[0]) >= sqno
  }

  /** Erase from the front while records start too early. */
  function Prune(buf: seq<Rec>, sqno: nat): seq<Rec>
  {
    if buf != [] && Start(buf[0]) < sqno then Prune(buf[1..], sqno) else buf
  }

  /** One right record against the left buffer: what is left of the buffer, what is emitted. */
  function Inner(L: seq<Rec>, r: Rec, sqno: nat, plist: seq<PPred>, ghost n: nat): (res: (seq<Rec>, seq<Rec>))
    requires Uniform(L, n) && Ranged(plist, n, |r|)
    ensures Uniform(res.0, n) && Uniform(res.1, n + |r|)
  {
    if L == [] then ([], [])
    else if End(L[0]) >= Start(r) then (L, [])
    else if Start(L[0]) < sqno then Inner(L[1..], r, sqno, plist, n)
    else
      var (rest, out) := Inner(L[1..], r, sqno, plist, n);
      ([L[0]] + rest, (if Filter(plist, L[0], r) then [L[0] + r] else []) + out)
  }

  /** Every right record in turn. */
  function Outer(L: seq<Rec>, R: seq<Rec>, sqno: nat, plist: seq<PPred>, ghost n: nat,
                 ghost m: nat): (res: (seq<Rec>, seq<Rec>))
    requires Uniform(L, n) && Uniform(R, m) && Ranged(plist, n, m)
    ensures Uniform(res.0, n) && Uniform(res.1, n + m)
    decreases |R|
  {
    if R == [] then (L, [])
    else
      var (L1, out1) := Inner(L, R[0], sqno, plist, n);
      var (L2, out2) := Outer(L1, R[1..], sqno, plist, n, m);
      (L2, out1 + out2)
  }

  lemma PruneUniform(buf: seq<Rec>, sqno: nat, n: nat)
    requires Uniform(buf, n)
    ensures Uniform(Prune(buf, sqno), n)
  {
  }

  lemma WithBufWellFormed(t: Tree, buf: seq<Rec>)
    requires WellFormed(t) && Uniform(buf, Width(t))
    ensures WellFormed(WithBuf(t, buf)) && Width(WithBuf(t, buf)) == Width(t)
  {
  }

  lemma WellFormedParts(t: Tree)
    requires t.Join? && WellFormed(t)
    ensures WellFormed(t.left) && WellFormed(t.right) && Ranged(t.plist, Width(t.left), Width(t.right))
    ensures Uniform(t.left.buf, Width(t.left)) && Uniform(t.right.buf, Width(t.right))
    ensures Uniform(t.buf, Width(t.left) + Width(t.right))
  {
  }

  /** A join after the inner loop has run for one right record. */
  function PairedOne(t: Tree, r: Rec, sqno: nat): (t': Tree)
    requires t.Join? && WellFormed(t) && |r| == Width(t.right)
    ensures WellFormed(t') && t'.Join? && Width(t') == Width(t)
  {
    WellFormedParts(t);
    var (L, out) := Inner(t.left.buf, r, sqno, t.plist, Width(t.left));
    WithBufWellFormed(t.left, L);
    Join(WithBuf(t.left, L), t.right, t.plist, t.buf + out)
  }

  /** A join after both loops. */
  function PairedAll(t: Tree, R: seq<Rec>, sqno: nat): (t': Tree)
    requires t.Join? && WellFormed(t) && Uniform(R, Width(t.right))
    ensures WellFormed(t') && t'.Join? && Width(t') == Width(t)
  {
    WellFormedParts(t);
    var (L, out) := Outer(t.left.buf, R, sqno, t.plist, Width(t.left), Width(t.right));
    WithBufWellFormed(t.left, L);
    Join(WithBuf(t.left, L), t.right, t.plist, t.buf + out)
  }

  lemma PairedInTurn(t: Tree, R: seq<Rec>, sqno: nat)
    requires t.Join? && WellFormed(t) && Uniform(R, Width(t.right)) && R != []
    ensures WidthsStay(t, PairedOne(t, R[0], sqno))
    ensures PairedAll(t, R, sqno) == PairedAll(PairedOne(t, R[0], sqno), R[1..], sqno)
  {
    WellFormedParts(t);
    var n, m := Width(t.left), Width(t.right);
    var (L1, out1) := Inner(t.left.buf, R[0], sqno, t.plist, n);
    var (L2, out2) := Outer(L1, R[1..], sqno, t.plist, n, m);
    assert WithBuf(WithBuf(t.left, L1), L2) == WithBuf(t.left, L2);
    assert t.buf + (out1 + out2) == (t.buf + out1) + out2;
  }

  ghost predicate WidthsStay(t: Tree, u: Tree)
    requires t.Join?
  {
    u.Join? && Width(u.left) == Width(t.left) && Width(u.right) == Width(t.right)
  }

  /** A join whose children l and r have just been asked: both loops, then the right side is
      cleared and the own buffer pruned. */
  function JoinStep(l: Tree, r: Tree, plist: seq<PPred>, buf: seq<Rec>, sqno: nat): (t: Tree)
    requires WellFormed(l) && WellFormed(r)
    requires Ranged(plist, Width(l), Width(r)) && Uniform(buf, Width(l) + Width(r))
    ensures WellFormed(t) && Width(t) == Width(l) + Width(r)
  {
    var t := RightCleared(PairedAll(Join(l, r, plist, buf), r.buf, sqno));
    PruneUniform(t.buf, sqno, Width(t));
    WithBufWellFormed(t, Prune(t.buf, sqno));
    WithBuf(t, Prune(t.buf, sqno))
  }

  function RightCleared(t: Tree): (t': Tree)
    requires t.Join? && WellFormed(t)
    ensures WellFormed(t') && Width(t') == Width(t)
  {
    WithBufWellFormed(t.right, []);
    Join(t.left, WithBuf(t.right, []), t.plist, t.buf)
  }

  function Next(t: Tree, sqno: nat): (t': Tree)
    requires WellFormed(t)
    ensures WellFormed(t') && Width(t') == Width(t)
  {
    match t
    case Leaf(flist, buf) =>
      PruneUniform(buf, sqno, 1);
      Leaf(flist, Prune(buf, sqno))
    case Join(left, right, plist, buf) => JoinStep(Next(left, sqno), Next(right, sqno), plist, buf, sqno)
  }

  /** The records a leaf adds for a run of events. */
  function Accepted(flist: Event -> bool, es: seq<Event>): (recs: seq<Rec>)
    ensures Uniform(recs, 1)
  {
    if es == [] then []
    else Accepted(flist, es[..|es| - 1]) + if flist(es[|es| - 1]) then [[es[|es| - 1]]] else []
  }

  /** Events arriving at the leaves, one run per leaf. */
  type Feed = seq<seq<Event>>

  function Push(t: Tree, feed: Feed): (t': Tree)
    requires WellFormed(t) && |feed| == Width(t)
    ensures WellFormed(t') && Width(t') == Width(t)
  {
    match t
    case Leaf(flist, buf) => Leaf(flist, buf + Accepted(flist, feed[0]))
    case Join(left, right, plist, buf) =>
      Join(Push(left, feed[..Width(left)]), Push(right, feed[Width(left)..]), plist, buf)
  }

  // ------------------------------------------------------------ what the tree should produce

  /** m is a match of the subtree over everything its leaves have received. */
  ghost predicate IsMatch(t: Tree, hist: Feed, m: seq<Event>)
    requires WellFormed(t) && |hist| == Width(t)
  {
    && |m| == Width(t)
    && match t
       case Leaf(flist, _) => m[0] in hist[0] && flist(m[0])
       case Join(left, right, plist, _) =>
         var n := Width(left);
         && IsMatch(left, hist[..n], m[..n])
         && IsMatch(right, hist[n..], m[n..])
         && m[n - 1].time < m[n].time
         && Filter(plist, m[..n], m[n..])
  }

  lemma {:induction false} MatchIncreases(t: Tree, hist: Feed, m: seq<Event>, i: nat, j: nat)
    requires WellFormed(t) && |hist| == Width(t) && IsMatch(t, hist, m)
    requires i < j < |m|
    ensures m[i].time < m[j].time
  {
    match t
    case Leaf(_, _) =>
    case Join(left, right, _, _) =>
      var n := Width(left);
      if j < n {
        MatchIncreases(left, hist[..n], m[..n], i, j);
      } else if i >= n {
        MatchIncreases(right, hist[n..], m[n..], i - n, j - n);
      } else {
        if i < n - 1 { MatchIncreases(left, hist[..n], m[..n], i, n - 1); }
        if j > n { MatchIncreases(right, hist[n..], m[n..], 0, j - n); }
      }
  }

  lemma {:induction false} MatchDraws(t: Tree, hist: Feed, m: seq<Event>, i: nat)
    requires WellFormed(t) && |hist| == Width(t) && IsMatch(t, hist, m) && i < |m|
    ensures m[i] in hist[i]
  {
    match t
    case Leaf(_, _) =>
    case Join(left, right, _, _) =>
      var n := Width(left);
      if i < n {
        MatchDraws(left, hist[..n], m[..n], i);
      } else {
        MatchDraws(right, hist[n..], m[n..], i - n);
      }
  }

  /** Matching only looks at the shape, the predicates and the events. */
  lemma {:induction false} MatchTransfers(t: Tree, hist: Feed, hist': Feed, m: seq<Event>)
    requires WellFormed(t) && |hist| == |hist'| == Width(t) && IsMatch(t, hist, m)
    requires forall i :: 0 <= i < |m| ==> m[i] in hist'[i]
    ensures IsMatch(t, hist', m)
  {
    match t
    case Leaf(_, _) =>
    case Join(left, right, _, _) =>
      var n := Width(left);
      MatchTransfers(left, hist[..n], hist'[..n], m[..n]);
      MatchTransfers(right, hist[n..], hist'[n..], m[n..]);
  }

  /** Two trees that differ in their buffers only. */
  ghost predicate SameShape(t: Tree, u: Tree)
  {
    match t
    case Leaf(flist, _) => u.Leaf? && u.flist == flist
    case Join(left, right, plist, _) =>
      u.Join? && u.plist == plist && SameShape(left, u.left) && SameShape(right, u.right)
  }

  lemma {:induction false} SameShapeMatches(t: Tree, u: Tree, hist: Feed, m: seq<Event>)
    requires WellFormed(t) && WellFormed(u) && SameShape(t, u) && |hist| == Width(t)
    ensures Width(t) == Width(u)
    ensures IsMatch(t, hist, m) <==> IsMatch(u, hist, m)
  {
    match t
    case Leaf(_, _) =>
    case Join(left, right, _, _) =>
      SameShapeWidth(left, u.left);
      SameShapeWidth(right, u.right);
      if |m| == Width(t) {
        var n := Width(left);
        SameShapeMatches(left, u.left, hist[..n], m[..n]);
        SameShapeMatches(right, u.right, hist[n..], m[n..]);
      }
  }

  lemma SameShapeWidth(t: Tree, u: Tree)
    requires SameShape(t, u)
    ensures Width(t) == Width(u)
  {
  }
}
