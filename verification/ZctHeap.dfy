/** The counted heap behind wsc2.h and ws.h: blocks with a count word whose high bit marks
    membership of the zero-count table, and who refers to whom. */
module ZctHeap {
  import opened Sequences

  /** An address; 0 is NULL. */
  type Ptr = nat

  const MASK: nat := 0x8000_0000_0000_0000
  const WORDS: nat := 0x1_0000_0000_0000_0000

  /** refcount_t: an unsigned 64-bit word. */
  type Word = w: nat | w < 0x1_0000_0000_0000_0000

  datatype Block = Block(rc: Word, tag: nat, kids: seq<Ptr>)

  type Heap = map<Ptr, Block>

  // ------------------------------------------------------------ the count word

  predicate Marked(w: Word) { w >= MASK }

  /** w & ~PUSHED_MASK */
  function Count(w: Word): (c: Word)
    ensures c < MASK
  {
    w % MASK
  }

  /** w | PUSHED_MASK */
  function Mark(w: Word): (v: Word)
    ensures Marked(v) && Count(v) == Count(w)
  {
    if Marked(w) then w else w + MASK
  }

  function Unmark(w: Word): (v: Word)
    ensures !Marked(v) && Count(v) == Count(w)
  {
    Count(w)
  }

  function Increment(w: Word): Word { (w + 1) % WORDS }
  function Decrement(w: Word): Word { (w + WORDS - 1) % WORDS }

  /** Counting does not disturb the mark while the count stays within 63 bits. */
  lemma IncrementCounts(w: Word)
    requires Count(w) + 1 < MASK
    ensures Count(Increment(w)) == Count(w) + 1 && (Marked(Increment(w)) <==> Marked(w))
  {
  }

  /** ... and the test for zero sees a marked word as non-zero, whatever its count. */
  lemma DecrementCounts(w: Word)
    requires Count(w) > 0
    ensures Count(Decrement(w)) == Count(w) - 1 && (Marked(Decrement(w)) <==> Marked(w))
    ensures Decrement(w) == 0 <==> Count(w) == 1 && !Marked(w)
  {
  }

  // ------------------------------------------------------------ references

  ghost predicate Bounded(h: Heap, n: nat)
  {
    forall p :: p in h ==> 0 < p < n
  }

  /** All references held in blocks below address n, with multiplicity. */
  function HeapRefs(h: Heap, n: nat): multiset<Ptr>
  {
    if n == 0 then multiset{}
    else HeapRefs(h, n - 1) + if n - 1 in h then multiset(h[n - 1].kids) else multiset{}
  }

  /** References depend on the kids only. */
  lemma {:induction false} RefsSame(h: Heap, h': Heap, n: nat)
    requires forall p :: p < n ==> (p in h <==> p in h') && (p in h ==> h[p].kids == h'[p].kids)
    ensures HeapRefs(h, n) == HeapRefs(h', n)
  {
    if n == 0 {
    } else {
      RefsSame(h, h', n - 1);
    }
  }

  lemma {:induction false} RefsRemove(h: Heap, p: Ptr, n: nat)
    requires p in h && p < n
    ensures HeapRefs(h, n) == HeapRefs(h - {p}, n) + multiset(h[p].kids)
  {
    if p == n - 1 {
      RefsSame(h, h - {p}, n - 1);
    } else {
      RefsRemove(h, p, n - 1);
    }
  }

  lemma {:induction false} RefsBeyond(h: Heap, n: nat, m: nat)
    requires Bounded(h, n) && n <= m
    ensures HeapRefs(h, m) == HeapRefs(h, n)
  {
    if n < m {
      RefsBeyond(h, n, m - 1);
    }
  }

  lemma {:induction false} RefFrom(h: Heap, n: nat, q: Ptr)
    requires HeapRefs(h, n)[q] > 0
    ensures exists p :: p in h && p < n && q in h[p].kids
  {
    if n - 1 in h && q in h[n - 1].kids {
    } else {
      RefFrom(h, n - 1, q);
    }
  }

  lemma {:induction false} KidIsRef(h: Heap, n: nat, p: Ptr, q: Ptr)
    requires p in h && p < n && q in h[p].kids
    ensures HeapRefs(h, n)[q] > 0
  {
    RefsRemove(h, p, n);
  }

  // ------------------------------------------------------------ the invariant of the counts

  /** No reference leads outside the heap. */
  ghost predicate Closed(h: Heap, extra: multiset<Ptr>)
  {
    && (forall p, q :: p in h && q in h[p].kids && q != 0 ==> q in h)
    && (forall q :: q in extra && q != 0 ==> q in h)
  }

  /** Every count is the number of references: from blocks and from `extra`. */
  ghost predicate Counted(h: Heap, n: nat, extra: multiset<Ptr>)
  {
    forall p :: p in h ==> Count(h[p].rc) == HeapRefs(h, n)[p] + extra[p]
  }

  /** A block that nothing refers to is in the table. */
  ghost predicate ZeroMarked(h: Heap)
  {
    forall p :: p in h && Count(h[p].rc) == 0 ==> Marked(h[p].rc)
  }

  ghost predicate Sound(h: Heap, n: nat, extra: multiset<Ptr>)
  {
    Bounded(h, n) && Closed(h, extra) && Counted(h, n, extra) && ZeroMarked(h)
  }

  /** h' has some of the blocks of h, with the same contents and marks. */
  ghost predicate Remains(h: Heap, h': Heap)
  {
    forall p :: p in h' ==> p in h && h'[p].kids == h[p].kids && h'[p].tag == h[p].tag
                            && (Marked(h'[p].rc) <==> Marked(h[p].rc))
  }

  /** Taking a dead block out turns its kids into references still to be dropped. */
  lemma Detach(h: Heap, n: nat, extra: multiset<Ptr>, p: Ptr)
    requires Bounded(h, n) && Closed(h, extra) && Counted(h, n, extra) && p in h && Count(h[p].rc) == 0
    requires ZeroMarked(h - {p})
    ensures Sound(h - {p}, n, extra + multiset(h[p].kids))
    ensures HeapRefs(h - {p}, n) + (extra + multiset(h[p].kids)) == HeapRefs(h, n) + extra
    ensures (HeapRefs(h, n) + extra)[p] == 0
  {
    RefsRemove(h, p, n);
    forall q, k | q in h - {p} && k in h[q].kids && k != 0
      ensures k in h - {p}
    {
      KidIsRef(h, n, q, k);
    }
  }

  /** Dropping one reference. */
  lemma DropOne(h: Heap, n: nat, extra: multiset<Ptr>, c: Ptr, rc: Word)
    requires Sound(h, n, extra + multiset{c}) && c in h && rc == Decrement(h[c].rc)
    ensures Count(h[c].rc) > 0
    ensures var h' := h[c := h[c].(rc := rc)];
            Bounded(h', n) && Closed(h', extra) && Counted(h', n, extra) && Remains(h, h')
    ensures var h' := h[c := h[c].(rc := rc)];
            && ZeroMarked(h' - {c}) && (rc == 0 <==> Count(rc) == 0 && !Marked(rc))
            && (rc != 0 ==> ZeroMarked(h'))
    ensures var h' := h[c := h[c].(rc := rc)];
            HeapRefs(h', n) == HeapRefs(h, n)
  {
    var h' := h[c := h[c].(rc := rc)];
    RefsSame(h, h', n);
    DecrementCounts(h[c].rc);
  }

  lemma DropNull(h: Heap, n: nat, extra: multiset<Ptr>)
    requires Sound(h, n, extra + multiset{0})
    ensures Sound(h, n, extra)
  {
  }

  /** Nothing refers to the blocks that are being taken apart. */
  ghost predicate Unreferenced(h: Heap, n: nat, extra: multiset<Ptr>, dying: set<Ptr>)
  {
    forall d :: d in dying ==> (HeapRefs(h, n) + extra)[d] == 0
  }

  /** The log lists what is gone, each block once. */
  ghost predicate Logged(log: seq<Ptr>, h: Heap, h': Heap)
  {
    && Distinct(log)
    && h'.Keys <= h.Keys
    && forall q :: q in log <==> q in h && q !in h'
  }

  lemma LoggedTrans(a: seq<Ptr>, b: seq<Ptr>, h: Heap, h': Heap, h'': Heap)
    requires Logged(a, h, h') && Logged(b, h', h'')
    ensures Logged(a + b, h, h'')
  {
    forall i, j | 0 <= i < j < |a + b|
      ensures (a + b)[i] != (a + b)[j]
    {
      if i < |a| <= j {
        assert a[i] in a && b[j - |a|] in b;
      }
    }
  }

  /** The log is in the order in which the blocks began to be freed: whoever holds a block of the
      log began before it, or was being freed already. */
  ghost predicate Ordered(log: seq<Ptr>, h: Heap, dying: set<Ptr>)
  {
    forall i, q :: 0 <= i < |log| && q in h && log[i] in h[q].kids ==> q in dying || q in log[..i]
  }

  lemma OrderedTrans(a: seq<Ptr>, b: seq<Ptr>, h: Heap, h': Heap, dying: set<Ptr>)
    requires Logged(a, h, h') && Ordered(a, h, dying) && Ordered(b, h', dying)
    requires forall q :: q in h' ==> h'[q].kids == h[q].kids
    ensures Ordered(a + b, h, dying)
  {
    forall i, q | 0 <= i < |a + b| && q in h && (a + b)[i] in h[q].kids
      ensures q in dying || q in (a + b)[..i]
    {
      if i < |a| {
        assert (a + b)[..i] == a[..i];
      } else {
        assert (a + b)[..i] == a + b[..i - |a|];
        assert q in h' || q in a;
      }
    }
  }

  /** The block that began first, before what its children add. */
  lemma OrderedFirst(p: Ptr, log: seq<Ptr>, h: Heap, dying: set<Ptr>)
    requires Ordered(log, h, dying + {p}) && forall q :: q in h && p in h[q].kids ==> q in dying
    ensures Ordered([p] + log, h, dying)
  {
    forall i, q | 0 <= i < |log| + 1 && q in h && ([p] + log)[i] in h[q].kids
      ensures q in dying || q in ([p] + log)[..i]
    {
      if i > 0 {
        assert ([p] + log)[..i] == [p] + log[..i - 1];
        assert log[i - 1] in h[q].kids;
      }
    }
  }

  lemma LoggedFirst(log: seq<Ptr>, h: Heap, h': Heap, p: Ptr)
    requires Logged(log, h, h') && p in h'
    ensures Logged([p] + log, h, h' - {p})
  {
  }

  /** The references still to be dropped after child j. */
  lemma KidsLeft(kids: seq<Ptr>, j: nat, outside: multiset<Ptr>)
    requires j < |kids|
    ensures outside + multiset(kids[j..]) == (outside + multiset(kids[j + 1..])) + multiset{kids[j]}
  {
    assert kids[j..] == [kids[j]] + kids[j + 1..];
  }

  /** Marked blocks other than p are still there. */
  ghost predicate KeepsMarked(h: Heap, h': Heap, p: Ptr)
  {
    forall q :: q in h && Marked(h[q].rc) && q != p ==> q in h'
  }

  /** The blocks being taken apart are as they were. */
  ghost predicate Untouched(h: Heap, h': Heap, dying: set<Ptr>)
  {
    forall d :: d in dying ==> d in h && d in h' && h'[d] == h[d]
  }

  /** From h to h': blocks only disappear, the marked ones (but p) stay, those being taken
      apart are untouched, and the log says what went, in what order. */
  ghost predicate Progress(h: Heap, h': Heap, p: Ptr, dying: set<Ptr>, log: seq<Ptr>)
  {
    Untouched(h, h', dying) && Remains(h, h') && KeepsMarked(h, h', p) && Logged(log, h, h') && Ordered(log, h, dying)
  }

  lemma Compose(h: Heap, h': Heap, h'': Heap, p: Ptr, dying: set<Ptr>, a: seq<Ptr>, b: seq<Ptr>)
    requires 0 !in h && Progress(h, h', p, dying, a) && Progress(h', h'', 0, dying, b)
    ensures Progress(h, h'', p, dying, a + b)
  {
    LoggedTrans(a, b, h, h', h'');
    OrderedTrans(a, b, h, h', dying);
  }

  /** Only the count of c has changed; c may then go if it was not marked. */
  lemma ComposeDrop(h: Heap, h': Heap, h'': Heap, c: Ptr, dying: set<Ptr>, log: seq<Ptr>)
    requires c in h && h'.Keys == h.Keys && Progress(h, h', 0, dying, []) && !Marked(h[c].rc)
    requires Progress(h', h'', c, dying, log)
    ensures Progress(h, h'', 0, dying, log)
  {
  }

  /** The state of a sweep: what is live, with `extra` references from outside it. */
  ghost predicate Consistent(h: Heap, n: nat, dying: set<Ptr>, extra: multiset<Ptr>)
  {
    && dying <= h.Keys && Bounded(h, n)
    && Sound(h - dying, n, extra)
    && Unreferenced(h - dying, n, extra, dying)
  }

  /** As Consistent, but for p, which is unreferenced and about to go. */
  ghost predicate Dead(h: Heap, n: nat, dying: set<Ptr>, extra: multiset<Ptr>, p: Ptr)
  {
    && dying <= h.Keys && Bounded(h, n) && p in h && p !in dying
    && Closed(h - dying, extra) && Counted(h - dying, n, extra)
    && Count(h[p].rc) == 0 && ZeroMarked(h - dying - {p})
    && Unreferenced(h - dying, n, extra, dying)
  }

  lemma StartFree(h: Heap, n: nat, dying: set<Ptr>, extra: multiset<Ptr>, p: Ptr)
    requires Dead(h, n, dying, extra, p)
    ensures Consistent(h, n, dying + {p}, extra + multiset(h[p].kids))
    ensures Progress(h, h, p, dying + {p}, [])
  {
    Detach(h - dying, n, extra, p);
    assert h - dying - {p} == h - (dying + {p});
  }

  /** Whoever holds a block that may be freed is being freed itself. */
  lemma DeadHolders(h: Heap, n: nat, dying: set<Ptr>, extra: multiset<Ptr>, p: Ptr, q: Ptr)
    requires Dead(h, n, dying, extra, p) && q in h && p in h[q].kids
    ensures q in dying
  {
    if q !in dying {
      KidIsRef(h - dying, n, q, p);
    }
  }

  lemma EndFree(h0: Heap, h: Heap, n: nat, dying: set<Ptr>, extra: multiset<Ptr>, p: Ptr, log: seq<Ptr>)
    requires Dead(h0, n, dying, extra, p)
    requires Consistent(h, n, dying + {p}, extra) && Progress(h0, h, p, dying + {p}, log)
    ensures Consistent(h - {p}, n, dying, extra) && Progress(h0, h - {p}, p, dying, [p] + log)
  {
    LoggedFirst(log, h0, h, p);
    forall q | q in h0 && p in h0[q].kids
      ensures q in dying
    {
      DeadHolders(h0, n, dying, extra, p, q);
    }
    OrderedFirst(p, log, h0, dying);
    assert h - {p} - dying == h - (dying + {p});
  }

  lemma PendingIsLive(h: Heap, n: nat, dying: set<Ptr>, extra: multiset<Ptr>, c: Ptr)
    requires Consistent(h, n, dying, extra + multiset{c}) && c != 0
    ensures c in h && c !in dying && Count(h[c].rc) > 0
  {
    assert (extra + multiset{c})[c] > 0;
    assert c in h - dying;
  }

  lemma UpdateBeside(h: Heap, dying: set<Ptr>, c: Ptr, b: Block)
    requires c in h && c !in dying
    ensures h[c := b] - dying == (h - dying)[c := b]
    ensures h[c := b] - dying - {c} == h - dying - {c}
  {
  }

  lemma DropChildRef(h: Heap, n: nat, dying: set<Ptr>, extra: multiset<Ptr>, c: Ptr)
    requires Consistent(h, n, dying, extra + multiset{c})
    ensures c == 0 ==> Consistent(h, n, dying, extra)
    ensures c != 0 ==>
      && c in h
      && var rc := Decrement(h[c].rc);
         var h' := h[c := h[c].(rc := rc)];
         && Progress(h, h', 0, dying, [])
         && (rc != 0 ==> Consistent(h', n, dying, extra))
         && (rc == 0 ==> Dead(h', n, dying, extra, c) && !Marked(h[c].rc))
  {
    if c == 0 {
      DropNull(h - dying, n, extra);
    } else {
      PendingIsLive(h, n, dying, extra, c);
      var rc := Decrement(h[c].rc);
      DropOne(h - dying, n, extra, c, rc);
      UpdateBeside(h, dying, c, h[c].(rc := rc));
      DecrementCounts(h[c].rc);
      DropProgress(h, dying, c, rc);
    }
  }

  lemma DropProgress(h: Heap, dying: set<Ptr>, c: Ptr, rc: Word)
    requires c in h && c !in dying && dying <= h.Keys && (Marked(rc) <==> Marked(h[c].rc))
    ensures Progress(h, h[c := h[c].(rc := rc)], 0, dying, [])
  {
  }
}
