/** The mutator and the sweep on values: one invariant over every run, and what a sweep keeps. */
module ZctState {
  import opened Sequences
  import opened ZctHeap

  /** limit is above every address handed out so far; globals are the counted root slots. */
  datatype State = State(heap: Heap, limit: nat, tags: seq<nat>, ptrs: seq<Ptr>, globals: seq<Ptr>)

  /** A block is marked exactly if it is in the table; the table holds it once, with its tag. */
  ghost predicate Listed(h: Heap, tags: seq<nat>, ptrs: seq<Ptr>)
  {
    && |tags| == |ptrs| && Distinct(ptrs)
    && (forall i :: 0 <= i < |ptrs| ==> ptrs[i] in h && h[ptrs[i]].tag == tags[i])
    && forall p :: p in h ==> (Marked(h[p].rc) <==> p in ptrs)
  }

  ghost predicate Inv(s: State)
  {
    Sound(s.heap, s.limit, multiset(s.globals)) && Listed(s.heap, s.tags, s.ptrs)
  }

  /** PUSH_ZCT, when the table has room. */
  function Push(s: State, tag: nat, p: Ptr): State
    requires p != 0 ==> p in s.heap
  {
    if p == 0 || Marked(s.heap[p].rc) then s
    else s.(heap := s.heap[p := s.heap[p].(rc := Mark(s.heap[p].rc))], tags := s.tags + [tag], ptrs := s.ptrs + [p])
  }

  /** Decrement, and push what has become zero. */
  function Release(s: State, p: Ptr): State
    requires p != 0 ==> p in s.heap
  {
    if p == 0 then s
    else
      var rc := Decrement(s.heap[p].rc);
      var t := s.(heap := s.heap[p := s.heap[p].(rc := rc)]);
      if rc == 0 then Push(t, t.heap[p].tag, p) else t
  }

  /** Increment. */
  function Acquire(s: State, p: Ptr): State
    requires p != 0 ==> p in s.heap
  {
    if p == 0 then s else s.(heap := s.heap[p := s.heap[p].(rc := Increment(s.heap[p].rc))])
  }

  datatype Op =
    | Alloc(p: Ptr, tag: nat, size: nat)
    | Store(p: Ptr, slot: nat, v: Ptr)
    | SetGlobal(i: nat, v: Ptr)
    | PushOp(q: Ptr)

  function Zeros(n: nat): (s: seq<Ptr>)
    ensures |s| == n
    ensures forall q :: q in s ==> q == 0
  {
    seq(n, i => 0)
  }

  /** What the generated code guarantees: malloc returns an unused address, the mutator only
      touches live blocks, and a count never reaches 63 bits. */
  ghost predicate Enabled(s: State, op: Op)
  {
    match op
    case Alloc(p, _, _) => p > 0 && p !in s.heap
    case Store(p, slot, v) => p in s.heap && slot < |s.heap[p].kids| && CanHold(s, v)
    case SetGlobal(i, v) => i < |s.globals| && CanHold(s, v)
    case PushOp(q) => q != 0 ==> q in s.heap
  }

  ghost predicate CanHold(s: State, v: Ptr)
  {
    v != 0 ==> v in s.heap && Count(s.heap[v].rc) + 1 < MASK
  }

  function SetKid(s: State, p: Ptr, slot: nat, v: Ptr): State
    requires p in s.heap && slot < |s.heap[p].kids|
  {
    s.(heap := s.heap[p := s.heap[p].(kids := s.heap[p].kids[slot := v])])
  }

  lemma ReleaseShape(s: State, p: Ptr)
    requires p != 0 ==> p in s.heap
    ensures Release(s, p).heap.Keys == s.heap.Keys && Release(s, p).globals == s.globals
    ensures forall q :: q in s.heap ==>
      Release(s, p).heap[q].kids == s.heap[q].kids && Release(s, p).heap[q].tag == s.heap[q].tag
  {
  }

  ghost function Apply(s: State, op: Op): State
    requires Inv(s) && Enabled(s, op)
  {
    match op
    case Alloc(p, tag, size) =>
      Push(s.(heap := s.heap[p := Block(0, tag, Zeros(size))], limit := if p < s.limit then s.limit else p + 1), tag, p)
    case Store(p, slot, v) =>
      var was := s.heap[p].kids[slot];
      ReleaseShape(s, was);
      Acquire(SetKid(Release(s, was), p, slot, v), v)
    case SetGlobal(i, v) =>
      var t := Release(s, s.globals[i]);
      ReleaseShape(s, s.globals[i]);
      Acquire(t.(globals := t.globals[i := v]), v)
    case PushOp(q) => Push(s, if q == 0 then 0 else s.heap[q].tag, q)
  }

  // ------------------------------------------------------------ the invariant survives each step

  /** Same blocks with the same contents; counts and marks may differ. */
  ghost predicate SameBlocks(h: Heap, h': Heap)
  {
    h'.Keys == h.Keys && forall q :: q in h ==> h'[q].kids == h[q].kids && h'[q].tag == h[q].tag
  }

  lemma PushListed(s: State, p: Ptr)
    requires p != 0 && p in s.heap && Listed(s.heap, s.tags, s.ptrs)
    ensures var t := Push(s, s.heap[p].tag, p);
            && Listed(t.heap, t.tags, t.ptrs) && Marked(t.heap[p].rc) && Count(t.heap[p].rc) == Count(s.heap[p].rc)
            && SameBlocks(s.heap, t.heap) && t.globals == s.globals && t.limit == s.limit
            && t.heap - {p} == s.heap - {p}
  {
  }

  /** Two heaps with the same blocks, whose counts differ as their references do. */
  lemma RecountSound(h: Heap, h': Heap, n: nat, e: multiset<Ptr>, e': multiset<Ptr>, less: Ptr, more: Ptr)
    requires Sound(h, n, e) && h'.Keys == h.Keys && (more != 0 ==> more in h)
    requires forall q :: q in h' ==> (forall k :: k in h'[q].kids ==> k in h[q].kids || k == more)
    requires forall q :: q in e' ==> q in e || q == more
    requires HeapRefs(h', n) + e' + multiset{less} == HeapRefs(h, n) + e + multiset{more}
    requires forall q :: q in h ==>
      Count(h'[q].rc) + (if q == less then 1 else 0) == Count(h[q].rc) + (if q == more then 1 else 0)
    requires ZeroMarked(h')
    ensures Sound(h', n, e')
  {
    forall q | q in h'
      ensures Count(h'[q].rc) == HeapRefs(h', n)[q] + e'[q]
    {
      assert (HeapRefs(h', n) + e' + multiset{less})[q] == (HeapRefs(h, n) + e + multiset{more})[q];
    }
  }

  lemma {:induction false} RefsUpdate(h: Heap, p: Ptr, slot: nat, v: Ptr, h': Heap, n: nat)
    requires p in h && p < n && slot < |h[p].kids| && h'.Keys == h.Keys
    requires h'[p].kids == h[p].kids[slot := v]
    requires forall q :: q in h && q != p ==> h'[q].kids == h[q].kids
    ensures HeapRefs(h', n) + multiset{h[p].kids[slot]} == HeapRefs(h, n) + multiset{v}
  {
    RefsRemove(h, p, n);
    RefsRemove(h', p, n);
    RefsSame(h - {p}, h' - {p}, n);
    var kids := h[p].kids;
    assert multiset(kids[slot := v]) + multiset{kids[slot]} == multiset(kids) + multiset{v} by {
      UpdateCount(kids, slot, v);
    }
  }

  lemma UpdateCount(s: seq<Ptr>, i: nat, v: Ptr)
    requires i < |s|
    ensures multiset(s[i := v]) + multiset{s[i]} == multiset(s) + multiset{v}
  {
  }

  /** Counts after one reference to `less` was dropped and one to `more` was taken. */
  ghost predicate Recounted(h: Heap, h': Heap, less: Ptr, more: Ptr)
  {
    h'.Keys == h.Keys && forall q :: q in h ==>
      Count(h'[q].rc) + (if q == less then 1 else 0) == Count(h[q].rc) + (if q == more then 1 else 0)
  }

  lemma ReleaseFacts(s: State, p: Ptr)
    requires 0 !in s.heap && Listed(s.heap, s.tags, s.ptrs) && ZeroMarked(s.heap)
    requires p != 0 ==> p in s.heap && Count(s.heap[p].rc) > 0
    ensures var t := Release(s, p);
            && Listed(t.heap, t.tags, t.ptrs) && ZeroMarked(t.heap) && SameBlocks(s.heap, t.heap)
            && Recounted(s.heap, t.heap, p, 0) && t.globals == s.globals && t.limit == s.limit
  {
    if p != 0 {
      DecrementCounts(s.heap[p].rc);
      var rc := Decrement(s.heap[p].rc);
      var t := s.(heap := s.heap[p := s.heap[p].(rc := rc)]);
      if rc == 0 {
        PushListed(t, p);
        assert forall q :: q in t.heap && q != p ==> q in t.heap - {p};
        var u := Push(t, t.heap[p].tag, p);
        assert forall q :: q in u.heap && q != p ==> u.heap[q] == (u.heap - {p})[q] == (t.heap - {p})[q] == s.heap[q];
      }
    }
  }

  lemma AcquireFacts(s: State, v: Ptr)
    requires 0 !in s.heap && Listed(s.heap, s.tags, s.ptrs) && ZeroMarked(s.heap) && CanHold(s, v)
    ensures var t := Acquire(s, v);
            && Listed(t.heap, t.tags, t.ptrs) && ZeroMarked(t.heap) && SameBlocks(s.heap, t.heap)
            && Recounted(s.heap, t.heap, 0, v) && t.globals == s.globals && t.limit == s.limit
  {
    if v != 0 {
      IncrementCounts(s.heap[v].rc);
    }
  }

  lemma StoreShape(s: State, p: Ptr, slot: nat, v: Ptr)
    requires Inv(s) && Enabled(s, Store(p, slot, v))
    ensures var (w, was) := (Apply(s, Store(p, slot, v)), s.heap[p].kids[slot]);
            && Listed(w.heap, w.tags, w.ptrs) && ZeroMarked(w.heap) && Recounted(s.heap, w.heap, was, v)
            && w.globals == s.globals && w.limit == s.limit
            && w.heap[p].kids == s.heap[p].kids[slot := v]
            && forall q :: q in s.heap && q != p ==> w.heap[q].kids == s.heap[q].kids
  {
    var was := s.heap[p].kids[slot];
    assert was in s.heap[p].kids;
    KidIsRef(s.heap, s.limit, p, was);
    ReleaseFacts(s, was);
    var t := Release(s, was);
    var u := SetKid(t, p, slot, v);
    SetKidFacts(t, p, slot, v);
    AcquireFacts(u, v);
    var w := Acquire(u, v);
    RecountTrans(s.heap, t.heap, u.heap, was, 0);
    RecountTrans(s.heap, u.heap, w.heap, was, v);
  }

  lemma StoreInv(s: State, p: Ptr, slot: nat, v: Ptr)
    requires Inv(s) && Enabled(s, Store(p, slot, v))
    ensures Inv(Apply(s, Store(p, slot, v)))
  {
    var w, was, e := Apply(s, Store(p, slot, v)), s.heap[p].kids[slot], multiset(s.globals);
    StoreShape(s, p, slot, v);
    RefsUpdate(s.heap, p, slot, v, w.heap, s.limit);
    AddBoth(HeapRefs(w.heap, s.limit), HeapRefs(s.heap, s.limit), e, was, v);
    RecountSound(s.heap, w.heap, s.limit, e, e, was, v);
  }

  lemma AddBoth(a: multiset<Ptr>, b: multiset<Ptr>, e: multiset<Ptr>, w: Ptr, v: Ptr)
    requires a + multiset{w} == b + multiset{v}
    ensures a + e + multiset{w} == b + e + multiset{v}
  {
    assert a + e + multiset{w} == (a + multiset{w}) + e;
    assert b + e + multiset{v} == (b + multiset{v}) + e;
  }

  lemma AddFront(a: multiset<Ptr>, e: multiset<Ptr>, e': multiset<Ptr>, w: Ptr, v: Ptr)
    requires e' + multiset{w} == e + multiset{v}
    ensures a + e' + multiset{w} == a + e + multiset{v}
    ensures forall q :: q in e' ==> q in e || q == v
  {
    assert a + e' + multiset{w} == a + (e' + multiset{w});
    assert a + e + multiset{v} == a + (e + multiset{v});
    forall q | q in e'
      ensures q in e || q == v
    {
      assert (e' + multiset{w})[q] == (e + multiset{v})[q];
    }
  }

  /** Setting a kid changes no count and no mark. */
  lemma SetKidFacts(s: State, p: Ptr, slot: nat, v: Ptr)
    requires p in s.heap && slot < |s.heap[p].kids|
    requires Listed(s.heap, s.tags, s.ptrs) && ZeroMarked(s.heap)
    ensures var t := SetKid(s, p, slot, v);
            && Listed(t.heap, t.tags, t.ptrs) && ZeroMarked(t.heap) && Recounted(s.heap, t.heap, 0, 0)
            && t.heap.Keys == s.heap.Keys && t.globals == s.globals && t.limit == s.limit
            && t.heap[p].kids == s.heap[p].kids[slot := v]
            && forall q :: q in s.heap && q != p ==> t.heap[q].kids == s.heap[q].kids
  {
  }

  lemma RecountTrans(h: Heap, h': Heap, h'': Heap, less: Ptr, more: Ptr)
    requires 0 !in h && Recounted(h, h', less, 0) && Recounted(h', h'', 0, more)
    ensures Recounted(h, h'', less, more)
  {
  }

  lemma SetGlobalInv(s: State, i: nat, v: Ptr)
    requires Inv(s) && Enabled(s, SetGlobal(i, v))
    ensures Inv(Apply(s, SetGlobal(i, v)))
  {
    var was, e := s.globals[i], multiset(s.globals);
    assert was in e;
    ReleaseFacts(s, was);
    var t := Release(s, was);
    var u := t.(globals := t.globals[i := v]);
    AcquireFacts(u, v);
    var w := Acquire(u, v);
    RefsSame(s.heap, w.heap, s.limit);
    UpdateCount(s.globals, i, v);
    AddFront(HeapRefs(s.heap, s.limit), e, multiset(w.globals), was, v);
    RecountTrans(s.heap, t.heap, w.heap, was, v);
    RecountSound(s.heap, w.heap, s.limit, e, multiset(w.globals), was, v);
  }

  lemma NoRefsTo(h: Heap, n: nat, e: multiset<Ptr>, p: Ptr)
    requires Closed(h, e) && p != 0 && p !in h
    ensures HeapRefs(h, n)[p] == 0 && e[p] == 0
  {
    if HeapRefs(h, n)[p] > 0 {
      RefFrom(h, n, p);
    }
  }

  /** A new block of null slots, marked at once. */
  lemma AllocSound(h: Heap, m: nat, n: nat, e: multiset<Ptr>, p: Ptr, b: Block)
    requires Sound(h, m, e) && p > 0 && p !in h && m <= n && p < n
    requires Count(b.rc) == 0 && Marked(b.rc) && forall k :: k in b.kids ==> k == 0
    ensures Sound(h[p := b], n, e)
  {
    var h' := h[p := b];
    NoRefsTo(h, m, e, p);
    forall q | q in h'
      ensures Count(h'[q].rc) == HeapRefs(h', n)[q] + e[q]
    {
      AllocRefs(h, m, n, p, b, q);
    }
  }

  lemma AllocRefs(h: Heap, m: nat, n: nat, p: Ptr, b: Block, q: Ptr)
    requires Bounded(h, m) && p !in h && p < n && m <= n && q != 0 && forall k :: k in b.kids ==> k == 0
    ensures HeapRefs(h[p := b], n)[q] == HeapRefs(h, m)[q]
  {
    RefsBeyond(h, m, n);
    RefsRemove(h[p := b], p, n);
    assert h[p := b] - {p} == h;
    assert q !in b.kids && q !in multiset(b.kids);
  }

  lemma AllocInv(s: State, p: Ptr, tag: nat, size: nat)
    requires Inv(s) && Enabled(s, Alloc(p, tag, size))
    ensures Inv(Apply(s, Alloc(p, tag, size)))
  {
    var n := if p < s.limit then s.limit else p + 1;
    var b := Block(Mark(0), tag, Zeros(size));
    AllocSound(s.heap, s.limit, n, multiset(s.globals), p, b);
    assert Apply(s, Alloc(p, tag, size)).heap == s.heap[p := b];
    AllocListed(s, p, tag, size);
  }

  lemma AllocListed(s: State, p: Ptr, tag: nat, size: nat)
    requires Inv(s) && Enabled(s, Alloc(p, tag, size))
    ensures var w := Apply(s, Alloc(p, tag, size));
            Listed(w.heap, w.tags, w.ptrs)
  {
    assert p !in s.ptrs;
  }

  lemma PushInv(s: State, q: Ptr)
    requires Inv(s) && Enabled(s, PushOp(q))
    ensures Inv(Apply(s, PushOp(q)))
  {
    if q != 0 {
      PushListed(s, q);
      var t := Push(s, s.heap[q].tag, q);
      forall p | p in t.heap && p != q
        ensures t.heap[p] == s.heap[p]
      {
        assert t.heap[p] == (t.heap - {q})[p] == (s.heap - {q})[p];
      }
      MarkSound(s.heap, t.heap, q, s.limit, multiset(s.globals));
    }
  }

  /** Marking a block changes no count. */
  lemma MarkSound(h: Heap, h': Heap, q: Ptr, n: nat, e: multiset<Ptr>)
    requires Sound(h, n, e) && q in h && h'.Keys == h.Keys && h'[q].kids == h[q].kids
      && Count(h'[q].rc) == Count(h[q].rc)
    requires Marked(h'[q].rc) && forall p :: p in h && p != q ==> h'[p] == h[p]
    ensures Sound(h', n, e)
  {
    RefsSame(h, h', n);
  }

  lemma StepInv(s: State, op: Op)
    requires Inv(s) && Enabled(s, op)
    ensures Inv(Apply(s, op))
  {
    match op
    case Alloc(p, tag, size) => AllocInv(s, p, tag, size);
    case Store(p, slot, v) => StoreInv(s, p, slot, v);
    case SetGlobal(i, v) => SetGlobalInv(s, i, v);
    case PushOp(q) => PushInv(s, q);
  }

  // ------------------------------------------------------------ what each step writes

  lemma AllocWrites(s: State, p: Ptr, tag: nat, size: nat)
    requires Inv(s) && Enabled(s, Alloc(p, tag, size))
    ensures var t := Apply(s, Alloc(p, tag, size));
            && t.heap.Keys == s.heap.Keys + {p} && t.globals == s.globals
            && t.heap[p].tag == tag && |t.heap[p].kids| == size && (forall k <- t.heap[p].kids :: k == 0)
            && Count(t.heap[p].rc) == 0 && forall q :: q in s.heap ==> t.heap[q] == s.heap[q]
  {
  }

  lemma StoreWrites(s: State, p: Ptr, slot: nat, v: Ptr)
    requires Inv(s) && Enabled(s, Store(p, slot, v))
    ensures var t := Apply(s, Store(p, slot, v));
            && t.heap.Keys == s.heap.Keys && t.globals == s.globals
            && t.heap[p].kids == s.heap[p].kids[slot := v]
            && (forall q :: q in s.heap && q != p ==> t.heap[q].kids == s.heap[q].kids)
            && forall q :: q in s.heap ==> t.heap[q].tag == s.heap[q].tag
  {
    var was := s.heap[p].kids[slot];
    assert was in s.heap[p].kids;
    ReleaseShape(s, was);
    StoreShape(s, p, slot, v);
  }

  lemma RootWrites(s: State, i: nat, v: Ptr)
    requires Inv(s) && Enabled(s, SetGlobal(i, v))
    ensures var t := Apply(s, SetGlobal(i, v));
            && t.heap.Keys == s.heap.Keys && t.globals == s.globals[i := v]
            && forall q :: q in s.heap ==> t.heap[q].kids == s.heap[q].kids && t.heap[q].tag == s.heap[q].tag
  {
    assert s.globals[i] in multiset(s.globals);
    ReleaseShape(s, s.globals[i]);
  }

  /** A store in the steps the code makes. */
  lemma StoreSteps(s: State, p: Ptr, slot: nat, v: Ptr, was: Ptr)
    requires Inv(s) && Enabled(s, Store(p, slot, v)) && was == s.heap[p].kids[slot]
    ensures was != 0 ==> was in s.heap
    ensures var u := Release(s, was);
            && u.heap.Keys == s.heap.Keys && u.heap[p].kids == s.heap[p].kids
            && Apply(s, Store(p, slot, v)) == Acquire(SetKid(u, p, slot, v), v)
    ensures Inv(Apply(s, Store(p, slot, v)))
    ensures var t := Apply(s, Store(p, slot, v));
            && t.heap.Keys == s.heap.Keys && t.heap[p].kids == s.heap[p].kids[slot := v]
            && forall q :: q in s.heap && q != p ==> t.heap[q].kids == s.heap[q].kids
  {
    assert was in s.heap[p].kids;
    ReleaseShape(s, was);
    StoreWrites(s, p, slot, v);
    StepInv(s, Store(p, slot, v));
  }

  lemma RootSteps(s: State, i: nat, v: Ptr, was: Ptr)
    requires Inv(s) && Enabled(s, SetGlobal(i, v)) && was == s.globals[i]
    ensures was != 0 ==> was in s.heap
    ensures var u := Release(s, was);
            && u.heap.Keys == s.heap.Keys && u.globals == s.globals
            && Apply(s, SetGlobal(i, v)) == Acquire(u.(globals := u.globals[i := v]), v)
    ensures Inv(Apply(s, SetGlobal(i, v)))
    ensures var t := Apply(s, SetGlobal(i, v));
            && t.heap.Keys == s.heap.Keys && t.globals == s.globals[i := v]
            && forall q :: q in s.heap ==> t.heap[q].kids == s.heap[q].kids
  {
    assert was in multiset(s.globals);
    ReleaseShape(s, was);
    RootWrites(s, i, v);
    StepInv(s, SetGlobal(i, v));
  }

  // ------------------------------------------------------------ sweeps and runs

  /** The blocks missing from h' went one by one, each after all that held it in h. */
  ghost predicate FreedInOrder(h: Heap, h': Heap)
  {
    exists log: seq<Ptr> :: Logged(log, h, h') && Ordered(log, h, {})
  }

  /** What a sweep leaves: an empty table, and blocks with the contents they had, unmarked,
      each referred to from another of them or from a root; the others were freed after all that
      referred to them. */
  ghost predicate Swept(s: State, t: State)
  {
    && t.tags == [] && t.ptrs == [] && t.globals == s.globals && t.limit == s.limit
    && Sound(t.heap, t.limit, multiset(t.globals))
    && FreedInOrder(s.heap, t.heap)
    && forall p :: p in t.heap ==>
         p in s.heap && t.heap[p].kids == s.heap[p].kids && t.heap[p].tag == s.heap[p].tag
         && !Marked(t.heap[p].rc) && Count(t.heap[p].rc) > 0
  }

  /** A sweep that has come down to entry i: the rest of the table is still to be looked at. */
  ghost predicate Sweeping(s: State, h: Heap, i: nat, log: seq<Ptr>)
  {
    && i <= |s.ptrs| == |s.tags|
    && Consistent(h, s.limit, {}, multiset(s.globals))
    && Listed(h, s.tags[..i], s.ptrs[..i])
    && Logged(log, s.heap, h) && Ordered(log, s.heap, {})
    && forall p :: p in h ==> p in s.heap && h[p].kids == s.heap[p].kids && h[p].tag == s.heap[p].tag
  }

  lemma SweepStarts(s: State)
    requires Inv(s)
    ensures Sweeping(s, s.heap, |s.ptrs|, [])
  {
    assert s.tags[..|s.ptrs|] == s.tags && s.ptrs[..|s.ptrs|] == s.ptrs;
    assert s.heap - {} == s.heap;
  }

  /** The entry is live and marked; if nothing refers to it, it may be freed. */
  lemma SweepLooks(s: State, h: Heap, i: nat, log: seq<Ptr>)
    requires i < |s.ptrs| && Sweeping(s, h, i + 1, log)
    ensures var p := s.ptrs[i];
            && p in h && Marked(h[p].rc) && h[p].tag == s.tags[i]
            && (Count(h[p].rc) == 0 ==> Dead(h, s.limit, {}, multiset(s.globals), p))
  {
    var p := s.ptrs[i];
    assert s.ptrs[..i + 1][i] == p && s.tags[..i + 1][i] == s.tags[i];
    assert p in s.ptrs[..i + 1];
    assert h - {} == h;
  }

  lemma SweepFrees(s: State, h: Heap, h': Heap, i: nat, log: seq<Ptr>, more: seq<Ptr>)
    requires i < |s.ptrs| && Sweeping(s, h, i + 1, log)
    requires s.ptrs[i] !in h' && Consistent(h', s.limit, {}, multiset(s.globals))
      && Progress(h, h', s.ptrs[i], {}, more)
    ensures Sweeping(s, h', i, log + more)
  {
    LoggedTrans(log, more, s.heap, h, h');
    OrderedTrans(log, more, s.heap, h, {});
    ShorterTable(s.ptrs, i);
    forall j | 0 <= j < i
      ensures s.ptrs[..i][j] in h' && h'[s.ptrs[..i][j]].tag == s.tags[..i][j]
    {
      assert s.ptrs[..i + 1][j] == s.ptrs[j] && s.tags[..i + 1][j] == s.tags[j];
      assert s.ptrs[j] in s.ptrs[..i + 1] && s.ptrs[..i + 1][i] == s.ptrs[i];
      assert Marked(h[s.ptrs[j]].rc) && s.ptrs[j] != s.ptrs[i];
    }
  }

  lemma SweepUnmarks(s: State, h: Heap, i: nat, log: seq<Ptr>)
    requires i < |s.ptrs| && Sweeping(s, h, i + 1, log) && s.ptrs[i] in h && Count(h[s.ptrs[i]].rc) > 0
    ensures Sweeping(s, h[s.ptrs[i] := h[s.ptrs[i]].(rc := Unmark(h[s.ptrs[i]].rc))], i, log)
  {
    var p := s.ptrs[i];
    var h' := h[p := h[p].(rc := Unmark(h[p].rc))];
    assert h - {} == h && h' - {} == h';
    UnmarkSound(h, h', p, s.limit, multiset(s.globals));
    UnmarkListed(s, h, h', p, i);
  }

  lemma UnmarkSound(h: Heap, h': Heap, p: Ptr, n: nat, e: multiset<Ptr>)
    requires Sound(h, n, e) && p in h && Count(h[p].rc) > 0 && h' == h[p := h[p].(rc := Unmark(h[p].rc))]
    ensures Sound(h', n, e)
  {
    RefsSame(h, h', n);
  }

  lemma UnmarkListed(s: State, h: Heap, h': Heap, p: Ptr, i: nat)
    requires i < |s.ptrs| == |s.tags| && p == s.ptrs[i] && Listed(h, s.tags[..i + 1], s.ptrs[..i + 1])
    requires p in h && h' == h[p := h[p].(rc := Unmark(h[p].rc))]
    ensures Listed(h', s.tags[..i], s.ptrs[..i])
  {
    ShorterTable(s.ptrs, i);
    forall j | 0 <= j < i
      ensures s.ptrs[..i][j] in h' && h'[s.ptrs[..i][j]].tag == s.tags[..i][j]
    {
      assert s.ptrs[..i + 1][j] == s.ptrs[j] && s.tags[..i + 1][j] == s.tags[j];
    }
  }

  /** Dropping the last entry of a table without repetition. */
  lemma ShorterTable(ptrs: seq<Ptr>, i: nat)
    requires i < |ptrs| && Distinct(ptrs[..i + 1])
    ensures Distinct(ptrs[..i]) && ptrs[i] !in ptrs[..i]
    ensures forall p :: p in ptrs[..i + 1] <==> p in ptrs[..i] || p == ptrs[i]
  {
    assert forall j :: 0 <= j < i ==> ptrs[..i + 1][j] == ptrs[..i][j];
    assert ptrs[..i + 1][i] == ptrs[i];
    assert ptrs[..i + 1] == ptrs[..i] + [ptrs[i]];
  }

  lemma SweepEnds(s: State, h: Heap, log: seq<Ptr>)
    requires Sweeping(s, h, 0, log)
    ensures Swept(s, State(h, s.limit, [], [], s.globals))
  {
    assert h - {} == h;
    assert s.ptrs[..0] == [];
  }

  ghost predicate Initial(s: State)
  {
    s.heap == map[] && s.tags == [] && s.ptrs == [] && forall q :: q in s.globals ==> q == 0
  }

  ghost predicate Next(s: State, t: State)
  {
    Inv(s) ==> (exists op :: Enabled(s, op) && t == Apply(s, op)) || Swept(s, t)
  }

  /** Over every run of allocations, stores, root changes, pushes and sweeps. */
  lemma {:induction false} RunInv(run: seq<State>, k: nat)
    requires k < |run| && Initial(run[0])
    requires forall i :: 0 <= i < |run| - 1 ==> Next(run[i], run[i + 1])
    ensures Inv(run[k])
  {
    if k == 0 {
      InitialInv(run[0]);
    } else {
      RunInv(run, k - 1);
      assert Next(run[k - 1], run[k]);
      if !Swept(run[k - 1], run[k]) {
        var op :| Enabled(run[k - 1], op) && run[k] == Apply(run[k - 1], op);
        StepInv(run[k - 1], op);
      }
    }
  }

  lemma InitialInv(s: State)
    requires Initial(s)
    ensures Inv(s)
  {
    assert forall q :: q in multiset(s.globals) ==> q in s.globals;
  }

  // ------------------------------------------------------------ what survives a sweep

  /** A chain of references from a root slot to q. */
  ghost predicate Chain(h: Heap, globals: seq<Ptr>, path: seq<Ptr>, q: Ptr)
  {
    && |path| > 0 && path[0] in globals && path[|path| - 1] == q
    && (forall i :: 0 <= i < |path| ==> path[i] != 0 && path[i] in h)
    && forall i :: 0 <= i < |path| - 1 ==> path[i + 1] in h[path[i]].kids
  }

  ghost predicate Reachable(h: Heap, globals: seq<Ptr>, q: Ptr)
  {
    exists path :: Chain(h, globals, path, q)
  }

  /** A sweep never takes what a root can reach, on any heap. */
  lemma {:induction false} ReachedSurvives(s: State, t: State, path: seq<Ptr>, q: Ptr)
    requires Swept(s, t) && Chain(s.heap, s.globals, path, q)
    ensures q in t.heap
  {
    var k := |path| - 1;
    if k == 0 {
      assert q in multiset(t.globals);
    } else {
      var r := path[k - 1];
      assert Chain(s.heap, s.globals, path[..k], r);
      ReachedSurvives(s, t, path[..k], r);
      assert q in t.heap[r].kids;
    }
  }

  /** Every block of the set is held by a block of the set. */
  ghost predicate SelfHeld(h: Heap, blocks: set<Ptr>)
  {
    blocks <= h.Keys && forall q {:trigger HeldIn(h, blocks, q)} :: q in blocks ==> HeldIn(h, blocks, q)
  }

  ghost predicate HeldIn(h: Heap, blocks: set<Ptr>, q: Ptr)
  {
    exists p :: p in blocks && p in h && q in h[p].kids
  }

  lemma LongerChain(h: Heap, globals: seq<Ptr>, path: seq<Ptr>, p: Ptr, q: Ptr)
    requires Chain(h, globals, path, p) && q in h && q != 0 && q in h[p].kids
    ensures Chain(h, globals, path + [q], q)
  {
  }

  lemma HeldIsReachable(h: Heap, globals: seq<Ptr>, p: Ptr, q: Ptr)
    requires Reachable(h, globals, p) && p in h && q in h && q != 0 && q in h[p].kids
    ensures Reachable(h, globals, q)
  {
    var path :| Chain(h, globals, path, p);
    LongerChain(h, globals, path, p, q);
  }

  /** A survivor that no root reaches is held by another one. */
  lemma LostIsHeld(s: State, t: State, q: Ptr)
    requires Inv(s) && Swept(s, t) && q in t.heap && !Reachable(s.heap, s.globals, q)
    ensures exists p :: p in t.heap && q in t.heap[p].kids && !Reachable(s.heap, s.globals, p)
  {
    if q in s.globals {
      assert Chain(s.heap, s.globals, [q], q);
    }
    assert q !in multiset(t.globals);
    RefFrom(t.heap, t.limit, q);
    var p :| p in t.heap && p < t.limit && q in t.heap[p].kids;
    if Reachable(s.heap, s.globals, p) {
      HeldIsReachable(s.heap, s.globals, p, q);
    }
  }

  /** The first block of a self-held set cannot be freed, so none is. */
  lemma {:induction false} SelfHeldStays(h: Heap, log: seq<Ptr>, blocks: set<Ptr>, i: nat)
    requires Ordered(log, h, {}) && SelfHeld(h, blocks) && i < |log|
    ensures log[i] !in blocks
  {
    if log[i] in blocks {
      assert HeldIn(h, blocks, log[i]);
      var p :| p in blocks && p in h && log[i] in h[p].kids;
      assert p in log[..i];
      var j :| 0 <= j < i && log[j] == p;
      SelfHeldStays(h, log, blocks, j);
    }
  }

  /** What a sweep keeps, exactly and on any heap: the blocks a root reaches, and those in a set
      of blocks that hold each other. */
  lemma SurvivesExactly(s: State, t: State, q: Ptr)
    requires Inv(s) && Swept(s, t) && q in s.heap
    ensures q in t.heap <==> Reachable(s.heap, s.globals, q) || exists blocks :: SelfHeld(s.heap, blocks) && q in blocks
  {
    if Reachable(s.heap, s.globals, q) {
      var path :| Chain(s.heap, s.globals, path, q);
      ReachedSurvives(s, t, path, q);
    }
    if blocks :| SelfHeld(s.heap, blocks) && q in blocks {
      SelfHeldSurvives(s, t, blocks, q);
    }
    if q in t.heap && !Reachable(s.heap, s.globals, q) {
      LostAreSelfHeld(s, t);
      assert q in Lost(s, t);
    }
  }

  lemma SelfHeldSurvives(s: State, t: State, blocks: set<Ptr>, q: Ptr)
    requires Swept(s, t) && SelfHeld(s.heap, blocks) && q in blocks
    ensures q in t.heap
  {
    var log :| Logged(log, s.heap, t.heap) && Ordered(log, s.heap, {});
    if q !in t.heap {
      assert q in log;
      var i :| 0 <= i < |log| && log[i] == q;
      SelfHeldStays(s.heap, log, blocks, i);
    }
  }

  ghost function Lost(s: State, t: State): set<Ptr>
  {
    set q | q in t.heap && !Reachable(s.heap, s.globals, q)
  }

  lemma LostAreSelfHeld(s: State, t: State)
    requires Inv(s) && Swept(s, t)
    ensures SelfHeld(s.heap, Lost(s, t))
  {
    forall q | q in Lost(s, t)
      ensures HeldIn(s.heap, Lost(s, t), q)
    {
      LostIsHeld(s, t, q);
      var p :| p in t.heap && q in t.heap[p].kids && !Reachable(s.heap, s.globals, p);
      assert p in Lost(s, t) && q in s.heap[p].kids;
    }
  }

  /** Among the blocks that no root reaches, references run from lower to higher rank. */
  ghost predicate Acyclic(h: Heap, globals: seq<Ptr>, rank: Ptr -> nat)
  {
    forall p, q :: p in h && q in h && q in h[p].kids && !Reachable(h, globals, p) && !Reachable(h, globals, q) ==>
      rank(p) < rank(q)
  }

  /** Where p stands in the log. */
  ghost function Position(log: seq<Ptr>, p: Ptr): (i: nat)
    ensures p in log ==> i < |log| && log[i] == p
  {
    if p in log then
      var i :| 0 <= i < |log| && log[i] == p;
      i
    else 0
  }

  lemma {:induction false} RankedIsReached(s: State, t: State, rank: Ptr -> nat, q: Ptr)
    requires Inv(s) && Swept(s, t) && Acyclic(s.heap, s.globals, rank) && q in t.heap
    ensures Reachable(s.heap, s.globals, q)
    decreases rank(q)
  {
    if !Reachable(s.heap, s.globals, q) {
      LostIsHeld(s, t, q);
      var p :| p in t.heap && q in t.heap[p].kids && !Reachable(s.heap, s.globals, p);
      RankedIsReached(s, t, rank, p);
    }
  }

  lemma LogIsRank(s: State, t: State, log: seq<Ptr>)
    requires Inv(s) && Swept(s, t) && Logged(log, s.heap, t.heap) && Ordered(log, s.heap, {})
    requires forall q :: q in t.heap ==> Reachable(s.heap, s.globals, q)
    ensures Acyclic(s.heap, s.globals, p => Position(log, p))
  {
    forall p, q | p in s.heap && q in s.heap && q in s.heap[p].kids && !Reachable(s.heap, s.globals, p)
        && !Reachable(s.heap, s.globals, q)
      ensures Position(log, p) < Position(log, q)
    {
      assert p in log && q in log;
      var i, j := Position(log, p), Position(log, q);
      assert log[j] in s.heap[p].kids;
      assert p in log[..j];
      var k :| 0 <= k < j && log[k] == p;
      assert k == i;
    }
  }

  /** A sweep leaves only what the roots reach if and only if the blocks that they do not reach
      can be ranked: no cycle among them. */
  lemma SurvivorsAreReachable(s: State, t: State)
    requires Inv(s) && Swept(s, t)
    ensures (forall q :: q in t.heap ==> Reachable(s.heap, s.globals, q))
       <==> exists rank: Ptr -> nat :: Acyclic(s.heap, s.globals, rank)
  {
    if rank: Ptr -> nat :| Acyclic(s.heap, s.globals, rank) {
      forall q | q in t.heap
        ensures Reachable(s.heap, s.globals, q)
      {
        RankedIsReached(s, t, rank, q);
      }
    }
    if forall q :: q in t.heap ==> Reachable(s.heap, s.globals, q) {
      var log :| Logged(log, s.heap, t.heap) && Ordered(log, s.heap, {});
      LogIsRank(s, t, log);
    }
  }

  /** Two blocks that hold each other outlive every sweep, whether a root reaches them or not. */
  lemma CycleSurvives(s: State, t: State, p: Ptr, q: Ptr)
    requires Swept(s, t) && p in s.heap && q in s.heap && q in s.heap[p].kids && p in s.heap[q].kids
    ensures p in t.heap && q in t.heap
  {
    assert HeldIn(s.heap, {p, q}, p) && HeldIn(s.heap, {p, q}, q);
    SelfHeldSurvives(s, t, {p, q}, p);
    SelfHeldSurvives(s, t, {p, q}, q);
  }

  // ------------------------------------------------------------ a run to the leaking state

  ghost predicate IsRun(run: seq<State>)
  {
    |run| > 0 && Initial(run[0]) && forall i :: 0 <= i < |run| - 1 ==> Next(run[i], run[i + 1])
  }

  ghost predicate Reached(s: State)
  {
    exists run :: IsRun(run) && run[|run| - 1] == s
  }

  lemma ReachedInv(s: State)
    requires Reached(s)
    ensures Inv(s)
  {
    var run :| IsRun(run) && run[|run| - 1] == s;
    RunInv(run, |run| - 1);
  }

  lemma ReachedInitially(s: State)
    requires Initial(s)
    ensures Reached(s)
  {
    assert IsRun([s]);
  }

  lemma ReachedNext(s: State, t: State)
    requires Reached(s) && Next(s, t)
    ensures Reached(t)
  {
    var run :| IsRun(run) && run[|run| - 1] == s;
    var longer := run + [t];
    assert forall i :: 0 <= i < |run| ==> longer[i] == run[i];
    assert IsRun(longer);
  }

  lemma ReachedByOp(s: State, t: State, op: Op)
    requires Reached(s) && (Inv(s) ==> Enabled(s, op) && t == Apply(s, op))
    ensures Reached(t)
  {
    ReachedNext(s, t);
  }

  /** A store to a slot that is still null. */
  lemma ReachedByStore(s: State, t: State, p: Ptr, v: Ptr)
    requires Reached(s) && p in s.heap && s.heap[p].kids == [0] && v != 0 && Enabled(s, Store(p, 0, v))
    requires t == Acquire(s.(heap := s.heap[p := s.heap[p].(kids := [v])]), v)
    ensures Reached(t)
  {
    assert s.heap[p].kids[0 := v] == [v];
    ReachedByOp(s, t, Store(p, 0, v));
  }

  /** Two blocks of one slot each. */
  function Two(a: Word, k: Ptr, b: Word, l: Ptr): Heap
  {
    map[1 := Block(a, 0, [k]), 2 := Block(b, 0, [l])]
  }

  lemma TwoAllocated(s: State)
    requires s == State(Two(MASK, 0, MASK, 0), 3, [0, 0], [1, 2], [0])
    ensures Reached(s)
  {
    var r := State(map[], 0, [], [], [0]);
    var q := State(map[1 := Block(MASK, 0, [0])], 2, [0], [1], [0]);
    assert Zeros(1) == [0];
    ReachedInitially(r);
    ReachedByOp(r, q, Alloc(1, 0, 1));
    ReachedByOp(q, s, Alloc(2, 0, 1));
  }

  lemma TwoRooted(s: State, t: State)
    requires s == State(Two(MASK, 0, MASK, 0), 3, [0, 0], [1, 2], [0]) && Reached(s)
    requires t == State(Two(MASK + 1, 0, MASK, 0), 3, [0, 0], [1, 2], [1])
    ensures Reached(t)
  {
    assert s.globals[0 := 1] == [1];
    ReachedByOp(s, t, SetGlobal(0, 1));
  }

  lemma FirstHolds(s: State, t: State)
    requires s == State(Two(MASK + 1, 0, MASK, 0), 3, [0, 0], [1, 2], [1]) && Reached(s)
    requires t == State(Two(MASK + 1, 2, MASK + 1, 0), 3, [0, 0], [1, 2], [1])
    ensures Reached(t)
  {
    ReachedByStore(s, t, 1, 2);
  }

  lemma SecondHolds(s: State, t: State)
    requires s == State(Two(MASK + 1, 2, MASK + 1, 0), 3, [0, 0], [1, 2], [1]) && Reached(s)
    requires t == State(Two(MASK + 2, 2, MASK + 1, 1), 3, [0, 0], [1, 2], [1])
    ensures Reached(t)
  {
    ReachedByStore(s, t, 2, 1);
  }

  lemma BothSwept(s: State, t: State)
    requires s == State(Two(MASK + 2, 2, MASK + 1, 1), 3, [0, 0], [1, 2], [1]) && Reached(s)
    requires t == State(Two(2, 2, 1, 1), 3, [], [], [1])
    ensures Reached(t)
  {
    ReachedInv(s);
    SweptSound(s, t);
    assert Logged([], s.heap, t.heap) && Ordered([], s.heap, {});
    ReachedNext(s, t);
  }

  lemma SweptSound(s: State, t: State)
    requires s == State(Two(MASK + 2, 2, MASK + 1, 1), 3, [0, 0], [1, 2], [1]) && Inv(s)
    requires t == State(Two(2, 2, 1, 1), 3, [], [], [1])
    ensures Sound(t.heap, 3, multiset(t.globals))
  {
    var h := s.heap[2 := s.heap[2].(rc := Unmark(s.heap[2].rc))];
    UnmarkSound(s.heap, h, 2, 3, multiset(s.globals));
    assert t.heap == h[1 := h[1].(rc := Unmark(h[1].rc))];
    UnmarkSound(h, t.heap, 1, 3, multiset(s.globals));
  }

  lemma RootCleared(s: State, t: State)
    requires s == State(Two(2, 2, 1, 1), 3, [], [], [1]) && Reached(s)
    requires t == State(Two(1, 2, 1, 1), 3, [], [], [0])
    ensures Reached(t)
  {
    assert s.globals[0 := 0] == [0];
    ReachedByOp(s, t, SetGlobal(0, 0));
  }

  /** Two allocations, a root to the first, each made to hold the other, a sweep, the root
      cleared: the state that CycleLeaks is about. */
  lemma CycleIsReached(s: State)
    requires s == State(map[1 := Block(1, 0, [2]), 2 := Block(1, 0, [1])], 3, [], [], [0])
    ensures Reached(s)
  {
    var zct, ptrs := [0, 0], [1, 2];
    var a, b := State(Two(MASK, 0, MASK, 0), 3, zct, ptrs, [0]), State(Two(MASK + 1, 0, MASK, 0), 3, zct, ptrs, [1]);
    var c, d := State(Two(MASK + 1, 2, MASK + 1, 0), 3, zct, ptrs, [1]),
      State(Two(MASK + 2, 2, MASK + 1, 1), 3, zct, ptrs, [1]);
    var e := State(Two(2, 2, 1, 1), 3, [], [], [1]);
    TwoAllocated(a);
    TwoRooted(a, b);
    FirstHolds(b, c);
    SecondHolds(c, d);
    BothSwept(d, e);
    RootCleared(e, s);
  }

  /** That run ends where no root reaches anything, and every sweep after it leaks both blocks. */
  lemma CycleLeaks(s: State, t: State)
    requires s == State(map[1 := Block(1, 0, [2]), 2 := Block(1, 0, [1])], 3, [], [], [0])
    requires Swept(s, t)
    ensures Reached(s) && 1 in t.heap && 2 in t.heap
    ensures !Reachable(s.heap, s.globals, 1) && !Reachable(s.heap, s.globals, 2)
  {
    CycleIsReached(s);
    CycleSurvives(s, t, 1, 2);
  }
}
