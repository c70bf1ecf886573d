/** src/linked_lib/wsc2.h: the zero-count table and its sweep, over the counts of ws.h. */
module Zct {
  import opened ZctHeap
  import opened ZctState

  class Runtime {
    var heap: Heap
    const tags: array<nat>
    const ptrs: array<Ptr>
    var count: nat
    var globals: seq<Ptr>
    ghost var limit: nat

    ghost predicate Shaped()
      reads this
    {
      tags != ptrs && tags.Length == ptrs.Length && count <= ptrs.Length
    }

    ghost function View(): State
      requires Shaped()
      reads this, tags, ptrs
    {
      State(heap, limit, tags[..count], ptrs[..count], globals)
    }

    ghost predicate Valid()
      reads this, tags, ptrs
    {
      Shaped() && Inv(View())
    }

    constructor (size: nat, roots: nat)
      ensures Valid() && Initial(View()) && ptrs.Length == size && |globals| == roots && fresh(tags) && fresh(ptrs)
    {
      heap, count, globals, limit := map[], 0, Zeros(roots), 0;
      tags := new nat[size](_ => 0);
      ptrs := new Ptr[size](_ => 0);
      new;
      InitialInv(View());
    }

    /** MARK_AS_PUSHED */
    method MarkAsPushed(p: Ptr)
      requires p in heap
      modifies this`heap
      ensures heap == old(heap)[p := old(heap)[p].(rc := Mark(old(heap)[p].rc))]
    {
      heap := heap[p := heap[p].(rc := Mark(heap[p].rc))];
    }

    /** UNMARK_AS_PUSHED */
    method UnmarkAsPushed(p: Ptr)
      requires p in heap
      modifies this`heap
      ensures heap == old(heap)[p := old(heap)[p].(rc := Unmark(old(heap)[p].rc))]
    {
      heap := heap[p := heap[p].(rc := Unmark(heap[p].rc))];
    }

    /** PUSH_ZCT.  False stands for the overflow error, which ends the program. */
    method PushZct(tag: nat, p: Ptr) returns (ok: bool)
      requires Shaped() && (p != 0 ==> p in heap)
      modifies this`heap, this`count, tags, ptrs
      ensures Shaped()
      ensures ok ==> View() == Push(old(View()), tag, p)
      ensures ok && p != 0 ==> Marked(heap[p].rc) && Count(heap[p].rc) == Count(old(heap)[p].rc)
      ensures ok && p != 0 && !Marked(old(heap)[p].rc) ==>
        ptrs[..count] == old(ptrs[..count]) + [p] && tags[..count] == old(tags[..count]) + [tag]
      ensures !ok ==> View() == old(View())
      ensures !ok <==> old(count) == ptrs.Length && p != 0 && !Marked(old(heap)[p].rc)
    {
      if p == 0 {
        return true;
      }
      if Marked(heap[p].rc) {
        return true;
      }
      if count == ptrs.Length {
        return false;
      }
      MarkAsPushed(p);
      tags[count] := tag;
      ptrs[count] := p;
      count := count + 1;
      return true;
    }

    /** INCR_ARR_RC */
    method Increase(p: Ptr)
      requires Shaped() && (p != 0 ==> p in heap)
      modifies this`heap
      ensures Shaped() && View() == Acquire(old(View()), p)
    {
      if p != 0 {
        heap := heap[p := heap[p].(rc := Increment(heap[p].rc))];
      }
    }

    /** Decrement, and put the block in the table if that was its last counted reference. */
    method Decrease(p: Ptr) returns (ok: bool)
      requires Shaped() && (p != 0 ==> p in heap)
      modifies this`heap, this`count, tags, ptrs
      ensures Shaped() && (ok ==> View() == Release(old(View()), p))
      ensures !ok <==> old(count) == ptrs.Length && p != 0 && Count(old(heap)[p].rc) == 1 && !Marked(old(heap)[p].rc)
    {
      ok := true;
      var zero := DecrementPred(p);
      if zero {
        ok := PushZct(heap[p].tag, p);
      }
    }

    /** A new array of null slots, at the address malloc chose. */
    method ArrayAlloc(p: Ptr, tag: nat, size: nat) returns (ok: bool)
      requires Valid() && Enabled(View(), Alloc(p, tag, size))
      modifies this`heap, this`count, this`limit, tags, ptrs
      ensures Shaped() && (ok ==> Valid() && View() == Apply(old(View()), Alloc(p, tag, size)))
      ensures !ok <==> old(count) == ptrs.Length
      ensures ok ==> heap.Keys == old(heap).Keys + {p} && heap[p].tag == tag && heap[p].kids == Zeros(size)
      ensures ok ==> globals == old(globals) && forall q :: q in old(heap) ==> heap[q] == old(heap)[q]
    {
      AllocWrites(View(), p, tag, size);
      StepInv(View(), Alloc(p, tag, size));
      heap := heap[p := Block(0, tag, Zeros(size))];
      limit := if p < limit then limit else p + 1;
      ok := PushZct(tag, p);
    }

    /** Array set: decrement what the slot held, write, increment what it holds now. */
    method ArraySet(p: Ptr, slot: nat, v: Ptr) returns (ok: bool)
      requires Valid() && Enabled(View(), Store(p, slot, v))
      modifies this`heap, this`count, tags, ptrs
      ensures Shaped() && (ok ==> Valid() && View() == Apply(old(View()), Store(p, slot, v)))
      ensures var w := old(heap)[p].kids[slot];
              !ok <==> old(count) == ptrs.Length && w != 0 && w in old(heap)
                       && Count(old(heap)[w].rc) == 1 && !Marked(old(heap)[w].rc)
      ensures ok ==> heap.Keys == old(heap).Keys && heap[p].kids == old(heap)[p].kids[slot := v]
      ensures ok ==> forall q :: q in heap && q != p ==> heap[q].kids == old(heap)[q].kids
    {
      ghost var s := View();
      var was := heap[p].kids[slot];
      StoreSteps(s, p, slot, v, was);
      ok := Decrease(was);
      if ok {
        heap := heap[p := heap[p].(kids := heap[p].kids[slot := v])];
        Increase(v);
      }
    }

    /** The same for a counted root slot. */
    method GlobalSet(i: nat, v: Ptr) returns (ok: bool)
      requires Valid() && Enabled(View(), SetGlobal(i, v))
      modifies this`heap, this`count, this`globals, tags, ptrs
      ensures Shaped() && (ok ==> Valid() && View() == Apply(old(View()), SetGlobal(i, v)))
      ensures var w := old(globals)[i];
              !ok <==> old(count) == ptrs.Length && w != 0 && w in old(heap)
                       && Count(old(heap)[w].rc) == 1 && !Marked(old(heap)[w].rc)
      ensures ok ==> heap.Keys == old(heap).Keys && globals == old(globals)[i := v]
      ensures ok ==> forall q :: q in heap ==> heap[q].kids == old(heap)[q].kids
    {
      ghost var s := View();
      var was := globals[i];
      RootSteps(s, i, v, was);
      ok := Decrease(was);
      if ok {
        globals := globals[i := v];
        Increase(v);
      }
    }

    /** The loop body of the sweep: free the block of entry i if nothing refers to it, whatever
        its mark; otherwise unmark it. */
    method Visit(ghost s: State, i: nat, ghost log: seq<Ptr>) returns (ghost more: seq<Ptr>)
      requires Shaped() && i < count && |s.ptrs| == |s.tags| == count
      requires ptrs[i] == s.ptrs[i] && tags[i] == s.tags[i]
      requires Sweeping(s, heap, i + 1, log)
      modifies this`heap
      ensures Sweeping(s, heap, i, log + more)
    {
      SweepLooks(s, heap, i, log);
      more := [];
      if 0 == Count(heap[ptrs[i]].rc) {
        ghost var h := heap;
        more := FreeByNumbers(tags[i], ptrs[i], {}, multiset(s.globals), s.limit);
        SweepFrees(s, h, heap, i, log, more);
      } else {
        SweepUnmarks(s, heap, i, log);
        UnmarkAsPushed(ptrs[i]);
        assert log + more == log;
      }
    }

    /** BLAST_ZCT, single-threaded.  The log lists the freed blocks. */
    method Blast(depth: int) returns (ghost log: seq<Ptr>)
      requires Valid()
      modifies this`heap, this`count
      ensures Valid()
      ensures depth > 1 ==> View() == old(View()) && log == []
      ensures depth <= 1 ==> Swept(old(View()), View()) && Logged(log, old(heap), heap)
    {
      log := [];
      if depth > 1 {
        return;
      }
      ghost var s := View();
      SweepStarts(s);
      var i: int := count - 1;
      while i >= 0
        invariant Shaped() && -1 <= i < count == |s.ptrs| && limit == s.limit && globals == s.globals
        invariant s.tags == tags[..count] && s.ptrs == ptrs[..count]
        invariant Sweeping(s, heap, i + 1, log)
      {
        assert tags[i] == s.tags[i] && ptrs[i] == s.ptrs[i];
        ghost var more := Visit(s, i, log);
        log := log + more;
        i := i - 1;
      }
      SweepEnds(s, heap, log);
      count := 0;
      assert View() == State(heap, s.limit, [], [], s.globals);
    }

    /** DECR_ARR_RC_PRED.  Of a positive count it takes one and leaves the mark; zero is reported
        if that was the last reference and the block is not in the table. */
    method DecrementPred(p: Ptr) returns (zero: bool)
      requires p != 0 ==> p in heap
      modifies this`heap
      ensures p == 0 ==> !zero && heap == old(heap)
      ensures p != 0 ==> var rc := Decrement(old(heap)[p].rc);
                         heap == old(heap)[p := old(heap)[p].(rc := rc)] && zero == (rc == 0)
      ensures p != 0 && Count(old(heap)[p].rc) > 0 ==>
        && Count(heap[p].rc) == Count(old(heap)[p].rc) - 1 && (Marked(heap[p].rc) <==> Marked(old(heap)[p].rc))
        && (zero <==> Count(old(heap)[p].rc) == 1 && !Marked(old(heap)[p].rc))
    {
      if p == 0 {
        return false;
      }
      ghost var was := heap[p].rc;
      if Count(was) > 0 {
        DecrementCounts(was);
      }
      heap := heap[p := heap[p].(rc := Decrement(heap[p].rc))];
      return heap[p].rc == 0;
    }

    /** free_by_numbers is generated code and not part of the repository; it is taken to drop
        every child, freeing those whose count becomes zero, and then to free the block. */
    method FreeByNumbers(tag: nat, p: Ptr, ghost dying: set<Ptr>, ghost outside: multiset<Ptr>, ghost n: nat)
      returns (ghost log: seq<Ptr>)
      requires Dead(heap, n, dying, outside, p) && heap[p].tag == tag
      modifies this`heap
      ensures p !in heap && Consistent(heap, n, dying, outside)
      ensures Progress(old(heap), heap, p, dying, log)
      decreases heap.Keys - dying, 0
    {
      ghost var h0, kids, doomed := heap, heap[p].kids, dying + {p};
      StartFree(heap, n, dying, outside, p);
      log := [];
      var j := 0;
      assert kids[0..] == kids;
      while j < |heap[p].kids|
        invariant p in heap && heap[p] == h0[p] && j <= |kids|
        invariant Consistent(heap, n, doomed, outside + multiset(kids[j..]))
        invariant Progress(h0, heap, p, doomed, log)
        decreases |kids| - j
      {
        ghost var h1 := heap;
        KidsLeft(kids, j, outside);
        ghost var more := DropChild(heap[p].kids[j], doomed, outside + multiset(kids[j + 1..]), n);
        Compose(h0, h1, heap, p, doomed, log, more);
        log := log + more;
        j := j + 1;
      }
      assert outside + multiset(kids[j..]) == outside;
      EndFree(h0, heap, n, dying, outside, p, log);
      heap := heap - {p};
      log := [p] + log;
    }

    /** One child of a block being freed. */
    method DropChild(c: Ptr, ghost doomed: set<Ptr>, ghost rest: multiset<Ptr>, ghost n: nat)
        returns (ghost log: seq<Ptr>)
      requires Consistent(heap, n, doomed, rest + multiset{c})
      modifies this`heap
      ensures Consistent(heap, n, doomed, rest) && Progress(old(heap), heap, 0, doomed, log)
      decreases heap.Keys - doomed, 1
    {
      ghost var h0 := heap;
      DropChildRef(heap, n, doomed, rest, c);
      log := [];
      var zero := DecrementPred(c);
      if zero {
        ghost var h1 := heap;
        log := FreeByNumbers(heap[c].tag, c, doomed, rest, n);
        ComposeDrop(h0, h1, heap, c, doomed, log);
      }
    }
  }
}
