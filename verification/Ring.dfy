/** apps/reuters/reutercode/include/ESBuffer.h under concurrency: one producer, one consumer,
    no lock.  Each shared access is a step of its own: an increment is two writes, and an event
    is copied word by word.  Memory is sequentially consistent. */
module Ring {
  import opened Arithmetic
  import opened Sequences

  type Event = seq<int>

  /** Where the producer is: between calls; copying v, k words done; between the copy and the
      increment; between the two halves of the increment. */
  datatype Producer = Waiting | Copying(v: Event, k: nat) | Copied(v: Event) | Bumped

  /** Where the consumer is: between calls (possibly using the slot it holds); hasNext has said
      yes; the slot is taken; between the two halves of the increment. */
  datatype Consumer = Idle | Ready | Taken | Advanced

  /** `added` and `delivered` record what has been made visible and what has been handed out;
      the code does not have them. */
  datatype State = State(size: nat, width: nat, slots: seq<Event>, curr: nat, end: nat, prod: Producer, cons: Consumer,
                         held: int, added: seq<Event>, delivered: seq<Event>)

  datatype Act =
    | TestFull(v: Event)   // the producer has v to add and looks at full()
    | CopyWord             // one word of _eventQueue[_end]->copy(v)
    | BumpEnd              // _end++
    | WrapEnd              // _end %= buffersize
    | TestNext             // the consumer looks at hasNext()
    | TakeSlot             // ep = _eventQueue[_curr]
    | BumpCurr             // _curr++
    | WrapCurr             // _curr %= buffersize

  /** A step of the producer. */
  predicate Producing(a: Act)
  {
    a.TestFull? || a.CopyWord? || a.BumpEnd? || a.WrapEnd?
  }

  predicate Enabled(s: State, a: Act)
  {
    match a
    case TestFull(v) => s.prod.Waiting? && |v| == s.width
    case CopyWord => s.prod.Copying? && s.prod.k < |s.prod.v|
    case BumpEnd => s.prod.Copied?
    case WrapEnd => s.prod.Bumped?
    case TestNext => s.cons.Idle?
    case TakeSlot => s.cons.Ready?
    case BumpCurr => s.cons.Taken?
    case WrapCurr => s.cons.Advanced?
  }

  predicate Full(s: State)
    requires s.size > 0
  {
    (s.end + 1) % s.size == s.curr % s.size
  }

  predicate HasNext(s: State)
    requires s.size > 0
  {
    s.curr != s.end % s.size
  }

  function StartCopy(v: Event): Producer
  {
    if |v| == 0 then Copied(v) else Copying(v, 0)
  }

  /** Bounds that make the accesses legal; proved invariant below. */
  ghost predicate Legal(s: State)
  {
    && s.size > 0 && |s.slots| == s.size
    && (forall i :: 0 <= i < s.size ==> |s.slots[i]| == s.width)
    && (s.prod.Copying? ==> s.end < s.size && s.prod.k < |s.prod.v| == s.width)
    && (s.cons.Ready? ==> s.curr < s.size)
  }

  function Apply(s: State, a: Act): State
    requires Legal(s) && Enabled(s, a)
  {
    match a
    case TestFull(v) => if Full(s) then s else s.(prod := StartCopy(v))
    case CopyWord =>
      var (v, k) := (s.prod.v, s.prod.k);
      s.(slots := s.slots[s.end := s.slots[s.end][k := v[k]]], prod := if k + 1 == |v| then Copied(v)
         else Copying(v, k + 1))
    case BumpEnd => s.(end := s.end + 1, prod := Bumped, added := s.added + [s.prod.v])
    case WrapEnd => s.(end := s.end % s.size, prod := Waiting)
    case TestNext => if HasNext(s) then s.(cons := Ready) else s
    case TakeSlot => s.(cons := Taken, held := s.curr, delivered := s.delivered + [s.slots[s.curr]])
    case BumpCurr => s.(curr := s.curr + 1, cons := Advanced)
    case WrapCurr => s.(curr := s.curr % s.size, cons := Idle)
  }

  // ------------------------------------------------------------ arithmetic of the indices

  lemma NextIndex(x: nat, m: nat)
    requires m > 0
    ensures (x + 1) % m == (x % m + 1) % m
    ensures (x % m + 1) % m == if x % m + 1 == m then 0 else x % m + 1
  {
    var q, r := x / m, x % m;
    if r + 1 == m {
      DivModUnique(x + 1, m, q + 1, 0);
      DivModUnique(r + 1, m, 1, 0);
    } else {
      DivModUnique(x + 1, m, q, r + 1);
      DivModUnique(r + 1, m, 0, r + 1);
    }
  }

  /** Different positions less than a lap apart are in different slots. */
  lemma Apart(i: nat, j: nat, m: nat)
    requires m > 0 && i <= j < i + m
    ensures i % m == j % m <==> i == j
  {
    if i % m == j % m {
      assert j - i == m * (j / m - i / m);
      MulSign(m, j / m - i / m);
    }
  }

  // ------------------------------------------------------------ the invariant

  function Produced(s: State): nat { |s.added| }

  /** How many times _curr has been advanced. */
  function Consumed(s: State): int
  {
    |s.delivered| - if s.cons.Taken? then 1 else 0
  }

  ghost predicate Indices(s: State)
    requires s.size > 0
  {
    var (p, c) := (Produced(s), Consumed(s));
    && 0 <= c <= p
    && s.end % s.size == p % s.size && s.curr % s.size == c % s.size
    && (!s.prod.Bumped? ==> s.end < s.size) && (s.prod.Bumped? ==> 0 < s.end <= s.size)
    && (!s.cons.Advanced? ==> s.curr < s.size) && (s.cons.Advanced? ==> 0 < s.curr <= s.size)
    && p - c <= s.size - 1
    && (s.prod.Copying? || s.prod.Copied? ==> p + 1 - c <= s.size - 1)
    && (s.cons.Ready? || s.cons.Taken? ==> c < p)
  }

  predicate HalfCopied(slot: Event, v: Event, k: nat)
  {
    k < |v| == |slot| && slot[..k] == v[..k]
  }

  /** Event i, once visible, stays in its slot until it has been handed out and let go: all
      those not consumed, and the one consumed last, which the consumer may still be using. */
  ghost predicate Contents(s: State)
    requires s.size > 0 && |s.slots| == s.size
  {
    && (forall i: nat :: Consumed(s) - 1 <= i < Produced(s) ==> s.slots[i % s.size] == s.added[i])
    && (s.prod.Copying? ==> HalfCopied(s.slots[Produced(s) % s.size], s.prod.v, s.prod.k))
    && (s.prod.Copied? ==> s.slots[Produced(s) % s.size] == s.prod.v)
  }

  ghost predicate Inv(s: State)
  {
    && s.size > 0 && Legal(s) && Indices(s) && Contents(s)
    && |s.delivered| <= |s.added| && s.delivered == s.added[..|s.delivered|]
    && (s.delivered != [] ==> 0 <= s.held < s.size && s.held == (|s.delivered| - 1) % s.size)
  }

  ghost predicate Initial(s: State)
  {
    && s.size > 0 && |s.slots| == s.size && (forall i :: 0 <= i < s.size ==> |s.slots[i]| == s.width)
    && s.curr == s.end == 0 && s.prod == Waiting && s.cons == Idle && s.added == s.delivered == []
  }

  lemma InitialInv(s: State)
    requires Initial(s)
    ensures Inv(s)
  {
    DivModUnique(0, s.size, 0, 0);
  }

  lemma FullMeans(s: State)
    requires Inv(s) && s.prod.Waiting?
    ensures Full(s) <==> Produced(s) - Consumed(s) == s.size - 1
  {
    NextIndex(s.end, s.size);
    NextIndex(Produced(s), s.size);
    LapOrLess(Consumed(s), Produced(s) + 1, s.size);
  }

  /** At most one lap apart: same slot means together or a whole lap. */
  lemma LapOrLess(i: nat, j: nat, m: nat)
    requires m > 0 && i <= j <= i + m
    ensures i % m == j % m <==> i == j || j == i + m
  {
    if j < i + m {
      Apart(i, j, m);
    } else {
      DivModUnique(j, m, i / m + 1, i % m);
    }
  }

  lemma HasNextMeans(s: State)
    requires Inv(s) && s.cons.Idle?
    ensures HasNext(s) <==> Consumed(s) < Produced(s)
  {
    Apart(Consumed(s), Produced(s), s.size);
    DivModUnique(s.curr, s.size, 0, s.curr);
  }

  lemma TestsInv(s: State, a: Act)
    requires Inv(s) && Enabled(s, a) && (a.TestFull? || a.TestNext?)
    ensures Inv(Apply(s, a))
  {
    if a.TestFull? {
      FullMeans(s);
      DivModUnique(s.end, s.size, 0, s.end);
      assert Produced(s) % s.size == s.end;
    } else {
      HasNextMeans(s);
    }
  }

  lemma CopyInv(s: State)
    requires Inv(s) && s.prod.Copying?
    ensures Inv(Apply(s, CopyWord))
  {
    var t, p := Apply(s, CopyWord), Produced(s);
    var (v, k) := (s.prod.v, s.prod.k);
    DivModUnique(s.end, s.size, 0, s.end);
    assert t.slots[s.end][..k + 1] == v[..k + 1] by {
      assert t.slots[s.end][..k + 1] == s.slots[s.end][..k] + [v[k]];
      assert v[..k + 1] == v[..k] + [v[k]];
    }
    if k + 1 == |v| {
      assert t.slots[s.end] == t.slots[s.end][..k + 1] && v == v[..k + 1];
    }
    forall i: nat | Consumed(t) - 1 <= i < Produced(t)
      ensures t.slots[i % s.size] == t.added[i]
    {
      Apart(i, p, s.size);
    }
  }

  lemma BumpEndIndices(s: State)
    requires Inv(s) && s.prod.Copied?
    ensures Indices(Apply(s, BumpEnd))
  {
    NextIndex(s.end, s.size);
    NextIndex(Produced(s), s.size);
  }

  lemma BumpEndContents(s: State)
    requires Inv(s) && s.prod.Copied?
    ensures Contents(Apply(s, BumpEnd))
  {
  }

  lemma BumpEndInv(s: State)
    requires Inv(s) && s.prod.Copied?
    ensures Inv(Apply(s, BumpEnd))
  {
    var t := Apply(s, BumpEnd);
    BumpEndIndices(s);
    BumpEndContents(s);
    assert t.added[..|t.delivered|] == s.added[..|s.delivered|];
  }

  lemma WrapInv(s: State, a: Act)
    requires Inv(s) && Enabled(s, a) && (a.WrapEnd? || a.WrapCurr?)
    ensures Inv(Apply(s, a))
  {
    var x := if a.WrapEnd? then s.end else s.curr;
    DivModUnique(x % s.size, s.size, 0, x % s.size);
  }

  lemma TakeInv(s: State)
    requires Inv(s) && s.cons.Ready?
    ensures Inv(Apply(s, TakeSlot))
    ensures s.slots[s.curr] == s.added[|s.delivered|]
  {
    var t, c := Apply(s, TakeSlot), Consumed(s);
    DivModUnique(s.curr, s.size, 0, s.curr);
    assert t.added[..c + 1] == s.added[..c] + [s.added[c]];
  }

  lemma BumpCurrInv(s: State)
    requires Inv(s) && s.cons.Taken?
    ensures Inv(Apply(s, BumpCurr))
  {
    NextIndex(s.curr, s.size);
    NextIndex(Consumed(s), s.size);
  }

  lemma StepInv(s: State, a: Act)
    requires Inv(s) && Enabled(s, a)
    ensures Inv(Apply(s, a))
  {
    match a
    case TestFull(_) => TestsInv(s, a);
    case TestNext => TestsInv(s, a);
    case CopyWord => CopyInv(s);
    case BumpEnd => BumpEndInv(s);
    case WrapEnd => WrapInv(s, a);
    case WrapCurr => WrapInv(s, a);
    case TakeSlot => TakeInv(s);
    case BumpCurr => BumpCurrInv(s);
  }

  // ------------------------------------------------------------ against the unbounded queue

  /** The growing vector that the ring replaces (reutercode.v0). */
  datatype Unbounded = Unbounded(queue: seq<Event>, curr: nat)

  predicate UHasNext(u: Unbounded) { u.curr < |u.queue| }
  function UPushBack(u: Unbounded, v: Event): Unbounded { u.(queue := u.queue + [v]) }
  function UNext(u: Unbounded): (Event, Unbounded)
    requires UHasNext(u)
  {
    (u.queue[u.curr], u.(curr := u.curr + 1))
  }

  function Abs(s: State): Unbounded { Unbounded(s.added, |s.delivered|) }

  /** Every step of the ring is a step of the unbounded queue or leaves it as it is, and the
      slot handed out holds the event the queue would return. */
  lemma Refines(s: State, a: Act)
    requires Inv(s) && Enabled(s, a)
    ensures a.BumpEnd? ==> Abs(Apply(s, a)) == UPushBack(Abs(s), s.prod.v)
    ensures a.TakeSlot? ==> UHasNext(Abs(s)) && (s.slots[s.curr], Abs(Apply(s, a))) == UNext(Abs(s))
    ensures !a.BumpEnd? && !a.TakeSlot? ==> Abs(Apply(s, a)) == Abs(s)
    ensures a.TestNext? ==> (Apply(s, a).cons.Ready? <==> UHasNext(Abs(s)))
  {
    if a.TakeSlot? { TakeInv(s); }
    if a.TestNext? { HasNextMeans(s); }
  }

  /** An interleaving: any order of steps in which each thread follows its own program. */
  ghost predicate Runs(s: State, acts: seq<Act>)
    decreases |acts|
  {
    acts != [] ==> Legal(s) && Enabled(s, acts[0]) && Runs(Apply(s, acts[0]), acts[1..])
  }

  function Final(s: State, acts: seq<Act>): State
    requires Runs(s, acts)
    decreases |acts|
  {
    if acts == [] then s else Final(Apply(s, acts[0]), acts[1..])
  }

  /** The events for which full() said no, in order. */
  function Offered(s: State, acts: seq<Act>): seq<Event>
    requires Runs(s, acts)
    decreases |acts|
  {
    if acts == [] then []
    else (if acts[0].TestFull? && !Full(s) then [acts[0].v] else []) + Offered(Apply(s, acts[0]), acts[1..])
  }

  /** The event being added, if any. */
  function Pending(s: State): seq<Event>
  {
    match s.prod
    case Copying(v, _) => [v]
    case Copied(v) => [v]
    case _ => []
  }

  lemma StepConserves(s: State, a: Act)
    requires Inv(s) && Enabled(s, a)
    ensures Apply(s, a).added + Pending(Apply(s, a))
         == s.added + Pending(s) + if a.TestFull? && !Full(s) then [a.v] else []
  {
  }

  lemma {:induction false} RunInv(s: State, acts: seq<Act>)
    requires Inv(s) && Runs(s, acts)
    ensures Inv(Final(s, acts)) && Final(s, acts).size == s.size
    ensures Final(s, acts).added + Pending(Final(s, acts)) == s.added + Pending(s) + Offered(s, acts)
    decreases |acts|
  {
    if acts == [] {
    } else {
      var a := acts[0];
      StepInv(s, a);
      StepConserves(s, a);
      RunInv(Apply(s, a), acts[1..]);
      var one := if a.TestFull? && !Full(s) then [a.v] else [];
      Regroup(s.added + Pending(s), one, Offered(Apply(s, a), acts[1..]));
    }
  }

  /** Under every interleaving: what has been handed out is a prefix of what was offered, in
      order and unaltered; at most size-1 events are on their way; and the slot the consumer
      holds still has the event it was given. */
  lemma Delivery(s: State, acts: seq<Act>)
    requires Initial(s) && Runs(s, acts)
    ensures var t := Final(s, acts);
            && t.delivered <= t.added <= Offered(s, acts)
            && |Offered(s, acts)| - |t.delivered| <= s.size - 1
            && (t.delivered != [] ==> 0 <= t.held < |t.slots| && t.slots[t.held] == t.delivered[|t.delivered| - 1])
  {
    InitialInv(s);
    RunInv(s, acts);
    var t := Final(s, acts);
    assert s.added + Pending(s) + Offered(s, acts) == Offered(s, acts);
    assert t.added == (t.added + Pending(t))[..|t.added|];
    if t.delivered != [] {
      assert t.slots[(|t.delivered| - 1) % t.size] == t.added[|t.delivered| - 1];
    }
  }

  // ------------------------------------------------------------ whole turns

  lemma RunsFirst(s: State, a: Act, rest: seq<Act>)
    requires Legal(s) && Enabled(s, a) && Runs(Apply(s, a), rest)
    ensures Runs(s, [a] + rest) && Final(s, [a] + rest) == Final(Apply(s, a), rest)
  {
    assert ([a] + rest)[1..] == rest;
  }

  lemma RunsNothing(s: State)
    ensures Runs(s, []) && Final(s, []) == s
  {
  }

  /** What add has left to do when k words have been copied. */
  function Finish(v: Event, k: nat): seq<Act>
    decreases |v| - k
  {
    if k < |v| then [CopyWord] + Finish(v, k + 1) else [BumpEnd] + ([WrapEnd] + [])
  }

  /** The last two steps of add, and only those, make v visible. */
  lemma BumpAdds(s: State, v: Event)
    requires Inv(s) && s.prod == Copied(v)
    ensures Runs(s, [BumpEnd] + ([WrapEnd] + []))
    ensures AddedTo(s, v, Final(s, [BumpEnd] + ([WrapEnd] + [])))
  {
    var t := Apply(s, BumpEnd);
    StepInv(s, BumpEnd);
    StepInv(t, WrapEnd);
    RunsNothing(Apply(t, WrapEnd));
    RunsFirst(t, WrapEnd, []);
    RunsFirst(s, BumpEnd, [WrapEnd] + []);
  }

  /** t is s with v added, and nothing else that the consumer can see. */
  ghost predicate AddedTo(s: State, v: Event, t: State)
  {
    && Inv(t) && t.added == s.added + [v] && t.prod == Waiting && t.size == s.size && t.width == s.width
    && t.curr == s.curr && t.cons == s.cons && t.held == s.held && t.delivered == s.delivered
  }

  lemma {:induction false} FinishAdds(s: State, v: Event, k: nat)
    requires Inv(s) && (if k < |v| then s.prod == Copying(v, k) else s.prod == Copied(v))
    ensures Runs(s, Finish(v, k)) && AddedTo(s, v, Final(s, Finish(v, k)))
    decreases |v| - k
  {
    if k < |v| {
      StepInv(s, CopyWord);
      FinishAdds(Apply(s, CopyWord), v, k + 1);
      RunsFirst(s, CopyWord, Finish(v, k + 1));
    } else {
      BumpAdds(s, v);
    }
  }

  /** The producer alone, with fewer than size-1 events ahead: after its steps v is the last event
      added; with size-1 ahead it leaves everything as it was. */
  lemma ProducerTurn(s: State, v: Event)
    requires Inv(s) && s.prod == Waiting && !s.cons.Taken? && |v| == s.width
    ensures |s.added| - |s.delivered| < s.size - 1 ==>
      Runs(s, [TestFull(v)] + Finish(v, 0)) && AddedTo(s, v, Final(s, [TestFull(v)] + Finish(v, 0)))
    ensures |s.added| - |s.delivered| == s.size - 1 ==> Enabled(s, TestFull(v)) && Apply(s, TestFull(v)) == s
  {
    FullMeans(s);
    if |s.added| - |s.delivered| < s.size - 1 {
      StepInv(s, TestFull(v));
      FinishAdds(Apply(s, TestFull(v)), v, 0);
      RunsFirst(s, TestFull(v), Finish(v, 0));
    }
  }

  /** What follows a hasNext that said yes. */
  function Fetching(): seq<Act>
  {
    [TakeSlot] + ([BumpCurr] + ([WrapCurr] + []))
  }

  /** t is s with the oldest event handed out, which is in the slot held. */
  ghost predicate TakenFrom(s: State, t: State)
  {
    && Inv(t) && |s.delivered| < |s.added| && t.delivered == s.delivered + [s.added[|s.delivered|]] && t.cons == Idle
    && 0 <= t.held < |t.slots| && t.slots[t.held] == s.added[|s.delivered|] && t.size == s.size && t.width == s.width
    && t.end == s.end && t.prod == s.prod && t.added == s.added
  }

  lemma FetchTakes(s: State)
    requires Inv(s) && s.cons == Ready
    ensures Runs(s, Fetching()) && TakenFrom(s, Final(s, Fetching()))
  {
    var t := Apply(s, TakeSlot);
    var u := Apply(t, BumpCurr);
    TakeInv(s);
    BumpCurrInv(t);
    WrapInv(u, WrapCurr);
    RunsNothing(Apply(u, WrapCurr));
    RunsFirst(u, WrapCurr, []);
    RunsFirst(t, BumpCurr, [WrapCurr] + []);
    RunsFirst(s, TakeSlot, [BumpCurr] + ([WrapCurr] + []));
  }

  /** The consumer alone: it is handed the oldest event that is visible and not yet handed out, if
      there is one. */
  lemma ConsumerTurn(s: State)
    requires Inv(s) && s.cons == Idle
    ensures |s.delivered| < |s.added| ==>
      Runs(s, [TestNext] + Fetching()) && TakenFrom(s, Final(s, [TestNext] + Fetching()))
    ensures |s.delivered| == |s.added| ==> Enabled(s, TestNext) && Apply(s, TestNext) == s
  {
    HasNextMeans(s);
    if |s.delivered| < |s.added| {
      StepInv(s, TestNext);
      FetchTakes(Apply(s, TestNext));
      RunsFirst(s, TestNext, Fetching());
    }
  }

  lemma {:induction false} FinishProduces(v: Event, k: nat)
    ensures forall i :: 0 <= i < |Finish(v, k)| ==> Producing(Finish(v, k)[i]) && !Finish(v, k)[i].TestFull?
    decreases |v| - k
  {
    if k < |v| {
      FinishProduces(v, k + 1);
    }
  }
}
