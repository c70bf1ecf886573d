/** apps/reuters/reutercode/include/MLJoin.h and RecBuffer.h: the operator objects, whose
    buffers are changed in place, proved to do what JoinSpec says on values. */
module Join {
  import opened JoinSpec
  import opened JoinPlans
  import opened Sequences

  /** What the inner loop will leave, from where it stands: the left buffer up to liter is done,
      start has become now. */
  ghost predicate Rejoins(goal: (seq<Rec>, seq<Rec>), L: seq<Rec>, liter: nat, r: Rec, sqno: nat, plist: seq<PPred>,
                          n: nat, start: seq<Rec>, now: seq<Rec>)
    requires liter <= |L| && Uniform(L, n) && Ranged(plist, n, |r|)
  {
    var rest := Inner(L[liter..], r, sqno, plist, n);
    goal.0 == L[..liter] + rest.0 && start + goal.1 == now + rest.1
  }

  lemma RejoinsStep(goal: (seq<Rec>, seq<Rec>), L: seq<Rec>, liter: nat, r: Rec, sqno: nat, plist: seq<PPred>,
                    n: nat, start: seq<Rec>, now: seq<Rec>)
    requires liter < |L| && Uniform(L, n) && Ranged(plist, n, |r|)
    requires Rejoins(goal, L, liter, r, sqno, plist, n, start, now)
    ensures End(L[liter]) >= Start(r) ==> goal.0 == L && start + goal.1 == now
    ensures End(L[liter]) < Start(r) && Start(L[liter]) < sqno ==>
      var L' := L[..liter] + L[liter + 1..];
      Uniform(L', n) && Rejoins(goal, L', liter, r, sqno, plist, n, start, now)
    ensures End(L[liter]) < Start(r) && Start(L[liter]) >= sqno ==>
      Rejoins(goal, L, liter + 1, r, sqno, plist, n, start, now + if Filter(plist, L[liter], r) then [L[liter] + r]
              else [])
  {
    assert L[liter..][1..] == L[liter + 1..] && L[..liter] + L[liter..] == L;
    var L' := L[..liter] + L[liter + 1..];
    assert L'[..liter] == L[..liter] && L'[liter..] == L[liter + 1..];
    assert L[..liter + 1] == L[..liter] + [L[liter]];
  }

  /** A join after its children have been asked and paired, and the right one cleared. */
  function ChildrenJoined(t: Tree, sqno: nat): (t': Tree)
    requires t.Join? && WellFormed(t) && WellFormed(t.left) && WellFormed(t.right)
    ensures WellFormed(t')
  {
    var (l, r) := (Next(t.left, sqno), Next(t.right, sqno));
    RightCleared(PairedAll(JoinSpec.Join(l, r, t.plist, t.buf), r.buf, sqno))
  }

  /** The outputs so far, with the next one moved over. */
  lemma RunOne(outs: seq<seq<Rec>>, t: Tree, batches: seq<Batch>, b: Batch, rest: seq<Batch>)
    requires WellFormed(t) && |b.feed| == Width(t) && forall i :: 0 <= i < |rest| ==> |rest[i].feed| == Width(t)
    requires batches == [b] + rest
    ensures forall i :: 0 <= i < |batches| ==> |batches[i].feed| == Width(t)
    ensures outs + Run(t, batches) == outs + [AfterBatch(t, b).buf] + Run(Cleared(t, b), rest)
  {
    assert batches[0] == b && batches[1..] == rest;
    Regroup(outs, [AfterBatch(t, b).buf], Run(Cleared(t, b), rest));
  }

  /** Leaf buffers and joins; the C++ base class and its two subclasses in one. */
  class ESBox {
    const left: ESBox?
    const right: ESBox?
    const flist: Event -> bool
    const plist: seq<PPred>
    var buffer: seq<Rec>
    ghost const Repr: set<ESBox>

    /** The shape of the tree is fixed, so validity does not depend on the state. */
    ghost predicate Valid()
      decreases Repr
    {
      && this in Repr
      && (left == null <==> right == null)
      && (left != null && right != null ==>
            && left in Repr && left.Repr <= Repr && this !in left.Repr && left.Valid()
            && right in Repr && right.Repr <= Repr && this !in right.Repr && right.Valid()
            && left.Repr !! right.Repr)
    }

    /** The tree of values below this box. */
    ghost function View(): Tree
      requires Valid()
      reads Repr`buffer
      decreases Repr
    {
      if left == null || right == null then Leaf(flist, buffer)
        else JoinSpec.Join(left.View(), right.View(), plist, buffer)
    }

    constructor RecBuffer(flist: Event -> bool)
      ensures Valid() && fresh(Repr)
      ensures View() == Leaf(flist, [])
    {
      this.flist := flist;
      left, right, plist, buffer := null, null, [], [];
      Repr := {this};
    }

    constructor MLJoin(l: ESBox, r: ESBox, plist: seq<PPred>)
      requires l.Valid() && r.Valid() && l.Repr !! r.Repr
      ensures Valid() && Repr == {this} + l.Repr + r.Repr && fresh(this)
      ensures View() == JoinSpec.Join(l.View(), r.View(), plist, [])
    {
      left, right := l, r;
      flist := e => true;
      this.plist, buffer := plist, [];
      Repr := {this} + l.Repr + r.Repr;
    }

    /** RecBuffer::push_back */
    method PushBack(e: Event)
      requires Valid() && left == null && right == null
      modifies this`buffer
      ensures Valid()
      ensures View() == Leaf(flist, old(buffer) + if flist(e) then [[e]] else [])
    {
      if flist(e) {
        buffer := buffer + [[e]];
      }
    }

    method Clear()
      requires Valid()
      modifies this`buffer
      ensures Valid() && View() == WithBuf(old(View()), [])
    {
      buffer := [];
    }

    /** erase, at the position of an iterator */
    method Erase(k: nat)
      requires Valid() && k < |buffer|
      modifies this`buffer
      ensures buffer == old(buffer[..k] + buffer[k + 1..]) && View() == WithBuf(old(View()), buffer)
    {
      buffer := buffer[..k] + buffer[k + 1..];
    }

    /** push_back on the buffer */
    method Append(rec: Rec)
      requires Valid()
      modifies this`buffer
      ensures buffer == old(buffer) + [rec] && View() == WithBuf(old(View()), buffer)
    {
      buffer := buffer + [rec];
    }

    /** The loops at the end of next: erase early records from the front of the own buffer.
        Whatever branch it leaves by, the iterator it returns is the beginning. */
    method EraseEarly(sqno: nat)
      requires Valid()
      modifies this`buffer
      ensures Valid() && View() == WithBuf(old(View()), Prune(old(buffer), sqno))
      ensures Late(Front(buffer), sqno)
    {
      while buffer != []
        invariant Valid() && Prune(buffer, sqno) == Prune(old(buffer), sqno)
        invariant View() == WithBuf(old(View()), buffer)
        decreases |buffer|
      {
        if Start(buffer[0]) >= sqno {
          return;
        }
        buffer := buffer[1..];
      }
    }

    /** Every right record in turn. */
    method PairAll(sqno: nat)
      requires Valid() && left != null && right != null && WellFormed(View()) && Late(Front(left.buffer), sqno)
      modifies this`buffer, left`buffer
      ensures Valid()
      ensures Front(left.buffer) == old(Front(left.buffer))
      ensures Uniform(old(View()).right.buf, Width(old(View()).right))
      ensures View() == PairedAll(old(View()), old(View()).right.buf, sqno)
    {
      ghost var t := View();
      WellFormedParts(t);
      var riter := 0;
      assert t.right == right.View() && right.buffer[0..] == right.buffer;
      while riter < |right.buffer|
        invariant Valid() && riter <= |right.buffer| && right.buffer == t.right.buf
        invariant WellFormed(View()) && View().Join? && View().right == t.right
        invariant Front(left.buffer) == old(Front(left.buffer))
        invariant PairedAll(t, t.right.buf, sqno) == PairedAll(View(), right.buffer[riter..], sqno)
      {
        ghost var rest := right.buffer[riter..];
        assert rest[0] == right.buffer[riter] && rest[1..] == right.buffer[riter + 1..];
        PairedInTurn(View(), rest, sqno);
        PairOne(right.buffer[riter], sqno);
        riter := riter + 1;
      }
      assert right.buffer[riter..] == [] && View().buf + [] == View().buf;
    }

    /** The inner loop: one right record against the left buffer.  Nothing is erased at the front,
        so the iterator saved before both loops still stands there. */
    method PairOne(r: Rec, sqno: nat)
      requires Valid() && left != null && right != null && Late(Front(left.buffer), sqno)
      requires WellFormed(View()) && |r| == Width(View().right)
      modifies this`buffer, left`buffer
      ensures Valid() && View() == PairedOne(old(View()), r, sqno)
      ensures Front(left.buffer) == old(Front(left.buffer))
    {
      ghost var t := View();
      WellFormedParts(t);
      PairLefts(r, sqno, Inner(left.buffer, r, sqno, plist, Width(t.left)), Width(t.left));
    }

    /** The loop itself; the goal is what the value-level loop makes of the two buffers. */
    method PairLefts(r: Rec, sqno: nat, ghost goal: (seq<Rec>, seq<Rec>), ghost n: nat)
      requires Valid() && left != null && right != null && Late(Front(left.buffer), sqno)
      requires Uniform(left.buffer, n) && Ranged(plist, n, |r|) && goal == Inner(left.buffer, r, sqno, plist, n)
      modifies this`buffer, left`buffer
      ensures left.buffer == goal.0 && buffer == old(buffer) + goal.1
      ensures left.View() == WithBuf(old(left.View()), goal.0) && right.View() == old(right.View())
      ensures Front(left.buffer) == old(Front(left.buffer))
    {
      assert left.buffer[0..] == left.buffer;
      var liter: nat, more := 0, true;
      while more && liter < |left.buffer|
        invariant liter <= |left.buffer| && Uniform(left.buffer, n)
        invariant left.View() == WithBuf(old(left.View()), left.buffer) && right.View() == old(right.View())
        invariant Front(left.buffer) == old(Front(left.buffer))
        invariant more ==> Rejoins(goal, left.buffer, liter, r, sqno, plist, n, old(buffer), buffer)
        invariant !more ==> goal.0 == left.buffer && old(buffer) + goal.1 == buffer
        decreases more, |left.buffer| - liter
      {
        liter, more := PairAt(liter, r, sqno, goal, n, old(buffer));
      }
      assert left.buffer[|left.buffer|..] == [];
    }

    /** The body of the inner loop: break, erase and continue, or pair and move on.  The record
        erased is never the first. */
    method PairAt(liter: nat, r: Rec, sqno: nat, ghost goal: (seq<Rec>, seq<Rec>), ghost n: nat, ghost start: seq<Rec>)
      returns (liter': nat, more: bool)
      requires Valid() && left != null && right != null && liter < |left.buffer| && Late(Front(left.buffer), sqno)
      requires Uniform(left.buffer, n) && Ranged(plist, n, |r|)
      requires Rejoins(goal, left.buffer, liter, r, sqno, plist, n, start, buffer)
      modifies this`buffer, left`buffer
      ensures Uniform(left.buffer, n) && liter' <= |left.buffer|
      ensures Front(left.buffer) == old(Front(left.buffer))
      ensures left.View() == WithBuf(old(left.View()), left.buffer) && right.View() == old(right.View())
      ensures more ==> Rejoins(goal, left.buffer, liter', r, sqno, plist, n, start, buffer)
      ensures more ==> |left.buffer| - liter' < |old(left.buffer)| - liter
      ensures !more ==> goal.0 == left.buffer && start + goal.1 == buffer
    {
      var l := left.buffer[liter];
      RejoinsStep(goal, left.buffer, liter, r, sqno, plist, n, start, buffer);
      if End(l) >= Start(r) {
        return liter, false;
      }
      if Start(l) < sqno {
        left.Erase(liter);
        return liter, true;
      }
      if Filter(plist, l, r) {
        Append(l + r);
      }
      return liter + 1, true;
    }

    /** RecBuffer::next and MLJoin::next.  The result is the position of the iterator in the
        own buffer. */
    method Next(sqno: nat) returns (iter: nat)
      requires Valid() && WellFormed(View())
      modifies Repr
      ensures Valid() && View() == JoinSpec.Next(old(View()), sqno) && iter == 0 && Late(Front(buffer), sqno)
      decreases Repr, 1
    {
      if left != null && right != null {
        JoinChildren(sqno);
      }
      EraseEarly(sqno);
      iter := 0;
    }

    /** The part of MLJoin::next before the own buffer is pruned. */
    method JoinChildren(sqno: nat)
      requires Valid() && left != null && right != null && WellFormed(View())
      modifies Repr
      ensures Valid()
      ensures var t := old(View());
              WellFormed(t.left) && WellFormed(t.right) && View() == ChildrenJoined(t, sqno)
      decreases Repr, 0
    {
      ghost var t := View();
      WellFormedParts(t);
      var leftiter := left.Next(sqno);
      var rightiter := right.Next(sqno);
      assert View() == JoinSpec.Join(JoinSpec.Next(t.left, sqno), JoinSpec.Next(t.right, sqno), plist, buffer);
      PairAll(sqno);
      right.Clear();
    }

    /** Hand every leaf its events, in order. */
    method Receive(feed: Feed)
      requires Valid() && WellFormed(View()) && |feed| == Width(View())
      modifies Repr
      ensures Valid() && View() == Push(old(View()), feed)
      decreases Repr
    {
      if left == null || right == null {
        ghost var before := buffer;
        for k := 0 to |feed[0]|
          invariant View() == Leaf(flist, before + Accepted(flist, feed[0][..k]))
        {
          assert feed[0][..k + 1][..k] == feed[0][..k];
          PushBack(feed[0][k]);
        }
        assert feed[0][..|feed[0]|] == feed[0];
      } else {
        ghost var t := View();
        WellFormedParts(t);
        var n := left.Leaves();
        left.Receive(feed[..n]);
        right.Receive(feed[n..]);
      }
    }

    method Leaves() returns (n: nat)
      requires Valid()
      ensures n == Width(View())
      decreases Repr
    {
      if left == null || right == null {
        return 1;
      }
      var l := left.Leaves();
      var r := right.Leaves();
      return l + r;
    }

    /** One turn of the loop of large.cc: hand over a batch, ask the root, look at its buffer,
        clear it. */
    method DriveOne(b: Batch) returns (out: seq<Rec>)
      requires Valid() && WellFormed(View()) && |b.feed| == Width(View())
      modifies Repr
      ensures Valid() && View() == Cleared(old(View()), b) && out == AfterBatch(old(View()), b).buf
    {
      Receive(b.feed);
      var iter := Next(b.sqno);
      assert buffer[iter..] == buffer;
      out := buffer[iter..];
      Clear();
    }

    /** The loop, over a recorded stream. */
    method Drive(batches: seq<Batch>) returns (outs: seq<seq<Rec>>)
      requires Valid() && WellFormed(View())
      requires forall k :: 0 <= k < |batches| ==> |batches[k].feed| == Width(View())
      modifies Repr
      ensures outs == Run(old(View()), batches)
    {
      ghost var t := View();
      outs := [];
      var k := 0;
      while k < |batches|
        invariant Valid() && WellFormed(View()) && Width(View()) == Width(t) && k <= |batches|
        invariant outs + Run(View(), batches[k..]) == Run(t, batches)
      {
        assert batches[k..] == [batches[k]] + batches[k + 1..];
        RunOne(outs, View(), batches[k..], batches[k], batches[k + 1..]);
        var out := DriveOne(batches[k]);
        outs := outs + [out];
        k := k + 1;
      }
    }
  }

  /** The boxes of a blank tree, fresh from their constructors, leaves first. */
  method Construct(t: Tree) returns (root: ESBox)
    requires Blank(t)
    ensures root.Valid() && fresh(root.Repr) && root.View() == t
  {
    match t
    case Leaf(flist, _) =>
      root := LeafBox(flist);
    case Join(left, right, plist, _) =>
      var l := Construct(left);
      var r := Construct(right);
      root := JoinBox(l, r, plist);
  }

  method LeafBox(flist: Event -> bool) returns (box: ESBox)
    ensures box.Valid() && fresh(box.Repr) && box.View() == Leaf(flist, [])
  {
    box := new ESBox.RecBuffer(flist);
  }

  method JoinBox(l: ESBox, r: ESBox, plist: seq<PPred>) returns (box: ESBox)
    requires l.Valid() && r.Valid() && l.Repr !! r.Repr
    ensures box.Valid() && box.Repr == {box} + l.Repr + r.Repr && fresh(box)
    ensures box.View() == Node(l.View(), r.View(), plist)
  {
    box := new ESBox.MLJoin(l, r, plist);
  }

  /** Any tree of boxes, fed any stream: each batch is answered over all that has arrived. */
  method RunTree(t: Tree, batches: seq<Batch>) returns (outs: seq<seq<Rec>>)
    requires WellFormed(t) && Blank(t) && Stream(Nothing(Width(t)), 0, batches)
    ensures |outs| == |batches| && forall i :: 0 <= i < |batches| ==> |batches[i].feed| == Width(t)
    ensures InRange(Preds(t), Width(t))
    ensures forall k :: 0 <= k < |batches| ==>
      Gives(Filters(t), Preds(t), History(Nothing(Width(t)), batches, k), batches[k], outs[k])
  {
    StreamWidths(Nothing(Width(t)), 0, batches);
    PredsInRange(t);
    var root := Construct(t);
    outs := root.Drive(batches);
    BlankSettled(t, 0, false);
    forall k | 0 <= k < |batches|
      ensures Gives(Filters(t), Preds(t), History(Nothing(Width(t)), batches, k), batches[k], outs[k])
    {
      RunAnswers(t, Nothing(Width(t)), 0, batches, k);
    }
  }

  /** large.cc, on objects: whatever the plan, each batch is answered over all that has arrived. */
  method RunPlan(plan: Plan, q: Query, batches: seq<Batch>) returns (outs: seq<seq<Rec>>)
    requires Stream(Nothing(4), 0, batches)
    ensures |outs| == |batches| && forall i :: 0 <= i < |batches| ==> |batches[i].feed| == 4
    ensures forall k :: 0 <= k < |batches| ==> GivesQuery(q, batches, k, outs[k])
  {
    StreamWidths(Nothing(4), 0, batches);
    PlanFlat(plan, q);
    var root := Construct(Build(plan, q));
    outs := root.Drive(batches);
    forall k | 0 <= k < |batches|
      ensures GivesQuery(q, batches, k, outs[k])
    {
      PlanAnswers(plan, q, batches, k);
    }
  }
}
