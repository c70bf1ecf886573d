/** src/linked_lib/c_fifos/bits/list_fifo.c: the linked cells, the one-stage queue, and the
    two-stage queue that holds what a writer puts until the writer lets go. */
module ListFifo {
  import opened Sequences

  class Cell<T> {
    var link: Cell?<T>
    const data: T

    constructor (data: T)
      ensures this.data == data
    {
      this.data := data;
      link := null;
    }
  }

  /** Errors the code reports and does not survive. */
  datatype Error = Empty | NotCleaned | AlreadyRechecked

  datatype Result<+T> = Ok(value: T) | Err(error: Error)

  ghost function Values<T>(s: seq<Cell<T>>): seq<T>
  {
    seq(|s|, i requires 0 <= i < |s| => s[i].data)
  }

  ghost function Single<T>(c: Cell?<T>): seq<Cell<T>>
  {
    if c == null then [] else [c]
  }

  lemma ValuesJoin<T>(a: seq<Cell<T>>, b: seq<Cell<T>>)
    ensures Values(a + b) == Values(a) + Values(b)
  {
  }

  lemma Apart<T>(a: seq<Cell<T>>, b: seq<Cell<T>>)
    requires Distinct(a + b)
    ensures Distinct(a) && Distinct(b) && forall x <- a :: x !in b
  {
    forall i, j | 0 <= i < j < |a|
      ensures a[i] != a[j]
    {
      assert (a + b)[i] == a[i] && (a + b)[j] == a[j];
    }
    forall i, j | 0 <= i < j < |b|
      ensures b[i] != b[j]
    {
      assert (a + b)[|a| + i] == b[i] && (a + b)[|a| + j] == b[j];
    }
    forall i, j | 0 <= i < |a| && 0 <= j < |b|
      ensures a[i] != b[j]
    {
      assert (a + b)[i] == a[i] && (a + b)[|a| + j] == b[j];
    }
  }

  class OneStage<T> {
    var head: Cell?<T>
    var tail: Cell?<T>
    var lastPopped: Cell?<T>

    /** The linked cells, first to last, and the cells this queue no longer knows. */
    ghost var cells: seq<Cell<T>>
    ghost var gone: seq<Cell<T>>

    /** Every cell ever put, in the order of the puts. */
    ghost function History(): seq<Cell<T>>
      reads this
    {
      gone + Single(lastPopped) + cells
    }

    ghost predicate Linked()
      reads this, cells
    {
      && (head == null <==> cells == []) && (tail == null <==> cells == [])
      && (cells != [] ==> head == cells[0] && tail == cells[|cells| - 1] && tail.link == null)
      && forall i :: 0 <= i < |cells| - 1 ==> cells[i].link == cells[i + 1]
    }

    ghost predicate Valid()
      reads this, cells
    {
      Linked() && Distinct(History())
    }

    constructor ()
      ensures Valid() && History() == [] && lastPopped == null && cells == []
    {
      head, tail, lastPopped := null, null, null;
      cells, gone := [], [];
    }

    /** Where a put writes: the new cell and the last one. */
    ghost function LastCell(): set<Cell<T>>
      reads this
    {
      if tail == null then {} else {tail}
    }

    method PutCell(cell: Cell<T>)
      requires Valid() && cell !in History()
      modifies this`head, this`tail, this`cells, cell`link, LastCell()`link
      ensures Valid() && cells == old(cells) + [cell] && History() == old(History()) + [cell]
    {
      cell.link := null;
      if tail == null {
        head := cell;
      } else {
        tail.link := cell;
      }
      tail := cell;
      ghost var was := cells;
      assert History() == gone + Single(lastPopped) + was;
      cells := cells + [cell];
      assert History() == gone + Single(lastPopped) + was + [cell];
    }

    /** A put allocates the cell it links. */
    method Put(v: T) returns (ghost cell: Cell<T>)
      requires Valid()
      modifies this`head, this`tail, this`cells, LastCell()`link
      ensures Valid() && fresh(cell) && cell.data == v
      ensures cells == old(cells) + [cell] && History() == old(History()) + [cell]
    {
      var c := new Cell(v);
      PutCell(c);
      cell := c;
    }

    /** The get that does not wait: what the code does once there is a cell, and its two errors. */
    method Get() returns (r: Result<Cell<T>>)
      requires Valid()
      modifies this`head, this`tail, this`lastPopped, this`cells
      ensures Valid() && History() == old(History()) && gone == old(gone)
      ensures r.Err? ==> unchanged(this) && r.error == if cells == [] then Empty else NotCleaned
      ensures r.Err? <==> old(cells == [] || lastPopped != null)
      ensures r.Ok? ==> old(cells) == [r.value] + cells && lastPopped == r.value
    {
      if head == null {
        return Err(Empty);
      }
      if lastPopped != null {
        return Err(NotCleaned);
      }
      ghost var all := History();
      var cell := head;
      Apart(gone + Single(lastPopped), cells);
      assert |cells| > 1 ==> cells[0] != cells[|cells| - 1];
      assert cell.link == if |cells| > 1 then cells[1] else null;
      if head == tail {
        tail := null;
      }
      head := cell.link;
      lastPopped := cell;
      ghost var was := cells;
      cells := cells[1..];
      assert was == [cell] + cells;
      assert History() == all by {
        assert gone + ([cell] + cells) == gone + [cell] + cells;
        assert gone + [] == gone;
      }
      return Ok(cell);
    }

    /** Frees the cell of the last get; freeing null frees nothing. */
    method Cleanup()
      requires Valid()
      modifies this`lastPopped, this`gone
      ensures Valid() && History() == old(History()) && cells == old(cells)
      ensures lastPopped == null && gone == old(gone + Single(lastPopped))
    {
      ghost var all := History();
      gone := gone + Single(lastPopped);
      lastPopped := null;
      assert gone + [] == gone;
      assert History() == all;
    }

    method Size() returns (count: nat)
      requires Valid()
      ensures count == |cells|
    {
      count := 0;
      var ptr := head;
      while ptr != null
        invariant count <= |cells| && ptr == if count < |cells| then cells[count] else null
        decreases |cells| - count
      {
        ptr := ptr.link;
        count := count + 1;
      }
    }
  }

  class TwoStage<T> {
    const buffer: OneStage<T>
    const outgoing: OneStage<T>
    var inLimbo: Cell?<T>
    var pending: int

    /** What the first stage has let go of is what the second has received, in the same order;
        the cell in limbo is the one the first stage has popped. */
    ghost predicate Valid()
      reads this, buffer, outgoing, buffer.cells, outgoing.cells
    {
      && buffer != outgoing && buffer.Valid() && outgoing.Valid()
      && buffer.gone == outgoing.History() && buffer.lastPopped == inLimbo
      && pending == |Single(inLimbo)| + |buffer.cells|
    }

    /** Every cell ever put: freed, being read, released, in limbo, held; without repetition. */
    ghost function History(): seq<Cell<T>>
      reads this, buffer
    {
      buffer.History()
    }

    /** The cells whose links this queue may write. */
    ghost function Held(): set<Cell<T>>
      reads this, buffer
    {
      set c <- History()
    }

    constructor ()
      ensures Settled() && History() == [] && Queued() == [] && Freed() == []
      ensures fresh(buffer) && fresh(outgoing)
    {
      buffer := new OneStage();
      outgoing := new OneStage();
      inLimbo, pending := null, 0;
    }

    method Put(v: T) returns (ghost cell: Cell<T>)
      requires Valid()
      modifies this`pending, buffer`head, buffer`tail, buffer`cells, buffer.LastCell()`link
      ensures Valid() && fresh(cell) && cell.data == v && pending == old(pending) + 1
      ensures buffer.cells == old(buffer.cells) + [cell] && History() == old(History()) + [cell]
    {
      Apart(buffer.gone + Single(inLimbo), buffer.cells);
      assert buffer.tail == null || buffer.tail in buffer.cells;
      cell := buffer.Put(v);
      pending := pending + 1;
    }

    /** Looks at the next cell to be released; it stays in limbo. */
    method Recheck() returns (r: Result<Cell<T>>)
      requires Valid()
      modifies this`inLimbo, buffer`head, buffer`tail, buffer`lastPopped, buffer`cells
      ensures Valid() && History() == old(History()) && pending == old(pending)
      ensures r.Err? <==> old(inLimbo != null || buffer.cells == [])
      ensures r.Err? ==> unchanged(this, buffer) && r.error == if inLimbo != null then AlreadyRechecked else Empty
      ensures r.Ok? ==> inLimbo == r.value && old(buffer.cells) == [r.value] + buffer.cells
    {
      if inLimbo != null {
        return Err(AlreadyRechecked);
      }
      var g := buffer.Get();
      match g {
        case Err(e) => return Err(e);
        case Ok(c) =>
          inLimbo := c;
          return Ok(c);
      }
    }

    /** Passes the cell in limbo, or the next one, to the second stage. */
    method ReleaseOne() returns (r: Result<Cell<T>>)
      requires Valid()
      modifies this, buffer, outgoing`head, outgoing`tail, outgoing`cells, Held()`link
      ensures Valid() && History() == old(History())
      ensures r.Err? <==> old(inLimbo == null && buffer.cells == [])
      ensures r.Err? ==> unchanged(this, buffer, outgoing) && r.error == Empty
      ensures r.Ok? ==> inLimbo == null && pending == old(pending) - 1
      ensures r.Ok? ==> old(Single(inLimbo) + buffer.cells) == [r.value] + buffer.cells
      ensures r.Ok? ==> outgoing.cells == old(outgoing.cells) + [r.value]
    {
      if inLimbo == null {
        var g := Recheck();
        if g.Err? {
          return Err(g.error);
        }
      }
      PassOn();
      return Ok(outgoing.tail);
    }

    /** The handover itself: the first stage forgets the cell, the second receives it. */
    method PassOn()
      requires Valid() && inLimbo != null
      modifies this, buffer`gone, buffer`lastPopped, outgoing`head, outgoing`tail, outgoing`cells, Held()`link
      ensures Valid() && History() == old(History()) && inLimbo == null && pending == old(pending) - 1
      ensures outgoing.cells == old(outgoing.cells + [inLimbo]) && outgoing.tail == old(inLimbo)
    {
      LimboApart();
      ghost var all := History();
      buffer.gone := buffer.gone + [inLimbo];
      buffer.lastPopped := null;
      assert buffer.gone + [] == buffer.gone;
      assert History() == all;
      outgoing.PutCell(inLimbo);
      inLimbo := null;
      pending := pending - 1;
    }

    /** The cell in limbo and the last released one are not among those still held. */
    lemma LimboApart()
      requires Valid() && inLimbo != null
      ensures inLimbo !in outgoing.History() && inLimbo !in buffer.cells
      ensures outgoing.tail == null || (outgoing.tail in outgoing.cells && outgoing.tail !in buffer.cells)
      ensures outgoing.tail == null || outgoing.tail in Held()
    {
      assert buffer.History() == buffer.gone + ([inLimbo] + buffer.cells);
      Apart(buffer.gone, [inLimbo] + buffer.cells);
      Apart(buffer.gone + [inLimbo], buffer.cells);
      var last := outgoing.tail;
      if last != null {
        assert last in outgoing.cells;
        assert last in buffer.gone + [inLimbo];
      }
    }

    /** The body of the release loop. */
    method RecheckAndRelease() returns (r: Result<Cell<T>>)
      requires Valid()
      modifies this, buffer, outgoing`head, outgoing`tail, outgoing`cells, Held()`link
      ensures Valid() && History() == old(History())
      ensures r.Err? <==> old(inLimbo != null || buffer.cells == [])
      ensures r.Err? ==> unchanged(this, buffer, outgoing) && r.error == if inLimbo != null then AlreadyRechecked
        else Empty
      ensures r.Ok? ==> inLimbo == null && pending == old(pending) - 1
      ensures r.Ok? ==> outgoing.cells + buffer.cells == old(outgoing.cells + buffer.cells)
    {
      ghost var sent := outgoing.cells;
      var peek := Recheck();
      if peek.Err? {
        return peek;
      }
      r := ReleaseOne();
      Regroup(sent, [peek.value], buffer.cells);
    }

    /** What the holder of the lock does before letting go of it: everything put is released, in
        the order of the puts. */
    method Release() returns (r: Result<nat>)
      requires Valid()
      modifies this, buffer, outgoing`head, outgoing`tail, outgoing`cells, Held()`link
      ensures Valid() && History() == old(History())
      ensures r.Err? <==> old(inLimbo != null)
      ensures r.Err? ==> unchanged(this, buffer, outgoing) && r.error == AlreadyRechecked
      ensures r.Ok? ==> r.value == old(pending) && pending == 0 && inLimbo == null && buffer.cells == []
      ensures r.Ok? ==> outgoing.cells == old(outgoing.cells + buffer.cells)
    {
      var n := pending;
      var i := 0;
      while i < n
        invariant Valid() && History() == old(History()) && 0 <= i <= n && pending == n - i
        invariant if i == 0 then unchanged(this, buffer, outgoing) else inLimbo == null
        invariant i > 0 ==> old(inLimbo) == null
        invariant inLimbo == null ==> outgoing.cells + buffer.cells == old(outgoing.cells + buffer.cells)
      {
        var one := RecheckAndRelease();
        if one.Err? {
          return Err(one.error);
        }
        i := i + 1;
      }
      return Ok(n);
    }

    /** How the queue is whenever nobody holds the lock. */
    ghost predicate Settled()
      reads this, buffer, outgoing, buffer.cells, outgoing.cells
    {
      Valid() && inLimbo == null && buffer.cells == [] && outgoing.lastPopped == null
    }

    /** The values waiting for the reader, and those whose cells are freed. */
    ghost function Queued(): seq<T>
      reads this, outgoing
    {
      Values(outgoing.cells)
    }

    ghost function Freed(): seq<T>
      reads this, outgoing
    {
      Values(outgoing.gone)
    }

    /** One turn of a writer: it holds the lock from the first put to the release. */
    method WriteBatch(batch: seq<T>)
      requires Settled()
      modifies this, buffer, outgoing`head, outgoing`tail, outgoing`cells, Held()`link
      ensures Settled() && fresh(Held() - old(Held()))
      ensures Queued() == old(Queued()) + batch && Freed() == old(Freed())
    {
      for k := 0 to |batch|
        invariant Valid() && inLimbo == null && unchanged(outgoing)
        invariant Values(buffer.cells) == batch[..k] && fresh(Held() - old(Held()))
      {
        ghost var c := Put(batch[k]);
      }
      assert batch[..|batch|] == batch;
      ValuesJoin(outgoing.cells, buffer.cells);
      var r := Release();
    }

    /** One element for the worker: got, handed over, cleaned up. */
    method ReadOne() returns (v: T)
      requires Settled() && outgoing.cells != []
      modifies outgoing
      ensures Settled() && History() == old(History())
      ensures [v] + Queued() == old(Queued()) && Freed() == old(Freed()) + [v]
    {
      var g := outgoing.Get();
      v := g.value.data;
      ValuesJoin([g.value], outgoing.cells);
      ValuesJoin(outgoing.gone, [g.value]);
      outgoing.Cleanup();
    }

    /** One turn of the worker thread: as many elements as the size says. */
    method ReadAll() returns (read: seq<T>)
      requires Settled()
      modifies this, buffer, outgoing, Held()`link
      ensures Settled() && Held() == old(Held()) && Queued() == []
      ensures read == old(Queued()) && Freed() == old(Freed()) + read
    {
      read := [];
      var size := outgoing.Size();
      for i := 0 to size
        invariant Settled() && History() == old(History()) && size == i + |Queued()|
        invariant read + Queued() == old(Queued()) && Freed() == old(Freed()) + read
      {
        ghost var was := read;
        var v := ReadOne();
        Regroup(was, [v], Queued());
        Regroup(old(Freed()), was, [v]);
        read := read + [v];
      }
      var r := Release();
    }

    lemma SettledApart()
      requires Settled()
      ensures Distinct(outgoing.gone + outgoing.cells)
    {
      assert outgoing.History() == outgoing.gone + outgoing.cells;
    }
  }

  datatype Session<T> = Writes(batch: seq<T>) | Reads

  function Batch<T>(s: Session<T>): seq<T>
  {
    if s.Writes? then s.batch else []
  }

  function Batches<T>(sessions: seq<Session<T>>): (batches: seq<seq<T>>)
    ensures |batches| == |sessions|
    ensures forall k :: 0 <= k < |sessions| ==> batches[k] == if sessions[k].Writes? then sessions[k].batch else []
  {
    seq(|sessions|, k requires 0 <= k < |sessions| => Batch(sessions[k]))
  }

  lemma OneMoreBatch<T>(sessions: seq<Session<T>>, k: nat)
    requires k < |sessions|
    ensures Flatten(Batches(sessions[..k + 1])) == Flatten(Batches(sessions[..k])) + Batch(sessions[k])
  {
    var more := Batches(sessions[..k + 1]);
    assert more[..k] == Batches(sessions[..k]) && more[k] == Batch(sessions[k]);
  }

  /** What the turns leave: read so far, and still queued. */
  function AfterTurns<T>(sessions: seq<Session<T>>): (seq<T>, seq<T>)
  {
    if sessions == [] then ([], [])
    else
      var (read, queued) := AfterTurns(sessions[..|sessions| - 1]);
      match sessions[|sessions| - 1]
      case Writes(batch) => (read, queued + batch)
      case Reads => (read + queued, [])
  }

  lemma AfterOneMore<T>(sessions: seq<Session<T>>, k: nat)
    requires k < |sessions|
    ensures var (read, queued) := AfterTurns(sessions[..k]);
            AfterTurns(sessions[..k + 1])
              == if sessions[k].Writes? then (read, queued + sessions[k].batch) else (read + queued, [])
  {
    assert sessions[..k + 1][..k] == sessions[..k];
  }

  /** Nothing is lost and nothing changes its place. */
  lemma {:induction false} TurnsKeepAll<T>(sessions: seq<Session<T>>, k: nat)
    requires k <= |sessions|
    ensures AfterTurns(sessions[..k]).0 + AfterTurns(sessions[..k]).1 == Flatten(Batches(sessions[..k]))
  {
    if k == 0 {
    } else {
      TurnsKeepAll(sessions, k - 1);
      AfterOneMore(sessions, k - 1);
      OneMoreBatch(sessions, k - 1);
      var (read, queued) := AfterTurns(sessions[..k - 1]);
      Regroup(read, queued, Batch(sessions[k - 1]));
    }
  }

  /** The last turn of the reader. */
  ghost predicate LastRead<T>(sessions: seq<Session<T>>, k: nat)
  {
    k < |sessions| && sessions[k].Reads? && forall j :: k < j < |sessions| ==> sessions[j].Writes?
  }

  /** Each turn of the reader reads all there is: what has been read is what was put before the
      last of them. */
  lemma {:induction false} ReadAtLast<T>(sessions: seq<Session<T>>, k: nat, m: nat)
    requires k < m <= |sessions| && sessions[k].Reads? && forall j :: k < j < m ==> sessions[j].Writes?
    ensures AfterTurns(sessions[..m]).0 == Flatten(Batches(sessions[..k]))
  {
    AfterOneMore(sessions, m - 1);
    if m == k + 1 {
      TurnsKeepAll(sessions, k);
    } else {
      ReadAtLast(sessions, k, m - 1);
    }
  }

  lemma {:induction false} NothingRead<T>(sessions: seq<Session<T>>, m: nat)
    requires m <= |sessions| && forall j :: 0 <= j < m ==> sessions[j].Writes?
    ensures AfterTurns(sessions[..m]).0 == []
  {
    if m == 0 {
    } else {
      NothingRead(sessions, m - 1);
      AfterOneMore(sessions, m - 1);
    }
  }

  method Turn<T>(q: TwoStage<T>, s: Session<T>) returns (read: seq<T>)
    requires q.Settled()
    modifies q, q.buffer, q.outgoing, q.Held()`link
    ensures q.Settled() && fresh(q.Held() - old(q.Held()))
    ensures read + q.Queued() == old(q.Queued()) + Batch(s)
    ensures q.Freed() == old(q.Freed()) + read
    ensures s.Writes? ==> read == [] && q.Queued() == old(q.Queued()) + s.batch
    ensures s.Reads? ==> read == old(q.Queued()) && q.Queued() == []
  {
    match s
    case Writes(batch) =>
      q.WriteBatch(batch);
      read := [];
    case Reads =>
      read := q.ReadAll();
  }

  /** Any turns of any writers and the reader, one lock holder at a time: what is read, with what
      is still queued, is the batches in the order of the turns, each in one piece; what is read
      is all that was put before the reader's last turn; and exactly the cells read have been
      freed, each once. */
  method RunSessions<T>(q: TwoStage<T>, sessions: seq<Session<T>>) returns (read: seq<T>)
    requires q.Settled() && q.Queued() == [] && q.Freed() == []
    modifies q, q.buffer, q.outgoing, q.Held()`link
    ensures q.Settled() && read + q.Queued() == Flatten(Batches(sessions))
    ensures forall k :: 0 <= k < |sessions| && LastRead(sessions, k) ==> read == Flatten(Batches(sessions[..k]))
    ensures (forall k :: 0 <= k < |sessions| ==> sessions[k].Writes?) ==> read == []
    ensures q.Freed() == read && Distinct(q.outgoing.gone + q.outgoing.cells)
  {
    read := [];
    for k := 0 to |sessions|
      invariant q.Settled() && q.Freed() == read && fresh(q.Held() - old(q.Held()))
      invariant (read, q.Queued()) == AfterTurns(sessions[..k])
    {
      AfterOneMore(sessions, k);
      var some := Turn(q, sessions[k]);
      assert read + [] == read;
      read := read + some;
    }
    ReadOf(sessions, read, q.Queued());
    q.SettledApart();
  }

  lemma ReadOf<T>(sessions: seq<Session<T>>, read: seq<T>, queued: seq<T>)
    requires (read, queued) == AfterTurns(sessions[..|sessions|])
    ensures read + queued == Flatten(Batches(sessions))
    ensures forall k :: 0 <= k < |sessions| && LastRead(sessions, k) ==> read == Flatten(Batches(sessions[..k]))
    ensures (forall k :: 0 <= k < |sessions| ==> sessions[k].Writes?) ==> read == []
  {
    assert sessions[..|sessions|] == sessions;
    TurnsKeepAll(sessions, |sessions|);
    forall k | 0 <= k < |sessions| && LastRead(sessions, k)
      ensures read == Flatten(Batches(sessions[..k]))
    {
      ReadAtLast(sessions, k, |sessions|);
    }
    if forall k :: 0 <= k < |sessions| ==> sessions[k].Writes? {
      NothingRead(sessions, |sessions|);
    }
  }
}
