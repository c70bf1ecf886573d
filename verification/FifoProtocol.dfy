/** The one-stage queue of list_fifo.c under threads: any number of writers, one reader, one
    mutex and one condition variable, as WS_THREADED without FIFO_COARSE_LOCKING builds it.
    What a thread does while it holds the mutex is split where another thread can notice:
    allocation and freeing, the linking, the signal, the test of the head. */
module FifoProtocol {
  import opened Sequences

  type Addr = nat

  datatype Ref = Null | At(a: Addr)

  datatype Node<T> = Node(link: Ref, data: T)

  /** A writer: no cell; has filled a cell; holds the mutex; has linked the cell; has signalled. */
  datatype Writer = Idle | Filled(cell: Addr) | Inside(cell: Addr) | Linked | Signalled

  /** The reader: outside; holds the mutex at the top of the while; asleep on has_data; woken and
      without the mutex; holds the mutex and has its cell; uses the element; holds the mutex to
      clean up; holds it after freeing. */
  datatype Reader = Away | Testing | Asleep | Woken | Got | Using | Cleaning | Cleaned

  /** `cells`, `granted` and `got` record the linked cells, the values in the order in which the
      writers got the mutex, the values read, and how many cells were freed; the code does not have them. */
  datatype State<T> = State(heap: map<Addr, Node<T>>, head: Ref, tail: Ref, popped: Ref,
                            writers: map<nat, Writer>, reader: Reader,
                            cells: seq<Addr>, granted: seq<T>, got: seq<T>, freed: nat)

  datatype Act<T> =
    | Fill(w: nat, a: Addr, junk: Ref, v: T) // FIFOMALLOC returned a, link unset; v is copied into it
    | Enter(w: nat)                        // pthread_mutex_lock
    | Link(w: nat)                         // link := NULL; append
    | Signal(w: nat)                       // pthread_cond_signal
    | Leave(w: nat)                        // pthread_mutex_unlock
    | BeginGet                             // pthread_mutex_lock
    | Test                                 // head == NULL? sleep, letting go of the mutex : take a cell
    | Rouse                                // the wait ends without a signal
    | Reenter                              // the wait has the mutex again
    | EndGet                               // pthread_mutex_unlock
    | BeginCleanup                         // pthread_mutex_lock
    | Free                                 // FIFOFREE(last_popped); last_popped = NULL
    | EndCleanup                           // pthread_mutex_unlock

  predicate WriterHolds(p: Writer)
  {
    p.Inside? || p.Linked? || p.Signalled?
  }

  predicate ReaderHolds(r: Reader)
  {
    r.Testing? || r.Got? || r.Cleaning? || r.Cleaned?
  }

  ghost predicate MutexFree<T>(s: State<T>)
  {
    !ReaderHolds(s.reader) && forall w <- s.writers :: !WriterHolds(s.writers[w])
  }

  ghost predicate Enabled<T>(s: State<T>, act: Act<T>)
  {
    match act
    case Fill(w, a, junk, v) => w in s.writers && s.writers[w].Idle? && a !in s.heap
    case Enter(w) => w in s.writers && s.writers[w].Filled? && MutexFree(s)
    case Link(w) => w in s.writers && s.writers[w].Inside?
    case Signal(w) => w in s.writers && s.writers[w].Linked?
    case Leave(w) => w in s.writers && s.writers[w].Signalled?
    case BeginGet => s.reader.Away? && MutexFree(s)
    case Test => s.reader.Testing?
    case Rouse => s.reader.Asleep?
    case Reenter => s.reader.Woken? && MutexFree(s)
    case EndGet => s.reader.Got?
    case BeginCleanup => s.reader.Using? && MutexFree(s)
    case Free => s.reader.Cleaning?
    case EndCleanup => s.reader.Cleaned?
  }

  /** No step follows a pointer to a cell that is not allocated, and none frees such a cell. */
  ghost predicate Legal<T>(s: State<T>, act: Act<T>)
    requires Enabled(s, act)
  {
    match act
    case Enter(w) => s.writers[w].cell in s.heap
    case Link(w) => s.writers[w].cell in s.heap && (s.tail.At? ==> s.tail.a in s.heap)
    case Test => s.head.At? ==> s.head.a in s.heap && s.popped.Null?
    case Free => s.popped.At? && s.popped.a in s.heap
    case _ => true
  }

  ghost function Append<T>(s: State<T>, w: nat, c: Addr): State<T>
    requires c in s.heap && (s.tail.At? ==> s.tail.a in s.heap)
  {
    var fresh0 := s.heap[c := Node(Null, s.heap[c].data)];
    var heap := if s.tail.Null? then fresh0 else fresh0[s.tail.a := Node(At(c), fresh0[s.tail.a].data)];
    s.(heap := heap, head := if s.tail.Null? then At(c) else s.head, tail := At(c),
       writers := s.writers[w := Linked], cells := s.cells + [c])
  }

  ghost function Take<T>(s: State<T>): State<T>
    requires s.head.At? && s.head.a in s.heap
  {
    var cell := s.heap[s.head.a];
    s.(tail := if s.head == s.tail then Null else s.tail, head := cell.link, popped := s.head, reader := Got,
       cells := if s.cells == [] then [] else s.cells[1..], got := s.got + [cell.data])
  }

  ghost function Apply<T>(s: State<T>, act: Act<T>): State<T>
    requires Enabled(s, act) && Legal(s, act)
  {
    match act
    case Fill(w, a, junk, v) => s.(heap := s.heap[a := Node(junk, v)], writers := s.writers[w := Filled(a)])
    case Enter(w) =>
      var c := s.writers[w].cell;
      s.(writers := s.writers[w := Inside(c)], granted := s.granted + [s.heap[c].data])
    case Link(w) => Append(s, w, s.writers[w].cell)
    case Signal(w) => s.(writers := s.writers[w := Signalled], reader := if s.reader.Asleep? then Woken else s.reader)
    case Leave(w) => s.(writers := s.writers[w := Idle])
    case BeginGet => s.(reader := Testing)
    case Test => if s.head.Null? then s.(reader := Asleep) else Take(s)
    case Rouse => s.(reader := Woken)
    case Reenter => s.(reader := Testing)
    case EndGet => s.(reader := Using)
    case BeginCleanup => s.(reader := Cleaning)
    case Free => s.(heap := s.heap - {s.popped.a}, popped := Null, reader := Cleaned, freed := s.freed + 1)
    case EndCleanup => s.(reader := Away)
  }

  // ------------------------------------------------------------ the invariant

  ghost predicate Linking<T>(s: State<T>)
  {
    && (s.head == if s.cells == [] then Null else At(s.cells[0]))
    && (s.tail == if s.cells == [] then Null else At(s.cells[|s.cells| - 1]))
    && (forall i :: 0 <= i < |s.cells| ==> s.cells[i] in s.heap)
    && (forall i :: 0 <= i < |s.cells| ==> s.heap[s.cells[i]].link == LinkAfter(s.cells, i))
    && forall i, j :: 0 <= i < j < |s.cells| ==> s.cells[i] != s.cells[j]
  }

  ghost function LinkAfter(cells: seq<Addr>, i: nat): Ref
    requires i < |cells|
  {
    if i + 1 < |cells| then At(cells[i + 1]) else Null
  }

  /** Writer w has cell a and has not linked it. */
  ghost predicate Owns<T>(s: State<T>, w: nat, a: Addr)
  {
    w in s.writers && (s.writers[w] == Filled(a) || s.writers[w] == Inside(a))
  }

  /** Every allocated cell is in exactly one place. */
  ghost predicate Places<T>(s: State<T>)
  {
    && (s.popped.At? <==> s.reader.Got? || s.reader.Using? || s.reader.Cleaning?)
    && (s.popped.At? ==> s.popped.a in s.heap && s.popped.a !in s.cells)
    && (forall w, a :: Owns(s, w, a) ==> a in s.heap && a !in s.cells && s.popped != At(a))
    && (forall w, x, a :: Owns(s, w, a) && Owns(s, x, a) ==> w == x)
    && forall a <- s.heap :: a in s.cells || s.popped == At(a) || exists w :: Owns(s, w, a)
  }

  ghost predicate Exclusive<T>(s: State<T>)
  {
    && (forall w, x :: w in s.writers && x in s.writers && WriterHolds(s.writers[w]) && WriterHolds(s.writers[x]) ==>
        w == x)
    && (ReaderHolds(s.reader) ==> forall w <- s.writers :: !WriterHolds(s.writers[w]))
  }

  /** A sleeping reader has an empty queue, or a writer about to signal. */
  ghost predicate Wakeful<T>(s: State<T>)
  {
    s.reader.Asleep? && s.cells != [] ==> exists w :: w in s.writers && s.writers[w].Linked?
  }

  ghost function Values<T>(s: State<T>): seq<T>
    requires forall i :: 0 <= i < |s.cells| ==> s.cells[i] in s.heap
  {
    seq(|s.cells|, i requires 0 <= i < |s.cells| => s.heap[s.cells[i]].data)
  }

  /** The value that has been granted and not linked. */
  ghost function Entering<T>(s: State<T>, w: nat): seq<T>
  {
    if w in s.writers && s.writers[w].Inside? && s.writers[w].cell in s.heap then [s.heap[s.writers[w].cell].data]
      else []
  }

  ghost predicate NobodyInside<T>(s: State<T>)
  {
    forall w <- s.writers :: !s.writers[w].Inside?
  }

  /** Read, queued and about to be linked: the values in the order of the mutex. */
  ghost predicate Logged<T>(s: State<T>)
    requires Linking(s)
  {
    && (forall w <- s.writers :: s.writers[w].Inside? ==> s.granted == s.got + Values(s) + Entering(s, w))
    && (NobodyInside(s) ==> s.granted == s.got + Values(s))
  }

  /** Each value read has its cell freed, except the last one while it is in use. */
  ghost predicate Counted<T>(s: State<T>)
  {
    && s.freed + (if s.popped.At? then 1 else 0) == |s.got|
    && (s.popped.At? && s.popped.a in s.heap ==> s.got != [] && s.heap[s.popped.a].data == s.got[|s.got| - 1])
  }

  ghost predicate Inv<T>(s: State<T>)
  {
    Linking(s) && Places(s) && Exclusive(s) && Wakeful(s) && Logged(s) && Counted(s)
  }

  lemma InvLegal<T>(s: State<T>, act: Act<T>)
    requires Inv(s) && Enabled(s, act)
    ensures Legal(s, act)
  {
    match act
    case Enter(w) => assert Owns(s, w, s.writers[w].cell);
    case Link(w) => assert Owns(s, w, s.writers[w].cell);
    case _ =>
  }

  // ------------------------------------------------------------ the list

  /** The cells of t are those of s, with the same contents. */
  ghost predicate SameList<T>(s: State<T>, t: State<T>)
  {
    && s.cells == t.cells && s.head == t.head && s.tail == t.tail
    && forall a <- s.cells :: a in s.heap && a in t.heap && t.heap[a] == s.heap[a]
  }

  predicate Relinks<T>(act: Act<T>)
  {
    act.Link? || act.Test?
  }

  lemma OtherSteps<T>(s: State<T>, act: Act<T>)
    requires Linking(s) && Places(s) && Enabled(s, act) && Legal(s, act) && !Relinks(act)
    ensures SameList(s, Apply(s, act))
  {
  }

  lemma SameLinking<T>(s: State<T>, t: State<T>)
    requires Linking(s) && SameList(s, t)
    ensures Linking(t) && Values(t) == Values(s)
  {
    forall i | 0 <= i < |t.cells|
      ensures t.cells[i] in t.heap && t.heap[t.cells[i]] == s.heap[s.cells[i]]
    {
      assert s.cells[i] in s.cells;
    }
  }

  lemma AppendLinking<T>(s: State<T>, w: nat, c: Addr)
    requires Linking(s) && c in s.heap && c !in s.cells
    ensures Linking(Append(s, w, c)) && Values(Append(s, w, c)) == Values(s) + [s.heap[c].data]
  {
    var t := Append(s, w, c);
    forall i | 0 <= i < |t.cells|
      ensures t.cells[i] in t.heap && t.heap[t.cells[i]] == Node(LinkAfter(t.cells, i), s.heap[t.cells[i]].data)
    {
      if i < |s.cells| {
        assert s.cells[i] in s.cells;
      }
    }
  }

  lemma TakeLinking<T>(s: State<T>)
    requires Linking(s) && s.head.At?
    ensures Linking(Take(s)) && Values(s) == [s.heap[s.head.a].data] + Values(Take(s))
    ensures s.head.a !in Take(s).cells
  {
    var t := Take(s);
    assert s.heap[s.cells[0]].link == LinkAfter(s.cells, 0);
    assert forall i :: 0 <= i < |t.cells| ==> t.cells[i] == s.cells[i + 1];
    forall i | 0 <= i < |t.cells|
      ensures t.heap[t.cells[i]].link == LinkAfter(t.cells, i)
    {
      assert s.heap[s.cells[i + 1]].link == LinkAfter(s.cells, i + 1);
    }
  }

  lemma StepLinking<T>(s: State<T>, act: Act<T>)
    requires Linking(s) && Places(s) && Enabled(s, act) && Legal(s, act)
    ensures Linking(Apply(s, act))
  {
    if act.Link? {
      var c := s.writers[act.w].cell;
      assert Owns(s, act.w, c);
      AppendLinking(s, act.w, c);
    } else if act.Test? {
      if s.head.At? {
        TakeLinking(s);
      } else {
        SameLinking(s, Apply(s, act));
      }
    } else {
      OtherSteps(s, act);
      SameLinking(s, Apply(s, act));
    }
  }

  // ------------------------------------------------------------ the places

  lemma StepOwns<T>(s: State<T>, act: Act<T>, w: nat, a: Addr)
    requires Places(s) && Enabled(s, act) && Legal(s, act)
    ensures Owns(Apply(s, act), w, a) <==>
      (act.Fill? && act.w == w && act.a == a) || (Owns(s, w, a) && !(act.Link? && act.w == w))
  {
  }

  lemma StepNoLeak<T>(s: State<T>, act: Act<T>, a: Addr)
    requires Linking(s) && Places(s) && Enabled(s, act) && Legal(s, act) && a in Apply(s, act).heap
    ensures a in Apply(s, act).cells || Apply(s, act).popped == At(a) || exists w :: Owns(Apply(s, act), w, a)
  {
    if act.Fill? && act.a == a {
      assert Owns(Apply(s, act), act.w, a);
    } else if !(a in s.cells || s.popped == At(a)) {
      var w :| Owns(s, w, a);
      StepOwns(s, act, w, a);
      if act.Link? && act.w == w {
        assert Apply(s, act).cells == s.cells + [a];
      }
    }
  }

  lemma StepPlaces<T>(s: State<T>, act: Act<T>)
    requires Linking(s) && Places(s) && Enabled(s, act) && Legal(s, act)
    ensures Places(Apply(s, act))
  {
    var t := Apply(s, act);
    forall a <- t.heap
      ensures a in t.cells || t.popped == At(a) || exists w :: Owns(t, w, a)
    {
      StepNoLeak(s, act, a);
    }
    forall w, a | Owns(t, w, a)
      ensures a in t.heap && a !in t.cells && t.popped != At(a)
      ensures forall x :: Owns(t, x, a) ==> w == x
    {
      StepOwnsAlone(s, act, w, a);
    }
    StepPopped(s, act);
  }

  lemma StepOwnsAlone<T>(s: State<T>, act: Act<T>, w: nat, a: Addr)
    requires Linking(s) && Places(s) && Enabled(s, act) && Legal(s, act) && Owns(Apply(s, act), w, a)
    ensures a in Apply(s, act).heap && a !in Apply(s, act).cells && Apply(s, act).popped != At(a)
    ensures forall x :: Owns(Apply(s, act), x, a) ==> w == x
  {
    var t := Apply(s, act);
    StepOwns(s, act, w, a);
    forall x | Owns(t, x, a)
      ensures w == x
    {
      StepOwns(s, act, x, a);
    }
    if act.Link? {
      assert Owns(s, act.w, s.writers[act.w].cell);
    }
  }

  lemma StepPopped<T>(s: State<T>, act: Act<T>)
    requires Linking(s) && Places(s) && Enabled(s, act) && Legal(s, act)
    ensures Apply(s, act).popped.At? <==>
      Apply(s, act).reader.Got? || Apply(s, act).reader.Using? || Apply(s, act).reader.Cleaning?
    ensures Apply(s, act).popped.At? ==>
      Apply(s, act).popped.a in Apply(s, act).heap && Apply(s, act).popped.a !in Apply(s, act).cells
  {
    if act.Link? {
      assert Owns(s, act.w, s.writers[act.w].cell);
    }
  }

  // ------------------------------------------------------------ the mutex and the signal

  lemma StepExclusive<T>(s: State<T>, act: Act<T>)
    requires Exclusive(s) && Enabled(s, act) && Legal(s, act)
    ensures Exclusive(Apply(s, act))
  {
  }

  lemma StepWakeful<T>(s: State<T>, act: Act<T>)
    requires Linking(s) && Wakeful(s) && Enabled(s, act) && Legal(s, act)
    ensures Wakeful(Apply(s, act))
  {
    var t := Apply(s, act);
    if act.Link? {
      assert t.writers[act.w].Linked?;
    } else if t.reader.Asleep? && t.cells != [] {
      var w :| w in s.writers && s.writers[w].Linked?;
      assert t.writers[w] == s.writers[w];
    }
  }

  // ------------------------------------------------------------ the values

  lemma TakeCounted<T>(s: State<T>)
    requires Linking(s) && Counted(s) && s.head.At? && s.popped.Null?
    ensures Counted(Take(s))
  {
    assert Take(s).heap == s.heap && Take(s).popped == s.head;
    assert Take(s).got == s.got + [s.heap[s.head.a].data];
  }

  lemma QuietCounted<T>(s: State<T>, act: Act<T>)
    requires Places(s) && Counted(s) && Enabled(s, act) && Legal(s, act) && !act.Test?
    ensures Counted(Apply(s, act))
  {
    var t := Apply(s, act);
    assert t.got == s.got;
    if t.popped.At? {
      assert t.popped == s.popped && s.popped.a in s.heap;
      assert t.heap[t.popped.a].data == s.heap[t.popped.a].data;
    }
  }

  lemma EnterLogged<T>(s: State<T>, w: nat)
    requires Linking(s) && Logged(s) && Enabled(s, Enter(w)) && Legal(s, Enter(w))
    requires Linking(Apply(s, Enter(w)))
    ensures Logged(Apply(s, Enter(w)))
  {
    var t := Apply(s, Enter(w));
    assert Values(t) == Values(s);
    assert NobodyInside(s);
    assert t.granted == t.got + Values(t) + Entering(t, w);
    assert t.writers[w].Inside?;
  }

  lemma LinkLogged<T>(s: State<T>, w: nat)
    requires Linking(s) && Places(s) && Exclusive(s) && Logged(s) && Enabled(s, Link(w)) && Legal(s, Link(w))
      && Linking(Apply(s, Link(w)))
    ensures Logged(Apply(s, Link(w)))
  {
    var t := Apply(s, Link(w));
    var c := s.writers[w].cell;
    assert Owns(s, w, c);
    AppendLinking(s, w, c);
    Regroup(s.got, Values(s), Entering(s, w));
    forall x <- t.writers
      ensures !t.writers[x].Inside?
    {
      assert x != w ==> t.writers[x] == s.writers[x];
    }
  }

  lemma TestLogged<T>(s: State<T>)
    requires Linking(s) && Logged(s) && Exclusive(s) && s.reader.Testing? && Legal(s, Test) && Linking(Apply(s, Test))
    ensures Logged(Apply(s, Test))
  {
    var t := Apply(s, Test);
    assert NobodyInside(s) && NobodyInside(t);
    if s.head.At? {
      TakeLinking(s);
      Regroup(s.got, [s.heap[s.head.a].data], Values(t));
    } else {
      SameLinking(s, t);
    }
  }

  lemma QuietLogged<T>(s: State<T>, act: Act<T>)
    requires Linking(s) && Places(s) && Logged(s) && Enabled(s, act) && Legal(s, act) && Linking(Apply(s, act))
    requires !Relinks(act) && !act.Enter?
    ensures Logged(Apply(s, act))
  {
    var t := Apply(s, act);
    OtherSteps(s, act);
    SameLinking(s, t);
    forall w <- t.writers
      ensures t.writers[w].Inside? <==> s.writers[w].Inside?
      ensures t.writers[w].Inside? ==> Entering(t, w) == Entering(s, w)
    {
      if s.writers[w].Inside? {
        assert Owns(s, w, s.writers[w].cell);
      }
    }
    assert t.writers.Keys == s.writers.Keys;
    assert NobodyInside(t) ==> NobodyInside(s);
  }

  lemma StepLogged<T>(s: State<T>, act: Act<T>)
    requires Linking(s) && Places(s) && Exclusive(s) && Logged(s) && Enabled(s, act) && Legal(s, act)
    requires Linking(Apply(s, act))
    ensures Logged(Apply(s, act))
  {
    if act.Enter? {
      EnterLogged(s, act.w);
    } else if act.Link? {
      LinkLogged(s, act.w);
    } else if act.Test? {
      TestLogged(s);
    } else {
      QuietLogged(s, act);
    }
  }

  lemma StepCounted<T>(s: State<T>, act: Act<T>)
    requires Linking(s) && Places(s) && Counted(s) && Enabled(s, act) && Legal(s, act)
    ensures Counted(Apply(s, act))
  {
    if !act.Test? {
      QuietCounted(s, act);
    } else if s.head.At? {
      TakeCounted(s);
    }
  }

  // ------------------------------------------------------------ every run

  lemma StepInv<T>(s: State<T>, act: Act<T>)
    requires Inv(s) && Enabled(s, act)
    ensures Legal(s, act) && Inv(Apply(s, act))
  {
    InvLegal(s, act);
    StepLinking(s, act);
    StepPlaces(s, act);
    StepExclusive(s, act);
    StepWakeful(s, act);
    StepCounted(s, act);
    StepLogged(s, act);
  }

  /** An empty queue, nobody inside. */
  ghost predicate Starts<T>(s: State<T>)
  {
    && s.heap == map[] && s.head == s.tail == s.popped == Null && s.reader == Away
    && (forall w <- s.writers :: s.writers[w] == Idle)
    && s.cells == [] && s.granted == [] && s.got == [] && s.freed == 0
  }

  /** t comes from s by doing acts, each possible when its turn comes. */
  ghost predicate Runs<T>(s: State<T>, acts: seq<Act<T>>, t: State<T>)
    decreases |acts|
  {
    if acts == [] then s == t
    else Enabled(s, acts[0]) && Legal(s, acts[0]) && Runs(Apply(s, acts[0]), acts[1..], t)
  }

  /** As Runs, without asking that the steps be legal. */
  ghost predicate Possible<T>(s: State<T>, acts: seq<Act<T>>)
    decreases |acts|
  {
    acts == [] || (Enabled(s, acts[0]) && (Legal(s, acts[0]) ==> Possible(Apply(s, acts[0]), acts[1..])))
  }

  lemma {:induction false} RunInv<T>(s: State<T>, acts: seq<Act<T>>) returns (t: State<T>)
    requires Inv(s) && Possible(s, acts)
    ensures Runs(s, acts, t) && Inv(t)
    decreases |acts|
  {
    if acts == [] {
      t := s;
    } else {
      StepInv(s, acts[0]);
      t := RunInv(Apply(s, acts[0]), acts[1..]);
    }
  }

  // ------------------------------------------------------------ the values put

  /** What each writer was given to put, after one more step. */
  function Given<T>(held: map<nat, T>, act: Act<T>): map<nat, T>
  {
    match act
    case Fill(w, _, _, v) => held[w := v]
    case _ => held
  }

  function PutBy<T>(held: map<nat, T>, act: Act<T>): seq<T>
  {
    match act
    case Enter(w) => if w in held then [held[w]] else []
    case _ => []
  }

  /** The values given to the writers, in the order in which they get the mutex: from the steps
      alone. */
  function Puts<T>(held: map<nat, T>, acts: seq<Act<T>>): seq<T>
    decreases |acts|
  {
    if acts == [] then [] else PutBy(held, acts[0]) + Puts(Given(held, acts[0]), acts[1..])
  }

  /** The cell a writer owns has the value the writer was given. */
  ghost predicate Filed<T>(s: State<T>, held: map<nat, T>)
  {
    forall w, a :: Owns(s, w, a) ==> a in s.heap && w in held && s.heap[a].data == held[w]
  }

  lemma StepFiled<T>(s: State<T>, act: Act<T>, held: map<nat, T>)
    requires Inv(s) && Enabled(s, act) && Legal(s, act) && Filed(s, held)
    ensures Filed(Apply(s, act), Given(held, act))
    ensures Apply(s, act).granted == s.granted + PutBy(held, act)
  {
    var t := Apply(s, act);
    forall w, a | Owns(t, w, a)
      ensures a in t.heap && w in Given(held, act) && t.heap[a].data == Given(held, act)[w]
    {
      StepOwns(s, act, w, a);
      if act.Link? {
        assert Owns(s, act.w, s.writers[act.w].cell);
      }
    }
    if act.Enter? {
      assert Owns(s, act.w, s.writers[act.w].cell);
    }
  }

  lemma {:induction false} RunPuts<T>(s: State<T>, acts: seq<Act<T>>, t: State<T>, held: map<nat, T>)
    requires Inv(s) && Filed(s, held) && Runs(s, acts, t)
    ensures t.granted == s.granted + Puts(held, acts)
    decreases |acts|
  {
    if acts == [] {
    } else {
      StepInv(s, acts[0]);
      StepFiled(s, acts[0], held);
      RunPuts(Apply(s, acts[0]), acts[1..], t, Given(held, acts[0]));
      Regroup(s.granted, PutBy(held, acts[0]), Puts(Given(held, acts[0]), acts[1..]));
    }
  }

  /** Whatever the interleaving: no step touches a cell that is not allocated; the values read
      are a prefix of the values put, in the order in which their writers got the mutex; when the
      mutex is free they are all of them but the queued ones; the cells freed are those of the
      values read; and a reader that sleeps with the mutex free has read everything. */
  lemma {:induction false} Delivery<T>(s: State<T>, acts: seq<Act<T>>) returns (t: State<T>)
    requires Starts(s) && Possible(s, acts)
    ensures Runs(s, acts, t) && Inv(t) && t.granted == Puts(map[], acts)
    ensures t.got <= t.granted && t.freed <= |t.got| <= t.freed + 1
    ensures t.head.Null? <==> t.tail.Null?
    ensures MutexFree(t) ==> t.granted == t.got + Values(t)
    ensures MutexFree(t) && t.reader.Asleep? ==> t.granted == t.got && t.head.Null?
  {
    assert Inv(s);
    t := RunInv(s, acts);
    RunPuts(s, acts, t, map[]);
    if w :| w in t.writers && t.writers[w].Inside? {
      Prefix(t.got, Values(t), Entering(t, w));
    } else {
      assert NobodyInside(t);
    }
  }

  lemma Prefix<T>(a: seq<T>, b: seq<T>, c: seq<T>)
    ensures a <= a + b + c
  {
  }

  /** Somebody can always go on, unless every writer has no cell and the reader sleeps; then
      everything put has been read and every cell has been freed. */
  lemma NeverStuck<T>(s: State<T>)
    requires Inv(s)
    ensures (exists act :: Enabled(s, act) && !act.Fill? && !act.Rouse?)
      || (s.reader.Asleep? && s.granted == s.got && s.heap == map[])
  {
    if w :| w in s.writers && !s.writers[w].Idle? && (WriterHolds(s.writers[w]) || MutexFree(s)) {
      WriterGoesOn(s, w);
    } else if s.reader.Asleep? {
      assert MutexFree(s) && s.cells == [] && NobodyInside(s);
      assert forall w, a :: !Owns(s, w, a);
      assert forall a :: a !in s.heap;
    } else {
      ReaderGoesOn(s);
    }
  }

  lemma WriterGoesOn<T>(s: State<T>, w: nat)
    requires w in s.writers && !s.writers[w].Idle? && (WriterHolds(s.writers[w]) || MutexFree(s))
    ensures exists act :: Enabled(s, act) && !act.Fill? && !act.Rouse?
  {
    match s.writers[w]
    case Filled(_) => assert Enabled(s, Enter(w));
    case Inside(_) => assert Enabled(s, Link(w));
    case Linked => assert Enabled(s, Signal(w));
    case Signalled => assert Enabled(s, Leave(w));
    case Idle =>
  }

  lemma ReaderGoesOn<T>(s: State<T>)
    requires !s.reader.Asleep? && (ReaderHolds(s.reader) || MutexFree(s))
    ensures exists act :: Enabled(s, act) && !act.Fill? && !act.Rouse?
  {
    match s.reader
    case Away => assert Enabled(s, BeginGet);
    case Testing => assert Enabled(s, Test);
    case Woken => assert Enabled(s, Reenter);
    case Got => assert Enabled(s, EndGet);
    case Using => assert Enabled(s, BeginCleanup);
    case Cleaning => assert Enabled(s, Free);
    case Cleaned => assert Enabled(s, EndCleanup);
    case Asleep =>
  }

  // ------------------------------------------------------------ whole turns

  predicate OfWriter<T>(act: Act<T>, w: nat)
  {
    (act.Fill? || act.Enter? || act.Link? || act.Signal? || act.Leave?) && act.w == w
  }

  predicate OfReader<T>(act: Act<T>)
  {
    act.BeginGet? || act.Test? || act.EndGet? || act.BeginCleanup? || act.Free? || act.EndCleanup?
  }

  lemma {:induction false} RunsNothing<T>(s: State<T>) returns (acts: seq<Act<T>>)
    ensures Runs(s, acts, s) && acts == []
  {
    acts := [];
  }

  lemma {:induction false} RunsFirst<T>(s: State<T>, act: Act<T>, rest: seq<Act<T>>, t: State<T>)
      returns (acts: seq<Act<T>>)
    requires Enabled(s, act) && Legal(s, act) && Runs(Apply(s, act), rest, t)
    ensures Runs(s, acts, t) && |acts| == |rest| + 1 && acts[0] == act
    ensures ReaderActs(rest) && OfReader(act) ==> ReaderActs(acts)
    ensures WriterActs(rest, WriterOf(act)) && OfWriter(act, WriterOf(act)) ==> WriterActs(acts, WriterOf(act))
  {
    acts := [act] + rest;
    assert forall i :: 0 < i < |acts| ==> acts[i] == rest[i - 1];
  }

  function WriterOf<T>(act: Act<T>): nat
  {
    match act
    case Fill(w, _, _, _) => w
    case Enter(w) => w
    case Link(w) => w
    case Signal(w) => w
    case Leave(w) => w
    case _ => 0
  }

  /** A step that neither links nor takes. */
  lemma {:induction false} QuietStep<T>(s: State<T>, act: Act<T>) returns (t: State<T>)
    requires Inv(s) && Enabled(s, act) && !Relinks(act)
    ensures Legal(s, act) && t == Apply(s, act) && Inv(t) && t.cells == s.cells && Values(t) == Values(s)
      && t.got == s.got
  {
    StepInv(s, act);
    t := Apply(s, act);
    OtherSteps(s, act);
    SameLinking(s, t);
  }

  lemma {:induction false} EnterStep<T>(s: State<T>, w: nat) returns (t: State<T>)
    requires Inv(s) && Enabled(s, Enter(w))
    ensures Legal(s, Enter(w)) && t == Apply(s, Enter(w)) && Inv(t) && t.got == s.got && Values(t) == Values(s)
    ensures t.writers == s.writers[w := Inside(s.writers[w].cell)] && t.reader == s.reader && t.heap == s.heap
  {
    t := QuietStep(s, Enter(w));
  }

  lemma UpdateTwice<T>(m: map<nat, T>, w: nat, x: T, y: T)
    ensures m[w := x][w := y] == m[w := y]
  {
  }

  lemma {:induction false} LinkStep<T>(s: State<T>, w: nat) returns (t: State<T>)
    requires Inv(s) && Enabled(s, Link(w))
    ensures Legal(s, Link(w)) && t == Apply(s, Link(w)) && Inv(t) && t.got == s.got && s.writers[w].cell in s.heap
    ensures Values(t) == Values(s) + [s.heap[s.writers[w].cell].data]
    ensures t.writers == s.writers[w := Linked] && t.reader == s.reader
  {
    assert Owns(s, w, s.writers[w].cell);
    StepInv(s, Link(w));
    AppendLinking(s, w, s.writers[w].cell);
    t := Apply(s, Link(w));
  }

  lemma {:induction false} TakeStep<T>(s: State<T>) returns (t: State<T>)
    requires Inv(s) && s.reader.Testing? && s.cells != []
    ensures Legal(s, Test) && t == Apply(s, Test) && Inv(t) && t.reader.Got? && t.writers == s.writers
      && t.heap == s.heap
    ensures |t.got| == |s.got| + 1 && t.got == s.got + [Values(s)[0]] && Values(s) == [Values(s)[0]] + Values(t)
    ensures t.popped == At(s.cells[0])
  {
    StepInv(s, Test);
    TakeLinking(s);
    t := Apply(s, Test);
  }

  /** A writer that is left alone appends its value and lets go of the mutex, in five steps; a
      reader that sleeps is woken. */
  lemma {:induction false} WriterTurn<T>(s: State<T>, w: nat, a: Addr, junk: Ref, v: T)
      returns (acts: seq<Act<T>>, t: State<T>)
    requires Inv(s) && MutexFree(s) && w in s.writers && s.writers[w].Idle? && a !in s.heap
    ensures Runs(s, acts, t) && |acts| == 5 && acts[0] == Fill(w, a, junk, v) && WriterActs(acts, w)
    ensures Inv(t) && MutexFree(t) && Values(t) == Values(s) + [v] && t.got == s.got && t.writers == s.writers
    ensures t.reader == if s.reader.Asleep? then Woken else s.reader
  {
    var s1 := QuietStep(s, Fill(w, a, junk, v));
    var rest;
    rest, t := FilledTurn(s1, w, v);
    acts := RunsFirst(s, Fill(w, a, junk, v), rest, t);
    assert t.writers == s.writers;
  }

  ghost predicate WriterActs<T>(acts: seq<Act<T>>, w: nat)
  {
    forall i :: 0 <= i < |acts| ==> OfWriter(acts[i], w)
  }

  ghost predicate ReaderActs<T>(acts: seq<Act<T>>)
  {
    forall i :: 0 <= i < |acts| ==> OfReader(acts[i])
  }

  lemma {:induction false} FilledTurn<T>(s: State<T>, w: nat, v: T) returns (acts: seq<Act<T>>, t: State<T>)
    requires Inv(s) && MutexFree(s) && w in s.writers && s.writers[w].Filled?
    requires s.writers[w].cell in s.heap && s.heap[s.writers[w].cell].data == v
    ensures Runs(s, acts, t) && |acts| == 4 && WriterActs(acts, w)
    ensures Inv(t) && MutexFree(t) && Values(t) == Values(s) + [v] && t.got == s.got
    ensures t.writers == s.writers[w := Idle] && t.reader == if s.reader.Asleep? then Woken else s.reader
  {
    var s1 := EnterStep(s, w);
    UpdateTwice(s.writers, w, s1.writers[w], Idle);
    var rest;
    rest, t := InsideTurn(s1, w, v);
    acts := RunsFirst(s, Enter(w), rest, t);
  }

  lemma {:induction false} InsideTurn<T>(s: State<T>, w: nat, v: T) returns (acts: seq<Act<T>>, t: State<T>)
    requires Inv(s) && w in s.writers && s.writers[w].Inside?
    requires s.writers[w].cell in s.heap && s.heap[s.writers[w].cell].data == v
    ensures Runs(s, acts, t) && |acts| == 3 && WriterActs(acts, w)
    ensures Inv(t) && MutexFree(t) && Values(t) == Values(s) + [v] && t.got == s.got
    ensures t.writers == s.writers[w := Idle] && t.reader == if s.reader.Asleep? then Woken else s.reader
  {
    var s1 := LinkStep(s, w);
    UpdateTwice(s.writers, w, Linked, Idle);
    var rest;
    rest, t := LinkedTurn(s1, w);
    acts := RunsFirst(s, Link(w), rest, t);
  }

  lemma {:induction false} LinkedTurn<T>(s: State<T>, w: nat) returns (acts: seq<Act<T>>, t: State<T>)
    requires Inv(s) && w in s.writers && s.writers[w].Linked?
    ensures Runs(s, acts, t) && |acts| == 2 && WriterActs(acts, w)
    ensures Inv(t) && MutexFree(t) && Values(t) == Values(s) && t.got == s.got
    ensures t.writers == s.writers[w := Idle] && t.reader == if s.reader.Asleep? then Woken else s.reader
  {
    var s1 := QuietStep(s, Signal(w));
    var rest;
    rest, t := SignalledTurn(s1, w);
    acts := RunsFirst(s, Signal(w), rest, t);
  }

  lemma {:induction false} SignalledTurn<T>(s: State<T>, w: nat) returns (acts: seq<Act<T>>, t: State<T>)
    requires Inv(s) && w in s.writers && s.writers[w].Signalled?
    ensures Runs(s, acts, t) && |acts| == 1 && WriterActs(acts, w)
    ensures Inv(t) && MutexFree(t) && Values(t) == Values(s) && t.got == s.got
    ensures t.writers == s.writers[w := Idle] && t.reader == s.reader
  {
    t := QuietStep(s, Leave(w));
    acts := RunsNothing(t);
    acts := RunsFirst(s, Leave(w), acts, t);
  }

  /** A reader that is left alone takes the oldest value and frees its cell, in six steps. */
  lemma {:induction false} ReaderTurn<T>(s: State<T>) returns (acts: seq<Act<T>>, t: State<T>)
    requires Inv(s) && MutexFree(s) && s.reader.Away? && s.cells != []
    ensures Runs(s, acts, t) && |acts| == 6 && ReaderActs(acts)
    ensures Inv(t) && t.got == s.got + [Values(s)[0]] && Values(s) == [Values(s)[0]] + Values(t)
    ensures t.heap.Keys == s.heap.Keys - {s.cells[0]} && t.reader.Away? && t.writers == s.writers
  {
    var s1 := QuietStep(s, BeginGet);
    var rest;
    rest, t := TestingTurn(s1);
    acts := RunsFirst(s, BeginGet, rest, t);
  }

  lemma {:induction false} TestingTurn<T>(s: State<T>) returns (acts: seq<Act<T>>, t: State<T>)
    requires Inv(s) && s.reader.Testing? && s.cells != []
    ensures Runs(s, acts, t) && |acts| == 5 && ReaderActs(acts)
    ensures Inv(t) && t.got == s.got + [Values(s)[0]] && Values(s) == [Values(s)[0]] + Values(t)
    ensures t.heap.Keys == s.heap.Keys - {s.cells[0]} && t.reader.Away? && t.writers == s.writers
  {
    var s1 := TakeStep(s);
    var rest;
    rest, t := GotTurn(s1);
    acts := RunsFirst(s, Test, rest, t);
  }

  lemma {:induction false} GotTurn<T>(s: State<T>) returns (acts: seq<Act<T>>, t: State<T>)
    requires Inv(s) && s.reader.Got? && s.popped.At?
    ensures Runs(s, acts, t) && |acts| == 4 && ReaderActs(acts)
    ensures Inv(t) && t.got == s.got && Values(t) == Values(s)
    ensures t.heap.Keys == s.heap.Keys - {s.popped.a} && t.reader.Away? && t.writers == s.writers
  {
    var s1 := QuietStep(s, EndGet);
    var rest;
    rest, t := UsingTurn(s1);
    acts := RunsFirst(s, EndGet, rest, t);
  }

  lemma {:induction false} UsingTurn<T>(s: State<T>) returns (acts: seq<Act<T>>, t: State<T>)
    requires Inv(s) && MutexFree(s) && s.reader.Using? && s.popped.At?
    ensures Runs(s, acts, t) && |acts| == 3 && ReaderActs(acts)
    ensures Inv(t) && t.got == s.got && Values(t) == Values(s)
    ensures t.heap.Keys == s.heap.Keys - {s.popped.a} && t.reader.Away? && t.writers == s.writers
  {
    var s1 := QuietStep(s, BeginCleanup);
    var rest;
    rest, t := CleaningTurn(s1);
    acts := RunsFirst(s, BeginCleanup, rest, t);
  }

  lemma {:induction false} CleaningTurn<T>(s: State<T>) returns (acts: seq<Act<T>>, t: State<T>)
    requires Inv(s) && s.reader.Cleaning? && s.popped.At?
    ensures Runs(s, acts, t) && |acts| == 2 && ReaderActs(acts)
    ensures Inv(t) && t.got == s.got && Values(t) == Values(s)
    ensures t.heap.Keys == s.heap.Keys - {s.popped.a} && t.reader.Away? && t.writers == s.writers
  {
    var s1 := QuietStep(s, Free);
    var rest;
    rest, t := CleanedTurn(s1);
    acts := RunsFirst(s, Free, rest, t);
  }

  lemma {:induction false} CleanedTurn<T>(s: State<T>) returns (acts: seq<Act<T>>, t: State<T>)
    requires Inv(s) && s.reader.Cleaned?
    ensures Runs(s, acts, t) && |acts| == 1 && ReaderActs(acts)
    ensures Inv(t) && t.got == s.got && Values(t) == Values(s) && t.heap == s.heap && t.reader.Away?
    ensures t.writers == s.writers
  {
    t := QuietStep(s, EndCleanup);
    acts := RunsNothing(t);
    acts := RunsFirst(s, EndCleanup, acts, t);
  }

  /** A reader that finds nothing sleeps. */
  lemma {:induction false} EmptyTurn<T>(s: State<T>) returns (acts: seq<Act<T>>, t: State<T>)
    requires Inv(s) && MutexFree(s) && s.reader.Away? && s.cells == []
    ensures Runs(s, acts, t) && |acts| == 2 && ReaderActs(acts)
    ensures Inv(t) && t.reader.Asleep? && t.writers == s.writers && t.heap == s.heap
  {
    var s1 := QuietStep(s, BeginGet);
    StepInv(s1, Test);
    t := Apply(s1, Test);
    acts := RunsNothing(t);
    acts := RunsFirst(s1, Test, acts, t);
    acts := RunsFirst(s, BeginGet, acts, t);
  }
}
