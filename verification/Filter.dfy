/** The boxes that run on top of the ring, one thread's view: ESBuffer.h as a bounded queue,
    FileSource.h reading from it, Filter.h with its one held event and back-pressure, and the
    polling loop of QueryEngine.h. */
module Filter {
  import opened Sequences

  /** The ring between two calls of its owner. */
  class ESBuffer<T(0)> {
    const slots: array<T>
    var curr: nat
    var end: nat

    /** The events added and not yet taken, oldest first. */
    ghost var contents: seq<T>

    ghost predicate Valid()
      reads this, slots
    {
      && curr < slots.Length && end < slots.Length
      && |contents| == (if curr <= end then end - curr else end + slots.Length - curr)
      && forall i :: 0 <= i < |contents| ==> contents[i] == slots[Place(i)]
    }

    /** Where the i-th event is. */
    ghost function Place(i: nat): nat
      reads this
    {
      if curr + i < slots.Length then curr + i else curr + i - slots.Length
    }

    constructor (size: nat)
      requires size > 0
      ensures Valid() && contents == [] && fresh(slots) && slots.Length == size
    {
      slots := new T[size];
      curr, end, contents := 0, 0, [];
    }

    method Increment(index: nat) returns (next: nat)
      requires index < slots.Length
      ensures next == if index + 1 == slots.Length then 0 else index + 1
    {
      next := index + 1;
      next := next % slots.Length;
    }

    method HasNext() returns (b: bool)
      requires Valid()
      ensures b <==> contents != []
    {
      return curr != end % slots.Length;
    }

    method Full() returns (b: bool)
      requires Valid()
      ensures b <==> |contents| == slots.Length - 1
    {
      var after := Increment(end);
      return after == curr % slots.Length;
    }

    method Next() returns (e: T)
      requires Valid() && contents != []
      modifies this`curr, this`contents
      ensures Valid() && e == old(contents)[0] && contents == old(contents)[1..]
    {
      e := slots[curr];
      curr := Increment(curr);
      contents := contents[1..];
    }

    method Add(v: T)
      requires Valid() && |contents| < slots.Length - 1
      modifies this`end, this`contents, slots
      ensures Valid() && contents == old(contents) + [v]
    {
      slots[end] := v;
      end := Increment(end);
      contents := contents + [v];
    }
  }

  /** The events that pass, in order. */
  function Passing<T>(flist: T -> bool, es: seq<T>): seq<T>
  {
    if es == [] then [] else Passing(flist, es[..|es| - 1]) + if flist(es[|es| - 1]) then [es[|es| - 1]] else []
  }

  lemma PassingOne<T>(flist: T -> bool, es: seq<T>, e: T)
    ensures Passing(flist, es + [e]) == Passing(flist, es) + if flist(e) then [e] else []
  {
    assert (es + [e])[..|es + [e]| - 1] == es;
  }

  lemma TakeOne<T>(front: seq<T>, rest: seq<T>)
    requires rest != []
    ensures front + rest == front + [rest[0]] + rest[1..]
  {
    assert rest == [rest[0]] + rest[1..];
  }

  datatype Option<+T> = None | Some(value: T)

  /** What happens around the engine, in any order. */
  datatype Event<T> = Arrives(v: T) | Polls | Drains

  /** What does not change in a run: how many events either ring holds, whether there is a socket
      buffer, and the predicates. */
  datatype Setup<!T> = Setup(room: int, sockroom: int, ndbuffer: bool, flist: T -> bool)

  /** The engine on values: the events in the source, the held one, those in the socket buffer, and
      what has been printed, accepted from the reader and read by the socket side. */
  datatype Value<T> = Value(queue: seq<T>, held: seq<T>, sock: seq<T>, printed: seq<T>, accepted: seq<T>, read: seq<T>)

  function Step<T>(s: Setup<T>, v: Value<T>, e: Event<T>): Value<T>
  {
    match e
    case Arrives(x) => if |v.queue| < s.room then v.(queue := v.queue + [x], accepted := v.accepted + [x]) else v
    case Polls => HandOut(s, Look(s.flist, v))
    case Drains => if s.ndbuffer && v.sock != [] then v.(sock := v.sock[1..], read := v.read + [v.sock[0]]) else v
  }

  /** hasNext(): events are taken until one is held. */
  function Look<T>(flist: T -> bool, v: Value<T>): (w: Value<T>)
    ensures w.sock == v.sock && w.printed == v.printed && w.accepted == v.accepted && w.read == v.read
    decreases |v.queue|
  {
    if v.held != [] || v.queue == [] then v else Look(flist, Took(flist, v))
  }

  /** The first event taken, and held if it passes. */
  function Took<T>(flist: T -> bool, v: Value<T>): Value<T>
    requires v.queue != []
  {
    v.(queue := v.queue[1..], held := if flist(v.queue[0]) then [v.queue[0]] else [])
  }

  /** next(), if there is something held, and print. */
  function HandOut<T>(s: Setup<T>, v: Value<T>): Value<T>
  {
    if v.held == [] || (s.ndbuffer && |v.sock| == s.sockroom) then v
    else
      v.(held := [], printed := v.printed + v.held, sock := v.sock + if s.ndbuffer then v.held else [])
  }

  function Run<T>(s: Setup<T>, v: Value<T>, schedule: seq<Event<T>>): Value<T>
  {
    if schedule == [] then v else Step(s, Run(s, v, schedule[..|schedule| - 1]), schedule[|schedule| - 1])
  }

  // ------------------------------------------------------------ what the steps do

  /** k is where the first event that passes is. */
  ghost predicate FirstAt<T>(flist: T -> bool, es: seq<T>, k: nat)
  {
    k < |es| && flist(es[k]) && forall i :: 0 <= i < k ==> !flist(es[i])
  }

  lemma {:induction false} LookFinds<T>(flist: T -> bool, v: Value<T>, k: nat)
    requires v.held == [] && FirstAt(flist, v.queue, k)
    ensures Look(flist, v) == v.(queue := v.queue[k + 1..], held := [v.queue[k]])
    decreases k
  {
    if k > 0 {
      LookFinds(flist, Took(flist, v), k - 1);
    }
  }

  lemma {:induction false} LookFindsNone<T>(flist: T -> bool, v: Value<T>)
    requires v.held == [] && forall i :: 0 <= i < |v.queue| ==> !flist(v.queue[i])
    ensures Look(flist, v) == v.(queue := [])
    decreases |v.queue|
  {
    if v.queue != [] {
      LookFindsNone(flist, Took(flist, v));
    }
  }

  /** A poll prints the held event, or else the first that passes, unless the socket buffer is in
      use and full; what does not pass before it is gone either way. */
  lemma PollPrints<T>(s: Setup<T>, v: Value<T>, k: nat)
    requires v.held == [] && k < |v.queue| && s.flist(v.queue[k])
    requires forall i :: 0 <= i < k ==> !s.flist(v.queue[i])
    ensures var e, w := v.queue[k], Step(s, v, Polls);
            && w.queue == v.queue[k + 1..] && w.accepted == v.accepted && w.read == v.read
            && if s.ndbuffer && |v.sock| == s.sockroom then
                 w.held == [e] && w.printed == v.printed && w.sock == v.sock
               else
                 w.held == [] && w.printed == v.printed + [e] && w.sock == if s.ndbuffer then v.sock + [e] else v.sock
  {
    LookFinds(s.flist, v, k);
  }

  lemma PollPrintsHeld<T>(s: Setup<T>, v: Value<T>, e: T)
    requires v.held == [e]
    ensures var w := Step(s, v, Polls);
            && w.queue == v.queue && w.accepted == v.accepted && w.read == v.read
            && if s.ndbuffer && |v.sock| == s.sockroom then
                 w.held == [e] && w.printed == v.printed && w.sock == v.sock
               else
                 w.held == [] && w.printed == v.printed + [e] && w.sock == if s.ndbuffer then v.sock + [e] else v.sock
  {
  }

  lemma PollFindsNone<T>(s: Setup<T>, v: Value<T>)
    requires v.held == [] && forall i :: 0 <= i < |v.queue| ==> !s.flist(v.queue[i])
    ensures Step(s, v, Polls) == v.(queue := [])
  {
    LookFindsNone(s.flist, v);
  }

  lemma ArrivalIs<T>(s: Setup<T>, v: Value<T>, e: T)
    ensures var w := Step(s, v, Arrives(e));
            if |v.queue| < s.room then w == v.(queue := v.queue + [e], accepted := v.accepted + [e]) else w == v
  {
  }

  lemma DrainIs<T>(s: Setup<T>, v: Value<T>)
    ensures var w := Step(s, v, Drains);
            if s.ndbuffer && v.sock != [] then w == v.(sock := v.sock[1..], read := v.read + [v.sock[0]]) else w == v
  {
  }

  /** A run is its events one after another. */
  lemma RunOneMore<T>(s: Setup<T>, v: Value<T>, before: seq<Event<T>>, e: Event<T>)
    ensures Run(s, v, []) == v && Run(s, v, before + [e]) == Step(s, Run(s, v, before), e)
  {
    assert (before + [e])[..|before|] == before;
  }

  // ------------------------------------------------------------ progress

  lemma {:induction false} PassingFirst<T>(flist: T -> bool, es: seq<T>)
    requires es != []
    ensures Passing(flist, es) == (if flist(es[0]) then [es[0]] else []) + Passing(flist, es[1..])
  {
    var n := |es| - 1;
    if n > 0 {
      PassingFirst(flist, es[..n]);
      assert es[..n][1..] == es[1..][..n - 1];
      Regroup(if flist(es[0]) then [es[0]] else [], Passing(flist, es[1..n]), if flist(es[n]) then [es[n]] else []);
    }
  }

  /** What will have been printed when everything in the source has been looked at. */
  function Due<T>(flist: T -> bool, v: Value<T>): seq<T>
  {
    v.printed + v.held + Passing(flist, v.queue)
  }

  function Left<T>(v: Value<T>): nat
  {
    |v.queue| + |v.held|
  }

  lemma {:induction false} LookKeeps<T>(flist: T -> bool, v: Value<T>)
    requires |v.held| <= 1
    ensures var w := Look(flist, v);
            Due(flist, w) == Due(flist, v) && Left(w) <= Left(v) && |w.held| <= 1 && (w.held == [] ==> w.queue == [])
    decreases |v.queue|
  {
    if v.held == [] && v.queue != [] {
      LookKeeps(flist, Took(flist, v));
      PassingFirst(flist, v.queue);
      Regroup(v.printed, if flist(v.queue[0]) then [v.queue[0]] else [], Passing(flist, v.queue[1..]));
    }
  }

  /** There is room for one more event in the socket buffer, if it is used. */
  predicate Roomy<T>(s: Setup<T>, v: Value<T>)
  {
    s.ndbuffer ==> |v.sock| < s.sockroom
  }

  /** One poll and one socket read. */
  lemma RoundKeeps<T>(s: Setup<T>, v: Value<T>)
    requires |v.held| <= 1 && Roomy(s, v)
    ensures var w := Step(s, Step(s, v, Polls), Drains);
            && Due(s.flist, w) == Due(s.flist, v) && w.accepted == v.accepted
            && w.held == [] && (Left(w) < Left(v) || Left(w) == 0) && Roomy(s, w)
  {
    LookKeeps(s.flist, v);
    var u := Look(s.flist, v);
    Regroup(u.printed, u.held, Passing(s.flist, u.queue));
  }

  function Rounds<T>(n: nat): seq<Event<T>>
  {
    if n == 0 then [] else Rounds(n - 1) + [Polls] + [Drains]
  }

  lemma {:induction false} RoundsKeep<T>(s: Setup<T>, v: Value<T>, n: nat)
    requires |v.held| <= 1 && Roomy(s, v)
    ensures var w := Run(s, v, Rounds(n));
            && Due(s.flist, w) == Due(s.flist, v) && w.accepted == v.accepted
            && |w.held| <= 1 && (Left(w) + n <= Left(v) || Left(w) == 0) && Roomy(s, w)
  {
    if n > 0 {
      RoundsKeep(s, v, n - 1);
      RoundKeeps(s, Run(s, v, Rounds(n - 1)));
      RunOneMore(s, v, Rounds(n - 1), Polls);
      RunOneMore(s, v, Rounds(n - 1) + [Polls], Drains);
    }
  }

  /** Whatever has been accepted is printed if it passes, after as many rounds as there are events
      left, with or without a socket buffer. */
  lemma AllPrinted<T>(s: Setup<T>, v: Value<T>, n: nat)
    requires |v.held| <= 1 && (s.ndbuffer ==> |v.sock| < s.sockroom) && |v.queue| + |v.held| <= n
    ensures var w := Run(s, v, Rounds(n));
            w.queue == w.held == [] && w.accepted == v.accepted
            && w.printed == v.printed + v.held + Passing(s.flist, v.queue)
  {
    RoundsKeep(s, v, n);
    var w := Run(s, v, Rounds(n));
    assert w.printed == Due(s.flist, w);
  }

  lemma Taking<T>(flist: T -> bool, consumed: seq<T>, queue: seq<T>, emitted: seq<T>)
    requires queue != [] && emitted + [] == Passing(flist, consumed)
    ensures consumed + [queue[0]] + queue[1..] == consumed + queue
    ensures emitted + (if flist(queue[0]) then [queue[0]] else []) == Passing(flist, consumed + [queue[0]])
  {
    TakeOne(consumed, queue);
    PassingOne(flist, consumed, queue[0]);
    assert emitted + [] == emitted;
  }

  /** A filter over a source, with an optional socket buffer on its output. */
  class Filter<T(0)> {
    const source: ESBuffer<T>
    const sockbuffer: ESBuffer<T>
    const ndbuffer: bool
    const flist: T -> bool
    var teptr: T
    var nextflag: bool

    /** What has been taken from the source, handed out, and read from the socket buffer. */
    ghost var consumed: seq<T>
    ghost var emitted: seq<T>
    ghost var drained: seq<T>

    ghost predicate Parts()
    {
      source != sockbuffer && source.slots != sockbuffer.slots
    }

    ghost predicate Shape()
      reads source, source.slots, sockbuffer, sockbuffer.slots
    {
      Parts() && source.Valid() && sockbuffer.Valid()
    }

    ghost predicate Valid()
      reads this, source, sockbuffer, source.slots, sockbuffer.slots
    {
      && Shape()
      && emitted + Held() == Passing(flist, consumed)
      && (ndbuffer ==> drained + sockbuffer.contents == emitted)
    }

    ghost function Settings(): Setup<T>
    {
      Setup(source.slots.Length - 1, sockbuffer.slots.Length - 1, ndbuffer, flist)
    }

    ghost function Held(): seq<T>
      reads this
    {
      if nextflag then [teptr] else []
    }

    /** What is in the socket buffer, if it is used. */
    ghost function Waiting(): seq<T>
      reads sockbuffer
    {
      if ndbuffer then sockbuffer.contents else []
    }

    /** The box as a value. */
    ghost function Current(): Value<T>
      reads this, source, sockbuffer
    {
      Value(source.contents, Held(), Waiting(), emitted, consumed + source.contents, drained)
    }

    constructor (source: ESBuffer<T>, sockbuffer: ESBuffer<T>, ndbuffer: bool, flist: T -> bool, blank: T)
      requires source != sockbuffer && source.slots != sockbuffer.slots
      requires source.Valid() && sockbuffer.Valid() && sockbuffer.contents == []
      ensures Valid() && consumed == emitted == drained == [] && !nextflag
      ensures this.source == source && this.sockbuffer == sockbuffer && this.ndbuffer == ndbuffer && this.flist == flist
    {
      this.source, this.sockbuffer, this.ndbuffer, this.flist := source, sockbuffer, ndbuffer, flist;
      teptr, nextflag := blank, false;
      consumed, emitted, drained := [], [], [];
    }

    /** Looks for the next event that passes, and holds it. */
    method HasNext() returns (b: bool)
      requires Valid()
      modifies this`teptr, this`nextflag, this`consumed, source`curr, source`contents
      ensures Valid() && b == nextflag && (old(nextflag) ==> b)
      ensures Current() == Look(flist, old(Current()))
      ensures consumed + source.contents == old(consumed + source.contents) && (!b ==> source.contents == [])
      ensures |old(consumed)| <= |consumed| && (old(nextflag) ==> consumed == old(consumed))
    {
      if nextflag {
        return true;
      }
      var more := source.HasNext();
      while more
        invariant Valid() && !nextflag && |old(consumed)| <= |consumed| && (more <==> source.contents != [])
        invariant Look(flist, Current()) == Look(flist, old(Current()))
        decreases |source.contents|
      {
        Pull();
        if nextflag {
          return true;
        }
        more := source.HasNext();
      }
      return false;
    }

    /** Takes one event from the source and holds it if it passes. */
    method Pull()
      requires Valid() && !nextflag && source.contents != []
      modifies this`teptr, this`nextflag, this`consumed, source`curr, source`contents
      ensures Valid() && consumed == old(consumed) + [old(source.contents)[0]]
      ensures Current() == Took(flist, old(Current())) && |source.contents| < old(|source.contents|)
    {
      Taking(flist, consumed, source.contents, emitted);
      var cptr := source.Next();
      consumed := consumed + [cptr];
      if flist(cptr) {
        teptr, nextflag := cptr, true;
      }
    }

    /** What the socket buffer is given for an event that is handed out. */
    ghost function Copied(e: T): seq<T>
    {
      if ndbuffer then [e] else []
    }

    /** Hands out the event in _teptr, held or not; None stands for the null result when the
        socket buffer has no room, which leaves everything as it was. */
    method Next() returns (e: Option<T>)
      requires Shape()
      modifies this`nextflag, this`emitted, sockbuffer`end, sockbuffer`contents, sockbuffer.slots
      ensures Shape() && source.contents == old(source.contents)
      ensures e.None? <==> ndbuffer && old(|sockbuffer.contents|) == sockbuffer.slots.Length - 1
      ensures e.None? ==> nextflag == old(nextflag) && emitted == old(emitted)
      ensures e.None? ==> sockbuffer.contents == old(sockbuffer.contents)
      ensures e.Some? ==> !nextflag && e.value == teptr && emitted == old(emitted) + [teptr]
      ensures e.Some? ==> sockbuffer.contents == old(sockbuffer.contents) + Copied(teptr)
      ensures old(Valid() && nextflag) ==> Valid() && Current() == HandOut(Settings(), old(Current()))
    {
      var full := sockbuffer.Full();
      if ndbuffer && full {
        return None;
      }
      nextflag := false;
      if ndbuffer {
        Regroup(drained, sockbuffer.contents, [teptr]);
        sockbuffer.Add(teptr);
      }
      emitted := emitted + [teptr];
      return Some(teptr);
    }

    /** One turn of the engine's loop body. */
    method Poll() returns (e: Option<T>)
      requires Valid()
      modifies this`teptr, this`nextflag, this`consumed, this`emitted
      modifies source`curr, source`contents, sockbuffer`end, sockbuffer`contents, sockbuffer.slots
      ensures Valid() && Current() == Step(Settings(), old(Current()), Polls)
      ensures consumed + source.contents == old(consumed + source.contents)
      ensures emitted == old(emitted) + if e.Some? then [e.value] else []
    {
      var any := HasNext();
      if !any {
        return None;
      }
      e := Next();
    }

    /** The socket side takes one event, if there is one. */
    method Drain() returns (e: Option<T>)
      requires Valid() && ndbuffer
      modifies this`drained, sockbuffer`curr, sockbuffer`contents
      ensures Valid() && (e.None? ==>
                          sockbuffer.contents == [] == old(sockbuffer.contents) && drained == old(drained))
      ensures e.Some? ==> drained == old(drained) + [e.value]
      ensures Current() == Step(Settings(), old(Current()), Drains)
      ensures source.contents == old(source.contents)
    {
      var any := sockbuffer.HasNext();
      if !any {
        return None;
      }
      TakeOne(drained, sockbuffer.contents);
      var v := sockbuffer.Next();
      drained := drained + [v];
      return Some(v);
    }

    /** The reader thread adds one event to the source if the ring has room. */
    method Arrive(v: T) returns (ok: bool)
      requires Valid()
      modifies source`end, source`contents, source.slots
      ensures Valid() && source.contents == if ok then old(source.contents) + [v] else old(source.contents)
      ensures ok <==> old(|source.contents|) != source.slots.Length - 1
      ensures Current() == Step(Settings(), old(Current()), Arrives(v))
    {
      var full := source.Full();
      if full {
        return false;
      }
      Regroup(consumed, source.contents, [v]);
      source.Add(v);
      return true;
    }
  }

  /** The engine's loop body, run whenever it is its turn, among arrivals and socket reads.
      Whatever the order: the three results and what is left in the boxes are those of the engine
      on values; what was printed, with the held event, is exactly what passes of the consumed part
      of what arrived, and the socket side has read a prefix of what was printed. */
  method RunEngine<T(0)>(root: Filter<T>, schedule: seq<Event<T>>)
    returns (printed: seq<T>, accepted: seq<T>, read: seq<T>)
    requires root.Valid() && root.consumed == root.emitted == root.drained == [] && !root.nextflag
    requires root.source.contents == []
    modifies root, root.source, root.source.slots, root.sockbuffer, root.sockbuffer.slots
    ensures root.Valid()
    ensures Run(Setup(root.source.slots.Length - 1, root.sockbuffer.slots.Length - 1, root.ndbuffer, root.flist),
                Value([], [], [], [], [], []), schedule)
         == Value(root.source.contents, if root.nextflag then [root.teptr] else [],
                  if root.ndbuffer then root.sockbuffer.contents else [], printed, accepted, read)
    ensures accepted == root.consumed + root.source.contents
    ensures printed + (if root.nextflag then [root.teptr] else []) == Passing(root.flist, root.consumed)
    ensures root.ndbuffer ==> read + root.sockbuffer.contents == printed
  {
    printed, accepted, read := [], [], [];
    for k := 0 to |schedule|
      invariant root.Valid()
      invariant printed == root.emitted && read == root.drained && accepted == root.consumed + root.source.contents
      invariant root.Current() == Run(root.Settings(), Value([], [], [], [], [], []), schedule[..k])
    {
      assert schedule[..k + 1][..k] == schedule[..k];
      match schedule[k]
      case Arrives(v) =>
        var ok := root.Arrive(v);
        if ok {
          accepted := accepted + [v];
        }
      case Polls =>
        var e := root.Poll();
        if e.Some? {
          printed := printed + [e.value];
        }
      case Drains =>
        if root.ndbuffer {
          var e := root.Drain();
          if e.Some? {
            read := read + [e.value];
          }
        }
    }
    assert schedule[..|schedule|] == schedule;
  }
}
