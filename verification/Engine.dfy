/** QueryEngine.h polling a Filter.h between two rings, with all threads running: the reader fills
    the source's ring, the engine takes, judges and hands out, the socket side empties the other
    ring.  Every shared access is a step, as in Ring. */
module Engine {
  import R = Ring
  import F = Filter
  import opened Sequences

  type Event = R.Event

  /** `offered` records what the reader has begun to add; `judged` counts the events the filter has
      looked at.  While sending, _teptr is on its way into the socket ring. */
  datatype State = State(source: R.State, sock: R.State, ndbuffer: bool, flist: Event -> bool,
                         teptr: Event, nextflag: bool, sending: bool, judged: nat, printed: seq<Event>,
                           offered: seq<Event>)

  datatype Act =
    | Reader(a: R.Act)  // one step of the thread that fills the source
    | Socket(a: R.Act)  // one step of the thread that empties the socket ring
    | Look              // hasNext: _child->hasNext()
    | Fetch(a: R.Act)   // _child->next(), in its three steps
    | Judge             // the predicates; _teptr->copy(cptr), nextflag = true
    | Offer             // next: _sockbuffer->full(); nextflag = false
    | Send(a: R.Act)    // _sockbuffer->add, in its steps
    | Print             // next returns, and the event is printed

  /** The engine is between two calls of the source, with everything fetched judged. */
  predicate Idle(s: State)
  {
    s.source.cons.Idle? && |s.source.delivered| == s.judged && !s.sending
  }

  predicate Enabled(s: State, act: Act)
  {
    match act
    case Reader(a) => R.Producing(a) && R.Enabled(s.source, a)
    case Socket(a) => !R.Producing(a) && R.Enabled(s.sock, a)
    case Look => Idle(s) && !s.nextflag
    case Fetch(a) => !R.Producing(a) && !a.TestNext? && R.Enabled(s.source, a)
    case Judge => s.source.cons.Idle? && |s.source.delivered| == s.judged + 1
    case Offer => Idle(s) && s.nextflag && s.sock.prod.Waiting?
    case Send(a) => s.sending && R.Producing(a) && !a.TestFull? && R.Enabled(s.sock, a)
    case Print => s.sending && s.sock.prod.Waiting?
  }

  ghost predicate Legal(s: State)
  {
    && R.Legal(s.source) && R.Legal(s.sock)
    && (s.nextflag ==> |s.teptr| == s.sock.width)
    && (s.source.delivered != [] ==> 0 <= s.source.held < s.source.size)
  }

  /** The event just fetched, read where next() said it is. */
  function Held(s: State): Event
    requires 0 <= s.source.held < |s.source.slots|
  {
    s.source.slots[s.source.held]
  }

  ghost function Apply(s: State, act: Act): State
    requires Legal(s) && Enabled(s, act)
  {
    match act
    case Reader(a) =>
      s.(source := R.Apply(s.source, a), offered := s.offered + if a.TestFull? && !R.Full(s.source) then [a.v] else [])
    case Socket(a) => s.(sock := R.Apply(s.sock, a))
    case Look => s.(source := R.Apply(s.source, R.TestNext))
    case Fetch(a) => s.(source := R.Apply(s.source, a))
    case Judge =>
      if s.flist(Held(s)) then s.(judged := s.judged + 1, teptr := Held(s), nextflag := true)
      else s.(judged := s.judged + 1)
    case Offer =>
      if !s.ndbuffer then s.(nextflag := false, printed := s.printed + [s.teptr])
      else if R.Full(s.sock) then s
      else s.(nextflag := false, sending := true, sock := R.Apply(s.sock, R.TestFull(s.teptr)))
    case Send(a) => s.(sock := R.Apply(s.sock, a))
    case Print => s.(sending := false, printed := s.printed + [s.teptr])
  }

  // ------------------------------------------------------------ the invariant

  function Pair(b: bool, e: Event): seq<Event>
  {
    if b then [e] else []
  }

  /** Printed, being sent and held: what passes of the judged events. */
  ghost predicate Filtered(s: State)
  {
    && s.judged <= |s.source.delivered| <= s.judged + 1
    && !(s.nextflag && s.sending)
    && s.printed + Pair(s.sending || s.nextflag, s.teptr) == F.Passing(s.flist, s.source.delivered[..s.judged])
    && (s.source.cons.Ready? ==> |s.source.delivered| == s.judged && !s.nextflag && !s.sending)
    && (s.source.cons.Taken? || s.source.cons.Advanced? ==> |s.source.delivered| == s.judged + 1)
    && (|s.source.delivered| == s.judged + 1 ==> !s.nextflag && !s.sending)
  }

  /** The socket ring has been given what was printed and what is being sent. */
  ghost predicate Forwarded(s: State)
  {
    && (s.ndbuffer ==> s.sock.added + R.Pending(s.sock) == s.printed + Pair(s.sending, s.teptr))
    && (s.sending ==> s.ndbuffer) && (!s.sending ==> s.sock.prod.Waiting?)
  }

  ghost predicate Inv(s: State)
  {
    && R.Inv(s.source) && R.Inv(s.sock) && Filtered(s) && Forwarded(s)
    && s.source.added + R.Pending(s.source) == s.offered
    && s.source.width == s.sock.width && (s.nextflag ==> |s.teptr| == s.sock.width)
  }

  lemma InvLegal(s: State)
    requires Inv(s)
    ensures Legal(s)
  {
  }

  lemma ReaderInv(s: State, a: R.Act)
    requires Inv(s) && Enabled(s, Reader(a))
    ensures Inv(Apply(s, Reader(a)))
  {
    R.StepInv(s.source, a);
    R.StepConserves(s.source, a);
  }

  lemma SocketInv(s: State, a: R.Act)
    requires Inv(s) && Enabled(s, Socket(a))
    ensures Inv(Apply(s, Socket(a)))
  {
    R.StepInv(s.sock, a);
    R.StepConserves(s.sock, a);
  }

  lemma LookInv(s: State)
    requires Inv(s) && Enabled(s, Look)
    ensures Inv(Apply(s, Look))
  {
    R.StepInv(s.source, R.TestNext);
    R.StepConserves(s.source, R.TestNext);
  }

  lemma FetchInv(s: State, a: R.Act)
    requires Inv(s) && Enabled(s, Fetch(a))
    ensures Inv(Apply(s, Fetch(a)))
  {
    R.StepInv(s.source, a);
    R.StepConserves(s.source, a);
    var t := Apply(s, Fetch(a));
    assert t.source.delivered[..s.judged] == s.source.delivered[..s.judged];
  }

  /** The fetched event is still in its slot when it is judged. */
  lemma JudgeInv(s: State)
    requires Inv(s) && Enabled(s, Judge)
    ensures Held(s) == s.source.delivered[s.judged] && Inv(Apply(s, Judge))
  {
    var src := s.source;
    assert src.slots[(|src.delivered| - 1) % src.size] == src.added[|src.delivered| - 1];
    F.PassingOne(s.flist, src.delivered[..s.judged], src.delivered[s.judged]);
    assert src.delivered[..s.judged + 1] == src.delivered[..s.judged] + [src.delivered[s.judged]];
  }

  lemma OfferInv(s: State)
    requires Inv(s) && Enabled(s, Offer)
    ensures Inv(Apply(s, Offer))
  {
    if s.ndbuffer {
      R.StepInv(s.sock, R.TestFull(s.teptr));
      R.StepConserves(s.sock, R.TestFull(s.teptr));
    }
  }

  lemma SendInv(s: State, act: Act)
    requires Inv(s) && Enabled(s, act) && (act.Send? || act.Print?)
    ensures Inv(Apply(s, act))
  {
    if act.Send? {
      R.StepInv(s.sock, act.a);
      R.StepConserves(s.sock, act.a);
    }
  }

  lemma StepInv(s: State, act: Act)
    requires Inv(s) && Enabled(s, act)
    ensures Legal(s) && Inv(Apply(s, act))
  {
    match act
    case Reader(a) => ReaderInv(s, a);
    case Socket(a) => SocketInv(s, a);
    case Look => LookInv(s);
    case Fetch(a) => FetchInv(s, a);
    case Judge => JudgeInv(s);
    case Offer => OfferInv(s);
    case Send(_) => SendInv(s, act);
    case Print => SendInv(s, act);
  }

  // ------------------------------------------------------------ every run

  ghost predicate Initial(s: State)
  {
    && R.Initial(s.source) && R.Initial(s.sock) && s.source.width == s.sock.width
    && !s.nextflag && !s.sending && s.judged == 0 && s.printed == s.offered == []
  }

  /** An interleaving: any order of steps, each possible when its turn comes. */
  ghost predicate Runs(s: State, acts: seq<Act>)
    decreases |acts|
  {
    acts != [] ==> Legal(s) && Enabled(s, acts[0]) && Runs(Apply(s, acts[0]), acts[1..])
  }

  ghost function Final(s: State, acts: seq<Act>): State
    requires Runs(s, acts)
    decreases |acts|
  {
    if acts == [] then s else Final(Apply(s, acts[0]), acts[1..])
  }

  lemma {:induction false} RunInv(s: State, acts: seq<Act>)
    requires Inv(s) && Runs(s, acts)
    ensures Inv(Final(s, acts)) && Final(s, acts).flist == s.flist && Final(s, acts).ndbuffer == s.ndbuffer
    decreases |acts|
  {
    if acts == [] {
    } else {
      StepInv(s, acts[0]);
      RunInv(Apply(s, acts[0]), acts[1..]);
    }
  }

  /** Under every interleaving of the three threads: what was printed, with the event held or on
      its way, is what passes of the first events the reader offered, in order; and the socket
      side has read a prefix of it. */
  lemma Delivery(s: State, acts: seq<Act>)
    requires Initial(s) && Runs(s, acts)
    ensures var t := Final(s, acts);
            && t.judged <= |t.offered|
            && t.printed + Pair(t.sending || t.nextflag, t.teptr) == F.Passing(s.flist, t.offered[..t.judged])
            && (s.ndbuffer ==> t.sock.delivered <= t.sock.added <= t.printed + Pair(t.sending, t.teptr))
  {
    R.InitialInv(s.source);
    R.InitialInv(s.sock);
    RunInv(s, acts);
    var t := Final(s, acts);
    assert t.offered[..t.judged] == t.source.delivered[..t.judged];
  }

  // ------------------------------------------------------------ whole turns

  /** A thread that works on one of the rings. */
  datatype Side = Filling | Fetching | Sending | Emptying

  function RingOf(s: State, side: Side): R.State
  {
    if side.Filling? || side.Fetching? then s.source else s.sock
  }

  function WithRing(s: State, side: Side, r: R.State): State
  {
    if side.Filling? || side.Fetching? then s.(source := r) else s.(sock := r)
  }

  function One(side: Side, a: R.Act): Act
  {
    match side
    case Filling => Reader(a)
    case Fetching => Fetch(a)
    case Sending => Send(a)
    case Emptying => Socket(a)
  }

  /** The steps of a ring, taken by one of the threads. */
  function By(side: Side, steps: seq<R.Act>): seq<Act>
  {
    if steps == [] then [] else [One(side, steps[0])] + By(side, steps[1..])
  }

  predicate Suits(side: Side, a: R.Act)
  {
    match side
    case Filling => R.Producing(a) && !a.TestFull?
    case Sending => R.Producing(a) && !a.TestFull?
    case Fetching => !R.Producing(a) && !a.TestNext?
    case Emptying => !R.Producing(a)
  }

  lemma SideStep(s: State, side: Side, a: R.Act)
    requires Inv(s) && Suits(side, a) && R.Enabled(RingOf(s, side), a) && (side.Sending? ==> s.sending)
    ensures Legal(s) && R.Legal(RingOf(s, side)) && Enabled(s, One(side, a))
    ensures Apply(s, One(side, a)) == WithRing(s, side, R.Apply(RingOf(s, side), a))
    ensures Inv(Apply(s, One(side, a)))
  {
    StepInv(s, One(side, a));
    assert s.offered + [] == s.offered;
  }

  /** A run of a ring is a run of the engine in which one thread takes all the steps. */
  lemma {:induction false} SideRuns(s: State, side: Side, steps: seq<R.Act>)
    requires Inv(s) && R.Runs(RingOf(s, side), steps) && (side.Sending? ==> s.sending)
    requires forall i :: 0 <= i < |steps| ==> Suits(side, steps[i])
    ensures Runs(s, By(side, steps)) && Inv(Final(s, By(side, steps)))
    ensures Final(s, By(side, steps)) == WithRing(s, side, R.Final(RingOf(s, side), steps))
    decreases |steps|
  {
    if steps == [] {
    } else {
      SideStep(s, side, steps[0]);
      var t := Apply(s, One(side, steps[0]));
      SideRuns(t, side, steps[1..]);
      RunsFirst(s, One(side, steps[0]), By(side, steps[1..]));
    }
  }

  lemma RunsFirst(s: State, act: Act, rest: seq<Act>)
    requires Legal(s) && Enabled(s, act) && Runs(Apply(s, act), rest)
    ensures Runs(s, [act] + rest) && Final(s, [act] + rest) == Final(Apply(s, act), rest)
  {
    assert ([act] + rest)[1..] == rest;
  }

  lemma {:induction false} RunsJoin(s: State, acts: seq<Act>, rest: seq<Act>)
    requires Runs(s, acts) && Runs(Final(s, acts), rest)
    ensures Runs(s, acts + rest) && Final(s, acts + rest) == Final(Final(s, acts), rest)
    decreases |acts|
  {
    if acts == [] {
      assert acts + rest == rest;
    } else {
      var t := Apply(s, acts[0]);
      RunsJoin(t, acts[1..], rest);
      FirstAndRest(acts, rest);
      RunsFirst(s, acts[0], acts[1..] + rest);
    }
  }

  lemma FirstAndRest(acts: seq<Act>, rest: seq<Act>)
    requires acts != []
    ensures acts + rest == [acts[0]] + (acts[1..] + rest)
  {
  }

  lemma RunsLast(s: State, act: Act)
    requires Legal(s) && Enabled(s, act)
    ensures Runs(s, [act]) && Final(s, [act]) == Apply(s, act)
  {
    assert [act][1..] == [];
  }

  /** The reader alone, with room in the source: v is the last event offered and can be taken. */
  lemma {:induction false} ReaderTurn(s: State, v: Event) returns (acts: seq<Act>)
    requires Inv(s) && s.source.prod == R.Waiting && !s.source.cons.Taken? && |v| == s.source.width
    requires |s.source.added| - |s.source.delivered| < s.source.size - 1
    ensures acts == [Reader(R.TestFull(v))] + By(Filling, R.Finish(v, 0)) && Runs(s, acts)
    ensures var t := Final(s, acts);
            && Inv(t) && t.offered == s.offered + [v] && R.AddedTo(s.source, v, t.source)
            && t == s.(source := t.source, offered := t.offered)
  {
    var a := Reader(R.TestFull(v));
    StepInv(s, a);
    R.FullMeans(s.source);
    var t := Apply(s, a);
    R.ProducerTurn(s.source, v);
    ReaderFinishes(t, v);
    acts := [a] + By(Filling, R.Finish(v, 0));
    RunsFirst(s, a, By(Filling, R.Finish(v, 0)));
    assert R.AddedTo(t.source, v, R.Final(t.source, R.Finish(v, 0)));
  }

  lemma ReaderFinishes(s: State, v: Event)
    requires Inv(s) && s.source.prod == R.StartCopy(v)
    ensures Runs(s, By(Filling, R.Finish(v, 0))) && R.Runs(s.source, R.Finish(v, 0))
    ensures var t := Final(s, By(Filling, R.Finish(v, 0)));
            Inv(t) && R.AddedTo(s.source, v, t.source) && t == s.(source := t.source)
    ensures R.AddedTo(s.source, v, R.Final(s.source, R.Finish(v, 0)))
  {
    R.FinishAdds(s.source, v, 0);
    R.FinishProduces(v, 0);
    SideRuns(s, Filling, R.Finish(v, 0));
  }

  /** The socket side alone, with something to take. */
  lemma {:induction false} SocketTurn(s: State) returns (acts: seq<Act>)
    requires Inv(s) && s.sock.cons == R.Idle && |s.sock.delivered| < |s.sock.added|
    ensures acts == By(Emptying, [R.TestNext] + R.Fetching()) && Runs(s, acts)
    ensures var t := Final(s, acts);
            && Inv(t) && t.sock.delivered == s.sock.delivered + [s.sock.added[|s.sock.delivered|]]
            && t == s.(sock := t.sock) && R.TakenFrom(s.sock, t.sock)
  {
    R.ConsumerTurn(s.sock);
    SideRuns(s, Emptying, [R.TestNext] + R.Fetching());
    acts := By(Emptying, [R.TestNext] + R.Fetching());
  }

  /** hasNext has found something: it is fetched and judged. */
  lemma FetchTurn(s: State)
    requires Inv(s) && s.source.cons == R.Ready
    ensures var acts := By(Fetching, R.Fetching()) + [Judge];
            Runs(s, acts) && |s.source.delivered| == s.judged < |s.source.added| && Judged(s, Final(s, acts))
  {
    R.FetchTakes(s.source);
    SideRuns(s, Fetching, R.Fetching());
    var u := Final(s, By(Fetching, R.Fetching()));
    JudgeInv(u);
    RunsLast(u, Judge);
    RunsJoin(s, By(Fetching, R.Fetching()), [Judge]);
  }

  /** t is s with one more event fetched and judged, and held if it passes. */
  ghost predicate Judged(s: State, t: State)
    requires s.judged < |s.source.added|
  {
    var e := s.source.added[s.judged];
    && Inv(t) && Idle(t) && t.judged == s.judged + 1 && t.nextflag == s.flist(e)
    && (s.flist(e) ==> t.teptr == e) && R.TakenFrom(s.source, t.source)
    && t == s.(source := t.source, judged := t.judged, teptr := t.teptr, nextflag := t.nextflag)
  }

  /** The engine alone, holding nothing, with an event in the source: the oldest one is judged, and
      held exactly if it passes. */
  lemma {:induction false} JudgeTurn(s: State) returns (acts: seq<Act>)
    requires Inv(s) && Idle(s) && !s.nextflag && s.judged < |s.source.added|
    ensures acts == [Look] + (By(Fetching, R.Fetching()) + [Judge]) && Runs(s, acts)
    ensures var (t, e) := (Final(s, acts), s.source.added[s.judged]);
            && Inv(t) && Idle(t) && t.judged == s.judged + 1 && t.nextflag == s.flist(e)
            && (s.flist(e) ==> t.teptr == e) && R.TakenFrom(s.source, t.source)
            && t == s.(source := t.source, judged := t.judged, teptr := t.teptr, nextflag := t.nextflag)
  {
    StepInv(s, Look);
    R.HasNextMeans(s.source);
    FetchTurn(Apply(s, Look));
    acts := [Look] + (By(Fetching, R.Fetching()) + [Judge]);
    RunsFirst(s, Look, By(Fetching, R.Fetching()) + [Judge]);
  }

  /** The engine alone, holding an event: it is printed, and the socket ring is given it, unless
      that ring is used and full, when nothing changes. */
  lemma {:induction false} PrintTurn(s: State) returns (acts: seq<Act>)
    requires Inv(s) && Idle(s) && s.nextflag && !s.ndbuffer
    ensures acts == [Offer] && Runs(s, acts)
    ensures Final(s, acts) == s.(nextflag := false, printed := s.printed + [s.teptr])
  {
    acts := [Offer];
    RunsLast(s, Offer);
  }

  lemma {:induction false} SendTurn(s: State) returns (acts: seq<Act>)
    requires Inv(s) && Idle(s) && s.nextflag && s.ndbuffer && !s.sock.cons.Taken?
    requires |s.sock.added| - |s.sock.delivered| < s.sock.size - 1
    ensures acts == [Offer] + (By(Sending, R.Finish(s.teptr, 0)) + [Print]) && Runs(s, acts)
    ensures var t := Final(s, acts);
            && Inv(t) && Idle(t) && t.printed == s.printed + [s.teptr] && t.sock.added == s.sock.added + [s.teptr]
            && t == s.(nextflag := false, printed := t.printed, sock := t.sock)
  {
    StepInv(s, Offer);
    R.FullMeans(s.sock);
    var t, v := Apply(s, Offer), s.teptr;
    R.FinishAdds(t.sock, v, 0);
    R.FinishProduces(v, 0);
    SideRuns(t, Sending, R.Finish(v, 0));
    var u := Final(t, By(Sending, R.Finish(v, 0)));
    StepInv(u, Print);
    RunsLast(u, Print);
    RunsJoin(t, By(Sending, R.Finish(v, 0)), [Print]);
    acts := [Offer] + (By(Sending, R.Finish(v, 0)) + [Print]);
    RunsFirst(s, Offer, By(Sending, R.Finish(v, 0)) + [Print]);
  }

  lemma OfferWaits(s: State)
    requires Inv(s) && Idle(s) && s.nextflag && s.ndbuffer && !s.sock.cons.Taken?
    requires |s.sock.added| - |s.sock.delivered| == s.sock.size - 1
    ensures Legal(s) && Enabled(s, Offer) && Apply(s, Offer) == s
  {
    R.FullMeans(s.sock);
  }

  lemma LookFindsNone(s: State)
    requires Inv(s) && Idle(s) && !s.nextflag && s.judged == |s.source.added|
    ensures Legal(s) && Enabled(s, Look) && Apply(s, Look) == s
  {
    R.HasNextMeans(s.source);
  }
}
