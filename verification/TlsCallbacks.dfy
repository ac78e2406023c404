/** Which callbacks lead to the failures of KTLS connections: what on_connect leaves in the buffer
    and what the first on_read answers decide, over every run of the loop with its buffers. */
module TlsCallbacks {
  import opened Bits
  import opened LoopModel
  import opened RingValue
  import opened Runs
  import opened SslLoops
  import opened TlsEpochs
  import opened TlsKtls
  import opened TlsMachine
  import opened TlsMachineRuns
  import opened TlsModel
  import opened TlsRuns
  import opened TlsSafety

  // ---- What the callbacks do ----

  /** on_connect asks to read and leaves some bytes in the buffer `r`, without filling it. */
  ghost predicate LeavesBytes(g: Greeting, r: Ring)
    requires r.Valid()
  {
    g.next == Reading && g.sqe && 0 < Used(r, g.ops).Count() < r.Size()
  }

  /** on_read, called on these bytes at once, leads to a submission as well. */
  ghost predicate AsksTwice(g: Greeting, r: Ring)
    requires r.Valid()
  {
    LeavesBytes(g, r) && Armed(true, Used(Used(r, g.ops), g.first.ops), g.first.next, g.first.sqe)
  }

  /** on_read answers die. */
  ghost predicate AsksAndDies(g: Greeting, r: Ring)
    requires r.Valid()
  {
    LeavesBytes(g, r) && g.first.next == Die
  }

  lemma GreetingIs<B>(g: Greeting, b: B, rings: map<B, Ring>)
    requires b in rings && rings[b].Valid() && g.ktls
    ensures Doubled(GreetEffect(g, b, rings).w) <==> AsksTwice(g, rings[b])
    ensures Abandons(GreetEffect(g, b, rings).w) <==> AsksAndDies(g, rings[b])
    ensures GreetEffect(g, b, rings).w.first.next == g.first.next
    ensures AsksTwice(g, rings[b]) && g.first.next == Reading ==> GreetEffect(g, b, rings).rings[b].FreeSpace() > 0
  {
  }

  lemma {:induction false} ReadsKeepTail(r: Ring, ops: seq<BufferOp>)
    requires r.Valid() && forall k :: 0 <= k < |ops| ==> ops[k].ReadOp?
    ensures Used(r, ops).tail == r.tail
    decreases |ops|
  {
    if ops != [] {
      var l: Local<nat> := Local(Conn(-1, None, Idle, NoOp), r, [], NO_WIRE);
      TouchValid(l, ops[0]);
      assert Touch(l, ops[0]).ring.tail == r.tail;
      ReadsKeepTail(Touch(l, ops[0]).ring, ops[1..]);
    }
  }

  /** If on_read only takes bytes and asks to read, both receives are lent the same memory. */
  lemma SameMemory(g: Greeting, r: Ring)
    requires r.Valid() && AsksTwice(g, r) && g.first.next == Reading
    requires forall k :: 0 <= k < |g.first.ops| ==> g.first.ops[k].ReadOp?
    ensures var u := Used(r, g.ops);
            var v := Used(u, g.first.ops);
            u.FreeRegion().0 == v.FreeRegion().0 && u.FreeRegion().1 > 0 && v.FreeRegion().1 > 0
  {
    var u := Used(r, g.ops);
    ReadsKeepTail(u, g.first.ops);
    FreeRegionIsFirstChunk(u);
    FreeRegionIsFirstChunk(Used(u, g.first.ops));
  }

  // ---- A KTLS connection starts ----

  /** The buffers when on_connect is called, and the one that the new connection gets. */
  ghost function NewRings<B>(m: Machine<B>, x: Input<B>): map<B, Ring>
    requires NewOk(m.tls.pool, m.rings, m.size, x.given)
  {
    Supplied(m.tls.pool, m.rings, x.given)
  }

  ghost function NewBuffer<B>(m: Machine<B>, x: Input<B>): B
    requires NewOk(m.tls.pool, m.rings, m.size, x.given)
  {
    Granted(m.tls.pool, x.given)
  }

  /** Step `a` of a run completes the handshake of a KTLS connection with nothing outstanding. */
  ghost predicate KtlsGreets<B>(trace: seq<Machine<B>>, inputs: seq<Input<B>>, a: nat, fd: nat) {
    && IsMachineRun(trace, inputs) && a < |inputs| && inputs[a].fd == fd
    && Shakes(trace[a].tls, inputs[a]) && inputs[a].h.greeting.ktls
    && Besides(trace[a].tls, EventOf(trace[a], inputs[a])) == []
  }

  /** Its buffer, empty as on_connect finds it. */
  ghost function FirstRing<B>(m: Machine<B>, x: Input<B>): (r: Ring)
    requires MachineOk(m) && MayGive(m, x) && Shakes(m.tls, x)
    ensures r.Valid() && EmptyRing(r) && NewBuffer(m, x) in NewRings(m, x) && r == NewRings(m, x)[NewBuffer(m, x)]
  {
    NewRings(m, x)[NewBuffer(m, x)]
  }

  /** What the step makes of the connection. */
  lemma GreetedIs<B>(m: Machine<B>, x: Input<B>)
    requires MachineOk(m) && MayGive(m, x) && Shakes(m.tls, x)
    ensures var e, g, r := EventOf(m, x), x.h.greeting, FirstRing(m, x);
            && e.fd == x.fd && Greets(m.tls, e, x.fd)
            && e.h.welcome.ktls == g.ktls && (g.ktls ==> e.h.welcome.first.next == g.first.next)
            && Step(m, x).rings == GreetEffect(g, NewBuffer(m, x), NewRings(m, x)).rings
            && (g.ktls ==> (AsksTwice(g, r) <==> Doubled(e.h.welcome))
                           && (AsksAndDies(g, r) <==> Abandons(e.h.welcome)))
  {
    hide AsksTwice, AsksAndDies, Doubled, Abandons, Next, React, ReadDeal, DispatchEffect;
    if x.h.greeting.ktls {
      GreetingIs(x.h.greeting, NewBuffer(m, x), NewRings(m, x));
    }
  }

  /** A connection that is still there has the buffer it had. */
  ghost predicate SameBuffer<B>(s: Tls<B>, s': Tls<B>, fd: nat) {
    && Parallel(s') && fd < |s.conns| == |s'.conns|
    && (s'.conns[fd].buffer.Some? ==> s'.conns[fd].buffer == s.conns[fd].buffer)
  }

  lemma AppliedSame<B>(s: Tls<B>, fd: nat, next: ElState, armed: bool)
    requires Parallel(s) && fd < |s.conns|
    ensures SameBuffer(s, ApplyState(s, fd, next, armed), fd)
  {
  }

  lemma ReadSame<B>(s: Tls<B>, fd: nat, t: Transfer)
    requires Parallel(s) && fd < |s.conns|
    ensures SameBuffer(s, HandleRead(s, fd, t), fd)
  {
    hide ApplyState;
    AppliedSame(Called(s, fd, OnRead), fd, t.next, t.armed);
  }

  lemma CompleteBuffer<B>(s: Tls<B>, fd: nat, ssl: nat, w: Welcome<B>)
    requires Parallel(s) && fd < |s.conns|
    ensures var s' := TlsModel.Complete(s, fd, ssl, w);
            Live(s', fd) ==> s'.conns[fd].buffer == Some(if s.pool != [] then s.pool[|s.pool| - 1] else w.block)
  {
    hide ApplyState, HandleRead;
    var s1 := TlsModel.Greeted(RegisterConnection(s, fd, ssl, w.block), fd, w.ktls);
    AppliedSame(s1, fd, w.next, w.armed);
    if w.next != Die {
      ReadSame(ApplyState(s1, fd, w.next, w.armed), fd, w.first);
    }
  }

  lemma BufferIs<B>(m: Machine<B>, x: Input<B>)
    requires MachineOk(m) && MayGive(m, x) && Shakes(m.tls, x)
    ensures var s := Step(m, x).tls; Live(s, x.fd) ==> s.conns[x.fd].buffer == Some(NewBuffer(m, x))
  {
    hide TlsModel.Complete, Live, React, ReadDeal, DispatchEffect, Fits, Emptied;
    var w := EventOf(m, x).h.welcome;
    match x
    case Accepts(fd, ssl, h, sqe, n) =>
      CompleteBuffer(Shaken(Accepted(Grow(m.tls, fd), fd, ssl)), fd, ssl, w);
    case Completes(fd, i, res, again, h, io, n) =>
      var s := Landed(m.tls, fd, i);
      CompleteBuffer(Shaken(s.(pending := s.pending - {fd})), fd, s.conns[fd].ssl.value, w);
  }

  /** A second receive is submitted only if there is room for it. */
  lemma RoomLeft<B>(m: Machine<B>, x: Input<B>)
    requires MachineOk(m) && MayGive(m, x) && Shakes(m.tls, x) && x.h.greeting.ktls
    ensures var g, m' := x.h.greeting, Step(m, x);
            AsksTwice(g, FirstRing(m, x)) && g.first.next == Reading && Live(m'.tls, x.fd) ==>
              HasRoom(m', x.fd)
  {
    hide AsksTwice, TlsModel.Complete, Next;
    GreetedIs(m, x);
    BufferIs(m, x);
    GreetingIs(x.h.greeting, NewBuffer(m, x), NewRings(m, x));
  }

  ghost predicate HasRoom<B>(m: Machine<B>, fd: nat) {
    Live(m.tls, fd) &&
    var b := m.tls.conns[fd].buffer.value; b in m.rings && m.rings[b].Valid() && m.rings[b].FreeSpace() > 0
  }

  lemma GreetsIn<B>(trace: seq<Machine<B>>, inputs: seq<Input<B>>, a: nat, fd: nat)
    requires KtlsGreets(trace, inputs, a, fd)
    ensures MachineOk(trace[a]) && MayGive(trace[a], inputs[a]) && trace[a + 1] == Step(trace[a], inputs[a])
    ensures |trace| == |inputs| + 1 && a < |inputs|
    ensures KtlsStarts(Loops(trace), Events(trace, inputs), a, fd)
    ensures MachineOk(trace[a + 1])
  {
    hide Greets, OutcomeOf, MachineOk, MayGive, Init, Step, IsRun, Besides, GreetEffect, AsksTwice, AsksAndDies;
    RunIs(trace, inputs);
    assert StepsTo(trace[a], inputs[a], trace[a + 1]);
    GreetedIs(trace[a], inputs[a]);
    assert Events(trace, inputs)[a] == EventOf(trace[a], inputs[a]) && Loops(trace)[a] == trace[a].tls;
  }

  /** The state after the greeting, by what the callbacks did. */
  ghost predicate Begins<B>(m: Machine<B>, g: Greeting, r: Ring, fd: nat)
    requires r.Valid()
  {
    && MachineOk(m) && Inv(m.tls) && WellFormed(m.tls) && !m.tls.crashed
    && if AsksTwice(g, r) then TwoOps(m.tls, fd) && m.tls.conns[fd].op == OpAsked(g.first.next)
       else if AsksAndDies(g, r) then Abandoned(m.tls, fd)
       else OneOp(m.tls, fd)
  }

  lemma Begun<B>(trace: seq<Machine<B>>, inputs: seq<Input<B>>, a: nat, fd: nat)
    requires KtlsGreets(trace, inputs, a, fd)
    ensures MachineOk(trace[a]) && MayGive(trace[a], inputs[a])
    ensures Begins(trace[a + 1], inputs[a].h.greeting, FirstRing(trace[a], inputs[a]), fd)
    ensures var g, r, w := inputs[a].h.greeting, FirstRing(trace[a], inputs[a]), Events(trace, inputs)[a].h.welcome;
            && (AsksTwice(g, r) <==> Doubled(w)) && (AsksAndDies(g, r) <==> Abandons(w))
            && (AsksTwice(g, r) && g.first.next == Reading && Live(trace[a + 1].tls, fd) ==> HasRoom(trace[a + 1], fd))
  {
    hide Greets, OutcomeOf, MachineOk, MayGive, Init, Step, IsRun, Besides, GreetEffect, FirstRing, EventOf;
    hide Doubled, Abandons, AsksTwice, AsksAndDies, TwoOps, OneOp, Abandoned, Inv, WellFormed, KtlsStarts;
    GreetsIn(trace, inputs, a, fd);
    Started(Loops(trace), Events(trace, inputs), a, fd);
    GreetedIs(trace[a], inputs[a]);
    RoomLeft(trace[a], inputs[a]);
  }

  // ---- What may follow ----

  ghost predicate NoMoreAccepts<B>(more: seq<Input<B>>, fd: nat) {
    forall k :: 0 <= k < |more| ==> !(more[k].Accepts? && more[k].fd == fd)
  }

  /** The inputs may follow, and accept does not return the descriptor again in them. */
  ghost predicate Follows<B>(m: Machine<B>, more: seq<Input<B>>, fd: nat) {
    NoMoreAccepts(more, fd) && Play(MoveIf(), m, more).Some?
  }

  ghost function Reached<B>(m: Machine<B>, more: seq<Input<B>>): Machine<B>
    requires Play(MoveIf(), m, more).Some?
  {
    Play(MoveIf(), m, more).value
  }

  /** Without the buffers, the same may follow. */
  lemma {:induction false} FollowsToo<B>(m: Machine<B>, more: seq<Input<B>>, fd: nat) returns (events: seq<Event<B>>)
    requires Follows(m, more, fd)
    ensures Leads(m.tls, events, fd) && After(m.tls, events) == Reached(m, more).tls
    decreases |more|
  {
    if more == [] {
      events := [];
    } else {
      var e := EventOf(m, more[0]);
      StepIs(m, more[0]);
      assert NoMoreAccepts(more[1..], fd);
      var rest := FollowsToo(Step(m, more[0]), more[1..], fd);
      events := [e] + rest;
      assert events[1..] == rest;
    }
  }

  /** After `more`, a receive of `fd` completes with bytes that on_read is not called for. */
  ghost predicate BytesLost<B>(m: Machine<B>, more: seq<Input<B>>, x: Input<B>, fd: nat) {
    Follows(m, more, fd) &&
    var t := Reached(m, more);
    MachineOk(t) && MayGive(t, x) && Receives(t.tls, EventOf(t, x), fd) && !ReadCalled(t.tls, Step(t, x).tls, fd)
  }

  lemma NothingFollows<B>(m: Machine<B>, fd: nat)
    ensures Follows(m, [], fd) && Reached(m, []) == m
  {
  }

  lemma LostToo<B>(m: Machine<B>, more: seq<Input<B>>, x: Input<B>, fd: nat) 
    returns (events: seq<Event<B>>, e: Event<B>)
    requires BytesLost(m, more, x, fd)
    ensures Loses(m.tls, events, e, fd)
  {
    events := FollowsToo(m, more, fd);
    e := EventOf(Reached(m, more), x);
    StepIs(Reached(m, more), x);
  }

  /** The oldest operation completes with `res`; a callback it leads to leaves the buffer alone and
      answers idle. */
  function Ending<B>(fd: nat, res: int): Input<B> {
    Completes(fd, 0, res, false, ShakeFails, Io((k: nat) => SslAnswer.Ends, (k: nat) => 0, [], Idle, false), None)
  }

  /** A received byte is lost at once. */
  lemma LostNow<B>(m: Machine<B>, fd: nat)
    requires MachineOk(m) && Inv(m.tls) && !m.tls.crashed && fd !in m.tls.pending
    requires fd < |m.tls.flights| && m.tls.flights[fd] != [] && m.tls.flights[fd][0].kind == RecvDone
    requires fd < |m.tls.conns| && !(Live(m.tls, fd) && m.tls.conns[fd].op == RecvKtls)
    ensures BytesLost(m, [], Ending(fd, 1), fd)
  {
    InvWellFormed(m.tls);
    TakenIff(m.tls, EventOf(m, Ending(fd, 1)), fd);
  }

  lemma LostAtOnce<B>(m: Machine<B>, fd: nat)
    requires MachineOk(m) && Inv(m.tls) && !m.tls.crashed
    requires (TwoOps(m.tls, fd) && m.tls.conns[fd].op == SendKtls) || Abandoned(m.tls, fd)
    ensures BytesLost(m, [], Ending(fd, 1), fd)
  {
    hide BytesLost, OwnersOk;
    LostNow(m, fd);
  }

  lemma LostLater<B>(m: Machine<B>, x: Input<B>, y: Input<B>, fd: nat)
    requires MachineOk(m) && MayGive(m, x) && x.Completes? && BytesLost(Step(m, x), [], y, fd)
    ensures BytesLost(m, [x], y, fd)
  {
    hide Step, MachineOk, MayGive, Receives, ReadCalled, EventOf;
    PlayOne(MoveIf(), m, x);
  }

  /** One of two receives brings a byte, and the other one's is lost. */
  lemma LostNext<B>(m: Machine<B>, fd: nat)
    requires MachineOk(m) && Inv(m.tls) && !m.tls.crashed && TwoOps(m.tls, fd) && m.tls.conns[fd].op == RecvKtls
    requires HasRoom(m, fd)
    ensures BytesLost(m, [Ending(fd, 1)], Ending(fd, 1), fd)
  {
    hide BytesLost, OwnersOk, RecordsOk;
    var x := Ending(fd, 1);
    InvWellFormed(m.tls);
    assert MayGive(m, x);
    var m1 := Step(m, x);
    StepSound(m, x);
    assert m1.tls.flights[fd][0] == Submission(m.tls, fd, RecvKtls) && m1.tls.conns[fd].op == NoTlsOp;
    LostNow(m1, fd);
    LostLater(m, x, x, fd);
  }

  /** A failed operation pools the buffer that the other one was lent. */
  lemma StrandedNext<B>(m: Machine<B>, fd: nat)
    requires MachineOk(m) && Inv(m.tls) && !m.tls.crashed && TwoOps(m.tls, fd)
    ensures Stranded(m, [Ending(fd, -104)], fd)
  {
    var x := Ending(fd, -104);
    InvWellFormed(m.tls);
    assert MayGive(m, x);
    PlayOne(MoveIf(), m, x);
    StrandsOther(m.tls, fd);
    PlayOne(StepIf(), m.tls, Reset(fd));
    assert Step(m, x).tls == Next(m.tls, Reset(fd));
  }

  /** After `more`, the kernel holds a buffer of the pool for an operation of `fd`. */
  ghost predicate Stranded<B>(m: Machine<B>, more: seq<Input<B>>, fd: nat) {
    Follows(m, more, fd) && PooledLent(Reached(m, more).tls, fd)
  }

  lemma StrandedToo<B>(m: Machine<B>, more: seq<Input<B>>, fd: nat) returns (events: seq<Event<B>>)
    requires Stranded(m, more, fd)
    ensures Strands(m.tls, events, fd)
  {
    events := FollowsToo(m, more, fd);
  }

  lemma StrandedNow<B>(m: Machine<B>, fd: nat)
    requires Abandoned(m.tls, fd)
    ensures Stranded(m, [], fd)
  {
    NothingFollows(m, fd);
    assert LendsPooled(m.tls, m.tls.flights[fd][0]);
  }

  // ---- When the failures are possible ----

  /** Up to the next accept of its descriptor, a KTLS connection has at most one operation outstanding
      whatever follows, exactly when on_connect left no bytes that on_read made another submission
      for. */
  lemma AtMostOneWhen<B>(trace: seq<Machine<B>>, inputs: seq<Input<B>>, a: nat, fd: nat)
    requires KtlsGreets(trace, inputs, a, fd)
    ensures MachineOk(trace[a]) && MayGive(trace[a], inputs[a])
    ensures var m := trace[a + 1];
            (forall more: seq<Input<B>> :: Follows(m, more, fd) ==> |FlightsOf(Reached(m, more).tls, fd)| <= 1)
            <==> !AsksTwice(inputs[a].h.greeting, FirstRing(trace[a], inputs[a]))
  {
    hide MachineOk, MayGive, IsMachineRun, KtlsStarts, AsksTwice, AsksAndDies, FirstRing, Inv, WellFormed, Play;
    hide Doubled, Abandons, OneOp, Leads, After, EventOf;
    Begun(trace, inputs, a, fd);
    GreetsIn(trace, inputs, a, fd);
    AtMostOneIff(Loops(trace), Events(trace, inputs), a, fd);
    var m := trace[a + 1];
    assert Loops(trace)[a + 1] == m.tls;
    if AsksTwice(inputs[a].h.greeting, FirstRing(trace[a], inputs[a])) {
      NothingFollows(m, fd);
    } else {
      forall more: seq<Input<B>> | Follows(m, more, fd)
        ensures |FlightsOf(Reached(m, more).tls, fd)| <= 1
      {
        var events := FollowsToo(m, more, fd);
      }
    }
  }

  /** Received bytes of a KTLS connection may be lost exactly when on_connect left bytes in the buffer
      and asked to read, and on_read, called on them at once, submitted something too or answered
      die. */
  lemma LossWhen<B>(trace: seq<Machine<B>>, inputs: seq<Input<B>>, a: nat, fd: nat)
    requires KtlsGreets(trace, inputs, a, fd)
    ensures MachineOk(trace[a]) && MayGive(trace[a], inputs[a])
    ensures var m, g, r := trace[a + 1], inputs[a].h.greeting, FirstRing(trace[a], inputs[a]);
            (exists more: seq<Input<B>>, x: Input<B> :: BytesLost(m, more, x, fd))
            <==> AsksTwice(g, r) || AsksAndDies(g, r)
  {
    hide MachineOk, MayGive, IsMachineRun, KtlsStarts, AsksTwice, AsksAndDies, FirstRing, Inv, WellFormed, Play;
    hide Doubled, Abandons, OneOp, Abandoned, Loses, BytesLost, EventOf, HasRoom;
    Begun(trace, inputs, a, fd);
    GreetsIn(trace, inputs, a, fd);
    LossIff(Loops(trace), Events(trace, inputs), a, fd);
    var m, g, r := trace[a + 1], inputs[a].h.greeting, FirstRing(trace[a], inputs[a]);
    assert Loops(trace)[a + 1] == m.tls;
    if AsksTwice(g, r) && g.first.next == Reading {
      LostNext(m, fd);
    } else if AsksTwice(g, r) || AsksAndDies(g, r) {
      LostAtOnce(m, fd);
    } else {
      forall more: seq<Input<B>>, x: Input<B>
        ensures !BytesLost(m, more, x, fd)
      {
        if BytesLost(m, more, x, fd) {
          var events, e := LostToo(m, more, x, fd);
        }
      }
    }
  }

  /** A buffer that the kernel still holds for a KTLS connection may be pooled exactly in the same two
      cases. */
  lemma StrandWhen<B>(trace: seq<Machine<B>>, inputs: seq<Input<B>>, a: nat, fd: nat)
    requires KtlsGreets(trace, inputs, a, fd)
    ensures MachineOk(trace[a]) && MayGive(trace[a], inputs[a])
    ensures var m, g, r := trace[a + 1], inputs[a].h.greeting, FirstRing(trace[a], inputs[a]);
            (exists more: seq<Input<B>> :: Stranded(m, more, fd)) <==> AsksTwice(g, r) || AsksAndDies(g, r)
  {
    hide MachineOk, MayGive, IsMachineRun, KtlsStarts, AsksTwice, AsksAndDies, FirstRing, Inv, WellFormed, Play;
    hide Doubled, Abandons, OneOp, TwoOps, Strands, Stranded, EventOf;
    Begun(trace, inputs, a, fd);
    GreetsIn(trace, inputs, a, fd);
    StrandIff(Loops(trace), Events(trace, inputs), a, fd);
    var m, g, r := trace[a + 1], inputs[a].h.greeting, FirstRing(trace[a], inputs[a]);
    assert Loops(trace)[a + 1] == m.tls;
    if AsksTwice(g, r) {
      StrandedNext(m, fd);
    } else if AsksAndDies(g, r) {
      StrandedNow(m, fd);
    } else {
      forall more: seq<Input<B>>
        ensures !Stranded(m, more, fd)
      {
        if Stranded(m, more, fd) {
          var events := StrandedToo(m, more, fd);
        }
      }
    }
  }

  // ---- They do happen ----

  /** A KTLS connection's on_connect writes one byte and asks to read; on_read takes nothing and asks to
      read again. */
  function Chatty(): Greeting {
    var io := Io((k: nat) => SslAnswer.Wants, (k: nat) => 0, [], Reading, true);
    Greeting(true, [WriteOp([0])], Reading, true, io)
  }

  lemma OneByteLeft(r: Ring)
    requires r.Valid() && EmptyRing(r) && r.Size() > 1
    ensures AsksTwice(Chatty(), r)
  {
    var l: Local<nat> := Local(Conn(-1, None, Idle, NoOp), r, [], NO_WIRE);
    var u := Touch(l, WriteOp([0])).ring;
    var src: seq<byte> := [0];
    assert r.Count() == 0 && src[..1] == src;
    AppendSpace(r, src);
    assert u == r.Append(src);
    assert Chatty().ops[1..] == [];
    assert Used(r, Chatty().ops) == u;
  }

  /** From every initial state with buffers of two bytes or more, on every descriptor, the first accept
      may start a KTLS connection with two operations outstanding. */
  lemma ChattyStarts<B>(m: Machine<B>, fd: nat, ssl: nat, given: Option<New<B>>)
    requires Init(m.tls) && MachineOk(m) && m.size > 1 && NewOk(m.tls.pool, m.rings, m.size, given)
    ensures var x := Accepts(fd, ssl, ShakeDone(Chatty()), true, given);
            && MayGive(m, x) && KtlsGreets([m, Step(m, x)], [x], 0, fd)
            && AsksTwice(Chatty(), FirstRing(m, x))
  {
    var x := Accepts(fd, ssl, ShakeDone(Chatty()), true, given);
    InitInv(m.tls);
    InvWellFormed(m.tls);
    assert StepsTo(m, x, Step(m, x));
    OneByteLeft(FirstRing(m, x));
  }
}
