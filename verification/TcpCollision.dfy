/** What happens when accept returns a descriptor that the loop's tags cannot tell from the
    listening one: exactly when the tags collide, and a run that gets there. */
module TcpCollision {
  import opened Bits
  import opened RingValue
  import opened Tags
  import opened LoopModel
  import opened TcpLoopModel
  import opened Runs
  import opened TcpLoopSafety
  import opened TcpOpening

  /** A receive completion is taken for an accept, whose descriptor is the number of bytes that
      were received, exactly when the listening descriptor is twice the connection's. */
  lemma CollisionTakesCountForDescriptor<B>(s: Loop<B>, fd: nat, i: nat, input: Input<B>)
    requires Shaped(s) && Possible(s, ProcessData(fd, i, input))
    requires s.requests[fd][i].req.RecvInto? && fd < FD_LIMIT && s.listenFd < FD_LIMIT
    ensures var s1, res := s.(requests := s.requests[fd := Without(s.requests[fd], i)]), s.requests[fd][i].stage.res;
            s.listenFd == 2 * fd ==> Next(s, ProcessData(fd, i, input)) == HandleAccept(s1, res, input)
    ensures |Next(s, ProcessData(fd, i, input)).accepts| == |s.accepts| + 1 <==> s.listenFd == 2 * fd
  {
    AcceptCollision(s.listenFd, fd, RECV);
    DecodeData(fd, RECV);
  }

  /** A connection that waits for input, as in an echo run, but with nothing said about tags. */
  ghost predicate Armed<B>(s: Loop<B>, fd: nat, stage: Stage) {
    && Shaped(s) && Live(s, fd) && LocalOk(At(s, fd)) && s.conns[fd].op == Recv
    && s.requests[fd][0].stage == stage && s.accepts == [Prepared]
    && At(s, fd).ring.head == 0 == At(s, fd).ring.tail
  }

  ghost predicate ArmedAfter<B>(p: Option<Loop<B>>, s: Loop<B>, fd: nat, stage: Stage) {
    && p.Some? && Armed(p.value, fd, stage)
    && p.value.size == s.size && p.value.listenFd == s.listenFd && p.value.open == s.open + {fd}
  }

  lemma AcceptingRun<B>(s: Loop<B>, fd: nat)
    requires Init(s) && fd < FD_LIMIT && fd !in s.open
    ensures Play(LooseStep(), s, [KernelAccept(0, InKernel), KernelAccept(0, Completed(fd))])
         == Some(s.(accepts := [Completed(fd)], open := s.open + {fd}))
  {
    var e0, e1 := KernelAccept(0, InKernel), KernelAccept(0, Completed(fd));
    var s1 := s.(accepts := [InKernel]);
    PlayOne(LooseStep(), s, e0);
    assert s.accepts[0 := InKernel] == [InKernel];
    assert s1.accepts[0 := Completed(fd)] == [Completed(fd)];
    assert Next(s, e0) == s1 && Next(s1, e1) == s.(accepts := [Completed(fd)], open := s.open + {fd});
    PlayThen(LooseStep(), s, [e0], s1, e1);
    assert [e0] + [e1] == [e0, e1];
  }

  /** Only accepts and open descriptors differ: the tables are as sound as they were. */
  lemma SameTables<B>(s: Loop<B>, a: seq<Stage>, o: set<int>)
    requires Shaped(s) && ConnsOk(s) && OwnershipOk(s)
    ensures var s' := s.(accepts := a, open := o);
            Shaped(s') && ConnsOk(s') && OwnershipOk(s') && forall f :: Live(s', f) <==> Live(s, f)
  {
    var s' := s.(accepts := a, open := o);
    assert forall f :: Live(s', f) <==> Live(s, f);
    assert forall f :: 0 <= f < |s.conns| && Live(s, f) ==> At(s', f) == At(s, f);
  }

  lemma RegisterLoose<B>(s: Loop<B>, fd: nat, input: Input<B>)
    requires Shaped(s) && ConnsOk(s) && OwnershipOk(s) && !Live(s, fd) && s.accepts == [Completed(fd)]
    requires MayInput(s, input) && input.sqe && input.reply == Reply([], Reading)
    ensures var p := LooseStep()(s, ProcessAccept(0, input));
            && p.Some? && Armed(p.value, fd, Prepared) && p.value.size == s.size
            && p.value.listenFd == s.listenFd && p.value.open == s.open
  {
    hide ConnsOk, OwnershipOk, Armed, LoopModel.LocalOk, TcpLoopModel.Welcome;
    var s1 := s.(accepts := []);
    assert Without(s.accepts, 0) == [];
    SameTables(s, [], s.open);
    PushConns(s1, fd, input.block, input.memory);
    ArmRegistered(PushNewConnection(s1, fd, input.block, input.memory), fd, input);
  }

  lemma ArmRegistered<B>(s: Loop<B>, fd: nat, input: Input<B>)
    requires Shaped(s) && Live(s, fd) && LocalIdle(At(s, fd)) && At(s, fd).ring.head == 0 == At(s, fd).ring.tail
    requires s.accepts == [] && input.sqe && input.reply == Reply([], Reading)
    ensures var s' := RearmAccept(Welcome(s, fd, input));
            Armed(s', fd, Prepared) && s'.size == s.size && s'.listenFd == s.listenFd && s'.open == s.open
  {
    var l := At(s, fd).(conn := s.conns[fd].(state := Reading));
    EmptyAtZero(l.ring);
    SubmitWaits(l);
    SubmitOk(l, Reading, true);
    WelcomeReads(s, fd, input);
    PutShape(s, fd, SubmitRecv(l, true));
    var s1 := Put(s, fd, SubmitRecv(l, true));
    assert forall f :: Live(RearmAccept(s1), f) <==> Live(s1, f);
    assert At(RearmAccept(s1), fd) == SubmitRecv(l, true);
  }

  lemma KernelArmed<B>(s: Loop<B>, fd: nat, stage: Stage, step: KernelStep)
    requires Armed(s, fd, stage) && KernelMay(s.requests[fd][0], step)
    ensures var p := LooseStep()(s, KernelData(fd, 0, step));
            && p.Some? && Armed(p.value, fd, KernelStage(step))
            && p.value.size == s.size && p.value.listenFd == s.listenFd && p.value.open == s.open
  {
    KernelPut(s, fd, 0, step);
    KernelOk(At(s, fd), 0, step);
    PutShape(s, fd, KernelLocal(At(s, fd), 0, step));
  }

  /** The step that goes wrong. */
  lemma TakenForAccept<B>(s: Loop<B>, fd: nat, n: nat, input: Input<B>)
    requires Armed(s, fd, Completed(n)) && s.listenFd == 2 * fd && fd < FD_LIMIT && s.listenFd < FD_LIMIT
    requires n != fd && |input.memory| == s.size && input.reply == Reply([], Idle)
    ensures var p := LooseStep()(s, ProcessData(fd, 0, input));
            p.Some? && Confused(p.value, fd, n) && p.value.open == s.open
  {
    var s1 := s.(requests := s.requests[fd := []]);
    assert Without(s.requests[fd], 0) == [];
    assert forall f :: Live(s1, f) <==> Live(s, f);
    CollisionTakesCountForDescriptor(s, fd, 0, input);
    WelcomeIdle(s1, fd, n, input);
  }

  lemma WelcomeIdle<B>(s: Loop<B>, fd: nat, n: nat, input: Input<B>)
    requires Shaped(s) && |input.memory| == s.size && input.reply == Reply([], Idle) && n != fd && Live(s, fd)
    requires s.conns[fd].op == Recv && s.requests[fd] == [] && s.accepts == [Prepared]
    ensures var s' := HandleAccept(s, n, input); Confused(s', fd, n) && s'.open == s.open
  {
    NewShape(s, n, input.block, input.memory);
    var p := PushNewConnection(s, n, input.block, input.memory);
    var l := At(p, n);
    assert Callback(l, []) == l;
  }

  /** Two accepts are outstanding; there is a connection whose descriptor accept never returned;
      and the true connection is recorded as receiving with nothing in flight. */
  ghost predicate Confused<B>(s: Loop<B>, fd: nat, n: nat) {
    && s.accepts == [Prepared, Prepared]
    && Live(s, n) && s.conns[n].descriptor == n
    && Live(s, fd) && s.conns[fd].op == Recv && fd < |s.requests| && s.requests[fd] == []
  }

  lemma ArmedRun<B>(s: Loop<B>, fd: nat, input: Input<B>)
    requires Init(s) && fd < FD_LIMIT && fd !in s.open
    requires MayInput(s, input) && input.sqe && input.reply == Reply([], Reading)
    ensures ArmedAfter(Play(LooseStep(), s, Opening(fd, input)), s, fd, Prepared)
  {
    var accepting := [KernelAccept(0, InKernel), KernelAccept(0, Completed(fd))];
    InitInv(s);
    AcceptingRun(s, fd);
    var s2 := s.(accepts := [Completed(fd)], open := s.open + {fd});
    SameTables(s, [Completed(fd)], s.open + {fd});
    assert !Live(s, fd);
    RegisterLoose(s2, fd, input);
    PlayThen(LooseStep(), s, accepting, s2, ProcessAccept(0, input));
    assert accepting + [ProcessAccept(0, input)] == Opening(fd, input);
  }

  lemma ArmedRunOn<B>(s: Loop<B>, events: seq<Event<B>>, fd: nat, stage: Stage, step: KernelStep)
    requires ArmedAfter(Play(LooseStep(), s, events), s, fd, stage)
    requires KernelMay(Play(LooseStep(), s, events).value.requests[fd][0], step)
    ensures ArmedAfter(Play(LooseStep(), s, events + [KernelData(fd, 0, step)]), s, fd, KernelStage(step))
  {
    var t := Play(LooseStep(), s, events).value;
    KernelArmed(t, fd, stage, step);
    PlayThen(LooseStep(), s, events, t, KernelData(fd, 0, step));
  }

  ghost function Receiving<B>(fd: nat, input: Input<B>, d: seq<byte>): seq<Event<B>> {
    Opening(fd, input) + [KernelData(fd, 0, Take)] + [KernelData(fd, 0, Receive(d))]
  }

  lemma ReceivingRun<B>(s: Loop<B>, fd: nat, d: seq<byte>, input: Input<B>)
    requires Init(s) && fd < FD_LIMIT && fd !in s.open && 0 < |d| <= s.size
    requires MayInput(s, input) && input.sqe && input.reply == Reply([], Reading)
    ensures ArmedAfter(Play(LooseStep(), s, Receiving(fd, input, d)), s, fd, Completed(|d|))
  {
    ArmedRun(s, fd, input);
    ArmedRunOn(s, Opening(fd, input), fd, Prepared, Take);
    var t := Play(LooseStep(), s, Opening(fd, input) + [KernelData(fd, 0, Take)]).value;
    EmptyAtZero(At(t, fd).ring);
    FreeRegionIsFirstChunk(At(t, fd).ring);
    ArmedRunOn(s, Opening(fd, input) + [KernelData(fd, 0, Take)], fd, InKernel, Receive(d));
  }

  /** From every initial state whose listening descriptor is even, and every input that fits the
      buffer: accept may return half the listening descriptor, and then the first bytes received
      on it arm a second accept and register a connection under the number of those bytes, which
      is not an open descriptor. */
  lemma CollisionIsReachable<B>(s: Loop<B>, fd: nat, d: seq<byte>, first: Input<B>, second: Input<B>)
      returns (events: seq<Event<B>>)
    requires Init(s) && s.listenFd == 2 * fd && fd !in s.open
    requires 0 < |d| <= s.size && |d| != fd && |d| !in s.open
    requires MayInput(s, first) && first.sqe && first.reply == Reply([], Reading)
    requires |second.memory| == s.size && second.reply == Reply([], Idle)
    ensures events == Receiving(fd, first, d) + [ProcessData(fd, 0, second)]
    ensures var p := Play(LooseStep(), s, events); p.Some? && Confused(p.value, fd, |d|) && |d| !in p.value.open
  {
    ReceivingRun(s, fd, d, first);
    var t := Play(LooseStep(), s, Receiving(fd, first, d)).value;
    TakenForAccept(t, fd, |d|, second);
    events := Receiving(fd, first, d) + [ProcessData(fd, 0, second)];
    PlayThen(LooseStep(), s, Receiving(fd, first, d), t, ProcessData(fd, 0, second));
  }
}
