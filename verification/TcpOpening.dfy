/** How a run begins: accept returns a first descriptor, the connection is registered, asks to read and
    waits for input. */
module TcpOpening {
  import opened LoopModel
  import opened RingValue
  import opened Runs
  import opened TcpLoopModel
  import opened TcpLoopSafety

  /** A connection that waits for input with an empty ring whose counters are both zero. */
  ghost predicate Waiting<B>(s: Loop<B>, fd: nat, stage: Stage) {
    && Inv(s) && Live(s, fd) && s.conns[fd].op == Recv
    && |s.requests[fd]| == 1 && s.requests[fd][0].stage == stage
    && At(s, fd).ring.head == 0 == At(s, fd).ring.tail
  }

  lemma EmptyAtZero(r: Ring)
    requires r.Size() > 0 && r.head == 0 == r.tail
    ensures r.Count() == 0 && r.TailIndex() == 0
  {
  }

  lemma SubmitWaits<B>(l: Local<B>)
    requires LocalIdle(l) && l.ring.Count() == 0
    ensures var l' := SubmitRecv(l, true);
            && l'.conn.op == Recv && |l'.ops| == 1 && l'.ops[0].stage == Prepared
            && l'.ring == l.ring && l'.conn.buffer == l.conn.buffer
  {
    FreeRegionIsFirstChunk(l.ring);
  }

  /** on_connect asks to read: what the registered connection becomes. */
  lemma WelcomeReads<B>(s: Loop<B>, fd: nat, input: Input<B>)
    requires Shaped(s) && Live(s, fd) && LocalIdle(At(s, fd)) && |s.conns| == |s.requests|
    requires input.sqe && input.reply == Reply([], Reading)
    ensures var l := At(s, fd).(conn := s.conns[fd].(state := Reading));
            RearmAccept(Welcome(s, fd, input)) == RearmAccept(Put(s, fd, SubmitRecv(l, true)))
  {
    var l := At(s, fd);
    assert Callback(l, []) == l;
  }

  lemma WelcomeWaits<B>(s: Loop<B>, fd: nat, input: Input<B>)
    requires Shaped(s) && Live(s, fd) && LocalIdle(At(s, fd)) && At(s, fd).ring.head == 0 == At(s, fd).ring.tail
    requires input.sqe && input.reply == Reply([], Reading) && Inv(RearmAccept(Welcome(s, fd, input)))
    ensures Waiting(RearmAccept(Welcome(s, fd, input)), fd, Prepared)
    ensures RearmAccept(Welcome(s, fd, input)).size == s.size
  {
    var l := At(s, fd).(conn := s.conns[fd].(state := Reading));
    SubmitWaits(l);
    WelcomeReads(s, fd, input);
    PutShape(s, fd, SubmitRecv(l, true));
  }

  lemma HandledWaits<B>(s: Loop<B>, fd: nat, input: Input<B>)
    requires Registrable(s, fd, input)
    requires input.sqe && input.reply == Reply([], Reading)
    ensures Waiting(HandleAccept(s, fd, input), fd, Prepared) && HandleAccept(s, fd, input).size == s.size
  {
    AcceptTaken(s, fd, input);
    WelcomeWaits(PushNewConnection(s, fd, input.block, input.memory), fd, input);
  }

  lemma RegisteredWaits<B>(s: Loop<B>, fd: nat, input: Input<B>)
    requires Inv(s) && Enabled(s, ProcessAccept(0, input)) && s.accepts[0].res == fd
    requires input.sqe && input.reply == Reply([], Reading)
    ensures Shaped(s.(accepts := [])) && |input.memory| == s.size
    ensures Waiting(HandleAccept(s.(accepts := []), fd, input), fd, Prepared)
    ensures HandleAccept(s.(accepts := []), fd, input).size == s.size
  {
    PushReady(s, 0, fd, input);
    HandledWaits(s.(accepts := []), fd, input);
  }

  lemma TakenWaits<B>(s: Loop<B>, fd: nat)
    requires Waiting(s, fd, Prepared)
    ensures Enabled(s, KernelData(fd, 0, Take))
    ensures var s' := Next(s, KernelData(fd, 0, Take)); Waiting(s', fd, InKernel) && s'.size == s.size
  {
    StepInv(s, KernelData(fd, 0, Take));
    KernelDataIs(s, fd, 0, Take);
    KernelOk(At(s, fd), 0, Take);
    PutShape(s, fd, KernelLocal(At(s, fd), 0, Take));
  }

  ghost function Opening<B>(fd: nat, input: Input<B>): seq<Event<B>> {
    [KernelAccept(0, InKernel), KernelAccept(0, Completed(fd)), ProcessAccept(0, input)]
  }

  ghost predicate WaitsAfter<B>(p: Option<Loop<B>>, fd: nat, stage: Stage, size: nat) {
    p.Some? && Waiting(p.value, fd, stage) && p.value.size == size
  }

  lemma RegisteredRun<B>(s: Loop<B>, fd: nat, input: Input<B>)
    requires Inv(s) && s.accepts == [Completed(fd)] && MayInput(s, input)
    requires input.sqe && input.reply == Reply([], Reading)
    ensures WaitsAfter(Step()(s, ProcessAccept(0, input)), fd, Prepared, s.size)
  {
    assert Enabled(s, ProcessAccept(0, input));
    ProcessAcceptIs(s, 0, input);
    RegisteredWaits(s, fd, input);
  }

  lemma WaitingRun<B>(s: Loop<B>, fd: nat, input: Input<B>)
    requires Init(s) && MayAccept(s, fd) && MayInput(s, input)
    requires input.sqe && input.reply == Reply([], Reading)
    ensures WaitsAfter(Play(Step(), s, Opening(fd, input)), fd, Prepared, s.size)
  {
    var accepting := [KernelAccept(0, InKernel), KernelAccept(0, Completed(fd))];
    FirstAccept(s, fd);
    var s2, e2 := Play(Step(), s, accepting).value, ProcessAccept(0, input);
    RegisteredRun(s2, fd, input);
    PlayThen(Step(), s, accepting, s2, e2);
    assert accepting + [e2] == Opening(fd, input);
  }

  lemma TakenRun<B>(s: Loop<B>, fd: nat, input: Input<B>)
    requires Init(s) && MayAccept(s, fd) && MayInput(s, input)
    requires input.sqe && input.reply == Reply([], Reading)
    ensures WaitsAfter(Play(Step(), s, Opening(fd, input) + [KernelData(fd, 0, Take)]), fd, InKernel, s.size)
  {
    WaitingRun(s, fd, input);
    var s3 := Play(Step(), s, Opening(fd, input)).value;
    TakenWaits(s3, fd);
    PlayThen(Step(), s, Opening(fd, input), s3, KernelData(fd, 0, Take));
  }
}
