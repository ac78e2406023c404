/** Runs of an echo server with enough submission entries: a connection stalls exactly when
    its buffer is completely full, and otherwise a response drains in as many completions as
    it has bytes. */
module TcpEchoRuns {
  import opened Bits
  import opened RingValue
  import opened LoopModel
  import opened TcpLoopModel
  import opened Runs
  import opened TcpLoopSafety
  import opened TcpOpening
  import opened TcpProgress

  /** on_connect and on_write answer `read`, on_read answers `write`, none touches the buffer,
      and get_sqe always finds an entry. */
  ghost predicate EchoStep<B>(s: Loop<B>, e: Event<B>)
    requires Shaped(s) && Enabled(s, e)
  {
    match e
    case ProcessAccept(i, input) => input.sqe && input.reply == Reply([], Reading)
    case ProcessData(fd, i, input) =>
      input.sqe && input.reply == Reply([], if s.conns[fd].op == Recv then Writing else Reading)
    case KernelAccept(i, stage) => true
    case KernelData(fd, i, step) => true
  }

  /** An echo connection waits for input with an empty buffer, is sending what it received, or
      is stalled with a full one. */
  ghost predicate EchoLocal<B>(l: Local<B>) {
    && LocalOk(l)
    && (l.conn.op == Recv ==> l.ring.Count() == 0)
    && (l.conn.op == NoOp <==> l.ring.Count() == l.ring.Size())
  }

  ghost predicate EchoOk<B>(s: Loop<B>)
    requires Shaped(s)
  {
    forall fd :: Live(s, fd) ==> EchoLocal(At(s, fd))
  }

  /** The callbacks' answers lead from one of the three situations to another. */
  lemma EchoSubmit<B>(l: Local<B>)
    requires LocalIdle(l)
    ensures l.ring.Count() == 0 ==> EchoLocal(LoopModel.Submit(l, Reading, true))
    ensures l.ring.Count() > 0 ==> EchoLocal(LoopModel.Submit(l, Writing, true))
    ensures 0 < l.ring.Count() < l.ring.Size() ==> EchoLocal(SubmitSend(l, true)) && SubmitSend(l, true).conn.op == Send
  {
    SubmitOk(l, Reading, true);
    SubmitOk(l, Writing, true);
    SendAgainOk(l, true);
    FreeRegionIsFirstChunk(l.ring);
    UsedRegionIsFirstChunk(l.ring);
  }

  lemma ReceivedSome<B>(l: Local<B>)
    requires LocalOk(l) && l.conn.op == Recv && l.ops[0].stage.Completed? && l.ops[0].stage.res > 0
    ensures TakeReceived(l.(ops := []), l.ops[0].stage.res).ring.Count() == l.ring.Count() + l.ops[0].stage.res
  {
    var r, res := l.ring, l.ops[0].stage.res;
    var d := r.mem[r.FreeRegion().0..r.FreeRegion().0 + res];
    ReceiveThenAdvance(r, d);
    PokeSame(r, r.FreeRegion().0, res);
    AppendContents(r, d);
  }

  /** What a data completion makes of its connection in an echo run. */
  lemma EchoRecv<B>(s: Loop<B>, fd: nat, input: Input<B>)
    requires Core(s) && fd < |s.requests| && s.requests[fd] != [] && s.conns[fd].op == Recv
    requires s.requests[fd][0].stage.Completed? && s.requests[fd][0].stage.res > 0
    requires input.sqe && input.reply == Reply([], Writing)
    ensures var s' := HandleRecv(s.(requests := s.requests[fd := []]), fd, s.requests[fd][0].stage.res, input);
            Shaped(s') && Live(s', fd) && EchoLocal(At(s', fd))
  {
    TakeEntry(s, fd);
    TakeReceivedOk(At(s, fd));
    ReceivedSome(At(s, fd));
    var s1, l := s.(requests := s.requests[fd := []]), Taken(s, fd);
    EchoSubmit(l);
    SubmitOk(l, Writing, true);
    PutShape(s1, fd, LoopModel.Submit(l, Writing, true));
  }

  /** The connection after its send completed and its next submission. */
  ghost function AfterSend<B>(l: Local<B>): Local<B>
    requires LocalOk(l) && l.conn.op == Send && l.ops[0].stage.Completed? && l.ops[0].stage.res > 0
  {
    TakeSentOk(l);
    var t := TakeSent(l.(ops := []), l.ops[0].stage.res);
    if t.ring.head == t.ring.tail then LoopModel.Submit(t, Reading, true) else SubmitSend(t, true)
  }

  lemma AfterSendOk<B>(l: Local<B>)
    requires LocalOk(l) && l.conn.op == Send && l.ops[0].stage.Completed? && l.ops[0].stage.res > 0
    ensures EchoLocal(AfterSend(l)) && AfterSend(l).conn.buffer == l.conn.buffer
    ensures AfterSend(l).ring.Size() == l.ring.Size()
    ensures AfterSend(l).ring.Count() == l.ring.Count() - l.ops[0].stage.res
    ensures AfterSend(l).conn.op == Recv <==> l.ring.Count() == l.ops[0].stage.res
  {
    TakeSentOk(l);
    SentLess(l);
    var t := TakeSent(l.(ops := []), l.ops[0].stage.res);
    EchoSubmit(t);
    SubmitOk(t, Reading, true);
    SendAgainOk(t, true);
    CountZero(t.ring.head, t.ring.tail);
  }

  lemma EchoSend<B>(s: Loop<B>, fd: nat, input: Input<B>)
    requires Core(s) && fd < |s.requests| && s.requests[fd] != [] && s.conns[fd].op == Send
    requires s.requests[fd][0].stage.Completed? && s.requests[fd][0].stage.res > 0
    requires input.sqe && input.reply == Reply([], Reading)
    ensures Live(s, fd) && LocalOk(At(s, fd))
    ensures var s' := HandleSend(s.(requests := s.requests[fd := []]), fd, s.requests[fd][0].stage.res, input);
            Shaped(s') && Live(s', fd) && At(s', fd) == AfterSend(At(s, fd))
  {
    TakeEntry(s, fd);
    assert LocalOk(At(s, fd));
    TakeSentOk(At(s, fd));
    AfterSendOk(At(s, fd));
    PutShape(s.(requests := s.requests[fd := []]), fd, AfterSend(At(s, fd)));
  }

  /** A step about a live echo connection keeps it in one of the three situations. */
  lemma EchoSubject<B>(s: Loop<B>, e: Event<B>, fd: nat)
    requires Inv(s) && Enabled(s, e) && EchoStep(s, e) && EchoOk(s) && fd == Subject(s, e) && !e.ProcessAccept?
    ensures Shaped(Next(s, e)) && (Live(Next(s, e), fd) ==> EchoLocal(At(Next(s, e), fd)))
  {
    match e
    case KernelAccept(i, stage) =>
    case KernelData(f, i, step) =>
      KernelDataIs(s, fd, i, step);
      KernelOk(At(s, fd), i, step);
      PutShape(s, fd, KernelLocal(At(s, fd), i, step));
    case ProcessData(f, i, input) => EchoData(s, fd, i, input);
  }

  lemma EchoData<B>(s: Loop<B>, fd: nat, i: nat, input: Input<B>)
    requires Core(s) && Enabled(s, ProcessData(fd, i, input)) && EchoStep(s, ProcessData(fd, i, input)) && EchoOk(s)
    ensures var s' := Next(s, ProcessData(fd, i, input));
            Shaped(s') && (Live(s', fd) ==> EchoLocal(At(s', fd)))
  {
    DispatchIs(s, fd, i, input);
    TakeEntry(s, fd);
    var o := s.requests[fd][0];
    if o.stage.res <= 0 {
      RemoveShape(s.(requests := s.requests[fd := []]), fd);
    } else if o.req.RecvInto? {
      EchoRecv(s, fd, input);
    } else {
      EchoSend(s, fd, input);
      AfterSendOk(At(s, fd));
    }
  }

  /** A new echo connection starts by waiting for input. */
  lemma EchoWelcome<B>(s: Loop<B>, fd: nat, input: Input<B>)
    requires Core(s) && Live(s, fd) && LocalIdle(At(s, fd)) && At(s, fd).wire == NO_WIRE
    requires input.sqe && input.reply == Reply([], Reading)
    ensures var s' := RearmAccept(Welcome(s, fd, input));
            Shaped(s') && Live(s', fd) && EchoLocal(At(s', fd))
  {
    var l := At(s, fd);
    assert |l.ring.Contents()| == 0;
    var l1 := Callback(l, []);
    assert l1 == l;
    var l2 := l.(conn := l.conn.(state := Reading));
    EchoSubmit(l2);
    SubmitOk(l2, Reading, true);
    PutShape(s, fd, LoopModel.Submit(l2, Reading, true));
    var s2 := Welcome(s, fd, input);
    assert s2 == Put(s, fd, LoopModel.Submit(l2, Reading, true));
    assert forall g :: Live(RearmAccept(s2), g) <==> Live(s2, g);
  }

  lemma EchoHandled<B>(s: Loop<B>, fd: nat, input: Input<B>)
    requires Registrable(s, fd, input)
    requires input.sqe && input.reply == Reply([], Reading)
    ensures var s' := HandleAccept(s, fd, input);
            Shaped(s') && Live(s', fd) && EchoLocal(At(s', fd))
  {
    EchoWelcome(PushNewConnection(s, fd, input.block, input.memory), fd, input);
  }

  lemma EchoAccept<B>(s: Loop<B>, i: nat, fd: nat, input: Input<B>)
    requires Inv(s) && Enabled(s, ProcessAccept(i, input)) && EchoStep(s, ProcessAccept(i, input))
    requires s.accepts[i].res == fd
    ensures var s' := Next(s, ProcessAccept(i, input));
            Shaped(s') && Live(s', fd) && EchoLocal(At(s', fd))
  {
    PushReady(s, i, fd, input);
    ProcessAcceptIs(s, i, input);
    EchoHandled(s.(accepts := []), fd, input);
  }

  lemma EchoStepOk<B>(s: Loop<B>, e: Event<B>)
    requires Inv(s) && Enabled(s, e) && EchoStep(s, e) && EchoOk(s)
    ensures Shaped(Next(s, e)) && EchoOk(Next(s, e))
  {
    StepInv(s, e);
    var s' := Next(s, e);
    forall fd | Live(s', fd)
      ensures EchoLocal(At(s', fd))
    {
      if fd != Subject(s, e) {
        StepFrame(s, e, fd);
      } else if e.ProcessAccept? {
        EchoAccept(s, e.i, fd, e.input);
      } else {
        EchoSubject(s, e, fd);
      }
    }
  }

  ghost predicate EchoRun<B>(trace: seq<Loop<B>>, events: seq<Event<B>>, n: nat)
    requires IsRun(trace, events) && n <= |events|
  {
    forall i :: 0 <= i < n ==> EchoStep(trace[i], events[i])
  }

  lemma {:induction false} EchoRunOk<B>(trace: seq<Loop<B>>, events: seq<Event<B>>, n: nat)
    requires IsRun(trace, events) && n <= |events| && EchoRun(trace, events, n)
    ensures Inv(trace[n]) && EchoOk(trace[n])
    decreases n
  {
    Safety(trace, events, n);
    if n == 0 {
      assert forall fd :: !Live(trace[0], fd);
    } else {
      EchoRunOk(trace, events, n - 1);
      EchoStepOk(trace[n - 1], events[n - 1]);
    }
  }

  /** In every reachable state of an echo run, a live connection has nothing in flight exactly
      when its buffer is completely full. */
  lemma EchoStallsIffFull<B>(trace: seq<Loop<B>>, events: seq<Event<B>>, n: nat, fd: nat)
    requires IsRun(trace, events) && n <= |events| && EchoRun(trace, events, n) && Live(trace[n], fd)
    ensures Inv(trace[n])
    ensures trace[n].requests[fd] == [] <==> |At(trace[n], fd).ring.Contents()| == trace[n].size
  {
    EchoRunOk(trace, events, n);
    var l := At(trace[n], fd);
    assert EchoLocal(l);
  }

  /** A receive of the whole capacity, as the connection sees it. */
  lemma FullLocal<B>(l: Local<B>, d: seq<byte>)
    requires LocalOk(l) && l.conn.op == Recv && l.ops[0].stage.InKernel?
    requires l.ring.Count() == 0 && l.ring.TailIndex() == 0 && |d| == l.ring.Size()
    ensures KernelMay(l.ops[0], Receive(d)) && LocalOk(KernelLocal(l, 0, Receive(d)))
    ensures var t := TakeReceived(KernelLocal(l, 0, Receive(d)).(ops := []), |d|);
            && LocalIdle(t) && t.ring.Contents() == d && t.ring.Size() == l.ring.Size()
            && LoopModel.Submit(t, Writing, true) == t.(conn := t.conn.(state := Writing))
  {
    FreeRegionIsFirstChunk(l.ring);
    KernelOk(l, 0, Receive(d));
    var l1 := KernelLocal(l, 0, Receive(d));
    TakeReceivedOk(l1);
    ReceiveThenAdvance(l.ring, d);
    AppendContents(l.ring, d);
    var t := TakeReceived(l1.(ops := []), |d|);
    assert t.ring == l.ring.Append(d);
    UsedRegionIsFirstChunk(t.ring);
  }

  lemma FullArrives<B>(s: Loop<B>, fd: nat, d: seq<byte>)
    requires Inv(s) && Live(s, fd) && s.conns[fd].op == Recv && s.requests[fd][0].stage.InKernel?
    requires At(s, fd).ring.Count() == 0 && At(s, fd).ring.TailIndex() == 0 && |d| == s.size
    ensures Enabled(s, KernelData(fd, 0, Receive(d)))
    ensures var s1 := Next(s, KernelData(fd, 0, Receive(d)));
            && Inv(s1) && Live(s1, fd) && At(s1, fd) == KernelLocal(At(s, fd), 0, Receive(d))
            && s1.size == s.size && s1.rings.Keys == s.rings.Keys
  {
    FullLocal(At(s, fd), d);
    assert Enabled(s, KernelData(fd, 0, Receive(d)));
    StepInv(s, KernelData(fd, 0, Receive(d)));
    KernelDataIs(s, fd, 0, Receive(d));
    PutShape(s, fd, KernelLocal(At(s, fd), 0, Receive(d)));
  }

  /** The answer `write` on a full ring is recorded and submits nothing. */
  lemma FullConcluded<B>(s: Loop<B>, fd: nat, d: seq<byte>, input: Input<B>)
    requires CoreBut(s, fd) && s.conns[fd].op == Recv && input.reply == Reply([], Writing) && input.sqe
    requires var t := TakeReceived(At(s, fd), |d|);
             && LocalIdle(t) && t.ring.Size() == s.size && t.ring.Contents() == d
             && LoopModel.Submit(t, Writing, true) == t.(conn := t.conn.(state := Writing))
    ensures var s' := HandleRecv(s, fd, |d|, input);
            Shaped(s') && Live(s', fd) && s'.requests[fd] == [] && At(s', fd).ring.Contents() == d
  {
    var t := TakeReceived(At(s, fd), |d|);
    assert Callback(t, []) == t;
    PutShape(s, fd, t.(conn := t.conn.(state := Writing)));
  }

  lemma FullProcessed<B>(s: Loop<B>, fd: nat, l: Local<B>, d: seq<byte>, input: Input<B>)
    requires Inv(s) && Live(s, fd) && LocalOk(l) && l.conn.op == Recv && l.ops[0].stage.InKernel?
    requires l.ring.Count() == 0 && l.ring.TailIndex() == 0 && |d| == l.ring.Size()
    requires At(s, fd) == KernelLocal(l, 0, Receive(d))
    requires input.sqe && input.reply == Reply([], Writing) && |input.memory| == s.size
    ensures Enabled(s, ProcessData(fd, 0, input))
    ensures var s2 := Next(s, ProcessData(fd, 0, input));
            Shaped(s2) && Live(s2, fd) && s2.requests[fd] == [] && At(s2, fd).ring.Contents() == d
  {
    FullLocal(l, d);
    DispatchIs(s, fd, 0, input);
    TakeEntry(s, fd);
    FullConcluded(s.(requests := s.requests[fd := []]), fd, d, input);
  }

  /** The connection is live with nothing in flight, and holds exactly `d`. */
  ghost predicate Stalled<B>(p: Option<Loop<B>>, fd: nat, d: seq<byte>) {
    && p.Some? && Shaped(p.value) && Live(p.value, fd) && p.value.requests[fd] == []
    && At(p.value, fd).ring.Contents() == d
  }

  /** And that does happen: a receive that fills an empty, aligned buffer in one go stalls the
      connection, though its region and its result are legal. */
  lemma FullReceiveStalls<B>(s: Loop<B>, fd: nat, d: seq<byte>, input: Input<B>)
    requires Inv(s) && Live(s, fd) && s.conns[fd].op == Recv && s.requests[fd][0].stage.InKernel?
    requires At(s, fd).ring.Count() == 0 && At(s, fd).ring.TailIndex() == 0 && |d| == s.size
    requires input.sqe && input.reply == Reply([], Writing) && |input.memory| == s.size
    ensures Stalled(Play(Step(), s, [KernelData(fd, 0, Receive(d)), ProcessData(fd, 0, input)]), fd, d)
  {
    var e0, e1 := KernelData(fd, 0, Receive(d)), ProcessData(fd, 0, input);
    FullArrives(s, fd, d);
    FullProcessed(Next(s, e0), fd, At(s, fd), d, input);
    PlayOne(Step(), s, e0);
    PlayThen(Step(), s, [e0], Next(s, e0), e1);
    assert [e0] + [e1] == [e0, e1];
  }

  // ---- The stall is reachable ----

  /** From every initial state, every descriptor that accept may return, and every input of the
      whole capacity: a run of an echo server that ends with the connection stalled on a full
      buffer. */
  lemma StallIsReachable<B>(s: Loop<B>, fd: nat, d: seq<byte>, first: Input<B>, second: Input<B>)
      returns (trace: seq<Loop<B>>, events: seq<Event<B>>)
    requires Init(s) && MayAccept(s, fd) && MayInput(s, first) && |second.memory| == s.size == |d|
    requires first.sqe && first.reply == Reply([], Reading) && second.sqe && second.reply == Reply([], Writing)
    ensures events == Opening(fd, first) + [KernelData(fd, 0, Take)]
                    + [KernelData(fd, 0, Receive(d)), ProcessData(fd, 0, second)]
    ensures IsRun(trace, events) && trace[0] == s && Stalled(Some(trace[6]), fd, d)
  {
    var taken := Opening(fd, first) + [KernelData(fd, 0, Take)];
    var filling := [KernelData(fd, 0, Receive(d)), ProcessData(fd, 0, second)];
    TakenRun(s, fd, first);
    var s4 := Play(Step(), s, taken).value;
    WaitingFills(s4, fd, d, second);
    PlayTwo(Step(), s, taken, filling);
    events := taken + filling;
    trace := PlayedRun(s, events);
  }

  lemma WaitingFills<B>(s: Loop<B>, fd: nat, d: seq<byte>, input: Input<B>)
    requires Waiting(s, fd, InKernel) && |d| == s.size == |input.memory|
    requires input.sqe && input.reply == Reply([], Writing)
    ensures Stalled(Play(Step(), s, [KernelData(fd, 0, Receive(d)), ProcessData(fd, 0, input)]), fd, d)
  {
    EmptyAtZero(At(s, fd).ring);
    FullReceiveStalls(s, fd, d, input);
  }

  // ---- A response drains ----

  ghost predicate Completes<B>(e: Event<B>, fd: nat) { e.ProcessData? && e.fd == fd }

  /** How many of the steps `m` to `n` process a completion of `fd`. */
  ghost function Completions<B>(events: seq<Event<B>>, m: nat, n: nat, fd: nat): nat
    requires m <= n <= |events|
    decreases n
  {
    if m == n then 0 else Completions(events, m, n - 1, fd) + (if Completes(events[n - 1], fd) then 1 else 0)
  }

  /** If every step leaves no more than there was, and a completion less, then the completions are
      no more than what is gone. */
  lemma {:induction false} CountsDrain<B>(left: seq<nat>, events: seq<Event<B>>, m: nat, n: nat, fd: nat)
    requires m <= n <= |events| && n < |left|
    requires forall k :: m <= k < n ==> left[k + 1] + (if Completes(events[k], fd) then 1 else 0) <= left[k]
    ensures Completions(events, m, n, fd) + left[n] <= left[m]
    decreases n
  {
    if m < n {
      CountsDrain(left, events, m, n - 1, fd);
    }
  }

  /** The bytes a connection still has to send. */
  ghost function Left<B>(s: Loop<B>, fd: nat): nat {
    if Shaped(s) && Live(s, fd) then At(s, fd).ring.Count() else 0
  }

  ghost predicate Sending<B>(s: Loop<B>, fd: nat) {
    Live(s, fd) && s.conns[fd].op == Send
  }

  lemma SendingStep<B>(s: Loop<B>, e: Event<B>, fd: nat)
    requires Inv(s) && Enabled(s, e) && EchoStep(s, e)
    requires Shaped(Next(s, e)) && Sending(s, fd) && Sending(Next(s, e), fd)
    ensures var done := if e.ProcessData? && e.fd == fd then 1 else 0;
            At(Next(s, e), fd).ring.Count() + done <= At(s, fd).ring.Count()
  {
    if Subject(s, e) != fd {
      StepFrame(s, e, fd);
    } else if e.KernelData? {
      KernelDataIs(s, fd, e.i, e.step);
      KernelOk(At(s, fd), e.i, e.step);
      PutShape(s, fd, KernelLocal(At(s, fd), e.i, e.step));
    } else if e.ProcessData? {
      SendingCompletes(s, fd, e.i, e.input);
    } else {
      AcceptedNotLive(s, e, fd);
    }
  }

  lemma AcceptedNotLive<B>(s: Loop<B>, e: Event<B>, fd: nat)
    requires Inv(s) && Enabled(s, e) && e.ProcessAccept? && s.accepts[e.i].res == fd
    ensures !Live(s, fd)
  {
  }

  lemma SendingCompletes<B>(s: Loop<B>, fd: nat, i: nat, input: Input<B>)
    requires Core(s) && Enabled(s, ProcessData(fd, i, input)) && EchoStep(s, ProcessData(fd, i, input))
    requires var s' := Next(s, ProcessData(fd, i, input));
             Shaped(s') && Sending(s, fd) && Sending(s', fd)
    ensures At(Next(s, ProcessData(fd, i, input)), fd).ring.Count() < At(s, fd).ring.Count()
  {
    DispatchIs(s, fd, i, input);
    if s.requests[fd][0].stage.res <= 0 {
      RemoveShape(s.(requests := s.requests[fd := []]), fd);
    } else {
      EchoSend(s, fd, input);
      AfterSendOk(At(s, fd));
    }
  }

  lemma SendingHolds<B>(trace: seq<Loop<B>>, events: seq<Event<B>>, n: nat, fd: nat)
    requires IsRun(trace, events) && n <= |events| && EchoRun(trace, events, n) && Sending(trace[n], fd)
    ensures Inv(trace[n]) && At(trace[n], fd).ring.Count() > 0
  {
    EchoRunOk(trace, events, n);
    assert EchoLocal(At(trace[n], fd));
    UsedRegionIsFirstChunk(At(trace[n], fd).ring);
  }

  lemma SendingRunStep<B>(trace: seq<Loop<B>>, events: seq<Event<B>>, n: nat, fd: nat)
    requires IsRun(trace, events) && n < |events| && EchoStep(trace[n], events[n])
    requires Sending(trace[n], fd) && Sending(trace[n + 1], fd)
    ensures Left(trace[n + 1], fd) + (if Completes(events[n], fd) then 1 else 0) <= Left(trace[n], fd)
  {
    Safety(trace, events, n);
    Safety(trace, events, n + 1);
    SendingStep(trace[n], events[n], fd);
  }

  /** While a connection is still sending, it has processed fewer send completions than the
      response had bytes: a response of n bytes is out after at most n of them, whatever short
      sends the kernel makes and whatever happens on other connections in between. */
  lemma ResponseDrains<B>(trace: seq<Loop<B>>, events: seq<Event<B>>, m: nat, n: nat, fd: nat)
    requires IsRun(trace, events) && m <= n <= |events| && EchoRun(trace, events, n)
    requires forall j :: m <= j <= n ==> Sending(trace[j], fd)
    ensures Completions(events, m, n, fd) + Left(trace[n], fd) <= Left(trace[m], fd)
    ensures Left(trace[n], fd) > 0
  {
    var left := seq(n + 1, i requires 0 <= i <= n => Left(trace[i], fd));
    forall k | m <= k < n
      ensures left[k + 1] + (if Completes(events[k], fd) then 1 else 0) <= left[k]
    {
      SendingRunStep(trace, events, k, fd);
    }
    CountsDrain(left, events, m, n, fd);
    SendingHolds(trace, events, n, fd);
  }

  /** The completion that ends a response leaves the connection waiting for input, with every
      byte of it sent. */
  lemma ResponseEnds<B>(s: Loop<B>, fd: nat, i: nat, input: Input<B>)
    requires Core(s) && Enabled(s, ProcessData(fd, i, input)) && EchoStep(s, ProcessData(fd, i, input))
    requires Sending(s, fd) && s.requests[fd][i].stage.res == At(s, fd).ring.Count() > 0
    ensures var s' := Next(s, ProcessData(fd, i, input));
            && Shaped(s') && Live(s', fd) && s'.conns[fd].op == Recv
            && At(s', fd).ring.Contents() == []
            && At(s', fd).wire.left == At(s, fd).wire.left + At(s, fd).ring.Contents()
  {
    DispatchIs(s, fd, i, input);
    EchoSend(s, fd, input);
    AfterSendOk(At(s, fd));
    var l := At(s, fd);
    assert l.ring.Contents()[..l.ops[0].stage.res] == l.ring.Contents();
  }
}
