/** When a connection is served: what the loop leaves alone, exactly when a connection has
    nothing in flight, and how an echo response drains. */
module TcpProgress {
  import opened Bits
  import opened RingValue
  import opened LoopModel
  import opened TcpLoopModel
  import opened TcpLoopSafety

  // ---- Connections do not interfere ----

  /** `f` is the same connection in the same state. */
  ghost predicate SameAt<B>(s: Loop<B>, s': Loop<B>, f: int)
    requires Shaped(s) && Shaped(s')
  {
    (Live(s', f) <==> Live(s, f)) && (Live(s, f) ==> At(s', f) == At(s, f))
  }

  lemma PutFrame<B>(s: Loop<B>, fd: nat, l: Local<B>, f: int)
    requires Shaped(s) && OwnershipOk(s) && Live(s, fd) && f != fd
    requires l.conn.buffer == s.conns[fd].buffer && l.ring.Valid() && l.ring.Size() == s.size
    ensures Shaped(Put(s, fd, l)) && SameAt(s, Put(s, fd, l), f)
  {
  }

  lemma RemoveFrame<B>(s: Loop<B>, fd: nat, f: int)
    requires Shaped(s) && OwnershipOk(s) && Live(s, fd) && f != fd
    ensures Shaped(RemoveConnection(s, fd)) && SameAt(s, RemoveConnection(s, fd), f)
  {
  }

  lemma ConcludeFrame<B>(s: Loop<B>, fd: nat, l: Local<B>, input: Input<B>, f: int)
    requires CoreBut(s, fd) && LocalIdle(l) && f != fd
    requires l.conn.buffer == s.conns[fd].buffer && l.ring.Size() == s.size
    ensures Shaped(Conclude(s, fd, l, input)) && SameAt(s, Conclude(s, fd, l, input), f)
  {
    CallbackOk(l, input.reply.ops);
    var l1 := Callback(l, input.reply.ops);
    if input.reply.next.Die? {
      PutFrame(s, fd, l1, f);
      PutCore(s, fd, l1);
      RemoveFrame(Put(s, fd, l1), fd, f);
    } else {
      SubmitOk(l1, input.reply.next, input.sqe);
      PutFrame(s, fd, LoopModel.Submit(l1, input.reply.next, input.sqe), f);
    }
  }

  lemma ProcessDataFrame<B>(s: Loop<B>, fd: nat, i: nat, input: Input<B>, f: int)
    requires Core(s) && Enabled(s, ProcessData(fd, i, input)) && f != fd
    ensures var s' := Next(s, ProcessData(fd, i, input));
            Shaped(s') && SameAt(s, s', f)
  {
    DispatchIs(s, fd, i, input);
    TakeEntry(s, fd);
    var s1, res := s.(requests := s.requests[fd := []]), s.requests[fd][0].stage.res;
    assert SameAt(s, s1, f);
    if res <= 0 {
      RemoveFrame(s1, fd, f);
    } else if s.requests[fd][0].req.RecvInto? {
      TakeReceivedOk(At(s, fd));
      ConcludeFrame(s1, fd, TakeReceived(At(s1, fd), res), input, f);
    } else {
      TakeSentOk(At(s, fd));
      var l := TakeSent(At(s1, fd), res);
      if l.ring.head == l.ring.tail {
        ConcludeFrame(s1, fd, l, input, f);
      } else {
        SendAgainOk(l, input.sqe);
        PutFrame(s1, fd, SubmitSend(l, input.sqe), f);
      }
    }
  }

  lemma PushFrame<B>(s: Loop<B>, fd: nat, block: B, memory: seq<byte>, f: int)
    requires Shaped(s) && |memory| == s.size && NewBlock(s, block) && f != fd
    ensures var s' := PushNewConnection(s, fd, block, memory);
            Shaped(s') && SameAt(s, s', f)
  {
  }

  lemma WelcomeFrame<B>(s: Loop<B>, fd: nat, input: Input<B>, f: int)
    requires Core(s) && Live(s, fd) && LocalIdle(At(s, fd)) && f != fd
    ensures var s' := RearmAccept(Welcome(s, fd, input));
            Shaped(s') && SameAt(s, s', f)
  {
    var l := At(s, fd);
    CallbackOk(l, input.reply.ops);
    var l1 := Callback(l, input.reply.ops);
    if input.reply.next.Die? {
      PutFrame(s, fd, l1, f);
      PutCore(s, fd, l1);
      RemoveFrame(Put(s, fd, l1), fd, f);
    } else {
      var l2 := l1.(conn := l1.conn.(state := input.reply.next));
      SubmitOk(l2, input.reply.next, input.sqe);
      PutFrame(s, fd, LoopModel.Submit(l2, input.reply.next, input.sqe), f);
    }
    WelcomeCore(s, fd, input);
    assert SameAt(Welcome(s, fd, input), RearmAccept(Welcome(s, fd, input)), f) by {
      var s2 := Welcome(s, fd, input);
      assert forall g :: Live(RearmAccept(s2), g) <==> Live(s2, g);
    }
  }

  lemma ProcessAcceptFrame<B>(s: Loop<B>, i: nat, input: Input<B>, f: int)
    requires Inv(s) && Enabled(s, ProcessAccept(i, input)) && f != s.accepts[i].res
    ensures var s' := Next(s, ProcessAccept(i, input));
            Shaped(s') && SameAt(s, s', f)
  {
    ProcessAcceptIs(s, i, input);
    var s1, fd := s.(accepts := []), s.accepts[i].res;
    assert forall g :: Live(s1, g) <==> Live(s, g);
    if fd < 0 {
      assert forall g :: Live(RearmAccept(s1), g) <==> Live(s, g);
    } else {
      PushCore(s, i, input);
      PushFrame(s1, fd, input.block, input.memory, f);
      WelcomeFrame(PushNewConnection(s1, fd, input.block, input.memory), fd, input, f);
    }
  }

  /** The connection a step is about; -1 for none. */
  ghost function Subject<B>(s: Loop<B>, e: Event<B>): int
    requires Enabled(s, e)
  {
    match e
    case KernelAccept(i, stage) => -1
    case KernelData(fd, i, step) => fd
    case ProcessAccept(i, input) => s.accepts[i].res
    case ProcessData(fd, i, input) => fd
  }

  /** A step about one connection changes no other: not its record, not its ring, not its
      operations, not its stream. */
  lemma StepFrame<B>(s: Loop<B>, e: Event<B>, f: int)
    requires Inv(s) && Enabled(s, e) && f != Subject(s, e)
    ensures Shaped(Next(s, e)) && SameAt(s, Next(s, e), f)
  {
    match e
    case KernelAccept(i, stage) =>
      assert forall g :: Live(Next(s, e), g) <==> Live(s, g);
    case KernelData(fd, i, step) =>
      KernelDataIs(s, fd, i, step);
      KernelOk(At(s, fd), i, step);
      PutFrame(s, fd, KernelLocal(At(s, fd), i, step), f);
    case ProcessAccept(i, input) => ProcessAcceptFrame(s, i, input, f);
    case ProcessData(fd, i, input) => ProcessDataFrame(s, fd, i, input, f);
  }

  // ---- Quiescence ----

  /** Why a submission for this next state would hand nothing to the kernel. A completely full
      ring is nothing to send. */
  ghost predicate NothingToSubmit<B>(l: Local<B>, next: ElState, sqe: bool)
    requires l.ring.Valid()
  {
    match next
    case Idle => true
    case Die => true
    case Reading => !sqe || l.ring.Count() == l.ring.Size()
    case Writing => !sqe || l.ring.Count() == 0 || l.ring.Count() == l.ring.Size()
  }

  lemma SubmitQuiet<B>(l: Local<B>, next: ElState, sqe: bool)
    requires LocalIdle(l)
    ensures LoopModel.Submit(l, next, sqe).conn.op == NoOp <==> NothingToSubmit(l, next, sqe)
  {
    FreeRegionIsFirstChunk(l.ring);
    UsedRegionIsFirstChunk(l.ring);
  }

  /** The connection as its callback finds it. */
  ghost function Taken<B>(s: Loop<B>, fd: nat): Local<B>
    requires Shaped(s) && Live(s, fd) && s.requests[fd] != [] && s.requests[fd][0].stage.Completed?
    requires s.requests[fd][0].stage.res > 0
  {
    var l, res := At(s, fd).(ops := []), s.requests[fd][0].stage.res;
    if s.requests[fd][0].req.RecvInto? then TakeReceived(l, res) else TakeSent(l, res)
  }

  lemma ConcludeQuiet<B>(s: Loop<B>, fd: nat, l: Local<B>, input: Input<B>)
    requires CoreBut(s, fd) && LocalIdle(l)
    requires l.conn.buffer == s.conns[fd].buffer && l.ring.Size() == s.size
    ensures LocalIdle(Callback(l, input.reply.ops))
    ensures var s' := Conclude(s, fd, l, input);
            if input.reply.next.Die? then !Live(s', fd)
            else Live(s', fd) && (s'.conns[fd].op == NoOp
                   <==> NothingToSubmit(Callback(l, input.reply.ops), input.reply.next, input.sqe))
  {
    CallbackOk(l, input.reply.ops);
    var l1 := Callback(l, input.reply.ops);
    if input.reply.next.Die? {
      PutCore(s, fd, l1);
      RemoveShape(Put(s, fd, l1), fd);
    } else {
      SubmitOk(l1, input.reply.next, input.sqe);
      SubmitQuiet(l1, input.reply.next, input.sqe);
    }
  }

  /** What the connection looks like after a step that was to leave `quiet` or not. */
  ghost predicate Outcome<B>(s': Loop<B>, fd: nat, live: bool, quiet: bool) {
    (Live(s', fd) <==> live) && (live ==> (s'.conns[fd].op == NoOp <==> quiet))
  }

  lemma RecvQuiet<B>(s: Loop<B>, fd: nat, input: Input<B>)
    requires Core(s) && fd < |s.requests| && s.requests[fd] != [] && s.conns[fd].op == Recv
    requires s.requests[fd][0].stage.Completed? && s.requests[fd][0].stage.res > 0
    ensures Live(s, fd) && LocalIdle(Taken(s, fd)) && LocalIdle(Callback(Taken(s, fd), input.reply.ops))
    ensures var s' := HandleRecv(s.(requests := s.requests[fd := []]), fd, s.requests[fd][0].stage.res, input);
            var l := Callback(Taken(s, fd), input.reply.ops);
            Outcome(s', fd, !input.reply.next.Die?, NothingToSubmit(l, input.reply.next, input.sqe))
  {
    TakeEntry(s, fd);
    TakeReceivedOk(At(s, fd));
    ConcludeQuiet(s.(requests := s.requests[fd := []]), fd, Taken(s, fd), input);
  }

  lemma SendQuiet<B>(s: Loop<B>, fd: nat, input: Input<B>)
    requires Core(s) && fd < |s.requests| && s.requests[fd] != [] && s.conns[fd].op == Send
    requires s.requests[fd][0].stage.Completed? && s.requests[fd][0].stage.res > 0
    ensures Live(s, fd) && LocalIdle(Taken(s, fd)) && LocalIdle(Callback(Taken(s, fd), input.reply.ops))
    ensures var s' := HandleSend(s.(requests := s.requests[fd := []]), fd, s.requests[fd][0].stage.res, input);
            var l := Callback(Taken(s, fd), input.reply.ops);
            if Taken(s, fd).ring.Count() > 0 then Outcome(s', fd, true, !input.sqe)
            else Outcome(s', fd, !input.reply.next.Die?, NothingToSubmit(l, input.reply.next, input.sqe))
  {
    TakeEntry(s, fd);
    TakeSentOk(At(s, fd));
    var s1, l := s.(requests := s.requests[fd := []]), Taken(s, fd);
    CallbackOk(l, input.reply.ops);
    CountZero(l.ring.head, l.ring.tail);
    if l.ring.head == l.ring.tail {
      ConcludeQuiet(s1, fd, l, input);
    } else {
      SentLess(At(s, fd));
      SendAgainQuiet(l, input.sqe);
      SendAgainOk(l, input.sqe);
      PutShape(s1, fd, SubmitSend(l, input.sqe));
    }
  }

  /** Exactly when processing a successful completion leaves a connection with nothing in
      flight: a partly sent response only for want of an SQE; otherwise when the callback
      asked for nothing, no SQE was free, or the region it chose is empty. */
  lemma QuietIff<B>(s: Loop<B>, fd: nat, i: nat, input: Input<B>)
    requires Core(s) && Enabled(s, ProcessData(fd, i, input)) && s.requests[fd][i].stage.res > 0
    ensures i == 0 && Live(s, fd) && LocalIdle(Taken(s, fd))
    ensures LocalIdle(Callback(Taken(s, fd), input.reply.ops))
    ensures var s', l := Next(s, ProcessData(fd, i, input)), Callback(Taken(s, fd), input.reply.ops);
            if s.conns[fd].op == Send && Taken(s, fd).ring.Count() > 0 then Outcome(s', fd, true, !input.sqe)
            else Outcome(s', fd, !input.reply.next.Die?, NothingToSubmit(l, input.reply.next, input.sqe))
  {
    DispatchIs(s, fd, i, input);
    if s.requests[fd][0].req.RecvInto? {
      RecvQuiet(s, fd, input);
    } else {
      SendQuiet(s, fd, input);
    }
  }

  /** The connection that registering `fd` makes, as on_connect finds it. */
  ghost function Accepted<B>(s: Loop<B>, fd: nat, input: Input<B>): Local<B>
    requires Shaped(s) && |input.memory| == s.size
  {
    NewShape(s, fd, input.block, input.memory);
    At(PushNewConnection(s, fd, input.block, input.memory), fd)
  }

  lemma WelcomeQuiet<B>(s: Loop<B>, fd: nat, input: Input<B>)
    requires Core(s) && Live(s, fd) && LocalIdle(At(s, fd))
    ensures LocalIdle(Callback(At(s, fd), input.reply.ops))
    ensures var l := Callback(At(s, fd), input.reply.ops);
            Outcome(RearmAccept(Welcome(s, fd, input)), fd, !input.reply.next.Die?,
                    NothingToSubmit(l, input.reply.next, input.sqe))
  {
    var l := At(s, fd);
    CallbackOk(l, input.reply.ops);
    var l1 := Callback(l, input.reply.ops);
    WelcomeOutcome(s, fd, input);
    if !input.reply.next.Die? {
      var l2 := l1.(conn := l1.conn.(state := input.reply.next));
      SubmitOk(l2, input.reply.next, input.sqe);
      SubmitQuiet(l2, input.reply.next, input.sqe);
      PutShape(s, fd, LoopModel.Submit(l2, input.reply.next, input.sqe));
    }
  }

  lemma HandledQuiet<B>(s: Loop<B>, fd: nat, input: Input<B>)
    requires Registrable(s, fd, input)
    ensures LocalIdle(Callback(Accepted(s, fd, input), input.reply.ops))
    ensures Outcome(HandleAccept(s, fd, input), fd, !input.reply.next.Die?, AcceptedQuiet(s, fd, input))
  {
    WelcomeQuiet(PushNewConnection(s, fd, input.block, input.memory), fd, input);
  }

  /** on_connect's answer on a newly registered connection hands nothing to the kernel. */
  ghost predicate AcceptedQuiet<B>(s: Loop<B>, fd: nat, input: Input<B>)
    requires Shaped(s) && |input.memory| == s.size
  {
    NewShape(s, fd, input.block, input.memory);
    CallbackShape(Accepted(s, fd, input), input.reply.ops);
    NothingToSubmit(Callback(Accepted(s, fd, input), input.reply.ops), input.reply.next, input.sqe)
  }

  lemma RegisteredQuiet<B>(s: Loop<B>, i: nat, fd: nat, input: Input<B>)
    requires Inv(s) && Enabled(s, ProcessAccept(i, input)) && s.accepts[i].res == fd
    ensures Shaped(s.(accepts := []))
    ensures Outcome(HandleAccept(s.(accepts := []), fd, input), fd, !input.reply.next.Die?,
                    AcceptedQuiet(s.(accepts := []), fd, input))
  {
    PushReady(s, i, fd, input);
    HandledQuiet(s.(accepts := []), fd, input);
  }

  /** Exactly when a registered connection starts with nothing in flight: on_connect asked for
      nothing, no SQE was free, or the region it chose is empty, as a new connection's used
      region is unless on_connect filled it. */
  lemma AcceptQuietIff<B>(s: Loop<B>, i: nat, fd: nat, input: Input<B>)
    requires Inv(s) && Enabled(s, ProcessAccept(i, input)) && s.accepts[i].res == fd
    ensures Shaped(s.(accepts := []))
    ensures Outcome(Next(s, ProcessAccept(i, input)), fd, !input.reply.next.Die?,
                    AcceptedQuiet(s.(accepts := []), fd, input))
  {
    ProcessAcceptIs(s, i, input);
    RegisteredQuiet(s, i, fd, input);
  }

  lemma SentLess<B>(l: Local<B>)
    requires LocalOk(l) && l.conn.op == Send && l.ops[0].stage.Completed? && l.ops[0].stage.res > 0
    ensures TakeSent(l.(ops := []), l.ops[0].stage.res).ring.Count() == l.ring.Count() - l.ops[0].stage.res
  {
    AdvanceHeadContents(l.ring, l.ops[0].stage.res);
  }

  lemma SendAgainQuiet<B>(l: Local<B>, sqe: bool)
    requires LocalIdle(l) && 0 < l.ring.Count() < l.ring.Size()
    ensures SubmitSend(l, sqe).conn.op == if sqe then Send else NoOp
  {
    UsedRegionIsFirstChunk(l.ring);
  }

  lemma NotASubject<B>(s: Loop<B>, e: Event<B>, fd: nat)
    requires Inv(s) && Enabled(s, e) && Live(s, fd) && s.conns[fd].op == NoOp
    ensures Subject(s, e) != fd
  {
    assert LocalOk(At(s, fd));
    match e
    case ProcessAccept(i, input) =>
      if s.accepts[i].res == fd {
        assert PendingAccept(s, fd);
      }
    case KernelAccept(i, stage) =>
    case KernelData(f, i, step) =>
    case ProcessData(f, i, input) =>
  }

  lemma QuiescentStep<B>(s0: Loop<B>, s: Loop<B>, e: Event<B>, fd: nat)
    requires Shaped(s0) && Inv(s) && Enabled(s, e) && SameAt(s0, s, fd)
    requires Live(s0, fd) && s0.conns[fd].op == NoOp
    ensures Shaped(Next(s, e)) && SameAt(s0, Next(s, e), fd)
  {
    assert At(s0, fd).conn.op == NoOp;
    NotASubject(s, e, fd);
    StepFrame(s, e, fd);
  }

  lemma QuiescentRunStep<B>(s0: Loop<B>, trace: seq<Loop<B>>, events: seq<Event<B>>, n: nat, fd: nat)
    requires IsRun(trace, events) && n < |events|
    requires Shaped(s0) && Shaped(trace[n]) && SameAt(s0, trace[n], fd)
    requires Live(s0, fd) && s0.conns[fd].op == NoOp
    ensures Shaped(trace[n + 1]) && SameAt(s0, trace[n + 1], fd)
  {
    Safety(trace, events, n);
    QuiescentStep(s0, trace[n], events[n], fd);
  }

  /** Nothing ever wakes a quiescent connection: no retry exists. Its record, its ring and its
      stream are the same in every later state of the run, and it is never closed. */
  lemma {:induction false} QuiescentForever<B>(trace: seq<Loop<B>>, events: seq<Event<B>>, m: nat, n: nat, fd: nat)
    requires IsRun(trace, events) && m <= n < |trace|
    requires Live(trace[m], fd) && trace[m].conns[fd].op == NoOp
    ensures Shaped(trace[m]) && Shaped(trace[n]) && SameAt(trace[m], trace[n], fd)
    decreases n
  {
    if m == n {
      Safety(trace, events, m);
    } else {
      QuiescentForever(trace, events, m, n - 1, fd);
      QuiescentRunStep(trace[m], trace, events, n - 1, fd);
    }
  }

  // ---- Why a connection has nothing in flight, over runs ----

  /** A data completion's callback, or the want of an SQE, hands nothing to the kernel. */
  ghost predicate DataQuiet<B>(s: Loop<B>, fd: nat, i: nat, input: Input<B>)
    requires Core(s) && Enabled(s, ProcessData(fd, i, input)) && s.requests[fd][i].stage.res > 0
  {
    QuietIff(s, fd, i, input);
    if s.conns[fd].op == Send && Taken(s, fd).ring.Count() > 0 then !input.sqe
    else
      !input.reply.next.Die?
      && NothingToSubmit(Callback(Taken(s, fd), input.reply.ops), input.reply.next, input.sqe)
  }

  /** The step is about `fd` and leaves it live with nothing in flight, for one of the reasons: a
      partly sent response finds no SQE; or the callback, on_connect included, asked for nothing,
      found no SQE, or chose an empty region. */
  ghost predicate LeavesQuiet<B>(s: Loop<B>, e: Event<B>, fd: nat) {
    Inv(s) && Enabled(s, e) &&
    match e
    case KernelAccept(i, stage) => false
    case KernelData(f, i, step) => false
    case ProcessAccept(i, input) =>
      s.accepts[i].res == fd && !input.reply.next.Die? && Shaped(s.(accepts := []))
      && AcceptedQuiet(s.(accepts := []), fd, input)
    case ProcessData(f, i, input) =>
      f == fd && s.requests[fd][i].stage.res > 0 && DataQuiet(s, fd, i, input)
  }

  ghost predicate Quiet<B>(s: Loop<B>, fd: nat) {
    Live(s, fd) && s.conns[fd].op == NoOp
  }

  lemma KernelNotQuiet<B>(s: Loop<B>, fd: nat, i: nat, step: KernelStep)
    requires Inv(s) && Enabled(s, KernelData(fd, i, step))
    ensures !Quiet(Next(s, KernelData(fd, i, step)), fd)
  {
    KernelDataIs(s, fd, i, step);
    KernelOk(At(s, fd), i, step);
    PutShape(s, fd, KernelLocal(At(s, fd), i, step));
  }

  lemma RemovedNotQuiet<B>(s: Loop<B>, fd: nat, i: nat, input: Input<B>)
    requires Inv(s) && Enabled(s, ProcessData(fd, i, input)) && s.requests[fd][i].stage.res <= 0
    ensures !Quiet(Next(s, ProcessData(fd, i, input)), fd)
  {
    DispatchIs(s, fd, i, input);
    RemoveShape(s.(requests := s.requests[fd := []]), fd);
  }

  /** A step about a connection leaves it quiet exactly for those reasons. */
  lemma StepQuietIff<B>(s: Loop<B>, e: Event<B>, fd: nat)
    requires Inv(s) && Enabled(s, e) && Subject(s, e) == fd
    ensures Quiet(Next(s, e), fd) <==> LeavesQuiet(s, e, fd)
  {
    match e
    case KernelAccept(i, stage) =>
    case KernelData(f, i, step) => KernelNotQuiet(s, fd, i, step);
    case ProcessAccept(i, input) => AcceptQuietIff(s, i, fd, input);
    case ProcessData(f, i, input) =>
      if s.requests[fd][i].stage.res > 0 {
        QuietIff(s, fd, i, input);
      } else {
        RemovedNotQuiet(s, fd, i, input);
      }
  }

  /** Which steps of a run leave `fd` quiet, and which are about it. */
  ghost function LeavingSteps<B>(trace: seq<Loop<B>>, events: seq<Event<B>>, fd: nat): seq<bool>
    requires IsRun(trace, events)
  {
    seq(|events|, i requires 0 <= i < |events| => LeavesQuiet(trace[i], events[i], fd))
  }

  ghost function OwnSteps<B>(trace: seq<Loop<B>>, events: seq<Event<B>>, fd: nat): seq<bool>
    requires IsRun(trace, events)
  {
    seq(|events|, i requires 0 <= i < |events| => Subject(trace[i], events[i]) == fd)
  }

  /** Step `m` is a leaving one and no step after it, up to `n`, is an own one. */
  ghost predicate SinceStep(leaving: seq<bool>, own: seq<bool>, m: nat, n: nat)
    requires m < n <= |leaving| == |own|
  {
    leaving[m] && forall k :: m < k < n ==> !own[k]
  }

  ghost predicate SinceSome(leaving: seq<bool>, own: seq<bool>, n: nat)
    requires n <= |leaving| == |own|
  {
    exists m :: 0 <= m < n && SinceStep(leaving, own, m, n)
  }

  lemma SinceMore(leaving: seq<bool>, own: seq<bool>, n: nat)
    requires 0 < n <= |leaving| == |own| && (leaving[n - 1] ==> own[n - 1])
    ensures SinceSome(leaving, own, n) <==> if own[n - 1] then leaving[n - 1] else SinceSome(leaving, own, n - 1)
  {
    if SinceSome(leaving, own, n) && !own[n - 1] {
      var m :| 0 <= m < n && SinceStep(leaving, own, m, n);
      assert SinceStep(leaving, own, m, n - 1);
    }
    if SinceSome(leaving, own, n - 1) && !own[n - 1] {
      var m :| 0 <= m < n - 1 && SinceStep(leaving, own, m, n - 1);
      assert SinceStep(leaving, own, m, n);
    }
    if own[n - 1] && leaving[n - 1] {
      assert SinceStep(leaving, own, n - 1, n);
    }
  }

  lemma QuietBefore<B>(trace: seq<Loop<B>>, events: seq<Event<B>>, n: nat, fd: nat)
    requires IsRun(trace, events) && 0 < n <= |events| && Subject(trace[n - 1], events[n - 1]) != fd
    ensures Quiet(trace[n], fd) <==> Quiet(trace[n - 1], fd)
  {
    Safety(trace, events, n - 1);
    StepFrame(trace[n - 1], events[n - 1], fd);
  }

  /** In every state of every run, a connection is live with nothing in flight exactly when some
      earlier step left it so for one of the reasons, and no step has been about it since. */
  lemma {:induction false} QuietHistory<B>(trace: seq<Loop<B>>, events: seq<Event<B>>, n: nat, fd: nat)
    requires IsRun(trace, events) && n <= |events|
    ensures Quiet(trace[n], fd)
      <==> SinceSome(LeavingSteps(trace, events, fd), OwnSteps(trace, events, fd), n)
    decreases n
  {
    if n > 0 {
      var leaving, own := LeavingSteps(trace, events, fd), OwnSteps(trace, events, fd);
      QuietHistory(trace, events, n - 1, fd);
      QuietStep(trace, events, n, fd);
      SinceMore(leaving, own, n);
    }
  }

  lemma QuietStep<B>(trace: seq<Loop<B>>, events: seq<Event<B>>, n: nat, fd: nat)
    requires IsRun(trace, events) && 0 < n <= |events|
    ensures var leaving := LeavesQuiet(trace[n - 1], events[n - 1], fd);
            var own := Subject(trace[n - 1], events[n - 1]) == fd;
            && (leaving ==> own)
            && (Quiet(trace[n], fd) <==> if own then leaving else Quiet(trace[n - 1], fd))
  {
    Safety(trace, events, n - 1);
    if Subject(trace[n - 1], events[n - 1]) == fd {
      StepQuietIff(trace[n - 1], events[n - 1], fd);
    } else {
      QuietBefore(trace, events, n, fd);
      NotLeft(trace[n - 1], events[n - 1], fd);
    }
  }

  lemma NotLeft<B>(s: Loop<B>, e: Event<B>, fd: nat)
    requires Inv(s) && Enabled(s, e) && Subject(s, e) != fd
    ensures !LeavesQuiet(s, e, fd)
  {
  }
}
