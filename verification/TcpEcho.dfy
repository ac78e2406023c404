/** Conservation of bytes over every run of the loop whose callbacks leave the buffers alone:
    what was received is what was sent, followed by what the buffer still holds. */
module TcpEcho {
  import opened Bits
  import opened LoopModel
  import opened TcpLoopModel
  import opened TcpLoopSafety

  /** The callbacks of this step do not read, write or reset the buffer. The state they
      return is arbitrary. */
  ghost predicate HandsOff<B>(e: Event<B>) {
    match e
    case ProcessAccept(i, input) => input.reply.ops == []
    case ProcessData(fd, i, input) => input.reply.ops == []
    case KernelAccept(i, stage) => true
    case KernelData(fd, i, step) => true
  }

  ghost predicate AllUntouched<B>(s: Loop<B>)
    requires Shaped(s)
  {
    forall fd :: Live(s, fd) ==> Untouched(s.wires[fd])
  }

  lemma PutUntouched<B>(s: Loop<B>, fd: nat, l: Local<B>)
    requires Shaped(s) && Live(s, fd) && AllUntouched(s) && Untouched(l.wire)
    requires l.conn.buffer == s.conns[fd].buffer && l.ring.Valid() && l.ring.Size() == s.size
    ensures Shaped(Put(s, fd, l)) && AllUntouched(Put(s, fd, l))
  {
  }

  lemma ConcludeUntouched<B>(s: Loop<B>, fd: nat, l: Local<B>, input: Input<B>)
    requires CoreBut(s, fd) && LocalIdle(l) && AllUntouched(s) && Untouched(l.wire) && input.reply.ops == []
    requires l.conn.buffer == s.conns[fd].buffer && l.ring.Size() == s.size
    ensures Shaped(Conclude(s, fd, l, input)) && AllUntouched(Conclude(s, fd, l, input))
  {
    assert Callback(l, input.reply.ops) == l;
    if input.reply.next.Die? {
      PutUntouched(s, fd, l);
      RemoveShape(Put(s, fd, l), fd);
    } else {
      SubmitOk(l, input.reply.next, input.sqe);
      PutUntouched(s, fd, LoopModel.Submit(l, input.reply.next, input.sqe));
    }
  }

  lemma ProcessRecvUntouched<B>(s: Loop<B>, fd: nat, input: Input<B>)
    requires Core(s) && fd < |s.requests| && s.requests[fd] != [] && s.conns[fd].op == Recv
    requires s.requests[fd][0].stage.Completed? && s.requests[fd][0].stage.res > 0
    requires AllUntouched(s) && input.reply.ops == []
    ensures var s' := HandleRecv(s.(requests := s.requests[fd := []]), fd, s.requests[fd][0].stage.res, input);
            Shaped(s') && AllUntouched(s')
  {
    TakeEntry(s, fd);
    var s1 := s.(requests := s.requests[fd := []]);
    assert forall f :: Live(s1, f) ==> Live(s, f);
    TakeReceivedOk(At(s, fd));
    ConcludeUntouched(s1, fd, TakeReceived(At(s1, fd), s.requests[fd][0].stage.res), input);
  }

  lemma ProcessSendUntouched<B>(s: Loop<B>, fd: nat, input: Input<B>)
    requires Core(s) && fd < |s.requests| && s.requests[fd] != [] && s.conns[fd].op == Send
    requires s.requests[fd][0].stage.Completed? && s.requests[fd][0].stage.res > 0
    requires AllUntouched(s) && input.reply.ops == []
    ensures var s' := HandleSend(s.(requests := s.requests[fd := []]), fd, s.requests[fd][0].stage.res, input);
            Shaped(s') && AllUntouched(s')
  {
    TakeEntry(s, fd);
    var s1 := s.(requests := s.requests[fd := []]);
    assert forall f :: Live(s1, f) ==> Live(s, f);
    TakeSentOk(At(s, fd));
    var l := TakeSent(At(s1, fd), s.requests[fd][0].stage.res);
    if l.ring.head == l.ring.tail {
      ConcludeUntouched(s1, fd, l, input);
    } else {
      SendAgainOk(l, input.sqe);
      PutUntouched(s1, fd, SubmitSend(l, input.sqe));
    }
  }

  lemma ProcessDataUntouched<B>(s: Loop<B>, fd: nat, i: nat, input: Input<B>)
    requires Core(s) && Enabled(s, ProcessData(fd, i, input)) && AllUntouched(s) && input.reply.ops == []
    ensures var s' := Next(s, ProcessData(fd, i, input));
            Shaped(s') && AllUntouched(s')
  {
    DispatchIs(s, fd, i, input);
    var o := s.requests[fd][0];
    if o.stage.res <= 0 {
      RemoveShape(s.(requests := s.requests[fd := []]), fd);
    } else if o.req.RecvInto? {
      ProcessRecvUntouched(s, fd, input);
    } else {
      ProcessSendUntouched(s, fd, input);
    }
  }

  lemma WelcomeUntouched<B>(s: Loop<B>, fd: nat, input: Input<B>)
    requires Core(s) && Live(s, fd) && LocalIdle(At(s, fd)) && AllUntouched(s) && input.reply.ops == []
    ensures var s' := RearmAccept(Welcome(s, fd, input));
            Shaped(s') && AllUntouched(s')
  {
    var l := At(s, fd);
    assert Callback(l, input.reply.ops) == l;
    if input.reply.next.Die? {
      PutUntouched(s, fd, l);
      RemoveShape(Put(s, fd, l), fd);
    } else {
      var l2 := l.(conn := l.conn.(state := input.reply.next));
      SubmitOk(l2, input.reply.next, input.sqe);
      PutUntouched(s, fd, LoopModel.Submit(l2, input.reply.next, input.sqe));
    }
    var s2 := Welcome(s, fd, input);
    assert forall f :: Live(RearmAccept(s2), f) <==> Live(s2, f);
  }

  lemma PushUntouched<B>(s: Loop<B>, fd: nat, block: B, memory: seq<byte>)
    requires Shaped(s) && AllUntouched(s) && |memory| == s.size && NewBlock(s, block)
    ensures var s' := PushNewConnection(s, fd, block, memory);
            Shaped(s') && AllUntouched(s')
  {
  }

  lemma AcceptUntouched<B>(s: Loop<B>, i: nat, input: Input<B>)
    requires Inv(s) && Enabled(s, ProcessAccept(i, input)) && AllUntouched(s) && input.reply.ops == []
    ensures var s' := HandleAccept(s.(accepts := []), s.accepts[i].res, input);
            Shaped(s') && AllUntouched(s')
  {
    var s1 := s.(accepts := []);
    assert forall f :: Live(s1, f) <==> Live(s, f);
    if s.accepts[i].res < 0 {
      assert forall f :: Live(RearmAccept(s1), f) <==> Live(s, f);
    } else {
      PushCore(s, i, input);
      PushUntouched(s1, s.accepts[i].res, input.block, input.memory);
      WelcomeUntouched(PushNewConnection(s1, s.accepts[i].res, input.block, input.memory), s.accepts[i].res, input);
    }
  }

  lemma StepUntouched<B>(s: Loop<B>, e: Event<B>)
    requires Inv(s) && Enabled(s, e) && AllUntouched(s) && HandsOff(e)
    ensures Shaped(Next(s, e)) && AllUntouched(Next(s, e))
  {
    match e
    case KernelAccept(i, stage) =>
      assert forall f :: Live(Next(s, e), f) <==> Live(s, f);
    case KernelData(fd, i, step) =>
      KernelDataIs(s, fd, i, step);
      KernelOk(At(s, fd), i, step);
      PutUntouched(s, fd, KernelLocal(At(s, fd), i, step));
    case ProcessAccept(i, input) =>
      ProcessAcceptIs(s, i, input);
      AcceptUntouched(s, i, input);
    case ProcessData(fd, i, input) => ProcessDataUntouched(s, fd, i, input);
  }

  lemma {:induction false} RunUntouched<B>(trace: seq<Loop<B>>, events: seq<Event<B>>, n: nat)
    requires IsRun(trace, events) && n < |trace|
    requires forall i :: 0 <= i < n ==> HandsOff(events[i])
    ensures Inv(trace[n]) && AllUntouched(trace[n])
    decreases n
  {
    Safety(trace, events, n);
    if n == 0 {
      assert forall fd :: !Live(trace[0], fd);
    } else {
      RunUntouched(trace, events, n - 1);
      StepUntouched(trace[n - 1], events[n - 1]);
    }
  }

  /** What the connection holds of the stream: its ring, less what the kernel already sent of
      it, and then what the kernel already received but the loop has not seen. */
  ghost function Held<B>(l: Local<B>): seq<byte>
    requires LocalOk(l)
  {
    l.ring.Contents()[|l.wire.pendingOut|..] + l.wire.pendingIn
  }

  lemma LocalConservation<B>(l: Local<B>)
    requires LocalOk(l) && Untouched(l.wire)
    ensures |l.wire.pendingOut| <= l.ring.Count()
    ensures l.wire.received == l.wire.sent + Held(l)
  {
  }

  /** Echo conservation: at every moment of every run whose callbacks leave the buffers alone,
      the bytes received on a live connection are the bytes sent on it followed by the bytes
      held, so the output is a prefix of the input. */
  lemma EchoConservation<B>(trace: seq<Loop<B>>, events: seq<Event<B>>, n: nat, fd: nat)
    requires IsRun(trace, events) && n < |trace|
    requires forall i :: 0 <= i < n ==> HandsOff(events[i])
    requires Live(trace[n], fd)
    ensures Inv(trace[n]) && LocalOk(At(trace[n], fd))
    ensures var l := At(trace[n], fd);
            && l.wire.received == l.wire.sent + Held(l)
            && l.wire.sent <= l.wire.received
            && ((forall i :: 0 <= i < |l.ops| ==> !l.ops[i].stage.Completed?)
                  ==> l.wire.received == l.wire.sent + l.ring.Contents())
  {
    RunUntouched(trace, events, n);
    var l := At(trace[n], fd);
    assert LocalOk(l) && Untouched(l.wire);
    LocalConservation(l);
    if forall i :: 0 <= i < |l.ops| ==> !l.ops[i].stage.Completed? {
      assert Held(l) == l.ring.Contents();
    }
  }

  /** For callbacks that do use the buffer: nothing is lost, duplicated or reordered on the
      way through it. */
  lemma BufferConservation<B>(trace: seq<Loop<B>>, events: seq<Event<B>>, n: nat, fd: nat)
    requires IsRun(trace, events) && n < |trace| && Live(trace[n], fd)
    ensures Inv(trace[n])
    ensures var l := At(trace[n], fd);
            l.ring.Valid() && l.wire.entered == l.wire.left + l.ring.Contents()
  {
    Safety(trace, events, n);
    assert LocalOk(At(trace[n], fd));
  }
}
