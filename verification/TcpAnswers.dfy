/** What the loop does for a connection after each completion: which bytes its callback finds, which
    bytes the buffer holds afterwards, and which operation the callback's answer leads to. */
module TcpAnswers {
  import opened Bits
  import opened Callbacks
  import opened LoopModel
  import opened RingValue
  import opened TcpLoopModel
  import opened TcpLoopSafety
  import opened TcpProgress

  /** A receive into the free region is handed to the kernel, and nothing else. */
  ghost predicate Receiving<B>(l: Local<B>) {
    && l.conn.buffer.Some? && l.ring.Size() > 0 && l.conn.op == Recv && l.ring.FreeRegion().1 > 0
    && l.ops == [Op(RecvInto(l.conn.buffer.value, l.ring.FreeRegion().0, l.ring.FreeRegion().1), Prepared)]
  }

  /** A send of the used region, and nothing else. */
  ghost predicate Sending<B>(l: Local<B>) {
    && l.conn.buffer.Some? && l.ring.Size() > 0 && l.conn.op == Send && l.ring.UsedRegion().1 > 0
    && l.ops == [Op(SendFrom(l.conn.buffer.value, l.ring.UsedRegion().0, l.ring.UsedRegion().1), Prepared)]
  }

  ghost predicate Still<B>(l: Local<B>) { l.conn.op == NoOp && l.ops == [] }

  /** The connection holds `q` and waits for what `next` asks for: bytes to come while there is room, or
      bytes to go unless there are none or no room; if an entry was free. */
  ghost predicate WaitsFor<B>(l: Local<B>, q: seq<byte>, next: ElState, sqe: bool) {
    l.ring.Valid() && l.ring.Contents() == q &&
    match next
    case Reading => if sqe && |q| < l.ring.Size() then Receiving(l) else Still(l)
    case Writing => if sqe && 0 < |q| < l.ring.Size() then Sending(l) else Still(l)
    case _ => Still(l)
  }

  /** The connection is gone: closed, its buffer at the back of the pool. */
  ghost predicate Gone<B>(pool: seq<B>, s': Loop<B>, fd: nat, b: B) {
    && !Live(s', fd) && fd < |s'.conns| && s'.conns[fd].op == NoOp && fd !in s'.open
    && s'.pool == pool + [b]
  }

  /** A callback found `held` in the buffer `b`, used it, and answered; `state` is the one before, `pool`
      the pool. */
  ghost predicate Answered<B>(pool: seq<B>, s': Loop<B>, fd: nat, b: B, held: seq<byte>, state: ElState,
                              input: Input<B>) {
    if input.reply.next == Die then Gone(pool, s', fd, b)
    else
      && Shaped(s') && s'.pool == pool && Live(s', fd) && fd in s'.open && At(s', fd).conn.buffer == Some(b)
      && WaitsFor(At(s', fd), HeldAfter(held, s'.size, input.reply.ops), input.reply.next, input.sqe)
      && At(s', fd).conn.state == if input.reply.next == Idle then state else input.reply.next
  }

  // ---- Submissions ----

  lemma SubmitWaits<B>(l: Local<B>, next: ElState, sqe: bool)
    requires LocalIdle(l) && next != Die
    ensures WaitsFor(LoopModel.Submit(l, next, sqe), l.ring.Contents(), next, sqe)
    ensures var l' := LoopModel.Submit(l, next, sqe);
            l'.conn.buffer == l.conn.buffer && l'.conn.state == if next == Idle then l.conn.state else next
  {
    FreeRegionIsFirstChunk(l.ring);
    UsedRegionIsFirstChunk(l.ring);
  }

  lemma SubmitAgain<B>(l: Local<B>, sqe: bool)
    requires LocalIdle(l) && 0 < l.ring.Count() < l.ring.Size()
    ensures WaitsFor(SubmitSend(l, sqe), l.ring.Contents(), Writing, sqe)
    ensures SubmitSend(l, sqe).conn.buffer == l.conn.buffer && SubmitSend(l, sqe).conn.state == l.conn.state
  {
    UsedRegionIsFirstChunk(l.ring);
  }

  lemma RemovedGone<B>(s: Loop<B>, fd: nat)
    requires Shaped(s) && Live(s, fd)
    ensures Gone(s.pool, RemoveConnection(s, fd), fd, s.conns[fd].buffer.value)
  {
  }

  lemma PutAnswered<B>(s: Loop<B>, fd: nat, l: Local<B>, q: seq<byte>, state: ElState, input: Input<B>)
    requires Shaped(s) && Live(s, fd) && fd in s.open && input.reply.next != Die
    requires l.conn.buffer == s.conns[fd].buffer && l.ring.Valid() && l.ring.Size() == s.size
    requires WaitsFor(l, HeldAfter(q, s.size, input.reply.ops), input.reply.next, input.sqe)
    requires l.conn.state == if input.reply.next == Idle then state else input.reply.next
    ensures Answered(s.pool, Put(s, fd, l), fd, s.conns[fd].buffer.value, q, state, input)
  {
    hide HeldAfter, WaitsFor;
    PutShape(s, fd, l);
  }

  lemma ConcludeAnswers<B>(s: Loop<B>, fd: nat, l: Local<B>, input: Input<B>)
    requires CoreBut(s, fd) && LocalIdle(l) && fd in s.open
    requires l.conn.buffer == s.conns[fd].buffer && l.ring.Size() == s.size
    ensures Answered(s.pool, Conclude(s, fd, l, input), fd, l.conn.buffer.value, l.ring.Contents(), l.conn.state, input)
  {
    hide HeldAfter, WaitsFor, LoopModel.Submit;
    CallbackOk(l, input.reply.ops);
    CallbackHeld(l, input.reply.ops);
    var l1 := Callback(l, input.reply.ops);
    if input.reply.next == Die {
      PutShape(s, fd, l1);
      RemovedGone(Put(s, fd, l1), fd);
    } else {
      SubmitOk(l1, input.reply.next, input.sqe);
      SubmitWaits(l1, input.reply.next, input.sqe);
      PutAnswered(s, fd, LoopModel.Submit(l1, input.reply.next, input.sqe), l.ring.Contents(), l.conn.state, input);
    }
  }

  // ---- Completions ----

  /** The bytes that a receive brought lie in the region it was lent. */
  lemma ReceivedHeld<B>(l: Local<B>)
    requires LocalOk(l) && l.conn.op == Recv && l.ops[0].stage.Completed? && l.ops[0].stage.res > 0
    ensures var t, o := TakeReceived(l.(ops := []), l.ops[0].stage.res), l.ops[0];
            && t.ring.Valid() && o.req.off + o.stage.res <= l.ring.Size()
            && t.ring.Contents() == l.ring.Contents() + l.ring.mem[o.req.off..o.req.off + o.stage.res]
  {
    var r, res, off := l.ring, l.ops[0].stage.res, l.ops[0].req.off;
    var d := r.mem[off..off + res];
    ReceiveThenAdvance(r, d);
    PokeSame(r, off, res);
    AppendContents(r, d);
  }

  /** What a completion of `res` bytes makes of the connection whose operation `o` it is. */
  ghost predicate Handled<B>(s: Loop<B>, s': Loop<B>, fd: nat, input: Input<B>)
    requires Shaped(s) && Live(s, fd) && |s.requests[fd]| == 1 && s.requests[fd][0].stage.Completed?
  {
    var c, r, o := s.conns[fd], At(s, fd).ring, s.requests[fd][0];
    var b, res := c.buffer.value, o.stage.res;
    if res <= 0 then Gone(s.pool, s', fd, b)
    else if o.req.RecvInto? then
      o.req.off + res <= r.Size()
      && Answered(s.pool, s', fd, b, r.Contents() + r.mem[o.req.off..o.req.off + res], c.state, input)
    else if res < |r.Contents()| then
      && Shaped(s') && s'.pool == s.pool && Live(s', fd) && fd in s'.open && At(s', fd).conn.buffer == Some(b)
      && WaitsFor(At(s', fd), r.Contents()[res..], Writing, input.sqe) && At(s', fd).conn.state == c.state
    else Answered(s.pool, s', fd, b, [], c.state, input)
  }

  /** The connection as its callback finds it, and what is then left to show. */
  lemma TakenIs<B>(s: Loop<B>, fd: nat)
    requires Core(s) && fd < |s.requests| && s.requests[fd] != []
    requires s.requests[fd][0].stage.Completed? && s.requests[fd][0].stage.res > 0
    ensures Shaped(s) && Live(s, fd) && |s.requests[fd]| == 1 && LocalOk(At(s, fd))
    ensures CoreBut(s.(requests := s.requests[fd := []]), fd)
    ensures s.conns[fd].op == Recv <==> s.requests[fd][0].req.RecvInto?
    ensures s.conns[fd].op == Send <==> s.requests[fd][0].req.SendFrom?
    ensures fd in s.open && LocalIdle(Taken(s, fd)) && Taken(s, fd).ring.Size() == s.size
    ensures Taken(s, fd).conn == s.conns[fd].(op := NoOp)
  {
    TakeEntry(s, fd);
    if s.conns[fd].op == Recv {
      TakeReceivedOk(At(s, fd));
    } else {
      TakeSentOk(At(s, fd));
    }
  }

  lemma RecvIs<B>(s: Loop<B>, fd: nat, input: Input<B>)
    requires Core(s) && fd < |s.requests| && s.requests[fd] != [] && s.requests[fd][0].req.RecvInto?
    requires s.requests[fd][0].stage.Completed? && s.requests[fd][0].stage.res > 0
    ensures Live(s, fd) && LocalIdle(Taken(s, fd)) && Shaped(s.(requests := s.requests[fd := []]))
    ensures HandleRecv(s.(requests := s.requests[fd := []]), fd, s.requests[fd][0].stage.res, input)
         == Conclude(s.(requests := s.requests[fd := []]), fd, Taken(s, fd), input)
  {
    hide Conclude, OwnershipOk, DescriptorsOk;
    TakenIs(s, fd);
  }

  lemma RecvAnswers<B>(s: Loop<B>, fd: nat, input: Input<B>)
    requires Core(s) && fd < |s.requests| && s.requests[fd] != [] && s.requests[fd][0].req.RecvInto?
    requires s.requests[fd][0].stage.Completed? && s.requests[fd][0].stage.res > 0
    ensures Live(s, fd) && |s.requests[fd]| == 1
    ensures var s1 := s.(requests := s.requests[fd := []]);
            Handled(s, HandleRecv(s1, fd, s.requests[fd][0].stage.res, input), fd, input)
  {
    hide Conclude, HandleRecv, Answered, Core, CoreBut, LocalOk, LocalIdle, Shaped;
    TakenIs(s, fd);
    RecvIs(s, fd, input);
    ReceivedHeld(At(s, fd));
    ConcludeAnswers(s.(requests := s.requests[fd := []]), fd, Taken(s, fd), input);
  }

  /** What a send leaves. */
  lemma SentHeld<B>(l: Local<B>)
    requires LocalOk(l) && l.conn.op == Send && l.ops[0].stage.Completed? && l.ops[0].stage.res > 0
    ensures var t, res := TakeSent(l.(ops := []), l.ops[0].stage.res), l.ops[0].stage.res;
            && t.ring.Valid() && res <= |l.ring.Contents()| && t.ring.Contents() == l.ring.Contents()[res..]
            && (t.ring.head == t.ring.tail <==> res == |l.ring.Contents()|)
  {
    AdvanceHeadContents(l.ring, l.ops[0].stage.res);
    CountZero(l.ring.AdvanceHead(l.ops[0].stage.res).head, l.ring.tail);
  }

  lemma SendIs<B>(s: Loop<B>, fd: nat, input: Input<B>)
    requires Core(s) && fd < |s.requests| && s.requests[fd] != [] && s.requests[fd][0].req.SendFrom?
    requires s.requests[fd][0].stage.Completed? && s.requests[fd][0].stage.res > 0
    ensures Live(s, fd) && LocalIdle(Taken(s, fd)) && Shaped(s.(requests := s.requests[fd := []]))
    ensures var s1, l := s.(requests := s.requests[fd := []]), Taken(s, fd);
            HandleSend(s1, fd, s.requests[fd][0].stage.res, input) ==
              if l.ring.head == l.ring.tail then Conclude(s1, fd, l, input) else Put(s1, fd, SubmitSend(l, input.sqe))
  {
    hide Conclude, OwnershipOk, DescriptorsOk, SubmitSend;
    TakenIs(s, fd);
  }

  lemma SendAnswers<B>(s: Loop<B>, fd: nat, input: Input<B>)
    requires Core(s) && fd < |s.requests| && s.requests[fd] != [] && s.requests[fd][0].req.SendFrom?
    requires s.requests[fd][0].stage.Completed? && s.requests[fd][0].stage.res > 0
    ensures Live(s, fd) && |s.requests[fd]| == 1
    ensures var s1 := s.(requests := s.requests[fd := []]);
            Handled(s, HandleSend(s1, fd, s.requests[fd][0].stage.res, input), fd, input)
  {
    hide Conclude, HandleSend, Answered, Core, LocalOk, LocalIdle, WaitsFor, SubmitSend, OwnershipOk, DescriptorsOk;
    TakenIs(s, fd);
    SendIs(s, fd, input);
    SentHeld(At(s, fd));
    var s1, l := s.(requests := s.requests[fd := []]), Taken(s, fd);
    if l.ring.head == l.ring.tail {
      ConcludeAnswers(s1, fd, l, input);
    } else {
      IdleBounds(l);
      SubmitAgain(l, input.sqe);
      SendAgainOk(l, input.sqe);
      PutShape(s1, fd, SubmitSend(l, input.sqe));
    }
  }

  lemma IdleBounds<B>(l: Local<B>)
    requires LocalIdle(l)
    ensures l.ring.Valid() && |l.ring.Contents()| == l.ring.Count()
  {
  }

  /** After every data completion: a failed one closes the connection; received bytes come behind those
      held, and on_read is asked; sent bytes leave the front, and either the rest is sent on or on_write
      is asked; and the answer is what the connection waits for. */
  lemma DataAnswered<B>(s: Loop<B>, fd: nat, i: nat, input: Input<B>)
    requires Core(s) && Enabled(s, ProcessData(fd, i, input))
    ensures Live(s, fd) && |s.requests[fd]| == 1 && i == 0
    ensures Handled(s, Next(s, ProcessData(fd, i, input)), fd, input)
  {
    hide Next, HandleRecv, HandleSend, Handled;
    DispatchIs(s, fd, i, input);
    TakeEntry(s, fd);
    var s1 := s.(requests := s.requests[fd := []]);
    if s.requests[fd][0].stage.res <= 0 {
      RemovedAnswers(s, fd, input);
    } else if s.requests[fd][0].req.RecvInto? {
      RecvAnswers(s, fd, input);
    } else {
      SendAnswers(s, fd, input);
    }
  }

  lemma RemovedAnswers<B>(s: Loop<B>, fd: nat, input: Input<B>)
    requires Shaped(s) && Live(s, fd) && |s.requests[fd]| == 1 && s.requests[fd][0].stage.Completed?
    requires s.requests[fd][0].stage.res <= 0
    ensures Handled(s, RemoveConnection(s.(requests := s.requests[fd := []]), fd), fd, input)
  {
    RemovedGone(s.(requests := s.requests[fd := []]), fd);
  }

  // ---- Accepts ----

  lemma WelcomeAnswers<B>(s: Loop<B>, fd: nat, input: Input<B>)
    requires CoreBut(s, fd) && LocalIdle(At(s, fd)) && fd in s.open
    ensures var q := At(s, fd).ring.Contents();
            Answered(s.pool, Welcome(s, fd, input), fd, s.conns[fd].buffer.value, q, Idle, input)
  {
    hide HeldAfter, WaitsFor, LoopModel.Submit;
    var l := At(s, fd);
    CallbackOk(l, input.reply.ops);
    CallbackHeld(l, input.reply.ops);
    var l1 := Callback(l, input.reply.ops);
    if input.reply.next == Die {
      PutShape(s, fd, l1);
      RemovedGone(Put(s, fd, l1), fd);
    } else {
      var l2 := l1.(conn := l1.conn.(state := input.reply.next));
      SubmitOk(l2, input.reply.next, input.sqe);
      SubmitWaits(l2, input.reply.next, input.sqe);
      PutAnswered(s, fd, LoopModel.Submit(l2, input.reply.next, input.sqe), l.ring.Contents(), Idle, input);
    }
  }

  /** The buffer a new connection gets, and the pool without it. */
  ghost function Given<B>(pool: seq<B>, block: B): B { if pool == [] then block else pool[|pool| - 1] }

  ghost function Others<B>(pool: seq<B>): seq<B> { if pool == [] then [] else pool[..|pool| - 1] }

  /** What an accept that returned `fd` makes of it, `pool` being the pool before. */
  ghost predicate Registered<B>(pool: seq<B>, s': Loop<B>, fd: nat, input: Input<B>) {
    && Answered(Others(pool), s', fd, Given(pool, input.block), [], Idle, input)
    && s'.accepts == [Prepared] && fd < |s'.conns| && s'.conns[fd].descriptor == fd
  }

  lemma PushedIs<B>(s: Loop<B>, fd: nat, input: Input<B>)
    requires Shaped(s) && |input.memory| == s.size
    ensures var p := PushNewConnection(s, fd, input.block, input.memory);
            && Live(p, fd) && p.conns[fd].buffer == Some(Given(s.pool, input.block)) && p.conns[fd].descriptor == fd
            && p.pool == Others(s.pool) && p.open == s.open && p.accepts == s.accepts
  {
  }

  lemma WelcomeKeeps<B>(s: Loop<B>, fd: nat, input: Input<B>)
    requires CoreBut(s, fd) && LocalIdle(At(s, fd))
    ensures var s' := Welcome(s, fd, input);
            fd < |s'.conns| && s'.conns[fd].descriptor == s.conns[fd].descriptor && s'.accepts == s.accepts
  {
    CallbackOk(At(s, fd), input.reply.ops);
  }

  /** Arming an accept changes no connection. */
  lemma RearmedAnswers<B>(pool: seq<B>, s: Loop<B>, fd: nat, b: B, held: seq<byte>, state: ElState, input: Input<B>)
    requires Answered(pool, s, fd, b, held, state, input)
    ensures Answered(pool, RearmAccept(s), fd, b, held, state, input)
  {
    hide WaitsFor, HeldAfter;
    assert forall f :: Live(RearmAccept(s), f) <==> Live(s, f);
  }

  lemma RegisteredAnswers<B>(s: Loop<B>, fd: nat, input: Input<B>)
    requires Registrable(s, fd, input) && fd in s.open && s.accepts == []
    ensures Registered(s.pool, HandleAccept(s, fd, input), fd, input)
  {
    hide Welcome, PushNewConnection, Answered, Core, Given, Others;
    var p := PushNewConnection(s, fd, input.block, input.memory);
    NewShape(s, fd, input.block, input.memory);
    PushedIs(s, fd, input);
    IdleBut(p, fd);
    WelcomeAnswers(p, fd, input);
    WelcomeKeeps(p, fd, input);
    RearmedAnswers(p.pool, Welcome(p, fd, input), fd, p.conns[fd].buffer.value, [], Idle, input);
  }

  lemma IdleBut<B>(s: Loop<B>, fd: nat)
    requires Core(s) && Live(s, fd) && LocalIdle(At(s, fd))
    ensures CoreBut(s, fd) && (At(s, fd).ring.head == 0 == At(s, fd).ring.tail ==> At(s, fd).ring.Contents() == [])
  {
  }

  /** After every accept: a refused one only arms the next; otherwise the connection has an empty buffer
      from the pool, or a new one, on_connect is asked, and its answer is what the connection waits for,
      `idle` included. */
  lemma AcceptAnswered<B>(s: Loop<B>, i: nat, input: Input<B>)
    requires Inv(s) && Enabled(s, ProcessAccept(i, input))
    ensures var s', fd := Next(s, ProcessAccept(i, input)), s.accepts[i].res;
            if fd < 0 then s' == s.(accepts := [Prepared]) else Registered(s.pool, s', fd, input)
  {
    hide HandleAccept, Registered;
    ProcessAcceptIs(s, i, input);
    if s.accepts[i].res >= 0 {
      PushReady(s, i, s.accepts[i].res, input);
      assert PendingAccept(s, s.accepts[i].res);
      RegisteredAnswers(s.(accepts := []), s.accepts[i].res, input);
    } else {
      RefusedIs(s.(accepts := []), s.accepts[i].res, input);
    }
  }

  /** The table grows exactly as far as the descriptor that accept returned, by empty records. */
  lemma TableGrows<B>(s: Loop<B>, i: nat, input: Input<B>)
    requires Inv(s) && Enabled(s, ProcessAccept(i, input)) && s.accepts[i].res >= 0
    ensures var s', fd, n := Next(s, ProcessAccept(i, input)), s.accepts[i].res, |s.conns|;
            && |s'.conns| == (if fd < n then n else fd + 1)
            && (forall f :: n <= f < fd ==> s'.conns[f] == Conn(-1, None, Idle, NoOp))
            && (forall f :: 0 <= f < n && f != fd ==> s'.conns[f] == s.conns[f])
  {
    hide HandleAccept;
    ProcessAcceptIs(s, i, input);
    PushReady(s, i, s.accepts[i].res, input);
    TableIs(s.(accepts := []), s.accepts[i].res, input);
  }

  lemma TableIs<B>(s: Loop<B>, fd: nat, input: Input<B>)
    requires Shaped(s) && |input.memory| == s.size
    ensures var s', n := HandleAccept(s, fd, input), |s.conns|;
            && |s'.conns| == (if fd < n then n else fd + 1)
            && (forall f :: n <= f < fd ==> s'.conns[f] == Conn(-1, None, Idle, NoOp))
            && (forall f :: 0 <= f < n && f != fd ==> s'.conns[f] == s.conns[f])
  {
    hide Callback, LoopModel.Submit;
    NewShape(s, fd, input.block, input.memory);
  }

  lemma RefusedIs<B>(s: Loop<B>, res: int, input: Input<B>)
    requires Shaped(s) && |input.memory| == s.size && res < 0 && s.accepts == []
    ensures HandleAccept(s, res, input) == s.(accepts := [Prepared])
  {
  }

  // ---- Runs ----

  /** In every run every completion is answered so. */
  lemma RunAnswered<B>(trace: seq<Loop<B>>, events: seq<Event<B>>, n: nat)
    requires IsRun(trace, events) && n < |events|
    ensures match events[n]
            case ProcessData(fd, i, input) =>
              Shaped(trace[n]) && Live(trace[n], fd) && |trace[n].requests[fd]| == 1
              && trace[n].requests[fd][0].stage.Completed? && Handled(trace[n], trace[n + 1], fd, input)
            case ProcessAccept(i, input) =>
              i < |trace[n].accepts| && trace[n].accepts[i].Completed? &&
              var fd := trace[n].accepts[i].res;
              if fd < 0 then trace[n + 1] == trace[n].(accepts := [Prepared])
              else Registered(trace[n].pool, trace[n + 1], fd, input)
            case _ => true
  {
    hide Next, Handled, Registered;
    Safety(trace, events, n);
    match events[n]
    case ProcessData(fd, i, input) => DataAnswered(trace[n], fd, i, input);
    case ProcessAccept(i, input) => AcceptAnswered(trace[n], i, input);
    case _ =>
  }
}
