/** Every run of the io_uring TCP loop: which steps the loop and the kernel may take in which
    state, and what every reachable state keeps. */
module TcpLoopSafety {
  import opened Bits
  import opened RingValue
  import opened Tags
  import opened LoopModel
  import opened TcpLoopModel
  import opened Runs

  // The kernel moves an operation on, or the loop processes a completion entry. Entries are
  // processed in any order and submitted one by one, which includes every batch order.
  datatype Event<B> =
    | KernelAccept(i: nat, stage: Stage)
    | KernelData(fd: nat, i: nat, step: KernelStep)
    | ProcessAccept(i: nat, input: Input<B>)
    | ProcessData(fd: nat, i: nat, input: Input<B>)

  function TagOf<B>(fd: nat, req: Request<B>): nat {
    TagData(fd, if req.RecvInto? then RECV else SEND)
  }

  /** What the kernel and the memory allocator guarantee: a `new` block is nowhere in use, and
      accept returns a descriptor that is not open. */
  ghost predicate Possible<B>(s: Loop<B>, e: Event<B>) {
    match e
    case KernelAccept(i, stage) =>
      && i < |s.accepts|
      && match s.accepts[i] {
           case Prepared => stage == InKernel
           case InKernel => stage.Completed? && (stage.res >= 0 ==> stage.res < FD_LIMIT && stage.res !in s.open)
           case Completed(_) => false
         }
    case KernelData(fd, i, step) =>
      fd < |s.requests| && i < |s.requests[fd]| && KernelMay(s.requests[fd][i], step)
    case ProcessAccept(i, input) =>
      i < |s.accepts| && s.accepts[i].Completed? && MayInput(s, input)
    case ProcessData(fd, i, input) =>
      fd < |s.requests| && i < |s.requests[fd]| && s.requests[fd][i].stage.Completed? && |input.memory| == s.size
  }

  /** And what the loop takes for granted besides: that the receive tag of an accepted descriptor
      is not the accept tag. */
  ghost predicate Enabled<B>(s: Loop<B>, e: Event<B>) {
    Possible(s, e) && (e.KernelAccept? && e.stage.Completed? && e.stage.res >= 0 ==> MayAccept(s, e.stage.res))
  }

  ghost predicate MayAccept<B>(s: Loop<B>, fd: int) {
    0 <= fd < FD_LIMIT && fd !in s.open && TagData(fd, RECV) != TagAccept(s.listenFd)
  }

  ghost predicate MayInput<B>(s: Loop<B>, input: Input<B>) {
    NewBlock(s, input.block) && |input.memory| == s.size
  }

  ghost function Next<B>(s: Loop<B>, e: Event<B>): Loop<B>
    requires Shaped(s) && Possible(s, e)
  {
    match e
    case KernelAccept(i, stage) =>
      s.(accepts := s.accepts[i := stage],
         open := if stage.Completed? && stage.res >= 0 then s.open + {stage.res} else s.open)
    case KernelData(fd, i, step) =>
      var o := s.requests[fd][i];
      if o.req.buffer !in s.rings then s
      else
        var r := s.rings[o.req.buffer];
        s.(requests := s.requests[fd := s.requests[fd][i := o.(stage := KernelStage(step))]],
           wires := s.wires[fd := KernelWire(s.wires[fd], r, o, step)],
           rings := s.rings[o.req.buffer := KernelMemory(r, o, step)])
    case ProcessAccept(i, input) =>
      Dispatch(s.(accepts := Without(s.accepts, i)), TagAccept(s.listenFd), s.accepts[i].res, input)
    case ProcessData(fd, i, input) =>
      var o := s.requests[fd][i];
      Dispatch(s.(requests := s.requests[fd := Without(s.requests[fd], i)]), TagOf(fd, o.req), o.stage.res, input)
  }

  // ---- The invariant ----

  /** Each connection satisfies its own invariant; a dead one has nothing outstanding. */
  ghost predicate ConnsOk<B>(s: Loop<B>)
    requires Shaped(s)
  {
    forall fd :: 0 <= fd < |s.conns| ==>
      if Live(s, fd) then LocalOk(At(s, fd)) else s.conns[fd].op == NoOp && s.requests[fd] == []
  }

  /** Pooled and live buffers are pairwise distinct, pooled ones are empty, and together they
      are all the buffers ever created. */
  ghost predicate OwnershipOk<B>(s: Loop<B>)
    requires Shaped(s)
  {
    && (forall i, j :: 0 <= i < j < |s.pool| ==> s.pool[i] != s.pool[j])
    && (forall i :: 0 <= i < |s.pool| ==> s.rings[s.pool[i]].head == 0 == s.rings[s.pool[i]].tail)
    && (forall i, fd :: 0 <= i < |s.pool| && Live(s, fd) ==> s.conns[fd].buffer.value != s.pool[i])
    && (forall fd, fd' :: Live(s, fd) && Live(s, fd') && fd != fd' ==> s.conns[fd].buffer != s.conns[fd'].buffer)
    && (forall b :: b in s.rings ==> b in s.pool || exists fd :: Live(s, fd) && s.conns[fd].buffer.value == b)
  }

  ghost predicate PendingAccept<B>(s: Loop<B>, fd: int) {
    Completed(fd) in s.accepts && fd >= 0
  }

  /** The open descriptors are those of the process, of the live connections and of an
      accepted connection not seen yet, and these are disjoint. */
  ghost predicate DescriptorsOk<B>(s: Loop<B>) {
    && s.listenFd in s.base && s.listenFd < FD_LIMIT
    && (forall fd :: fd in s.open <==> fd in s.base || Live(s, fd) || PendingAccept(s, fd))
    && (forall fd :: Live(s, fd) ==> ForeignFree(s, fd) && !PendingAccept(s, fd))
    && (forall fd :: PendingAccept(s, fd) ==> ForeignFree(s, fd))
  }

  /** A descriptor the loop may use: not one of the process's own, and its tags are safe. */
  ghost predicate ForeignFree<B>(s: Loop<B>, fd: int) {
    0 <= fd < FD_LIMIT && fd !in s.base && TagData(fd, RECV) != TagAccept(s.listenFd)
  }

  ghost predicate Core<B>(s: Loop<B>) {
    Shaped(s) && ConnsOk(s) && OwnershipOk(s) && DescriptorsOk(s)
  }

  ghost predicate Inv<B>(s: Loop<B>) {
    Core(s) && |s.accepts| == 1
  }

  /** Replacing the local state of one live connection, buffer kept. */
  lemma PutShape<B>(s: Loop<B>, fd: nat, l: Local<B>)
    requires Shaped(s) && Live(s, fd)
    requires l.conn.buffer == s.conns[fd].buffer && l.ring.Valid() && l.ring.Size() == s.size
    ensures Shaped(Put(s, fd, l))
    ensures forall f :: Live(Put(s, fd, l), f) <==> Live(s, f)
    ensures At(Put(s, fd, l), fd) == l
  {
  }

  /** All connections but `fd` satisfy their invariant. */
  ghost predicate OthersOk<B>(s: Loop<B>, fd: int)
    requires Shaped(s)
  {
    forall f :: 0 <= f < |s.conns| && f != fd ==>
      if Live(s, f) then LocalOk(At(s, f)) else s.conns[f].op == NoOp && s.requests[f] == []
  }

  lemma PutConns<B>(s: Loop<B>, fd: nat, l: Local<B>)
    requires Shaped(s) && OwnershipOk(s) && Live(s, fd) && OthersOk(s, fd)
    requires l.conn.buffer == s.conns[fd].buffer && LocalOk(l) && l.ring.Size() == s.size
    ensures Shaped(Put(s, fd, l)) && ConnsOk(Put(s, fd, l))
  {
    PutShape(s, fd, l);
    var s' := Put(s, fd, l);
    forall f | 0 <= f < |s'.conns|
      ensures if Live(s', f) then LocalOk(At(s', f)) else s'.conns[f].op == NoOp && s'.requests[f] == []
    {
      if f != fd && Live(s, f) {
        assert At(s', f) == At(s, f);
      }
    }
  }

  lemma PutOwnership<B>(s: Loop<B>, fd: nat, l: Local<B>)
    requires Shaped(s) && OwnershipOk(s) && Live(s, fd)
    requires l.conn.buffer == s.conns[fd].buffer && l.ring.Valid() && l.ring.Size() == s.size
    ensures Shaped(Put(s, fd, l)) && OwnershipOk(Put(s, fd, l))
  {
    PutShape(s, fd, l);
    var s' := Put(s, fd, l);
    assert forall f :: Live(s, f) ==> s'.conns[f].buffer == s.conns[f].buffer;
    forall b | b in s'.rings
      ensures b in s'.pool || exists f :: Live(s', f) && s'.conns[f].buffer.value == b
    {
      assert b in s.rings;
      if b !in s.pool {
        var f :| Live(s, f) && s.conns[f].buffer.value == b;
        assert Live(s', f) && s'.conns[f].buffer.value == b;
      }
    }
  }

  lemma PutDescriptors<B>(s: Loop<B>, fd: nat, l: Local<B>)
    requires Shaped(s) && DescriptorsOk(s) && Live(s, fd)
    requires l.conn.buffer == s.conns[fd].buffer && l.ring.Valid() && l.ring.Size() == s.size
    ensures DescriptorsOk(Put(s, fd, l))
  {
    PutShape(s, fd, l);
    var s' := Put(s, fd, l);
    assert forall f :: PendingAccept(s', f) <==> PendingAccept(s, f);
    assert forall f :: ForeignFree(s', f) <==> ForeignFree(s, f);
  }

  // ---- remove_connection ----

  lemma RemoveShape<B>(s: Loop<B>, fd: nat)
    requires Shaped(s) && Live(s, fd)
    ensures Shaped(RemoveConnection(s, fd))
    ensures forall f :: Live(RemoveConnection(s, fd), f) <==> Live(s, f) && f != fd
  {
  }

  lemma RemoveConns<B>(s: Loop<B>, fd: nat)
    requires Shaped(s) && OwnershipOk(s) && Live(s, fd) && OthersOk(s, fd) && s.requests[fd] == []
    ensures Shaped(RemoveConnection(s, fd)) && ConnsOk(RemoveConnection(s, fd))
  {
    RemoveShape(s, fd);
    var s' := RemoveConnection(s, fd);
    forall f | 0 <= f < |s'.conns|
      ensures if Live(s', f) then LocalOk(At(s', f)) else s'.conns[f].op == NoOp && s'.requests[f] == []
    {
      if Live(s', f) {
        assert At(s', f) == At(s, f);
      }
    }
  }

  lemma ReleaseShape<B>(s: Loop<B>, fd: nat)
    requires Shaped(s) && Live(s, fd)
    ensures Shaped(Release(s, fd))
    ensures forall f :: Live(Release(s, fd), f) <==> Live(s, f) && f != fd
    ensures forall f :: Live(s, f) && f != fd ==> Release(s, fd).conns[f] == s.conns[f]
    ensures var c := s.conns[fd];
            Release(s, fd) == s.(conns := s.conns[fd := c.(buffer := None)], pool := s.pool + [c.buffer.value],
                                 rings := s.rings[c.buffer.value := s.rings[c.buffer.value].Reset()])
  {
    ResetContents(s.rings[s.conns[fd].buffer.value]);
  }

  lemma ReleaseCovers<B>(s: Loop<B>, fd: nat, b: B)
    requires Shaped(s) && OwnershipOk(s) && Live(s, fd) && b in s.rings
    ensures var s' := Release(s, fd); b in s'.pool || exists f :: Live(s', f) && s'.conns[f].buffer.value == b
  {
    ReleaseShape(s, fd);
    var s' := Release(s, fd);
    if b == s.conns[fd].buffer.value {
      assert s'.pool[|s.pool|] == b;
    } else if b in s.pool {
      var i :| 0 <= i < |s.pool| && s.pool[i] == b;
      assert s'.pool[i] == b;
    } else {
      var f :| Live(s, f) && s.conns[f].buffer.value == b;
      assert Live(s', f) && s'.conns[f].buffer.value == b;
    }
  }

  lemma ReleaseOwnership<B>(s: Loop<B>, fd: nat)
    requires Shaped(s) && OwnershipOk(s) && Live(s, fd)
    ensures Shaped(Release(s, fd)) && OwnershipOk(Release(s, fd))
    ensures forall f :: Live(Release(s, fd), f) <==> Live(s, f) && f != fd
  {
    ReleaseShape(s, fd);
    forall b | b in s.rings
      ensures var s' := Release(s, fd); b in s'.pool || exists f :: Live(s', f) && s'.conns[f].buffer.value == b
    {
      ReleaseCovers(s, fd, b);
    }
  }

  lemma RemoveOwnership<B>(s: Loop<B>, fd: nat)
    requires Shaped(s) && OwnershipOk(s) && Live(s, fd)
    ensures Shaped(RemoveConnection(s, fd)) && OwnershipOk(RemoveConnection(s, fd))
  {
    RemoveShape(s, fd);
    ReleaseOwnership(s, fd);
    var s1, s' := Release(s, fd), RemoveConnection(s, fd);
    assert forall f :: Live(s', f) <==> Live(s1, f);
    assert forall f :: Live(s1, f) ==> s'.conns[f].buffer == s1.conns[f].buffer;
    forall b | b in s'.rings
      ensures b in s'.pool || exists f :: Live(s', f) && s'.conns[f].buffer.value == b
    {
      if b !in s1.pool {
        var f :| Live(s1, f) && s1.conns[f].buffer.value == b;
        assert Live(s', f) && s'.conns[f].buffer.value == b;
      }
    }
  }

  lemma RemoveDescriptors<B>(s: Loop<B>, fd: nat)
    requires Shaped(s) && Live(s, fd) && DescriptorsOk(s)
    ensures DescriptorsOk(RemoveConnection(s, fd))
  {
    RemoveShape(s, fd);
    var s' := RemoveConnection(s, fd);
    assert forall f :: PendingAccept(s', f) <==> PendingAccept(s, f);
  }

  // ---- push_new_connection ----

  lemma PushShape<B>(s: Loop<B>, fd: nat, block: B, memory: seq<byte>)
    requires Shaped(s) && |memory| == s.size && NewBlock(s, block)
    ensures var s' := PushNewConnection(s, fd, block, memory);
            && Shaped(s')
            && (forall f :: Live(s', f) <==> Live(s, f) || f == fd)
            && (forall f :: Live(s, f) && f != fd ==> s'.conns[f] == s.conns[f])
  {
  }

  lemma PushOthers<B>(s: Loop<B>, fd: nat, block: B, memory: seq<byte>)
    requires Shaped(s) && ConnsOk(s) && |memory| == s.size && NewBlock(s, block) && !Live(s, fd)
    ensures var s' := PushNewConnection(s, fd, block, memory);
            Shaped(s') && OthersOk(s', fd)
  {
  }

  /** The buffer handed out is neither pooled nor live any more. */
  lemma PushDistinct<B>(s: Loop<B>, fd: nat, block: B, memory: seq<byte>)
    requires Shaped(s) && OwnershipOk(s) && |memory| == s.size && NewBlock(s, block) && !Live(s, fd)
    ensures var s', n := PushNewConnection(s, fd, block, memory), |s.pool|;
            && s'.pool == (if n > 0 then s.pool[..n - 1] else [])
            && Live(s', fd) && s'.conns[fd].buffer == Some(if n > 0 then s.pool[n - 1] else block)
            && s'.rings == (if n > 0 then s.rings else s.rings[block := Ring(memory, 0, 0)])
            && s'.rings[s'.conns[fd].buffer.value].head == 0 == s'.rings[s'.conns[fd].buffer.value].tail
            && Shaped(s')
  {
  }

  lemma FreshIdle<B>(l: Local<B>)
    requires l.conn.buffer.Some? && l.conn.op == NoOp && l.ops == [] && l.wire == NO_WIRE
    requires l.ring.Valid() && l.ring.Size() > 0 && l.ring.head == 0 == l.ring.tail
    ensures LocalIdle(l)
  {
  }

  lemma PushConns<B>(s: Loop<B>, fd: nat, block: B, memory: seq<byte>)
    requires Shaped(s) && ConnsOk(s) && OwnershipOk(s) && |memory| == s.size && NewBlock(s, block) && !Live(s, fd)
    ensures var s' := PushNewConnection(s, fd, block, memory);
            && Shaped(s') && ConnsOk(s') && Live(s', fd) && LocalIdle(At(s', fd))
            && s'.wires[fd] == NO_WIRE && At(s', fd).ring.head == 0 == At(s', fd).ring.tail
  {
    PushOthers(s, fd, block, memory);
    PushDistinct(s, fd, block, memory);
    var s' := PushNewConnection(s, fd, block, memory);
    assert s'.requests[fd] == [];
    FreshIdle(At(s', fd));
  }

  lemma PushOwnership<B>(s: Loop<B>, fd: nat, block: B, memory: seq<byte>)
    requires Shaped(s) && OwnershipOk(s) && |memory| == s.size && NewBlock(s, block) && !Live(s, fd)
    ensures var s' := PushNewConnection(s, fd, block, memory);
            Shaped(s') && OwnershipOk(s')
  {
    PushShape(s, fd, block, memory);
    PushDistinct(s, fd, block, memory);
    PushCovers(s, fd, block, memory);
  }

  lemma PushCovers<B>(s: Loop<B>, fd: nat, block: B, memory: seq<byte>)
    requires Shaped(s) && OwnershipOk(s) && |memory| == s.size && NewBlock(s, block) && !Live(s, fd)
    ensures var s' := PushNewConnection(s, fd, block, memory);
            forall b :: b in s'.rings ==> b in s'.pool || exists f :: Live(s', f) && s'.conns[f].buffer.value == b
  {
    PushShape(s, fd, block, memory);
    PushDistinct(s, fd, block, memory);
    var s' := PushNewConnection(s, fd, block, memory);
    forall b | b in s'.rings && Some(b) != s'.conns[fd].buffer
      ensures b in s'.pool || exists f :: Live(s', f) && s'.conns[f].buffer.value == b
    {
      if b in s.pool {
        var i :| 0 <= i < |s.pool| && s.pool[i] == b;
        assert s'.pool[i] == b;
      } else {
        var f :| Live(s, f) && s.conns[f].buffer.value == b;
        assert Live(s', f) && s'.conns[f].buffer.value == b;
      }
    }
  }

  /** The descriptor of an accepted connection passes from its completion entry to the table. */
  lemma PushDescriptors<B>(s: Loop<B>, i: nat, block: B, memory: seq<byte>)
    requires Shaped(s) && DescriptorsOk(s) && i < |s.accepts| == 1
    requires s.accepts[i].Completed? && s.accepts[i].res >= 0 && |memory| == s.size && NewBlock(s, block)
    ensures var fd := s.accepts[i].res;
            DescriptorsOk(PushNewConnection(s.(accepts := Without(s.accepts, i)), fd, block, memory))
  {
    var fd := s.accepts[i].res;
    var s1 := s.(accepts := Without(s.accepts, i));
    assert forall f :: Live(s1, f) <==> Live(s, f);
    assert PendingAccept(s, fd);
    assert forall f :: PendingAccept(s, f) ==> f == fd;
    PushShape(s1, fd, block, memory);
    var s' := PushNewConnection(s1, fd, block, memory);
    assert forall f :: !PendingAccept(s', f);
    assert forall f :: ForeignFree(s', f) <==> ForeignFree(s, f);
  }

  // ---- Handlers ----

  /** `s` is sound but for the operations of `fd`, which is live and has none left. */
  ghost predicate CoreBut<B>(s: Loop<B>, fd: nat) {
    Shaped(s) && OthersOk(s, fd) && OwnershipOk(s) && DescriptorsOk(s) && Live(s, fd) && s.requests[fd] == []
  }

  lemma PutCore<B>(s: Loop<B>, fd: nat, l: Local<B>)
    requires CoreBut(s, fd) && LocalOk(l)
    requires l.conn.buffer == s.conns[fd].buffer && l.ring.Size() == s.size
    ensures Core(Put(s, fd, l)) && At(Put(s, fd, l), fd) == l && Live(Put(s, fd, l), fd)
    ensures Put(s, fd, l).accepts == s.accepts
    ensures l.ops == [] ==> CoreBut(Put(s, fd, l), fd)
  {
    PutShape(s, fd, l);
    PutConns(s, fd, l);
    PutOwnership(s, fd, l);
    PutDescriptors(s, fd, l);
  }

  lemma RemoveCore<B>(s: Loop<B>, fd: nat)
    requires CoreBut(s, fd)
    ensures Core(RemoveConnection(s, fd)) && RemoveConnection(s, fd).accepts == s.accepts
    ensures !Live(RemoveConnection(s, fd), fd)
  {
    RemoveShape(s, fd);
    RemoveConns(s, fd);
    RemoveOwnership(s, fd);
    RemoveDescriptors(s, fd);
  }

  lemma ConcludeCore<B>(s: Loop<B>, fd: nat, l: Local<B>, input: Input<B>)
    requires CoreBut(s, fd) && LocalIdle(l)
    requires l.conn.buffer == s.conns[fd].buffer && l.ring.Size() == s.size
    ensures Core(Conclude(s, fd, l, input)) && Conclude(s, fd, l, input).accepts == s.accepts
  {
    CallbackOk(l, input.reply.ops);
    var l1 := Callback(l, input.reply.ops);
    if input.reply.next.Die? {
      PutCore(s, fd, l1);
      RemoveCore(Put(s, fd, l1), fd);
    } else {
      SubmitOk(l1, input.reply.next, input.sqe);
      PutCore(s, fd, LoopModel.Submit(l1, input.reply.next, input.sqe));
    }
  }

  /** Taking the completion entry of a connection off its list. */
  lemma TakeEntry<B>(s: Loop<B>, fd: nat)
    requires Core(s) && fd < |s.requests| && s.requests[fd] != []
    ensures Live(s, fd) && |s.requests[fd]| == 1 && s.conns[fd].op != NoOp
    ensures s.conns[fd].op == Recv <==> s.requests[fd][0].req.RecvInto?
    ensures CoreBut(s.(requests := s.requests[fd := []]), fd)
    ensures At(s.(requests := s.requests[fd := []]), fd) == At(s, fd).(ops := [])
  {
    var s1 := s.(requests := s.requests[fd := []]);
    assert LocalOk(At(s, fd));
    assert forall f :: Live(s1, f) <==> Live(s, f);
    assert forall f :: PendingAccept(s1, f) <==> PendingAccept(s, f);
    assert forall f :: ForeignFree(s1, f) <==> ForeignFree(s, f);
    forall f | 0 <= f < |s1.conns| && f != fd
      ensures if Live(s1, f) then LocalOk(At(s1, f)) else s1.conns[f].op == NoOp && s1.requests[f] == []
    {
      if Live(s, f) {
        assert At(s1, f) == At(s, f);
      }
    }
  }

  lemma HandleRecvCore<B>(s: Loop<B>, fd: nat, input: Input<B>)
    requires Core(s) && fd < |s.requests| && s.requests[fd] != [] && s.conns[fd].op == Recv
    requires s.requests[fd][0].stage.Completed? && s.requests[fd][0].stage.res > 0
    ensures var s' := HandleRecv(s.(requests := s.requests[fd := []]), fd, s.requests[fd][0].stage.res, input);
            Core(s') && s'.accepts == s.accepts
  {
    TakeEntry(s, fd);
    var s1 := s.(requests := s.requests[fd := []]);
    TakeReceivedOk(At(s, fd));
    ConcludeCore(s1, fd, TakeReceived(At(s1, fd), s.requests[fd][0].stage.res), input);
  }

  lemma HandleSendCore<B>(s: Loop<B>, fd: nat, input: Input<B>)
    requires Core(s) && fd < |s.requests| && s.requests[fd] != [] && s.conns[fd].op == Send
    requires s.requests[fd][0].stage.Completed? && s.requests[fd][0].stage.res > 0
    ensures var s' := HandleSend(s.(requests := s.requests[fd := []]), fd, s.requests[fd][0].stage.res, input);
            Core(s') && s'.accepts == s.accepts
  {
    TakeEntry(s, fd);
    var s1 := s.(requests := s.requests[fd := []]);
    TakeSentOk(At(s, fd));
    var l := TakeSent(At(s1, fd), s.requests[fd][0].stage.res);
    if l.ring.head == l.ring.tail {
      ConcludeCore(s1, fd, l, input);
    } else {
      SendAgainOk(l, input.sqe);
      PutCore(s1, fd, SubmitSend(l, input.sqe));
    }
  }

  lemma SendAgainOk<B>(l: Local<B>, sqe: bool)
    requires LocalIdle(l)
    ensures LocalOk(SubmitSend(l, sqe)) && SubmitSend(l, sqe).conn.buffer == l.conn.buffer
    ensures SubmitSend(l, sqe).ring == l.ring
  {
    UsedRegionIsFirstChunk(l.ring);
  }

  // ---- Steps ----

  /** The tag of an outstanding data operation leads back to its own connection and kind. */
  lemma TagLeadsHome<B>(s: Loop<B>, fd: nat)
    requires Core(s) && fd < |s.requests| && s.requests[fd] != []
    ensures var ud, req := TagOf(fd, s.requests[fd][0].req), s.requests[fd][0].req;
            && ud != TagAccept(s.listenFd) && FdOf(ud) == fd
            && KindOf(ud) == (if req.RecvInto? then RECV else SEND)
  {
    TakeEntry(s, fd);
    assert ForeignFree(s, fd);
    var kind := if s.requests[fd][0].req.RecvInto? then RECV else SEND;
    DecodeData(fd, kind);
    AcceptCollision(s.listenFd, fd, kind);
  }

  /** The handler a data completion reaches: its own connection's, of its own kind, with the
      operation it completes still recorded in `op`; an error or end of stream removes the
      connection, which is live. No completion is stale. */
  lemma DispatchIs<B>(s: Loop<B>, fd: nat, i: nat, input: Input<B>)
    requires Core(s) && Enabled(s, ProcessData(fd, i, input))
    ensures i == 0 && Live(s, fd)
    ensures var o, s1 := s.requests[fd][0], s.(requests := s.requests[fd := []]);
            && CoreBut(s1, fd)
            && s.conns[fd].op == (if o.req.RecvInto? then Recv else Send)
            && Next(s, ProcessData(fd, i, input)) ==
               if o.stage.res <= 0 then RemoveConnection(s1, fd)
               else if o.req.RecvInto? then HandleRecv(s1, fd, o.stage.res, input)
               else HandleSend(s1, fd, o.stage.res, input)
  {
    TakeEntry(s, fd);
    TagLeadsHome(s, fd);
    assert i == 0 && Without(s.requests[fd], i) == [];
  }

  lemma ProcessDataCore<B>(s: Loop<B>, fd: nat, i: nat, input: Input<B>)
    requires Core(s) && Enabled(s, ProcessData(fd, i, input))
    ensures var s' := Next(s, ProcessData(fd, i, input));
            Core(s') && s'.accepts == s.accepts
  {
    DispatchIs(s, fd, i, input);
    var o := s.requests[fd][0];
    if o.stage.res <= 0 {
      RemoveCore(s.(requests := s.requests[fd := []]), fd);
    } else if o.req.RecvInto? {
      HandleRecvCore(s, fd, input);
    } else {
      HandleSendCore(s, fd, input);
    }
  }

  lemma KernelPut<B>(s: Loop<B>, fd: nat, i: nat, step: KernelStep)
    requires Shaped(s) && Possible(s, KernelData(fd, i, step)) && Live(s, fd) && LocalOk(At(s, fd))
    ensures Next(s, KernelData(fd, i, step)) == Put(s, fd, KernelLocal(At(s, fd), i, step))
  {
    var l := At(s, fd);
    assert s.requests[fd][i].req.buffer == l.conn.buffer.value;
    assert s.conns[fd := l.conn] == s.conns;
  }

  /** The kernel works on the connection the request belongs to, through the pointer it was lent. */
  lemma KernelDataIs<B>(s: Loop<B>, fd: nat, i: nat, step: KernelStep)
    requires Core(s) && Enabled(s, KernelData(fd, i, step))
    ensures Live(s, fd) && i < |At(s, fd).ops| && LocalOk(At(s, fd)) && KernelMay(At(s, fd).ops[i], step)
    ensures Next(s, KernelData(fd, i, step)) == Put(s, fd, KernelLocal(At(s, fd), i, step))
  {
    TakeEntry(s, fd);
    assert LocalOk(At(s, fd));
    KernelPut(s, fd, i, step);
  }

  lemma KernelDataCore<B>(s: Loop<B>, fd: nat, i: nat, step: KernelStep)
    requires Core(s) && Enabled(s, KernelData(fd, i, step))
    ensures var s' := Next(s, KernelData(fd, i, step));
            Core(s') && s'.accepts == s.accepts
  {
    KernelDataIs(s, fd, i, step);
    KernelOk(At(s, fd), i, step);
    var l' := KernelLocal(At(s, fd), i, step);
    PutConns(s, fd, l');
    PutOwnership(s, fd, l');
    PutDescriptors(s, fd, l');
  }

  lemma KernelAcceptInv<B>(s: Loop<B>, i: nat, stage: Stage)
    requires Inv(s) && Enabled(s, KernelAccept(i, stage))
    ensures Inv(Next(s, KernelAccept(i, stage)))
  {
    var s' := Next(s, KernelAccept(i, stage));
    assert forall f :: Live(s', f) <==> Live(s, f);
    assert forall f :: 0 <= f < |s.conns| && Live(s, f) ==> At(s', f) == At(s, f);
    assert s'.accepts == [stage];
    assert forall f :: !PendingAccept(s, f);
    assert forall f :: PendingAccept(s', f) <==> stage == Completed(f) && f >= 0;
    assert forall f :: ForeignFree(s', f) <==> ForeignFree(s, f);
  }

  lemma SameButAccepts<B>(s: Loop<B>, a: seq<Stage>)
    requires Core(s) && (forall f :: f >= 0 ==> Completed(f) !in s.accepts && Completed(f) !in a)
    ensures Core(s.(accepts := a))
  {
    var s' := s.(accepts := a);
    assert forall f :: Live(s', f) <==> Live(s, f);
    assert forall f :: 0 <= f < |s.conns| && Live(s, f) ==> At(s', f) == At(s, f);
    assert forall f :: !PendingAccept(s, f) && !PendingAccept(s', f);
    assert forall f :: ForeignFree(s', f) <==> ForeignFree(s, f);
  }

  /** Registering an accepted descriptor. */
  lemma PushCore<B>(s: Loop<B>, i: nat, input: Input<B>)
    requires Inv(s) && Enabled(s, ProcessAccept(i, input)) && s.accepts[i].res >= 0
    ensures var fd := s.accepts[i].res;
            var s' := PushNewConnection(s.(accepts := []), fd, input.block, input.memory);
            && !Live(s, fd) && Core(s') && Live(s', fd) && LocalIdle(At(s', fd))
            && s'.wires[fd] == NO_WIRE && s'.accepts == []
            && At(s', fd).ring.head == 0 == At(s', fd).ring.tail && s'.size == s.size
  {
    var fd := s.accepts[i].res;
    var s1 := s.(accepts := []);
    assert Without(s.accepts, i) == [];
    assert PendingAccept(s, fd);
    assert forall f :: Live(s1, f) <==> Live(s, f);
    assert forall f :: 0 <= f < |s.conns| && Live(s, f) ==> At(s1, f) == At(s, f);
    PushConns(s1, fd, input.block, input.memory);
    PushOwnership(s1, fd, input.block, input.memory);
    PushDescriptors(s, i, input.block, input.memory);
  }

  /** Registering `fd` gives a sound state with a new idle connection and no accept armed. */
  ghost predicate Registrable<B>(s: Loop<B>, fd: nat, input: Input<B>) {
    && Shaped(s) && |input.memory| == s.size
    && var s2 := PushNewConnection(s, fd, input.block, input.memory);
       && Core(s2) && Live(s2, fd) && LocalIdle(At(s2, fd)) && s2.wires[fd] == NO_WIRE
       && At(s2, fd).ring.head == 0 == At(s2, fd).ring.tail && s2.accepts == [] && s2.size == s.size
  }

  lemma PushReady<B>(s: Loop<B>, i: nat, fd: nat, input: Input<B>)
    requires Inv(s) && Enabled(s, ProcessAccept(i, input)) && s.accepts[i].res == fd
    ensures Registrable(s.(accepts := []), fd, input)
  {
    PushCore(s, i, input);
  }

  lemma ProcessAcceptIs<B>(s: Loop<B>, i: nat, input: Input<B>)
    requires Inv(s) && Enabled(s, ProcessAccept(i, input))
    ensures var s1 := s.(accepts := []);
            Next(s, ProcessAccept(i, input)) == HandleAccept(s1, s.accepts[i].res, input)
  {
    assert Without(s.accepts, i) == [];
  }

  lemma RearmInv<B>(s: Loop<B>)
    requires Core(s) && s.accepts == []
    ensures Inv(RearmAccept(s))
  {
    SameButAccepts(s, [Prepared]);
    assert RearmAccept(s) == s.(accepts := [Prepared]);
  }

  lemma AcceptRefused<B>(s: Loop<B>, i: nat)
    requires Inv(s) && i < |s.accepts| && s.accepts[i].Completed? && s.accepts[i].res < 0
    ensures Inv(RearmAccept(s.(accepts := [])))
  {
    SameButAccepts(s, []);
    RearmInv(s.(accepts := []));
  }

  lemma WelcomeOutcome<B>(s: Loop<B>, fd: nat, input: Input<B>)
    requires Core(s) && Live(s, fd) && LocalIdle(At(s, fd))
    ensures Live(RearmAccept(Welcome(s, fd, input)), fd) <==> !input.reply.next.Die?
  {
    var l := At(s, fd);
    CallbackOk(l, input.reply.ops);
    var l1 := Callback(l, input.reply.ops);
    if input.reply.next.Die? {
      PutCore(s, fd, l1);
      RemoveShape(Put(s, fd, l1), fd);
    } else {
      var l2 := l1.(conn := l1.conn.(state := input.reply.next));
      SubmitOk(l2, input.reply.next, input.sqe);
      PutShape(s, fd, LoopModel.Submit(l2, input.reply.next, input.sqe));
    }
    assert Live(RearmAccept(Welcome(s, fd, input)), fd) <==> Live(Welcome(s, fd, input), fd);
  }

  lemma WelcomeThenRearm<B>(s: Loop<B>, fd: nat, input: Input<B>)
    requires Core(s) && Live(s, fd) && LocalIdle(At(s, fd)) && s.accepts == []
    ensures Inv(RearmAccept(Welcome(s, fd, input)))
    ensures Live(RearmAccept(Welcome(s, fd, input)), fd) <==> !input.reply.next.Die?
  {
    WelcomeOutcome(s, fd, input);
    WelcomeCore(s, fd, input);
    RearmInv(Welcome(s, fd, input));
  }

  lemma AcceptTaken<B>(s: Loop<B>, fd: nat, input: Input<B>)
    requires Registrable(s, fd, input)
    ensures Inv(HandleAccept(s, fd, input))
    ensures Live(HandleAccept(s, fd, input), fd) <==> !input.reply.next.Die?
  {
    WelcomeThenRearm(PushNewConnection(s, fd, input.block, input.memory), fd, input);
  }

  lemma AcceptRegistered<B>(s: Loop<B>, i: nat, fd: nat, input: Input<B>)
    requires Inv(s) && Enabled(s, ProcessAccept(i, input)) && s.accepts[i].res == fd
    ensures Shaped(s.(accepts := [])) && |input.memory| == s.size
    ensures Inv(HandleAccept(s.(accepts := []), fd, input))
    ensures Live(HandleAccept(s.(accepts := []), fd, input), fd) <==> !input.reply.next.Die?
  {
    PushReady(s, i, fd, input);
    AcceptTaken(s.(accepts := []), fd, input);
  }

  lemma ProcessAcceptInv<B>(s: Loop<B>, i: nat, input: Input<B>)
    requires Inv(s) && Enabled(s, ProcessAccept(i, input))
    ensures Inv(Next(s, ProcessAccept(i, input)))
  {
    ProcessAcceptIs(s, i, input);
    if s.accepts[i].res < 0 {
      AcceptRefused(s, i);
    } else {
      AcceptRegistered(s, i, s.accepts[i].res, input);
    }
  }

  lemma WelcomeCore<B>(s: Loop<B>, fd: nat, input: Input<B>)
    requires Core(s) && Live(s, fd) && LocalIdle(At(s, fd))
    ensures Core(Welcome(s, fd, input)) && Welcome(s, fd, input).accepts == s.accepts
  {
    var l := At(s, fd);
    CallbackOk(l, input.reply.ops);
    var l1 := Callback(l, input.reply.ops);
    if input.reply.next.Die? {
      PutCore(s, fd, l1);
      RemoveCore(Put(s, fd, l1), fd);
    } else {
      var l2 := l1.(conn := l1.conn.(state := input.reply.next));
      SubmitOk(l2, input.reply.next, input.sqe);
      PutCore(s, fd, LoopModel.Submit(l2, input.reply.next, input.sqe));
    }
  }

  /** Every step of the loop and of the kernel keeps the invariant. */
  lemma StepInv<B>(s: Loop<B>, e: Event<B>)
    requires Inv(s) && Enabled(s, e)
    ensures Inv(Next(s, e))
  {
    match e
    case KernelAccept(i, stage) => KernelAcceptInv(s, i, stage);
    case KernelData(fd, i, step) => KernelDataCore(s, fd, i, step);
    case ProcessAccept(i, input) => ProcessAcceptInv(s, i, input);
    case ProcessData(fd, i, input) => ProcessDataCore(s, fd, i, input);
  }

  // ---- Runs ----

  /** After the pool is filled and the first accept is armed. */
  ghost predicate Init<B>(s: Loop<B>) {
    && Shaped(s)
    && (forall fd :: 0 <= fd < |s.conns| ==>
          s.conns[fd] == EmptyConn() && s.requests[fd] == [] && s.wires[fd] == NO_WIRE)
    && (forall i, j :: 0 <= i < j < |s.pool| ==> s.pool[i] != s.pool[j])
    && (forall b :: b in s.rings ==> b in s.pool && s.rings[b].head == 0 == s.rings[b].tail)
    && s.accepts == [Prepared] && s.open == s.base && s.listenFd in s.base && s.listenFd < FD_LIMIT
  }

  ghost predicate IsRun<B>(trace: seq<Loop<B>>, events: seq<Event<B>>) {
    && |trace| == |events| + 1 && Init(trace[0])
    && forall i :: 0 <= i < |events| ==>
         Shaped(trace[i]) && Enabled(trace[i], events[i]) && trace[i + 1] == Next(trace[i], events[i])
  }

  /** One step, if it may happen. */
  ghost function Step<B>(): (Loop<B>, Event<B>) -> Option<Loop<B>> {
    (s: Loop<B>, e: Event<B>) => if Shaped(s) && Enabled(s, e) then Some(Next(s, e)) else None
  }

  /** The same without what the loop takes for granted about tags. */
  ghost function LooseStep<B>(): (Loop<B>, Event<B>) -> Option<Loop<B>> {
    (s: Loop<B>, e: Event<B>) => if Shaped(s) && Possible(s, e) then Some(Next(s, e)) else None
  }

  /** What is played from an initial state is a run. */
  lemma PlayedRun<B>(s: Loop<B>, events: seq<Event<B>>) returns (trace: seq<Loop<B>>)
    requires Init(s) && Play(Step(), s, events).Some?
    ensures IsRun(trace, events) && trace[0] == s && trace[|events|] == Play(Step(), s, events).value
  {
    trace := PlayTrace(Step(), s, events);
    forall i | 0 <= i < |events|
      ensures Shaped(trace[i]) && Enabled(trace[i], events[i]) && trace[i + 1] == Next(trace[i], events[i])
    {
      assert Step()(trace[i], events[i]) == Some(trace[i + 1]);
    }
  }

  lemma InitInv<B>(s: Loop<B>)
    requires Init(s)
    ensures Inv(s)
  {
  }

  /** Every reachable state satisfies the invariant. */
  lemma {:induction false} Safety<B>(trace: seq<Loop<B>>, events: seq<Event<B>>, n: nat)
    requires IsRun(trace, events) && n < |trace|
    ensures Inv(trace[n])
    decreases n
  {
    if n == 0 {
      InitInv(trace[0]);
    } else {
      Safety(trace, events, n - 1);
      assert Enabled(trace[n - 1], events[n - 1]);
      StepInv(trace[n - 1], events[n - 1]);
    }
  }

  // ---- What the invariant says ----

  ghost function LiveSet<B>(s: Loop<B>): set<nat> {
    set fd: nat | fd < |s.conns| && Live(s, fd)
  }

  /** The pooled and the live buffers divide the heap between them. */
  lemma HeapDivided<B>(s: Loop<B>)
    requires Inv(s)
    ensures s.rings.Keys == Elements(s.pool) + Buffers(s, |s.conns|)
    ensures Elements(s.pool) !! Buffers(s, |s.conns|)
  {
    forall b | b in s.rings
      ensures b in s.pool || b in Buffers(s, |s.conns|)
    {
      if b !in s.pool {
        var f :| Live(s, f) && s.conns[f].buffer.value == b;
        assert f < |s.conns|;
      }
    }
  }

  /** Pooled plus live buffers are exactly the buffers created, none counted twice. */
  lemma PoolPlusLive<B>(s: Loop<B>)
    requires Inv(s)
    ensures |s.pool| + |LiveSet(s)| == |s.rings|
  {
    HeapDivided(s);
    CountDistinct(s.pool);
    CountLive(s, |s.conns|);
    assert LiveSet(s) == LiveBelow(s, |s.conns|);
  }

  ghost function Elements<T>(s: seq<T>): set<T> {
    set x | x in s
  }

  ghost function LiveBelow<B>(s: Loop<B>, n: nat): set<nat>
    requires n <= |s.conns|
  {
    set fd: nat | fd < n && Live(s, fd)
  }

  ghost function Buffers<B>(s: Loop<B>, n: nat): set<B>
    requires n <= |s.conns|
  {
    set fd: nat | fd < n && Live(s, fd) :: s.conns[fd].buffer.value
  }

  lemma {:induction false} CountDistinct<T>(s: seq<T>)
    requires forall i, j :: 0 <= i < j < |s| ==> s[i] != s[j]
    ensures |Elements(s)| == |s|
  {
    if s != [] {
      var n := |s| - 1;
      CountDistinct(s[..n]);
      assert s == s[..n] + [s[n]];
      assert Elements(s) == Elements(s[..n]) + {s[n]};
    }
  }

  lemma BuffersGrow<B>(s: Loop<B>, n: nat)
    requires OwnersDiffer(s) && 0 < n <= |s.conns| && Live(s, n - 1)
    ensures Buffers(s, n) == Buffers(s, n - 1) + {s.conns[n - 1].buffer.value}
    ensures s.conns[n - 1].buffer.value !in Buffers(s, n - 1)
  {
  }

  ghost predicate OwnersDiffer<B>(s: Loop<B>) {
    forall fd, fd' :: Live(s, fd) && Live(s, fd') && fd != fd' ==> s.conns[fd].buffer != s.conns[fd'].buffer
  }

  lemma {:induction false} CountLive<B>(s: Loop<B>, n: nat)
    requires OwnersDiffer(s) && n <= |s.conns|
    ensures |Buffers(s, n)| == |LiveBelow(s, n)|
  {
    if n > 0 {
      CountLive(s, n - 1);
      if Live(s, n - 1) {
        BuffersGrow(s, n);
        assert LiveBelow(s, n) == LiveBelow(s, n - 1) + {n - 1};
      } else {
        assert LiveBelow(s, n) == LiveBelow(s, n - 1);
        assert Buffers(s, n) == Buffers(s, n - 1);
      }
    }
  }

  ghost predicate Swept<B>(s: Loop<B>, s': Loop<B>, n: nat) {
    && Shaped(s') && OwnershipOk(s') && |s'.conns| == |s.conns| && s'.rings.Keys == s.rings.Keys
    && forall fd :: Live(s', fd) <==> Live(s, fd) && fd >= n
  }

  lemma SweptMore<B>(s: Loop<B>, s': Loop<B>, n: nat)
    requires Swept(s, s', n) && n < |s.conns|
    ensures Swept(s, Release(s', n), n + 1)
  {
    SweepOne(s', n);
  }

  lemma {:induction false} SweepKeeps<B>(s: Loop<B>, n: nat)
    requires Shaped(s) && OwnershipOk(s) && n <= |s.conns|
    ensures Swept(s, Sweep(s, n), n)
  {
    if n == 0 {
      assert forall fd :: Live(s, fd) ==> fd >= 0;
    } else {
      SweepKeeps(s, n - 1);
      SweptMore(s, Sweep(s, n - 1), n - 1);
    }
  }

  lemma SweepOne<B>(s: Loop<B>, fd: nat)
    requires Shaped(s) && OwnershipOk(s) && fd < |s.conns|
    ensures Shaped(Release(s, fd)) && OwnershipOk(Release(s, fd))
    ensures forall f :: Live(Release(s, fd), f) <==> Live(s, f) && f != fd
    ensures Release(s, fd).rings.Keys == s.rings.Keys
  {
    if Live(s, fd) {
      ReleaseOwnership(s, fd);
    }
  }

  lemma {:induction false} SweepClears<B>(s: Loop<B>, n: nat)
    requires n <= |s.conns|
    ensures var s' := Sweep(s, n);
            && s' == s.(conns := s'.conns, pool := s'.pool, rings := s'.rings) && s.pool <= s'.pool
            && (forall fd :: 0 <= fd < n ==> s'.conns[fd] == s.conns[fd].(buffer := None))
            && (forall fd :: n <= fd < |s.conns| ==> s'.conns[fd] == s.conns[fd])
  {
    if n > 0 {
      SweepClears(s, n - 1);
    }
  }

  /** After the shutdown sweep the pool holds every buffer ever created, each exactly once, so draining
      it deletes each once. */
  lemma ShutdownPoolsAll<B>(s: Loop<B>)
    requires Inv(s)
    ensures var p := Sweep(s, |s.conns|).pool;
            && (forall b :: b in s.rings <==> b in p)
            && (forall i, j :: 0 <= i < j < |p| ==> p[i] != p[j])
            && |p| == |s.rings|
  {
    SweepKeeps(s, |s.conns|);
    var s' := Sweep(s, |s.conns|);
    assert forall fd :: !Live(s', fd);
    assert forall b :: b in s.rings <==> b in s'.rings;
    assert Elements(s'.pool) == s.rings.Keys;
    CountDistinct(s'.pool);
  }

  /** They are all empty and stand behind those that were pooled; no record has one, and nothing else has
      changed. */
  lemma ShutdownLeaves<B>(s: Loop<B>)
    requires Inv(s)
    ensures var s' := Sweep(s, |s.conns|);
            && s.pool <= s'.pool
            && (forall b :: b in s'.pool ==> b in s'.rings && s'.rings[b].head == 0 == s'.rings[b].tail)
            && (forall fd :: 0 <= fd < |s.conns| ==> s'.conns[fd] == s.conns[fd].(buffer := None))
            && s' == s.(conns := s'.conns, pool := s'.pool, rings := s'.rings)
  {
    hide Sweep;
    SweepKeeps(s, |s.conns|);
    SweepClears(s, |s.conns|);
  }

  lemma {:induction false} SweepKeepsRequests<B>(s: Loop<B>, n: nat)
    requires n <= |s.conns|
    ensures Sweep(s, n).requests == s.requests
  {
    if n > 0 {
      SweepKeepsRequests(s, n - 1);
    }
  }

  /** An outstanding request names a buffer that is pooled. */
  ghost predicate Stranded<B>(s: Loop<B>, fd: int) {
    0 <= fd < |s.requests| && s.requests[fd] != [] && s.requests[fd][0].req.buffer in s.pool
  }

  /** Exactly when the shutdown sweep pools, for deletion, a buffer the kernel may still use: when
      some live connection has an operation outstanding. In the states of the loop there is no
      such buffer. */
  lemma SweepStrands<B>(s: Loop<B>)
    requires Inv(s)
    ensures var s' := Sweep(s, |s.conns|);
            forall fd :: Stranded(s', fd) <==> Live(s, fd) && s.conns[fd].op != NoOp
    ensures forall fd :: !Stranded(s, fd)
  {
    var s' := Sweep(s, |s.conns|);
    SweepKeepsRequests(s, |s.conns|);
    ShutdownPoolsAll(s);
    forall fd | 0 <= fd < |s.conns|
      ensures Stranded(s', fd) <==> Live(s, fd) && s.conns[fd].op != NoOp
      ensures !Stranded(s, fd)
    {
      if Live(s, fd) {
        assert LocalOk(At(s, fd));
      }
    }
  }

  /** In every reachable state a descriptor has at most one outstanding operation, exactly when
      its record says so, of that kind, on its own buffer and on the region its counters give;
      and exactly one accept is outstanding. */
  lemma InFlight<B>(trace: seq<Loop<B>>, events: seq<Event<B>>, n: nat, fd: nat)
    requires IsRun(trace, events) && n < |trace| && fd < |trace[n].conns|
    ensures Inv(trace[n]) && |trace[n].accepts| == 1
    ensures var s := trace[n];
            && |s.requests[fd]| == (if s.conns[fd].op == NoOp then 0 else 1)
            && (s.requests[fd] != [] ==> Live(s, fd) && fd in s.open)
            && (s.conns[fd].op == Recv ==>
                  var (off, len) := At(s, fd).ring.FreeRegion();
                  len > 0 && s.requests[fd][0].req == RecvInto(s.conns[fd].buffer.value, off, len))
            && (s.conns[fd].op == Send ==>
                  var (off, len) := At(s, fd).ring.UsedRegion();
                  len > 0 && s.requests[fd][0].req == SendFrom(s.conns[fd].buffer.value, off, len))
  {
    Safety(trace, events, n);
    if Live(trace[n], fd) {
      assert LocalOk(At(trace[n], fd));
    }
  }

  lemma AcceptOutcome<B>(s: Loop<B>, fd: nat, input: Input<B>)
    requires Inv(s) && Enabled(s, ProcessAccept(0, input)) && s.accepts[0].res == fd
    ensures Live(Next(s, ProcessAccept(0, input)), fd) <==> !input.reply.next.Die?
  {
    ProcessAcceptIs(s, 0, input);
    AcceptRegistered(s, 0, fd, input);
  }

  /** The kernel may take the accept and complete it with any descriptor the assumption allows. */
  lemma FirstAccept<B>(s: Loop<B>, fd: nat)
    requires Init(s) && MayAccept(s, fd)
    ensures var p := Play(Step(), s, [KernelAccept(0, InKernel), KernelAccept(0, Completed(fd))]);
            && p.Some? && Inv(p.value) && p.value.accepts == [Completed(fd)]
            && p.value.pool == s.pool && p.value.rings == s.rings && p.value.size == s.size
  {
    var e0, e1 := KernelAccept(0, InKernel), KernelAccept(0, Completed(fd));
    InitInv(s);
    StepInv(s, e0);
    var s1 := Next(s, e0);
    assert MayAccept(s1, fd);
    StepInv(s1, e1);
    PlayOne(Step(), s, e0);
    PlayThen(Step(), s, [e0], s1, e1);
    assert [e0] + [e1] == [e0, e1];
  }

  /** Runs do get somewhere: from every initial state, every descriptor that accept may return
      leads in three steps to a registered connection or, if on_connect says so, to a closed one. */
  lemma FirstConnection<B>(s: Loop<B>, fd: nat, input: Input<B>) returns (trace: seq<Loop<B>>, events: seq<Event<B>>)
    requires Init(s) && MayAccept(s, fd) && MayInput(s, input)
    ensures events == [KernelAccept(0, InKernel), KernelAccept(0, Completed(fd)), ProcessAccept(0, input)]
    ensures IsRun(trace, events) && trace[0] == s
    ensures Live(trace[3], fd) <==> !input.reply.next.Die?
  {
    var opening := [KernelAccept(0, InKernel), KernelAccept(0, Completed(fd))];
    FirstAccept(s, fd);
    var s2, e2 := Play(Step(), s, opening).value, ProcessAccept(0, input);
    assert Enabled(s2, e2);
    AcceptOutcome(s2, fd, input);
    PlayThen(Step(), s, opening, s2, e2);
    events := opening + [e2];
    trace := PlayedRun(s, events);
  }
}
