/** uring_tcp_event_loop as it runs: a connection table, a pool and buffers changed in place.
    Each method is proved to make the step of module TcpLoopModel. */
module UringTcpLoop {
  import opened Bits
  import opened RingValue
  import opened Buffer
  import opened Pool
  import opened Tags
  import opened LoopModel
  import opened TcpLoopModel
  import opened TcpLoopSafety

  type Ptr = FixedSizeBuffer

  class UringTcpEventLoop {
    const listenFd: nat                     // m_listen_fd
    const pool: BufferPool                  // m_pl
    var conns: seq<Conn<Ptr>>               // m_connections
    var open: set<int>                      // descriptors open in the process

    // Submission and completion queues, per descriptor and for accept, and the history of
    // each connection's streams.
    ghost var requests: seq<seq<Op<Ptr>>>
    ghost var accepts: seq<Stage>
    ghost var wires: seq<Wire>
    ghost var base: set<int>
    ghost var created: set<Ptr>             // every buffer on the heap

    /** The buffers on the heap, as values. */
    ghost function Heap(): map<Ptr, Ring>
      reads this`created, created, set b: Ptr | b in created :: b.data
    {
      map b: Ptr | b in created :: b.Value()
    }

    ghost predicate HeapOk()
      reads this`created, created, set b: Ptr | b in created :: b.data
    {
      && (forall b: Ptr :: b in created ==> b.Valid() && b.data.Length == pool.size)
      && (forall b: Ptr, b': Ptr :: b in created && b' in created && b != b' ==> b.data != b'.data)
    }

    /** The whole state as a value of the model. */
    ghost function View(): Loop<Ptr>
      reads this, pool, created, set b: Ptr | b in created :: b.data
    {
      Loop(conns, requests, wires, pool.impl, Heap(), accepts, open, base, listenFd, pool.size)
    }

    ghost predicate Valid()
      reads this, pool, created, set b: Ptr | b in created :: b.data
    {
      HeapOk() && Shaped(View())
    }

    /** The pool filled, the table sized, the first accept armed. */
    constructor (listenFd: nat, size: nat, maxConnections: nat, base: set<int>)
      requires IsCapacity(size) && listenFd in base && listenFd < FD_LIMIT
      ensures Valid() && fresh(pool) && fresh(created)
      ensures Init(View()) && |conns| == maxConnections + 1 && |pool.impl| == maxConnections
    {
      CapacityPositive(size);
      var p := new BufferPool(size);
      p.Prepool(maxConnections);
      this.listenFd := listenFd;
      this.pool := p;
      this.conns := seq(maxConnections + 1, i => EmptyConn());
      this.requests := seq(maxConnections + 1, i => []);
      this.wires := seq(maxConnections + 1, i => NO_WIRE);
      this.open, this.base := base, base;
      this.accepts := [Prepared];
      this.created := set b | b in p.impl;
      new;
      Apart(pool.impl);
      StartsFresh();
    }

    /** Empty records and a pool of all buffers on the heap, each empty: a state to start from. */
    lemma StartsFresh()
      requires HeapOk() && IsCapacity(pool.size) && pool.size > 0 && created == set b | b in pool.impl
      requires forall i, j :: 0 <= i < j < |pool.impl| ==> pool.impl[i] != pool.impl[j]
      requires forall i :: 0 <= i < |pool.impl| ==> pool.impl[i].head == 0 == pool.impl[i].tail
      requires |requests| == |wires| == |conns|
      requires forall fd :: 0 <= fd < |conns| ==> conns[fd] == EmptyConn() && requests[fd] == [] && wires[fd] == NO_WIRE
      requires accepts == [Prepared] && open == base && listenFd in base && listenFd < FD_LIMIT
      ensures Valid() && Init(View())
    {
      assert forall fd :: !Live(View(), fd);
    }

    /** A change of one buffer is a change of one entry of the heap. */
    twostate lemma OnlyChanged(b: Ptr)
      requires old(HeapOk()) && b in old(created) && created == old(created)
      requires b.Valid() && b.data.Length == pool.size
      requires forall c: Ptr :: c in created && c != b ==> c.Value() == old(c.Value()) && c.Valid()
      ensures HeapOk() && Heap() == old(Heap())[b := b.Value()]
    {
    }

    /** A new buffer is a new entry of the heap. */
    twostate lemma OnlyAdded(new b: Ptr)
      requires old(HeapOk()) && created == old(created) + {b} && b !in old(created) && fresh(b) && fresh(b.data)
      requires b.Valid() && b.data.Length == pool.size
      requires forall c: Ptr :: c in old(created) ==> c.Value() == old(c.Value()) && c.Valid()
      ensures HeapOk() && Heap() == old(Heap())[b := b.Value()]
    {
    }

    method MoveTail(b: Ptr, n: nat)
      requires HeapOk() && b in created && n <= b.Value().FreeSpace()
      modifies b
      ensures HeapOk() && Heap() == old(Heap())[b := old(b.Value()).AdvanceTail(n)]
    {
      b.AdvanceTail(n);
      OnlyChanged(b);
    }

    method MoveHead(b: Ptr, n: nat)
      requires HeapOk() && b in created && n <= b.Value().Count()
      modifies b
      ensures HeapOk() && Heap() == old(Heap())[b := old(b.Value()).AdvanceHead(n)]
    {
      b.AdvanceHead(n);
      OnlyChanged(b);
    }

    method Redeem(b: Ptr)
      requires HeapOk() && b in created
      modifies pool, b
      ensures HeapOk() && Heap() == old(Heap())[b := old(b.Value()).Reset()]
      ensures pool.impl == old(pool.impl) + [b]
    {
      pool.Redeem(b);
      OnlyChanged(b);
    }

    /** A submission entry for a region of a connection's buffer. */
    method Enqueue(fd: nat, req: Request<Ptr>, op: ActiveOp)
      requires Valid() && Live(View(), fd)
      modifies this`conns, this`requests
      ensures Valid()
      ensures var l := At(old(View()), fd);
              View() == Put(old(View()), fd, l.(ops := l.ops + [Op(req, Prepared)], conn := l.conn.(op := op)))
    {
      ghost var s, l := View(), At(View(), fd);
      PutOnlySubmits(s, fd, l.(ops := l.ops + [Op(req, Prepared)], conn := l.conn.(op := op)));
      requests := requests[fd := requests[fd] + [Op(req, Prepared)]];
      conns := conns[fd := conns[fd].(op := op)];
    }

    method SubmitRecv(fd: nat, sqe: bool)
      requires Valid()
      modifies this`conns, this`requests
      ensures Valid()
      ensures View() == if Live(old(View()), fd)
                        then Put(old(View()), fd, LoopModel.SubmitRecv(At(old(View()), fd), sqe)) else old(View())
    {
      ghost var s := View();
      if fd >= |conns| || conns[fd].buffer.None? { return; }
      PutSame(s, fd);
      var buffer := conns[fd].buffer.value;
      assert s.rings[buffer] == buffer.Value();
      var off, len := buffer.GetFreeRegion();
      if len == 0 || !sqe { return; }
      Enqueue(fd, RecvInto(buffer, off, len), Recv);
    }

    method SubmitSend(fd: nat, sqe: bool)
      requires Valid()
      modifies this`conns, this`requests
      ensures Valid()
      ensures View() == if Live(old(View()), fd)
                        then Put(old(View()), fd, LoopModel.SubmitSend(At(old(View()), fd), sqe)) else old(View())
    {
      ghost var s := View();
      if fd >= |conns| || conns[fd].buffer.None? { return; }
      PutSame(s, fd);
      var buffer := conns[fd].buffer.value;
      assert s.rings[buffer] == buffer.Value();
      var off, len := buffer.GetUsedRegion();
      if len == 0 || !sqe { return; }
      Enqueue(fd, SendFrom(buffer, off, len), Send);
    }

    /** One use of a buffer by a callback. */
    method TouchBuffer(buffer: Ptr, o: BufferOp, ghost l: Local<Ptr>)
      requires HeapOk() && buffer in created && l.ring == buffer.Value()
      modifies buffer, buffer.data
      ensures HeapOk() && Heap() == old(Heap())[buffer := Touch(l, o).ring]
    {
      match o
      case WriteOp(src) =>
        var n := buffer.Write(src);
      case ReadOp(size) =>
        var n, d := buffer.Read(size);
      case ResetOp =>
        buffer.Reset();
      OnlyChanged(buffer);
    }

    method TouchConnection(fd: nat, o: BufferOp)
      requires Valid() && Live(View(), fd)
      modifies this`wires, conns[fd].buffer.value, conns[fd].buffer.value.data
      ensures Valid() && View() == Put(old(View()), fd, Touch(At(old(View()), fd), o))
    {
      ghost var s := View();
      ghost var l := At(s, fd);
      var buffer := conns[fd].buffer.value;
      assert l.ring == buffer.Value();
      TouchValid(l, o);
      PutShape(s, fd, Touch(l, o));
      TouchBuffer(buffer, o, l);
      wires := wires[fd := Touch(l, o).wire];
      PutRing(s, fd, Touch(l, o));
      assert View() == Put(s, fd, Touch(l, o));
    }

    /** A callback's use of its connection's buffer. */
    method RunCallback(fd: nat, ops: seq<BufferOp>)
      requires Valid() && Live(View(), fd)
      modifies this`wires, conns[fd].buffer.value, conns[fd].buffer.value.data
      ensures Valid()
      ensures View() == Put(old(View()), fd, Callback(At(old(View()), fd), ops))
    {
      ghost var s := View();
      ghost var l := At(s, fd);
      PutSame(s, fd);
      for n := 0 to |ops|
        invariant Valid() && View() == Put(s, fd, l) && conns == old(conns)
        invariant l.ring.Valid() && l.ring.Size() == s.size && l.conn == s.conns[fd]
        invariant Callback(l, ops[n..]) == Callback(At(s, fd), ops)
      {
        TouchAll(l, ops, n);
        TouchValid(l, ops[n]);
        PutShape(s, fd, l);
        TouchConnection(fd, ops[n]);
        PutTwice(s, fd, l, Touch(l, ops[n]));
        l := Touch(l, ops[n]);
      }
    }

    method TakeReceived(fd: nat, res: nat)
      requires Valid() && Live(View(), fd) && res <= At(View(), fd).ring.FreeSpace()
      modifies this`wires, this`conns, conns[fd].buffer.value
      ensures Valid() && View() == Put(old(View()), fd, LoopModel.TakeReceived(At(old(View()), fd), res))
    {
      ghost var s := View();
      ghost var l := LoopModel.TakeReceived(At(s, fd), res);
      var buffer := conns[fd].buffer.value;
      assert s.rings[buffer] == buffer.Value();
      AdvanceTailValid(buffer.Value(), res);
      PutShape(s, fd, l);
      MoveTail(buffer, res);
      conns, wires := conns[fd := conns[fd].(op := NoOp)], wires[fd := l.wire];
      PutTaken(s, fd, l);
      assert View() == Put(s, fd, l);
    }

    method TakeSent(fd: nat, res: nat)
      requires Valid() && Live(View(), fd) && res <= At(View(), fd).ring.Count()
      modifies this`wires, this`conns, conns[fd].buffer.value
      ensures Valid() && View() == Put(old(View()), fd, LoopModel.TakeSent(At(old(View()), fd), res))
    {
      ghost var s := View();
      ghost var l := LoopModel.TakeSent(At(s, fd), res);
      var buffer := conns[fd].buffer.value;
      assert s.rings[buffer] == buffer.Value();
      AdvanceHeadContents(buffer.Value(), res);
      PutShape(s, fd, l);
      MoveHead(buffer, res);
      conns, wires := conns[fd := conns[fd].(op := NoOp)], wires[fd := l.wire];
      PutTaken(s, fd, l);
      assert View() == Put(s, fd, l);
    }

    /** The connection's buffer goes back to the pool. */
    method ReleaseBuffer(fd: nat)
      requires Valid() && fd < |conns|
      modifies this`conns, pool, if conns[fd].buffer.Some? then {conns[fd].buffer.value} else {}
      ensures Valid() && View() == Release(old(View()), fd)
    {
      ghost var s := View();
      if conns[fd].buffer.Some? {
        assert Live(s, fd);
        ReleaseShape(s, fd);
        var buffer := conns[fd].buffer.value;
        assert s.rings[buffer] == buffer.Value();
        Redeem(buffer);
        conns := conns[fd := conns[fd].(buffer := None)];
      }
    }

    method ClearRecord(fd: nat)
      requires Valid() && fd < |conns|
      modifies this`conns, this`open
      ensures Valid() && pool.impl == old(pool.impl) && created == old(created)
      ensures View() == old(View()).(conns := old(conns)[fd := old(conns)[fd].(op := NoOp)], open := old(open) - {fd})
    {
      ghost var s := View();
      conns := conns[fd := conns[fd].(op := NoOp)];
      open := open - {fd};
      assert forall f :: Live(View(), f) ==> Live(s, f) && conns[f].buffer == s.conns[f].buffer;
    }

    method RemoveConnection(fd: nat)
      requires Valid()
      modifies this`conns, this`open, pool, if Live(View(), fd) then {conns[fd].buffer.value} else {}
      ensures Valid() && View() == TcpLoopModel.RemoveConnection(old(View()), fd)
    {
      if fd >= |conns| { return; }
      ReleaseBuffer(fd);
      ClearRecord(fd);
    }

    method SetState(fd: nat, state: ElState)
      requires Valid() && Live(View(), fd)
      modifies this`conns
      ensures Valid()
      ensures var l := At(old(View()), fd);
              View() == Put(old(View()), fd, l.(conn := l.conn.(state := state)))
    {
      ghost var s := View();
      ghost var l := At(s, fd);
      PutOnlySubmits(s, fd, l.(conn := l.conn.(state := state)));
      conns := conns[fd := conns[fd].(state := state)];
      assert requests[fd := l.ops] == requests;
    }

    /** A callback runs and the state it returns is acted on. */
    method Conclude(fd: nat, reply: Reply, sqe: bool, ghost input: Input<Ptr>)
      requires input.reply == reply && input.sqe == sqe
      requires Valid() && Live(View(), fd)
      modifies this`conns, this`requests, this`wires, this`open, pool
      modifies conns[fd].buffer.value, conns[fd].buffer.value.data
      ensures Valid() && View() == TcpLoopModel.Conclude(old(View()), fd, At(old(View()), fd), input)
    {
      ghost var s := View();
      ghost var l1 := Callback(At(s, fd), input.reply.ops);
      CallbackShape(At(s, fd), input.reply.ops);
      RunCallback(fd, reply.ops);
      PutShape(s, fd, l1);
      if reply.next == Die {
        RemoveConnection(fd);
      } else if reply.next == Writing {
        SetState(fd, Writing);
        SetThenSubmit(s, fd, l1, Writing, input.sqe);
        SubmitSend(fd, sqe);
      } else if reply.next == Reading {
        SetState(fd, Reading);
        SetThenSubmit(s, fd, l1, Reading, input.sqe);
        SubmitRecv(fd, sqe);
      }
    }

    method HandleRecvCompletion(fd: nat, res: nat, reply: Reply, sqe: bool, ghost input: Input<Ptr>)
      requires input.reply == reply && input.sqe == sqe
      requires Valid() && Ready(View(), fd, res)
      modifies this`conns, this`requests, this`wires, this`open, pool, created, set b: Ptr | b in created :: b.data
      ensures Valid() && View() == HandleRecv(old(View()), fd, res, input)
    {
      if fd >= |conns| { return; }
      if conns[fd].op != Recv { return; }
      ghost var s := View();
      AdvanceTailValid(At(s, fd).ring, res);
      PutShape(s, fd, LoopModel.TakeReceived(At(s, fd), res));
      TakeReceived(fd, res);
      ConcludePut(s, fd, LoopModel.TakeReceived(At(s, fd), res), input);
      Conclude(fd, reply, sqe, input);
    }

    /** What follows the head's advance: on_write when the buffer has drained, else the rest. */
    method FinishSend(fd: nat, reply: Reply, sqe: bool, ghost input: Input<Ptr>)
      requires input.reply == reply && input.sqe == sqe
      requires Valid() && Live(View(), fd)
      modifies this`conns, this`requests, this`wires, this`open, pool
      modifies conns[fd].buffer.value, conns[fd].buffer.value.data
      ensures Valid()
      ensures var s, l := old(View()), At(old(View()), fd);
              View() == if l.ring.head == l.ring.tail then TcpLoopModel.Conclude(s, fd, l, input)
                        else Put(s, fd, LoopModel.SubmitSend(l, sqe))
    {
      var buffer := conns[fd].buffer.value;
      assert View().rings[buffer] == buffer.Value();
      WordsAnswerLikeCounters(buffer.Value(), buffer.headTotal, buffer.tailTotal);
      var empty := buffer.IsEmpty();
      if empty {
        Conclude(fd, reply, sqe, input);
      } else {
        SubmitSend(fd, sqe);
      }
    }

    method HandleSendCompletion(fd: nat, res: nat, reply: Reply, sqe: bool, ghost input: Input<Ptr>)
      requires input.reply == reply && input.sqe == sqe
      requires Valid() && Ready(View(), fd, res)
      modifies this`conns, this`requests, this`wires, this`open, pool, created, set b: Ptr | b in created :: b.data
      ensures Valid() && View() == HandleSend(old(View()), fd, res, input)
    {
      if fd >= |conns| { return; }
      if conns[fd].op != Send { return; }
      ghost var s := View();
      ghost var l := LoopModel.TakeSent(At(s, fd), res);
      AdvanceHeadContents(At(s, fd).ring, res);
      TakeSent(fd, res);
      ConcludePut(s, fd, l, input);
      PutTwice(s, fd, l, LoopModel.SubmitSend(l, sqe));
      FinishSend(fd, reply, sqe, input);
    }

    method RearmAccept()
      requires Valid()
      modifies this`accepts
      ensures Valid() && View() == TcpLoopModel.RearmAccept(old(View()))
    {
      ghost var s := View();
      accepts := accepts + [Prepared];
      assert forall f :: Live(View(), f) ==> Live(s, f);
    }

    /** Makes room in the table for a descriptor. */
    method ResizeFor(fd: nat)
      requires Valid()
      modifies this`conns, this`requests, this`wires
      ensures Valid() && View() == Resize(old(View()), fd)
    {
      conns := Pad(conns, fd + 1, EmptyConn());
      requests := Pad(requests, fd + 1, []);
      wires := Pad(wires, fd + 1, NO_WIRE);
    }

    /** `block` and `memory` are what `new` returned, if the pool was empty. */
    method AllocateBuffer() returns (b: Ptr, ghost block: Ptr, ghost memory: seq<byte>)
      requires Valid()
      modifies this`created, pool
      ensures HeapOk() && (View(), b) == Allocate(old(View()), block, memory)
      ensures NewBlock(old(View()), block) && |memory| == pool.size
      ensures b in created && forall c: Ptr :: c in created && c !in old(created) ==> fresh(c) && fresh(c.data)
    {
      ghost var s := View();
      b := pool.Allocate();
      block, memory := b, b.data[..];
      if s.pool == [] {
        created := created + {b};
        OnlyAdded(b);
      } else {
        assert Heap() == s.rings;
      }
    }

    method Register(fd: nat, b: Ptr)
      requires HeapOk() && fd < |conns| && |wires| == |conns|
      modifies this`conns, this`wires
      ensures HeapOk()
      ensures var s := old(View());
              View() == s.(conns := s.conns[fd := s.conns[fd].(descriptor := fd, buffer := Some(b), op := NoOp)],
                           wires := s.wires[fd := NO_WIRE])
    {
      conns := conns[fd := conns[fd].(descriptor := fd, buffer := Some(b), op := NoOp)];
      wires := wires[fd := NO_WIRE];
    }

    method PushNewConnection(fd: nat) returns (ghost block: Ptr, ghost memory: seq<byte>)
      requires Valid()
      modifies this`conns, this`requests, this`wires, this`created, pool
      ensures Valid() && View() == TcpLoopModel.PushNewConnection(old(View()), fd, block, memory)
      ensures NewBlock(old(View()), block) && |memory| == pool.size
      ensures forall c: Ptr :: c in created && c !in old(created) ==> fresh(c) && fresh(c.data)
    {
      ghost var s := View();
      ResizeIdle(s, fd);
      if fd >= |conns| {
        ResizeFor(fd);
      }
      assert View() == Resize(s, fd);
      var b;
      b, block, memory := AllocateBuffer();
      Register(fd, b);
      NewShape(s, fd, block, memory);
    }

    /** on_connect runs on a registered connection. */
    method Welcome(fd: nat, reply: Reply, sqe: bool, ghost input: Input<Ptr>)
      requires input.reply == reply && input.sqe == sqe
      requires Valid() && Live(View(), fd)
      modifies this`conns, this`requests, this`wires, this`open, pool
      modifies conns[fd].buffer.value, conns[fd].buffer.value.data
      ensures Valid() && View() == TcpLoopModel.Welcome(old(View()), fd, input)
    {
      ghost var s := View();
      ghost var l1 := Callback(At(s, fd), input.reply.ops);
      CallbackShape(At(s, fd), input.reply.ops);
      RunCallback(fd, reply.ops);
      PutShape(s, fd, l1);
      if reply.next == Die {
        RemoveConnection(fd);
      } else {
        SetState(fd, reply.next);
        ghost var l2 := l1.(conn := l1.conn.(state := input.reply.next));
        PutTwice(s, fd, l1, l2);
        PutShape(s, fd, l2);
        PutTwice(s, fd, l2, LoopModel.Submit(l2, input.reply.next, input.sqe));
        if reply.next == Reading {
          SubmitRecv(fd, sqe);
        } else if reply.next == Writing {
          SubmitSend(fd, sqe);
        }
      }
    }

    /** An accept completion with a descriptor; `block` and `memory` as in PushNewConnection. */
    method HandleAccepted(fd: nat, reply: Reply, sqe: bool) returns (ghost block: Ptr, ghost memory: seq<byte>)
      requires Valid()
      modifies this`conns, this`requests, this`wires, this`open, this`created, this`accepts, pool
      modifies created, set b: Ptr | b in created :: b.data
      ensures NewBlock(old(View()), block) && |memory| == pool.size
      ensures Valid() && View() == HandleAccept(old(View()), fd, Input(reply, sqe, block, memory))
    {
      ghost var s := View();
      block, memory := PushNewConnection(fd);
      NewShape(s, fd, block, memory);
      Welcome(fd, reply, sqe, Input(reply, sqe, block, memory));
      RearmAccept();
    }

    /** The completion entry leaves the queue. */
    method PopEntry(fd: nat, ghost i: nat)
      requires Valid() && Core(View()) && fd < |requests| && i < |requests[fd]| && requests[fd][i].stage.Completed?
      modifies this`requests
      ensures Valid() && View() == old(View()).(requests := old(View()).requests[fd := []])
      ensures conns == old(conns)
    {
      ghost var s := View();
      TakeEntry(s, fd);
      requests := requests[fd := Without(requests[fd], i)];
      assert requests[fd] == [];
      assert View() == s.(requests := s.requests[fd := []]);
    }

    /** The body of the loop over completion entries, for a data operation: the entry's result
        and tag are all it sees. */
    method ProcessDataEntry(fd: nat, ghost i: nat, res: int, ud: nat, reply: Reply, sqe: bool, ghost input: Input<Ptr>)
      requires input.reply == reply && input.sqe == sqe
      requires Valid() && Core(View()) && Enabled(View(), ProcessData(fd, i, input))
      requires ud == TagOf(fd, requests[fd][i].req) && res == requests[fd][i].stage.res
      modifies this`conns, this`requests, this`wires, this`open, pool, created, set b: Ptr | b in created :: b.data
      ensures Valid() && View() == Next(old(View()), ProcessData(fd, i, input))
    {
      hide TcpLoopModel.HandleRecv, TcpLoopModel.HandleSend;
      DispatchIs(View(), fd, i, input);
      TagLeadsHome(View(), fd);
      EntryFits(View(), fd);
      PopEntry(fd, i);
      var fd' := FdOf(ud);
      if fd' < 0 || fd' >= |conns| { return; }
      if res <= 0 {
        RemoveConnection(fd');
        return;
      }
      if KindOf(ud) == RECV {
        HandleRecvCompletion(fd', res, reply, sqe, input);
      } else if KindOf(ud) == SEND {
        HandleSendCompletion(fd', res, reply, sqe, input);
      }
    }

    /** The same for an accept. A refused accept only arms the next one. */
    method ProcessAcceptEntry(ghost i: nat, res: int, reply: Reply, sqe: bool) returns (ghost input: Option<Input<Ptr>>)
      requires Valid() && Inv(View()) && i < |accepts| && accepts[i] == Completed(res)
      modifies this`conns, this`requests, this`wires, this`open, this`created, this`accepts, pool
      modifies created, set b: Ptr | b in created :: b.data
      ensures Valid()
      ensures res < 0 ==> View() == TcpLoopModel.RearmAccept(old(View()).(accepts := []))
      ensures res >= 0 ==>
                && input.Some? && MayInput(old(View()), input.value)
                && input.value.reply == reply && input.value.sqe == sqe
                && View() == Next(old(View()), ProcessAccept(i, input.value))
    {
      PopAccept();
      input := None;
      if res >= 0 {
        ghost var block, memory;
        block, memory := HandleAccepted(res, reply, sqe);
        input := Some(Input(reply, sqe, block, memory));
        ProcessAcceptIs(old(View()), i, input.value);
      } else {
        RearmAccept();
      }
    }

    ghost method PopAccept()
      requires Valid()
      modifies this`accepts
      ensures Valid() && View() == old(View()).(accepts := [])
    {
      ghost var s := View();
      accepts := [];
      assert forall f :: Live(View(), f) ==> Live(s, f);
    }

    /** Received bytes land in a buffer's memory behind the loop's back. */
    method WriteRegion(buffer: Ptr, off: nat, d: seq<byte>)
      requires buffer.Valid() && off + |d| <= buffer.data.Length
      modifies buffer.data
      ensures buffer.Valid() && buffer.Value() == old(buffer.Value()).Poke(off, d)
    {
      ghost var r := buffer.Value();
      forall j | 0 <= j < |d| {
        buffer.data[off + j] := d[j];
      }
      assert buffer.data[..] == r.mem[..off] + d + r.mem[off + |d|..];
    }

    method KernelTouches(buffer: Ptr, off: nat, step: KernelStep, ghost o: Op<Ptr>)
      requires HeapOk() && buffer in created && o.req.off == off
      requires step.Receive? ==> off + |step.data| <= buffer.data.Length
      modifies buffer.data
      ensures HeapOk() && Heap() == old(Heap())[buffer := KernelMemory(old(buffer.Value()), o, step)]
    {
      if step.Receive? {
        WriteRegion(buffer, off, step.data);
      }
      OnlyChanged(buffer);
    }

    method KernelWrites(fd: nat, ghost i: nat, step: KernelStep, buffer: Ptr, off: nat)
      requires Valid() && Enabled(View(), KernelData(fd, i, step))
      requires buffer == requests[fd][i].req.buffer && off == requests[fd][i].req.off
      requires buffer in created && (step.Receive? ==> off + |step.data| <= pool.size)
      modifies this`requests, this`wires, created, set b: Ptr | b in created :: b.data
      ensures HeapOk() && View() == Next(old(View()), KernelData(fd, i, step))
    {
      ghost var s := View();
      ghost var o := requests[fd][i];
      ghost var w := KernelWire(wires[fd], buffer.Value(), o, step);
      assert s.rings[buffer] == buffer.Value();
      KernelTouches(buffer, off, step, o);
      requests, wires := requests[fd := requests[fd][i := o.(stage := KernelStage(step))]], wires[fd := w];
    }

    /** The kernel at work on an outstanding operation: it reads the pointer and the offset from
        the request and writes received bytes straight into the buffer's memory. The memory it
        was lent is always still there. */
    method KernelWork(fd: nat, ghost i: nat, step: KernelStep, buffer: Ptr, off: nat)
      requires Valid() && Core(View()) && Enabled(View(), KernelData(fd, i, step))
      requires buffer == requests[fd][i].req.buffer && off == requests[fd][i].req.off
      modifies this`requests, this`wires, created, set b: Ptr | b in created :: b.data
      ensures HeapOk() && View() == Next(old(View()), KernelData(fd, i, step))
    {
      KernelMayWork(View(), fd, i, step);
      assert buffer in View().rings;
      KernelWrites(fd, i, step, buffer, off);
    }

    /** After the loop: every live connection's buffer is redeemed. */
    method SweepConnections()
      requires Valid()
      modifies this`conns, pool, created
      ensures Valid() && View() == Sweep(old(View()), |old(conns)|) && created == old(created)
    {
      ghost var s := View();
      var n := 0;
      while n < |conns|
        invariant n <= |conns| == |s.conns| && Valid() && View() == Sweep(s, n) && created == old(created)
        invariant pool.impl == Sweep(s, n).pool
      {
        ReleaseBuffer(n);
        n := n + 1;
      }
    }

    /** The sweep, and the destructor's drain of the pool: every buffer ever created is deleted,
        and deleted once. */
    method Shutdown() returns (deleted: seq<Ptr>)
      requires Valid() && Inv(View())
      modifies this`conns, pool, created
      ensures created == old(created) && |deleted| == |created|
      ensures forall b: Ptr :: b in created <==> b in deleted
      ensures forall i, j :: 0 <= i < j < |deleted| ==> deleted[i] != deleted[j]
      ensures pool.impl == [] && |conns| == |old(conns)|
      ensures forall fd :: 0 <= fd < |conns| ==> conns[fd] == old(conns)[fd].(buffer := None)
    {
      ghost var s := View();
      ShutdownPoolsAll(s);
      ShutdownLeaves(s);
      assert s.rings.Keys == created;
      SweepConnections();
      assert View().pool == Sweep(s, |s.conns|).pool;
      deleted := pool.Drain();
    }
  }

  /** Buffers whose memories differ place by place do so buffer by buffer. */
  lemma Apart(impl: seq<Ptr>)
    requires forall i, j :: 0 <= i < j < |impl| ==> impl[i].data != impl[j].data
    ensures forall b: Ptr, b': Ptr :: b in impl && b' in impl && b != b' ==> b.data != b'.data
  {
    forall b: Ptr, b': Ptr | b in impl && b' in impl && b != b'
      ensures b.data != b'.data
    {
      var i :| 0 <= i < |impl| && impl[i] == b;
      var j :| 0 <= j < |impl| && impl[j] == b';
    }
  }

  /** A submission changes the record and the queue only. */
  lemma PutOnlySubmits<B>(s: Loop<B>, fd: nat, l: Local<B>)
    requires Shaped(s) && Live(s, fd) && l.ring == At(s, fd).ring && l.wire == s.wires[fd]
    requires l.conn.buffer == s.conns[fd].buffer
    ensures Put(s, fd, l) == s.(conns := s.conns[fd := l.conn], requests := s.requests[fd := l.ops])
    ensures l.conn == s.conns[fd] && l.ops == s.requests[fd] ==> Put(s, fd, l) == s
    ensures Shaped(Put(s, fd, l))
  {
  }

  lemma PutSame<B>(s: Loop<B>, fd: nat)
    requires Shaped(s) && Live(s, fd)
    ensures Put(s, fd, At(s, fd)) == s
  {
  }

  lemma TouchAll<B>(l: Local<B>, ops: seq<BufferOp>, n: nat)
    requires n < |ops| && l.ring.Valid()
    ensures Touch(l, ops[n]).ring.Valid() && Callback(Touch(l, ops[n]), ops[n + 1..]) == Callback(l, ops[n..])
  {
    TouchValid(l, ops[n]);
    assert ops[n..][1..] == ops[n + 1..];
  }

  lemma PutTwice<B>(s: Loop<B>, fd: nat, l: Local<B>, l': Local<B>)
    requires Shaped(s) && Live(s, fd) && l.conn.buffer == s.conns[fd].buffer
    requires l.ring.Valid() && l.ring.Size() == s.size && l'.conn.buffer == l.conn.buffer
    ensures Shaped(Put(s, fd, l)) && Live(Put(s, fd, l), fd)
    ensures Put(Put(s, fd, l), fd, l') == Put(s, fd, l')
  {
  }

  /** A change of the ring and of the stream alone. */
  lemma PutRing<B>(s: Loop<B>, fd: nat, l: Local<B>)
    requires Shaped(s) && Live(s, fd) && l.conn == s.conns[fd] && l.ops == s.requests[fd]
    ensures Put(s, fd, l) == s.(wires := s.wires[fd := l.wire], rings := s.rings[l.conn.buffer.value := l.ring])
  {
  }

  /** A change of all but the queue. */
  lemma PutTaken<B>(s: Loop<B>, fd: nat, l: Local<B>)
    requires Shaped(s) && Live(s, fd) && l.conn.buffer == s.conns[fd].buffer && l.ops == s.requests[fd]
    ensures Put(s, fd, l) == s.(conns := s.conns[fd := l.conn], wires := s.wires[fd := l.wire],
                                rings := s.rings[l.conn.buffer.value := l.ring])
  {
  }

  /** Recording the new state and submitting is the model's one step. */
  lemma SetThenSubmit<B>(s: Loop<B>, fd: nat, l: Local<B>, next: ElState, sqe: bool)
    requires Shaped(s) && Live(s, fd) && l.conn.buffer == s.conns[fd].buffer
    requires l.ring.Valid() && l.ring.Size() == s.size && (next == Reading || next == Writing)
    ensures var s1, l' := Put(s, fd, l), l.(conn := l.conn.(state := next));
            && Shaped(s1) && Live(s1, fd)
            && var s2 := Put(s1, fd, l');
               && Shaped(s2) && Live(s2, fd) && At(s2, fd) == l'
               && var l2 := if next == Writing then LoopModel.SubmitSend(l', sqe) else LoopModel.SubmitRecv(l', sqe);
                  Put(s2, fd, l2) == Put(s, fd, LoopModel.Submit(l, next, sqe))
  {
    var l' := l.(conn := l.conn.(state := next));
    PutTwice(s, fd, l, l');
    PutShape(s, fd, l');
    PutTwice(s, fd, l', LoopModel.Submit(l, next, sqe));
  }

  /** Concluding from a recorded intermediate state is concluding from the start. */
  lemma ConcludePut<B>(s: Loop<B>, fd: nat, l: Local<B>, input: Input<B>)
    requires Shaped(s) && Live(s, fd) && l.conn.buffer == s.conns[fd].buffer
    requires l.ring.Valid() && l.ring.Size() == s.size
    ensures Shaped(Put(s, fd, l)) && Live(Put(s, fd, l), fd) && At(Put(s, fd, l), fd) == l
    ensures TcpLoopModel.Conclude(Put(s, fd, l), fd, l, input) == TcpLoopModel.Conclude(s, fd, l, input)
  {
    PutShape(s, fd, l);
    CallbackShape(l, input.reply.ops);
    var l1 := Callback(l, input.reply.ops);
    PutTwice(s, fd, l, l1);
    PutTwice(s, fd, l, LoopModel.Submit(l1, input.reply.next, input.sqe));
  }

  lemma ResizeIdle<B>(s: Loop<B>, fd: nat)
    requires Shaped(s)
    ensures fd < |s.conns| ==> Resize(s, fd) == s
  {
  }

  /** The record says which operation completed, and the kernel's count fits its ring. */
  ghost predicate Ready<B>(s: Loop<B>, fd: nat, res: nat)
    requires Shaped(s)
  {
    && (fd < |s.conns| && s.conns[fd].op != NoOp ==> Live(s, fd))
    && (fd < |s.conns| && s.conns[fd].op == Recv ==> res <= At(s, fd).ring.FreeSpace())
    && (fd < |s.conns| && s.conns[fd].op == Send ==> res <= At(s, fd).ring.Count())
  }

  /** A positive result never exceeds what its ring has room for or holds. */
  lemma EntryFits<B>(s: Loop<B>, fd: nat)
    requires Core(s) && fd < |s.requests| && s.requests[fd] != [] && s.requests[fd][0].stage.Completed?
    ensures var res := s.requests[fd][0].stage.res;
            var s1 := s.(requests := s.requests[fd := []]);
            Shaped(s1) && (res >= 0 ==> Ready(s1, fd, res))
  {
    TakeEntry(s, fd);
    assert LocalOk(At(s, fd));
    FreeRegionIsFirstChunk(At(s, fd).ring);
  }

  /** The kernel may always do so: the pointer it was lent is alive and the region inside it. */
  lemma KernelMayWork<B>(s: Loop<B>, fd: nat, i: nat, step: KernelStep)
    requires Core(s) && Enabled(s, KernelData(fd, i, step))
    ensures var req := s.requests[fd][i].req;
            req.buffer in s.rings && (step.Receive? ==> req.off + |step.data| <= s.size)
  {
    KernelDataIs(s, fd, i, step);
    FreeRegionIsFirstChunk(At(s, fd).ring);
  }
}
