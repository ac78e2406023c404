/** The whole io_uring TCP loop as a state machine: the connection table, the buffer pool,
    the buffers on the heap, the operations the kernel holds and the open descriptors. */
module TcpLoopModel {
  import opened Bits
  import opened RingValue
  import opened Tags
  import opened LoopModel

  /** `requests` and `wires` run parallel to the connection table. `accepts` are the accept
      operations outstanding. `base` are the descriptors that belong to no connection. */
  datatype Loop<B> = Loop(
    conns: seq<Conn<B>>, requests: seq<seq<Op<B>>>, wires: seq<Wire>,
    pool: seq<B>, rings: map<B, Ring>,
    accepts: seq<Stage>, open: set<int>, base: set<int>, listenFd: nat, size: nat)

  // What the environment supplies while one completion is processed: the callback's reply,
  // whether get_sqe finds a free entry, and the block a `new` would return.
  datatype Input<B> = Input(reply: Reply, sqe: bool, block: B, memory: seq<byte>)

  function EmptyConn<B>(): Conn<B> { Conn(-1, None, Idle, NoOp) }

  // ---- Shape ----

  ghost predicate Live<B>(s: Loop<B>, fd: int) {
    0 <= fd < |s.conns| && s.conns[fd].buffer.Some?
  }

  /** The tables run parallel, no pointer dangles and every buffer is a ring of full size. */
  ghost predicate Shaped<B>(s: Loop<B>) {
    && |s.requests| == |s.wires| == |s.conns|
    && IsCapacity(s.size) && s.size > 0
    && (forall b :: b in s.rings ==> s.rings[b].Valid() && s.rings[b].Size() == s.size)
    && (forall i :: 0 <= i < |s.pool| ==> s.pool[i] in s.rings)
    && (forall fd :: Live(s, fd) ==> s.conns[fd].buffer.value in s.rings)
  }

  ghost function At<B>(s: Loop<B>, fd: nat): Local<B>
    requires Shaped(s) && Live(s, fd)
  {
    Local(s.conns[fd], s.rings[s.conns[fd].buffer.value], s.requests[fd], s.wires[fd])
  }

  ghost function Put<B>(s: Loop<B>, fd: nat, l: Local<B>): Loop<B>
    requires Shaped(s) && Live(s, fd)
  {
    s.(conns := s.conns[fd := l.conn], requests := s.requests[fd := l.ops], wires := s.wires[fd := l.wire],
       rings := s.rings[s.conns[fd].buffer.value := l.ring])
  }

  // ---- Connection table and pool ----

  function Pad<T>(s: seq<T>, n: nat, x: T): (p: seq<T>)
    ensures |p| == if |s| < n then n else |s|
    ensures forall i :: 0 <= i < |p| ==> p[i] == if i < |s| then s[i] else x
  {
    s + seq(if |s| < n then n - |s| else 0, i => x)
  }

  /** The table grows until `fd` is an index of it. */
  ghost function Resize<B>(s: Loop<B>, fd: nat): (s': Loop<B>)
    requires Shaped(s)
    ensures Shaped(s') && fd < |s'.conns|
  {
    s.(conns := Pad(s.conns, fd + 1, EmptyConn()), requests := Pad(s.requests, fd + 1, []),
       wires := Pad(s.wires, fd + 1, NO_WIRE))
  }

  /** A buffer from the back of the pool, or a new block. */
  ghost function Allocate<B>(s: Loop<B>, block: B, memory: seq<byte>): (Loop<B>, B)
  {
    if s.pool != [] then (s.(pool := s.pool[..|s.pool| - 1]), s.pool[|s.pool| - 1])
    else (s.(rings := s.rings[block := Ring(memory, 0, 0)]), block)
  }

  /** What `new` returns when the pool is empty is nowhere in use. */
  ghost predicate NewBlock<B>(s: Loop<B>, block: B) {
    s.pool == [] ==> block !in s.rings
  }

  ghost function PushNewConnection<B>(s: Loop<B>, fd: nat, block: B, memory: seq<byte>): Loop<B>
    requires Shaped(s)
  {
    var (s1, b) := Allocate(Resize(s, fd), block, memory);
    var c := s1.conns[fd].(descriptor := fd, buffer := Some(b), op := NoOp);
    s1.(conns := s1.conns[fd := c], wires := s1.wires[fd := NO_WIRE])
  }

  ghost function Redeem<B>(s: Loop<B>, b: B): Loop<B> {
    s.(pool := s.pool + [b], rings := if b in s.rings then s.rings[b := s.rings[b].Reset()] else s.rings)
  }

  /** The connection's buffer, if it has one, goes back to the pool, emptied. */
  ghost function Release<B>(s: Loop<B>, fd: nat): Loop<B>
    requires fd < |s.conns|
  {
    var c := s.conns[fd];
    if c.buffer.Some? then Redeem(s, c.buffer.value).(conns := s.conns[fd := c.(buffer := None)]) else s
  }

  ghost function RemoveConnection<B>(s: Loop<B>, fd: nat): Loop<B> {
    if fd >= |s.conns| then s
    else
      var s1 := Release(s, fd);
      s1.(conns := s1.conns[fd := s1.conns[fd].(op := NoOp)], open := s.open - {fd})
  }

  /** The shutdown loop over the first `n` entries of the table. */
  ghost function Sweep<B>(s: Loop<B>, n: nat): (s': Loop<B>)
    requires n <= |s.conns|
    ensures |s'.conns| == |s.conns|
  {
    if n == 0 then s else Release(Sweep(s, n - 1), n - 1)
  }

  ghost function RearmAccept<B>(s: Loop<B>): Loop<B> {
    s.(accepts := s.accepts + [Prepared])
  }

  // ---- Completion handlers ----

  /** What a callback's reply leads to once its use of the buffer is accounted for. */
  ghost function Conclude<B>(s: Loop<B>, fd: nat, l: Local<B>, input: Input<B>): Loop<B>
    requires Shaped(s) && Live(s, fd) && l.conn.buffer.Some? && l.ring.Valid() && l.ring.Size() > 0
  {
    CallbackShape(l, input.reply.ops);
    var l1 := Callback(l, input.reply.ops);
    if input.reply.next.Die? then RemoveConnection(Put(s, fd, l1), fd)
    else Put(s, fd, LoopModel.Submit(l1, input.reply.next, input.sqe))
  }

  lemma {:induction false} CallbackShape<B>(l: Local<B>, ops: seq<BufferOp>)
    requires l.ring.Valid()
    ensures Callback(l, ops).ring.Valid() && Callback(l, ops).ring.Size() == l.ring.Size()
    ensures Callback(l, ops).conn == l.conn && Callback(l, ops).ops == l.ops
    decreases |ops|
  {
    if ops != [] {
      TouchValid(l, ops[0]);
      CallbackShape(Touch(l, ops[0]), ops[1..]);
    }
  }

  /** The buffer a handler is about to use holds a ring whose count makes sense, as the
      assertion in `count()` demands. */
  ghost predicate Usable<B>(l: Local<B>) {
    l.conn.buffer.Some? && l.ring.Valid() && l.ring.Size() > 0
  }

  ghost function HandleRecv<B>(s: Loop<B>, fd: nat, res: nat, input: Input<B>): Loop<B>
    requires Shaped(s)
  {
    if fd >= |s.conns| || s.conns[fd].op != Recv then s
    else if !Live(s, fd) || !Usable(TakeReceived(At(s, fd), res)) then s
    else Conclude(s, fd, TakeReceived(At(s, fd), res), input)
  }

  ghost function HandleSend<B>(s: Loop<B>, fd: nat, res: nat, input: Input<B>): Loop<B>
    requires Shaped(s)
  {
    if fd >= |s.conns| || s.conns[fd].op != Send then s
    else if !Live(s, fd) || !Usable(TakeSent(At(s, fd), res)) then s
    else
      var l := TakeSent(At(s, fd), res);
      if l.ring.head == l.ring.tail then Conclude(s, fd, l, input)
      else Put(s, fd, SubmitSend(l, input.sqe))
  }

  /** on_connect: its reply is the connection's first state, `idle` included. */
  ghost function Welcome<B>(s: Loop<B>, fd: nat, input: Input<B>): Loop<B>
    requires Shaped(s) && Live(s, fd) && Usable(At(s, fd))
  {
    var l := At(s, fd);
    CallbackShape(l, input.reply.ops);
    var l1 := Callback(l, input.reply.ops);
    if input.reply.next.Die? then RemoveConnection(Put(s, fd, l1), fd)
    else Put(s, fd, LoopModel.Submit(l1.(conn := l1.conn.(state := input.reply.next)), input.reply.next, input.sqe))
  }

  ghost function HandleAccept<B>(s: Loop<B>, res: int, input: Input<B>): Loop<B>
    requires Shaped(s) && |input.memory| == s.size
  {
    if res < 0 then RearmAccept(s)
    else
      NewShape(s, res, input.block, input.memory);
      RearmAccept(Welcome(PushNewConnection(s, res, input.block, input.memory), res, input))
  }

  lemma NewShape<B>(s: Loop<B>, fd: nat, block: B, memory: seq<byte>)
    requires Shaped(s) && |memory| == s.size
    ensures var s' := PushNewConnection(s, fd, block, memory);
            Shaped(s') && Live(s', fd)
  {
  }

  /** One completion entry, told apart by its tag alone. */
  ghost function Dispatch<B>(s: Loop<B>, ud: nat, res: int, input: Input<B>): Loop<B>
    requires Shaped(s) && |input.memory| == s.size
  {
    if ud == TagAccept(s.listenFd) then HandleAccept(s, res, input)
    else
      var fd := FdOf(ud);
      if fd < 0 || fd >= |s.conns| then s
      else if res <= 0 then RemoveConnection(s, fd)
      else if KindOf(ud) == RECV then HandleRecv(s, fd, res, input)
      else if KindOf(ud) == SEND then HandleSend(s, fd, res, input)
      else s
  }
}
