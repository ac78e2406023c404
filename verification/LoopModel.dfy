/** The state of the io_uring TCP event loop and of the kernel it talks to, as a value, with
    one function per handler. Buffers are named by pointers of an arbitrary type `B`. */
module LoopModel {
  import opened Bits
  import opened RingValue

  datatype Option<+T> = None | Some(value: T)

  /** A queue after its i-th entry is taken out. */
  function Without<T>(s: seq<T>, i: nat): seq<T>
    requires i < |s|
  {
    s[..i] + s[i + 1..]
  }

  // el_connection_state
  datatype ElState = Idle | Reading | Writing | Die

  // active_op
  datatype ActiveOp = NoOp | Recv | Send

  // conn_state together with its connection
  datatype Conn<B> = Conn(descriptor: int, buffer: Option<B>, state: ElState, op: ActiveOp)

  // An operation handed to the kernel, with the region of memory lent to it.
  datatype Request<B> =
    | RecvInto(buffer: B, off: nat, len: nat)
    | SendFrom(buffer: B, off: nat, len: nat)

  // A submission entry not yet submitted, one the kernel holds, a completion entry not yet seen.
  datatype Stage = Prepared | InKernel | Completed(res: int)

  datatype Op<B> = Op(req: Request<B>, stage: Stage)

  /** History of one connection: the bytes the kernel received and sent for it; the bytes
      that entered and left its buffer from either side; and the bytes of a completion that
      the loop has not processed yet. */
  datatype Wire = Wire(received: seq<byte>, sent: seq<byte>, entered: seq<byte>, left: seq<byte>,
                       pendingIn: seq<byte>, pendingOut: seq<byte>)

  const NO_WIRE := Wire([], [], [], [], [], [])

  // What a callback does with the connection's buffer, and the state it returns.
  datatype BufferOp = WriteOp(src: seq<byte>) | ReadOp(size: nat) | ResetOp
  datatype Reply = Reply(ops: seq<BufferOp>, next: ElState)

  /** What belongs to one connection: its record, its ring, its outstanding operations. */
  datatype Local<B> = Local(conn: Conn<B>, ring: Ring, ops: seq<Op<B>>, wire: Wire)

  // ---- One connection ----

  ghost function SubmitRecv<B>(l: Local<B>, sqe: bool): Local<B>
    requires l.conn.buffer.Some? && l.ring.Size() > 0
  {
    var (off, len) := l.ring.FreeRegion();
    if len == 0 || !sqe then l
    else
      var req := RecvInto(l.conn.buffer.value, off, len);
      l.(ops := l.ops + [Op(req, Prepared)], conn := l.conn.(op := Recv))
  }

  ghost function SubmitSend<B>(l: Local<B>, sqe: bool): Local<B>
    requires l.conn.buffer.Some? && l.ring.Size() > 0
  {
    var (off, len) := l.ring.UsedRegion();
    if len == 0 || !sqe then l
    else
      var req := SendFrom(l.conn.buffer.value, off, len);
      l.(ops := l.ops + [Op(req, Prepared)], conn := l.conn.(op := Send))
  }

  /** The state returned by a callback decides the next submission. */
  ghost function Submit<B>(l: Local<B>, next: ElState, sqe: bool): Local<B>
    requires l.conn.buffer.Some? && l.ring.Size() > 0
  {
    match next
    case Reading => SubmitRecv(l.(conn := l.conn.(state := Reading)), sqe)
    case Writing => SubmitSend(l.(conn := l.conn.(state := Writing)), sqe)
    case Idle => l
    case Die => l
  }

  /** One use of the buffer's FIFO interface by a callback. */
  ghost function Touch<B>(l: Local<B>, o: BufferOp): Local<B>
    requires l.ring.Valid()
  {
    var r, w := l.ring, l.wire;
    match o
    case WriteOp(src) =>
      var d := src[..Min(|src|, r.FreeSpace())];
      l.(ring := r.Append(d), wire := w.(entered := w.entered + d))
    case ReadOp(size) =>
      var n := Min(size, r.Count());
      l.(ring := r.AdvanceHead(n), wire := w.(left := w.left + r.Contents()[..n]))
    case ResetOp =>
      l.(ring := r.Reset(), wire := w.(left := w.left + r.Contents()))
  }

  /** A callback's whole use of the buffer. */
  ghost function Callback<B>(l: Local<B>, ops: seq<BufferOp>): Local<B>
    requires l.ring.Valid()
    decreases |ops|
  {
    if ops == [] then l
    else
      TouchValid(l, ops[0]);
      Callback(Touch(l, ops[0]), ops[1..])
  }

  lemma TouchValid<B>(l: Local<B>, o: BufferOp)
    requires l.ring.Valid()
    ensures Touch(l, o).ring.Valid() && Touch(l, o).ring.Size() == l.ring.Size()
    ensures l.wire.entered == l.wire.left + l.ring.Contents()
        ==> Touch(l, o).wire.entered == Touch(l, o).wire.left + Touch(l, o).ring.Contents()
  {
    var r := l.ring;
    match o
    case WriteOp(src) => AppendContents(r, src[..Min(|src|, r.FreeSpace())]);
    case ReadOp(size) =>
      var n := Min(size, r.Count());
      AdvanceHeadContents(r, n);
      assert r.Contents() == r.Contents()[..n] + r.Contents()[n..];
    case ResetOp => ResetContents(r);
  }

  /** A receive of `res` bytes is taken over: the operation is over and the tail moves. */
  ghost function TakeReceived<B>(l: Local<B>, res: nat): Local<B> {
    var w := l.wire;
    l.(conn := l.conn.(op := NoOp), ring := l.ring.AdvanceTail(res),
       wire := w.(entered := w.entered + w.pendingIn, pendingIn := []))
  }

  ghost function TakeSent<B>(l: Local<B>, res: nat): Local<B> {
    var w := l.wire;
    l.(conn := l.conn.(op := NoOp), ring := l.ring.AdvanceHead(res),
       wire := w.(left := w.left + w.pendingOut, pendingOut := []))
  }

  // ---- Invariant of one connection ----

  /** The lent region and the bytes a completion moved match the operation in progress. */
  ghost predicate LentForRecv<B>(l: Local<B>, o: Op<B>)
    requires l.conn.buffer.Some? && l.ring.Valid() && l.ring.Size() > 0
  {
    var (off, len) := l.ring.FreeRegion();
    && len > 0 && o.req == RecvInto(l.conn.buffer.value, off, len)
    && off + len <= l.ring.Size()
    && l.wire.pendingOut == []
    && (o.stage.Completed? ==> o.stage.res <= len)
    && l.wire.pendingIn == if o.stage.Completed? && o.stage.res > 0 then l.ring.mem[off..off + o.stage.res] else []
  }

  ghost predicate LentForSend<B>(l: Local<B>, o: Op<B>)
    requires l.conn.buffer.Some? && l.ring.Valid() && l.ring.Size() > 0
  {
    var (off, len) := l.ring.UsedRegion();
    && len > 0 && o.req == SendFrom(l.conn.buffer.value, off, len)
    && len <= l.ring.Count()
    && l.wire.pendingIn == []
    && (o.stage.Completed? ==> o.stage.res <= len)
    && l.wire.pendingOut == if o.stage.Completed? && o.stage.res > 0 then l.ring.Contents()[..o.stage.res] else []
  }

  /** At most one operation is outstanding, exactly when `op` says so and of that kind; and
      every byte that entered the buffer has left it or is still there, in order. */
  ghost predicate LocalOk<B>(l: Local<B>) {
    && l.conn.buffer.Some? && l.ring.Valid() && l.ring.Size() > 0
    && l.wire.entered == l.wire.left + l.ring.Contents()
    && match l.conn.op
       case NoOp => l.ops == [] && l.wire.pendingIn == [] && l.wire.pendingOut == []
       case Recv => |l.ops| == 1 && LentForRecv(l, l.ops[0])
       case Send => |l.ops| == 1 && LentForSend(l, l.ops[0])
  }

  /** The buffer is moved by the kernel alone. */
  ghost predicate Untouched(w: Wire) {
    w.received == w.entered + w.pendingIn && w.sent == w.left + w.pendingOut
  }

  ghost predicate LocalIdle<B>(l: Local<B>) {
    LocalOk(l) && l.conn.op == NoOp
  }

  /** Callbacks never break the accounting, whatever they do with the buffer. */
  lemma {:induction false} CallbackOk<B>(l: Local<B>, ops: seq<BufferOp>)
    requires LocalIdle(l)
    ensures LocalIdle(Callback(l, ops))
    ensures Callback(l, ops).conn == l.conn && Callback(l, ops).ring.Size() == l.ring.Size()
    decreases |ops|
  {
    if ops != [] {
      TouchValid(l, ops[0]);
      CallbackOk(Touch(l, ops[0]), ops[1..]);
    }
  }

  /** A submission leaves either the idle connection or one operation with its region lent. */
  lemma SubmitOk<B>(l: Local<B>, next: ElState, sqe: bool)
    requires LocalIdle(l)
    ensures LocalOk(Submit(l, next, sqe))
    ensures Submit(l, next, sqe).conn.buffer == l.conn.buffer && Submit(l, next, sqe).ring == l.ring
    ensures Submit(l, next, sqe).wire == l.wire
  {
    FreeRegionIsFirstChunk(l.ring);
    UsedRegionIsFirstChunk(l.ring);
  }

  // ---- The kernel ----

  /** The operation's region is touched only between its submission and its completion. */
  datatype KernelStep =
    | Take                      // a submission entry reaches the kernel
    | Receive(data: seq<byte>)  // bytes arrive in the lent region
    | Transmit(n: nat)          // a prefix of the lent region goes out
    | Fail(res: int)            // error or end of stream

  predicate KernelMay<B>(o: Op<B>, k: KernelStep) {
    match k
    case Take => o.stage.Prepared?
    case Receive(data) => o.stage.InKernel? && o.req.RecvInto? && 0 < |data| <= o.req.len
    case Transmit(n) => o.stage.InKernel? && o.req.SendFrom? && 0 < n <= o.req.len
    case Fail(res) => o.stage.InKernel? && res <= 0
  }

  function KernelStage(k: KernelStep): Stage {
    match k
    case Take => InKernel
    case Receive(data) => Completed(|data|)
    case Transmit(n) => Completed(n)
    case Fail(res) => Completed(res)
  }

  /** The memory the request names after the step. */
  ghost function KernelMemory<B>(r: Ring, o: Op<B>, k: KernelStep): Ring {
    if k.Receive? && o.req.off + |k.data| <= r.Size() then r.Poke(o.req.off, k.data) else r
  }

  ghost function KernelWire<B>(w: Wire, r: Ring, o: Op<B>, k: KernelStep): Wire {
    match k
    case Take => w
    case Receive(data) => w.(received := w.received + data, pendingIn := data)
    case Transmit(n) =>
      var out := if o.req.off + n <= r.Size() then r.mem[o.req.off..o.req.off + n] else [];
      w.(sent := w.sent + out, pendingOut := out)
    case Fail(res) => w
  }

  ghost function KernelLocal<B>(l: Local<B>, i: nat, k: KernelStep): Local<B>
    requires i < |l.ops|
  {
    var o := l.ops[i];
    l.(ring := KernelMemory(l.ring, o, k), wire := KernelWire(l.wire, l.ring, o, k),
       ops := l.ops[i := o.(stage := KernelStage(k))])
  }

  lemma KernelReceiveOk<B>(l: Local<B>, data: seq<byte>)
    requires LocalOk(l) && l.conn.op == Recv && KernelMay(l.ops[0], Receive(data))
    ensures LocalOk(KernelLocal(l, 0, Receive(data)))
    ensures KernelLocal(l, 0, Receive(data)).ring.Size() == l.ring.Size()
    ensures Untouched(l.wire) ==> Untouched(KernelLocal(l, 0, Receive(data)).wire)
  {
    ReceiveThenAdvance(l.ring, data);
    var l' := KernelLocal(l, 0, Receive(data));
    var off := l.ring.FreeRegion().0;
    assert l'.ring == l.ring.Poke(off, data);
    assert l'.ring.mem[off..off + |data|] == data;
    assert LentForRecv(l', l'.ops[0]);
  }

  lemma KernelTransmitOk<B>(l: Local<B>, n: nat)
    requires LocalOk(l) && l.conn.op == Send && KernelMay(l.ops[0], Transmit(n))
    ensures LocalOk(KernelLocal(l, 0, Transmit(n)))
    ensures Untouched(l.wire) ==> Untouched(KernelLocal(l, 0, Transmit(n)).wire)
  {
    UsedRegionIsFirstChunk(l.ring);
    var (off, len) := l.ring.UsedRegion();
    assert l.ring.mem[off..off + len][..n] == l.ring.mem[off..off + n];
    assert l.ring.Contents()[..len][..n] == l.ring.Contents()[..n];
  }

  /** Whatever the kernel does with the outstanding operation, its region and the moved bytes
      still match it. */
  lemma KernelOk<B>(l: Local<B>, i: nat, k: KernelStep)
    requires LocalOk(l) && i < |l.ops| && KernelMay(l.ops[i], k)
    ensures LocalOk(KernelLocal(l, i, k)) && KernelLocal(l, i, k).conn == l.conn
    ensures KernelLocal(l, i, k).ring.Size() == l.ring.Size()
    ensures Untouched(l.wire) ==> Untouched(KernelLocal(l, i, k).wire)
  {
    if k.Receive? {
      KernelReceiveOk(l, k.data);
    } else if k.Transmit? {
      KernelTransmitOk(l, k.n);
    }
  }

  // ---- Completions ----

  /** Removing the completion entry and taking over its result leaves an idle connection. */
  lemma TakeReceivedOk<B>(l: Local<B>)
    requires LocalOk(l) && l.conn.op == Recv && l.ops[0].stage.Completed? && l.ops[0].stage.res > 0
    ensures LocalIdle(TakeReceived(l.(ops := []), l.ops[0].stage.res))
    ensures Untouched(l.wire) ==> Untouched(TakeReceived(l.(ops := []), l.ops[0].stage.res).wire)
  {
    var r, res := l.ring, l.ops[0].stage.res;
    var off := r.FreeRegion().0;
    var d := r.mem[off..off + res];
    ReceiveThenAdvance(r, d);
    PokeSame(r, off, res);
    AppendContents(r, d);
  }

  lemma PokeSame(r: Ring, off: nat, n: nat)
    requires off + n <= r.Size()
    ensures r.Poke(off, r.mem[off..off + n]) == r
  {
  }

  lemma TakeSentOk<B>(l: Local<B>)
    requires LocalOk(l) && l.conn.op == Send && l.ops[0].stage.Completed? && l.ops[0].stage.res > 0
    ensures LocalIdle(TakeSent(l.(ops := []), l.ops[0].stage.res))
    ensures Untouched(l.wire) ==> Untouched(TakeSent(l.(ops := []), l.ops[0].stage.res).wire)
  {
    var q, res := l.ring.Contents(), l.ops[0].stage.res;
    AdvanceHeadContents(l.ring, res);
    assert l.wire.left + q == l.wire.left + q[..res] + q[res..];
  }
}
