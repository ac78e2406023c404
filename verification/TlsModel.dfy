/** The lifecycle of connections in the io_uring TLS loop: SSL handles, buffers, descriptors,
    pending handshakes, outstanding operations and the callbacks made. Handles and buffers are
    pointers here; what the TLS library and the sockets answer is an input of each step. */
module TlsModel {
  import opened LoopModel

  // active_op
  datatype TlsOp = NoTlsOp | RecvKtls | SendKtls | PollIn | PollOut | HandshakePoll

  // What an outstanding operation was submitted as: the low bits of its tag.
  datatype Kind = RecvDone | SendDone | PollInDone | PollOutDone

  // conn_state with its connection and tls_per_conn
  datatype Record<B> = Record(
    descriptor: int, buffer: Option<B>, ssl: Option<nat>, ktls: bool, op: TlsOp, state: ElState)

  datatype Call = OnConnect | OnRead | OnWrite | OnError

  /** An operation the kernel holds: its kind, which accept of its descriptor it was submitted
      after, and the buffer lent to it, if it transfers bytes. */
  datatype Flight<B> = Flight(kind: Kind, epoch: nat, lent: Option<B>)

  /** `handles` and `buffers` are the pointers ever allocated, `freed` the handles passed to
      SSL_free in order, `calls` the callbacks made on each descriptor since its last accept,
      `flights` the operations the kernel still holds for it, `epochs` how often accept has
      returned it, `open` the connections' descriptors and `stray` how often close was called on
      one that was not open. `crashed` says that a null buffer was dereferenced. */
  datatype Tls<B> = Tls(
    conns: seq<Record<B>>, pending: set<nat>, pool: seq<B>, buffers: set<B>,
    handles: set<nat>, freed: seq<nat>, calls: seq<seq<Call>>, flights: seq<seq<Flight<B>>>, epochs: seq<nat>,
    open: set<nat>, stray: nat, handshakes: nat, connects: nat, crashed: bool)

  // What a read or write attempt met, what the callback it led to answered, and whether the
  // submission that followed went through.
  datatype Transfer = Transfer(got: bool, error: bool, want: bool, drained: bool, next: ElState, armed: bool)

  // What a completed handshake leads to; `block` is what `new` returns if the pool is empty.
  datatype Welcome<B> = Welcome(ktls: bool, block: B, next: ElState, armed: bool, first: Transfer)

  // SSL_do_handshake: done, wants more input, or failed.
  datatype Handshake<B> = Done(welcome: Welcome<B>) | WantRead | Failed

  function EmptyRecord<B>(): Record<B> { Record(-1, None, None, false, NoTlsOp, Idle) }

  /** The tables run parallel. */
  predicate Parallel<B>(s: Tls<B>) { |s.calls| == |s.flights| == |s.epochs| == |s.conns| }

  function SetRecord<B>(s: Tls<B>, fd: nat, c: Record<B>): Tls<B>
    requires fd < |s.conns|
  {
    s.(conns := s.conns[fd := c])
  }

  function SetOp<B>(s: Tls<B>, fd: nat, op: TlsOp): Tls<B>
    requires fd < |s.conns|
  {
    SetRecord(s, fd, s.conns[fd].(op := op))
  }

  function Called<B>(s: Tls<B>, fd: nat, c: Call): Tls<B>
    requires fd < |s.calls|
  {
    s.(calls := s.calls[fd := s.calls[fd] + [c]], connects := if c == OnConnect then s.connects + 1 else s.connects)
  }

  function KindOfOp(op: TlsOp): Kind {
    match op
    case RecvKtls => RecvDone
    case SendKtls => SendDone
    case PollOut => PollOutDone
    case _ => PollInDone
  }

  /** An operation submitted for `fd` now. */
  function Submission<B>(s: Tls<B>, fd: nat, op: TlsOp): Flight<B>
    requires Parallel(s) && fd < |s.conns|
  {
    Flight(KindOfOp(op), s.epochs[fd], if op == RecvKtls || op == SendKtls then s.conns[fd].buffer else None)
  }

  /** A submission that went through is recorded and outstanding. */
  function Arm<B>(s: Tls<B>, fd: nat, op: TlsOp, armed: bool): Tls<B>
    requires Parallel(s) && fd < |s.conns|
  {
    if armed then SetOp(s, fd, op).(flights := s.flights[fd := s.flights[fd] + [Submission(s, fd, op)]]) else s
  }

  function Close<B>(s: Tls<B>, fd: nat): Tls<B> {
    s.(open := s.open - {fd}, stray := if fd in s.open then s.stray else s.stray + 1)
  }

  function Crash<B>(s: Tls<B>): Tls<B> { s.(crashed := true) }

  // ---- Registration and removal ----

  /** The handle is freed and the buffer goes back to the pool. */
  function Release<B>(s: Tls<B>, fd: nat): Tls<B>
    requires fd < |s.conns|
  {
    var c := s.conns[fd];
    SetRecord(s, fd, c.(ssl := None, buffer := None)).(
      freed := if c.ssl.Some? then s.freed + [c.ssl.value] else s.freed,
      pool := if c.buffer.Some? then s.pool + [c.buffer.value] else s.pool)
  }

  function RemoveConnection<B>(s: Tls<B>, fd: nat): Tls<B> {
    if fd >= |s.conns| then s
    else Close(SetOp(Release(s, fd), fd, NoTlsOp).(pending := s.pending - {fd}), fd)
  }

  function RegisterConnection<B>(s: Tls<B>, fd: nat, ssl: nat, block: B): Tls<B>
    requires fd < |s.conns|
  {
    var b := if s.pool != [] then s.pool[|s.pool| - 1] else block;
    var c := s.conns[fd];
    s.(conns := s.conns[fd := c.(ssl := if c.ssl.None? then Some(ssl) else c.ssl, descriptor := fd,
                                 buffer := Some(b), op := NoTlsOp)],
       pool := if s.pool != [] then s.pool[..|s.pool| - 1] else [],
       buffers := s.buffers + {b})
  }

  // ---- States and transfers ----

  function ApplyState<B>(s: Tls<B>, fd: nat, next: ElState, armed: bool): Tls<B>
    requires Parallel(s) && fd < |s.conns|
  {
    if next == Die then RemoveConnection(s, fd)
    else
      var c := s.conns[fd].(state := next);
      var s1 := SetRecord(s, fd, c);
      if next == Reading then Arm(s1, fd, if c.ktls then RecvKtls else PollIn, armed)
      else if next == Writing then Arm(s1, fd, if c.ktls then SendKtls else PollOut, armed)
      else s1
  }

  function HandleRead<B>(s: Tls<B>, fd: nat, t: Transfer): Tls<B>
    requires Parallel(s) && fd < |s.conns|
  {
    if s.conns[fd].state != Reading then s
    else if s.conns[fd].buffer.None? then Crash(s)
    else
      var error, want := t.error && !s.conns[fd].ktls, t.want && !s.conns[fd].ktls;
      if error then RemoveConnection(s, fd)
      else if t.got then ApplyState(Called(s, fd, OnRead), fd, t.next, t.armed)
      else if want then Arm(s, fd, PollIn, t.armed)
      else s
  }

  function HandleWrite<B>(s: Tls<B>, fd: nat, t: Transfer): Tls<B>
    requires Parallel(s) && fd < |s.conns|
  {
    if s.conns[fd].state != Writing then s
    else if s.conns[fd].buffer.None? then Crash(s)
    else
      var ktls := s.conns[fd].ktls;
      if t.error then ApplyState(Called(s, fd, OnError), fd, if ktls then Die else t.next, t.armed)
      else if t.drained then ApplyState(Called(s, fd, OnWrite), fd, t.next, t.armed)
      else if t.want && !ktls then Arm(s, fd, PollOut, t.armed)
      else s
  }

  // ---- Handshake ----

  /** KTLS is tried and on_connect called. */
  function Greeted<B>(s: Tls<B>, fd: nat, ktls: bool): Tls<B>
    requires Parallel(s) && fd < |s.conns|
  {
    Called(SetRecord(s, fd, s.conns[fd].(ktls := ktls)), fd, OnConnect)
  }

  /** on_connect's answer is applied and a first read attempted. */
  function AfterConnect<B>(s: Tls<B>, fd: nat, w: Welcome<B>): Tls<B>
    requires Parallel(s) && fd < |s.conns|
  {
    if w.next == Die then RemoveConnection(s, fd)
    else HandleRead(ApplyState(s, fd, w.next, w.armed), fd, w.first)
  }

  function Complete<B>(s: Tls<B>, fd: nat, ssl: nat, w: Welcome<B>): Tls<B>
    requires Parallel(s) && fd < |s.conns|
  {
    AfterConnect(Greeted(RegisterConnection(s, fd, ssl, w.block), fd, w.ktls), fd, w)
  }

  function Grow<B>(s: Tls<B>, fd: nat): (s': Tls<B>)
    requires Parallel(s)
    ensures Parallel(s') && fd < |s'.conns|
  {
    if fd < |s.conns| then s
    else
      var n := fd + 1 - |s.conns|;
      s.(conns := s.conns + seq(n, i => EmptyRecord()), calls := s.calls + seq(n, i => []),
         flights := s.flights + seq(n, i => []), epochs := s.epochs + seq(n, i => 0))
  }

  /** accept gave `fd`, which has a record, and SSL_new gave `ssl`. */
  function Accepted<B>(s: Tls<B>, fd: nat, ssl: nat): Tls<B>
    requires Parallel(s) && fd < |s.conns|
  {
    s.(handles := s.handles + {ssl}, calls := s.calls[fd := []], epochs := s.epochs[fd := s.epochs[fd] + 1],
       open := s.open + {fd})
  }

  /** An accepted connection waits for its handshake. */
  function Waiting<B>(s: Tls<B>, fd: nat, ssl: nat): Tls<B>
    requires Parallel(s) && fd < |s.conns|
  {
    var c := s.conns[fd].(ssl := Some(ssl), descriptor := fd, op := HandshakePoll);
    SetRecord(Accepted(s, fd, ssl), fd, c).(pending := s.pending + {fd})
  }

  /** A completed handshake is counted. */
  function Shaken<B>(s: Tls<B>): Tls<B> { s.(handshakes := s.handshakes + 1) }

  function StartHandshake<B>(s: Tls<B>, fd: nat, ssl: nat, h: Handshake<B>, armed: bool): Tls<B>
    requires Parallel(s) && fd < |s.conns|
  {
    match h
    case Done(w) => Complete(Shaken(Accepted(s, fd, ssl)), fd, ssl, w)
    case WantRead => Arm(Waiting(s, fd, ssl), fd, PollIn, armed)
    case Failed =>
      var s1 := Accepted(s, fd, ssl);
      Close(s1.(freed := s1.freed + [ssl]), fd)
  }

  function HandleAccept<B>(s: Tls<B>, fd: nat, ssl: nat, h: Handshake<B>, armed: bool): Tls<B>
    requires Parallel(s)
  {
    StartHandshake(Grow(s, fd), fd, ssl, h, armed)
  }

  function RetryHandshake<B>(s: Tls<B>, fd: nat, h: Handshake<B>, armed: bool): Tls<B>
    requires Parallel(s) && fd < |s.conns| && s.conns[fd].ssl.Some?
  {
    var c := s.conns[fd];
    match h
    case Done(w) => Complete(Shaken(s.(pending := s.pending - {fd})), fd, c.ssl.value, w)
    case WantRead => Arm(SetOp(s, fd, HandshakePoll), fd, PollIn, armed)
    case Failed =>
      Close(SetRecord(s, fd, c.(ssl := None)).(freed := s.freed + [c.ssl.value], pending := s.pending - {fd}), fd)
  }

  // ---- Completions ----

  /** A KTLS receive brought bytes. */
  function KtlsReceived<B>(s: Tls<B>, fd: nat, t: Transfer): Tls<B>
    requires Parallel(s) && fd < |s.conns|
  {
    if s.conns[fd].buffer.None? then Crash(s)
    else ApplyState(Called(SetOp(s, fd, NoTlsOp), fd, OnRead), fd, t.next, t.armed)
  }

  /** A KTLS send took bytes; `t.drained` says whether all of them. */
  function KtlsSent<B>(s: Tls<B>, fd: nat, t: Transfer): Tls<B>
    requires Parallel(s) && fd < |s.conns|
  {
    if s.conns[fd].buffer.None? then Crash(s)
    else if t.drained then ApplyState(Called(SetOp(s, fd, NoTlsOp), fd, OnWrite), fd, t.next, t.armed)
    else Arm(SetOp(s, fd, NoTlsOp), fd, SendKtls, t.armed)
  }

  /** A handshake is pending only with a handle. */
  ghost predicate PendingHaveHandles<B>(s: Tls<B>) {
    forall fd :: fd in s.pending && fd < |s.conns| ==> s.conns[fd].ssl.Some?
  }

  /** One completion entry that carries `fd` and `kind`: `res` its result, `again` whether a
      negative one is EAGAIN. */
  function Completion<B>(s: Tls<B>, fd: nat, kind: Kind, res: int, again: bool,
                         h: Handshake<B>, t: Transfer): Tls<B>
    requires Parallel(s)
    requires fd in s.pending && fd < |s.conns| ==> s.conns[fd].ssl.Some?
  {
    if fd >= |s.conns| then s
    else if res < 0 && !again then RemoveConnection(s, fd)
    else if fd in s.pending then RetryHandshake(s, fd, h, t.armed)
    else
      var op := s.conns[fd].op;
      match kind
      case RecvDone => if res > 0 && op == RecvKtls then KtlsReceived(s, fd, t) else s
      case SendDone => if res > 0 && op == SendKtls then KtlsSent(s, fd, t) else s
      case PollInDone => if op == PollIn then HandleRead(s, fd, t) else s
      case PollOutDone => if op == PollOut then HandleWrite(s, fd, t) else s
  }

  /** The shutdown loop over the first `n` records. */
  function Released<B>(s: Tls<B>, n: nat): (s': Tls<B>)
    requires n <= |s.conns|
    ensures |s'.conns| == |s.conns|
  {
    if n == 0 then s else Release(Released(s, n - 1), n - 1)
  }

  /** What run does when it ends. */
  function Shutdown<B>(s: Tls<B>): Tls<B> { Released(s, |s.conns|).(pending := {}) }
}
