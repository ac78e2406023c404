/** What the TLS loop does for a connection at each step: which callback runs on which bytes, which bytes
    the buffer holds afterwards, and which operation the callback's answer, or the socket, is waited
    for with. */
module TlsAnswers {
  import opened Bits
  import opened Callbacks
  import opened LoopModel
  import opened RingValue
  import opened SslLoops
  import opened TlsMachine
  import opened TlsMachineRuns
  import opened TlsModel
  import opened TlsRuns
  import opened TlsSafety
  import opened TlsTransfer

  /** What is outstanding for a connection, and its `op`. */
  datatype Waits<B> = Waits(flights: seq<Flight<B>>, op: TlsOp)

  /** Input is waited for: a receive into the buffer under KTLS, a poll otherwise. */
  ghost function ForInput<B>(w: Waits<B>, epoch: nat, ktls: bool, b: B): Waits<B> {
    if ktls then Waits(w.flights + [Flight(RecvDone, epoch, Some(b))], RecvKtls)
    else Waits(w.flights + [Flight(PollInDone, epoch, None)], PollIn)
  }

  /** Output: a send from the buffer, or a poll. */
  ghost function ForOutput<B>(w: Waits<B>, epoch: nat, ktls: bool, b: B): Waits<B> {
    if ktls then Waits(w.flights + [Flight(SendDone, epoch, Some(b))], SendKtls)
    else Waits(w.flights + [Flight(PollOutDone, epoch, None)], PollOut)
  }

  /** What a callback's answer makes of it when the buffer of `size` bytes holds `held`: under KTLS
      there has to be room to receive, or something to send and still room. */
  ghost function WaitsAfter<B>(w: Waits<B>, next: ElState, sqe: bool, held: nat, size: nat, epoch: nat, ktls: bool,
                               b: B): Waits<B>
  {
    match next
    case Reading => if sqe && (!ktls || held < size) then ForInput(w, epoch, ktls, b) else w
    case Writing => if sqe && (!ktls || 0 < held < size) then ForOutput(w, epoch, ktls, b) else w
    case _ => w
  }

  /** The pool and the handles freed so far. */
  datatype Stores<B> = Stores(pool: seq<B>, freed: seq<nat>)

  ghost function StoresOf<B>(s: Tls<B>): Stores<B> { Stores(s.pool, s.freed) }

  /** The connection with the record `c` is open, its buffer holds `q`, `calls` were made, and it waits. */
  ghost predicate Waiting<B>(k: Stores<B>, m': Machine<B>, fd: nat, c: Record<B>, q: seq<byte>, calls: seq<Call>,
                             w: Waits<B>) {
    && Parallel(m'.tls) && fd < |m'.tls.conns| && fd in m'.tls.open && fd !in m'.tls.pending && !m'.tls.crashed
    && StoresOf(m'.tls) == k && m'.tls.conns[fd] == c.(op := w.op) && m'.tls.flights[fd] == w.flights
    && m'.tls.calls[fd] == calls && Holding(m', c.buffer, q)
  }

  ghost predicate Holding<B>(m: Machine<B>, b: Option<B>, q: seq<byte>) {
    b.Some? && b.value in m.rings && m.rings[b.value].Valid() && m.rings[b.value].Size() == m.size
    && m.rings[b.value].Contents() == q
  }

  /** It is gone: the handle freed, the buffer pooled, the descriptor closed. */
  ghost predicate Gone<B>(k: Stores<B>, m': Machine<B>, fd: nat, c: Record<B>, calls: seq<Call>,
                          flights: seq<Flight<B>>)
  {
    && Parallel(m'.tls) && fd < |m'.tls.conns| && fd !in m'.tls.open && fd !in m'.tls.pending && !m'.tls.crashed
    && StoresOf(m'.tls) == Stores(if c.buffer.Some? then k.pool + [c.buffer.value] else k.pool,
                                  if c.ssl.Some? then k.freed + [c.ssl.value] else k.freed)
    && m'.tls.conns[fd] == c.(ssl := None, buffer := None, op := NoTlsOp)
    && m'.tls.calls[fd] == calls && m'.tls.flights[fd] == flights
  }

  /** A callback, the last of `calls`, found `held`, used the buffer with `ops` and answered `next`. */
  ghost predicate Answered<B>(k: Stores<B>, m': Machine<B>, fd: nat, c: Record<B>, calls: seq<Call>, w: Waits<B>,
                              held: seq<byte>, ops: seq<BufferOp>, next: ElState, sqe: bool)
    requires c.buffer.Some? && fd < |m'.tls.epochs|
  {
    var q := HeldAfter(held, m'.size, ops);
    if next == Die then Gone(k, m', fd, c, calls, w.flights)
    else
      Waiting(k, m', fd, c.(state := next), q, calls,
        WaitsAfter(w, next, sqe, |q|, m'.size, m'.tls.epochs[fd], c.ktls, c.buffer.value))
  }

  // ---- Callbacks ----

  lemma {:induction false} UsedHeld(r: Ring, ops: seq<BufferOp>)
    requires r.Valid()
    ensures Used(r, ops).Contents() == HeldAfter(r.Contents(), r.Size(), ops)
    decreases |ops|
  {
    hide Touch;
    if ops != [] {
      var l: Local<nat> := Local(Conn(-1, None, Idle, NoOp), r, [], NO_WIRE);
      TouchHeld(l, ops[0]);
      HeldStep(r.Contents(), r.Size(), ops);
      UsedHeld(Touch(l, ops[0]).ring, ops[1..]);
    }
  }

  /** A live connection, on whose buffer a handler works. */
  ghost predicate Ready<B>(s: Tls<B>, rings: map<B, Ring>, fd: nat) {
    && Parallel(s) && fd < |s.conns| && fd in s.open && fd !in s.pending && !s.crashed
    && s.conns[fd].buffer.Some? && s.conns[fd].buffer.value in rings
  }

  ghost function WaitsOf<B>(s: Tls<B>, fd: nat): Waits<B>
    requires Parallel(s) && fd < |s.conns|
  {
    Waits(s.flights[fd], s.conns[fd].op)
  }

  /** A callback's answer is applied to a connection whose buffer it found as `seen`. */
  lemma AnswerIs<B>(s: Tls<B>, rings: map<B, Ring>, size: nat, fd: nat, call: Call, seen: Ring, ops: seq<BufferOp>,
                    next: ElState, sqe: bool)
    requires Ready(s, rings, fd) && seen.Valid() && seen.Size() == size
    ensures var a := React(s.conns[fd].ktls, seen, ops, next, sqe);
            var m' := Machine(ApplyState(Called(s, fd, call), fd, next, a.armed),
                              rings[s.conns[fd].buffer.value := a.ring], size);
            fd < |m'.tls.epochs|
            && Answered(StoresOf(s), m', fd, s.conns[fd], s.calls[fd] + [call], WaitsOf(s, fd), seen.Contents(), ops,
                        next, sqe)
  {
    UsedHeld(seen, ops);
  }

  // ---- Reads and writes ----

  /** An attempt to read from the buffer `r`: bytes that lie there already under KTLS, or that SSL_read
      gives, go through on_read; an error closes; and a socket that has no more is waited for. */
  ghost predicate ReadTried<B>(k: Stores<B>, m': Machine<B>, fd: nat, c: Record<B>, calls: seq<Call>, w: Waits<B>,
                               r: Ring, io: Io)
    requires r.Valid() && c.buffer.Some? && fd < |m'.tls.epochs|
  {
    var q, e := r.Contents(), ReadRest(r, io.answers, 0);
    if c.ktls then
      if q == [] then Waiting(k, m', fd, c, q, calls, w)
      else Answered(k, m', fd, c, calls + [OnRead], w, q, io.ops, io.next, io.sqe)
    else if e.error then Gone(k, m', fd, c, calls, w.flights)
    else if e.moved > 0 then
      Answered(k, m', fd, c, calls + [OnRead], w, q + Slice(io.plain, 0, e.moved), io.ops, io.next, io.sqe)
    else
      Waiting(k, m', fd, c, q, calls,
        if e.want && io.sqe then ForInput(w, m'.tls.epochs[fd], false, c.buffer.value) else w)
  }

  /** An attempt to write: an error goes through on_error, and is the end under KTLS; an empty buffer goes
      through on_write; and a socket that takes no more is waited for. */
  ghost predicate WriteTried<B>(k: Stores<B>, m': Machine<B>, fd: nat, c: Record<B>, calls: seq<Call>, w: Waits<B>,
                                r: Ring, io: Io)
    requires r.Valid() && c.buffer.Some? && fd < |m'.tls.epochs|
  {
    var e := WriteRest(r, io.answers, 0);
    var q := r.Contents()[e.taken..];
    if e.error then
      Answered(k, m', fd, c, calls + [OnError], w, q, io.ops, if c.ktls then Die else io.next, io.sqe)
    else if q == [] then Answered(k, m', fd, c, calls + [OnWrite], w, q, io.ops, io.next, io.sqe)
    else
      Waiting(k, m', fd, c, q, calls,
        if !c.ktls && io.sqe then ForOutput(w, m'.tls.epochs[fd], false, c.buffer.value) else w)
  }

  lemma ReadIs<B>(s: Tls<B>, rings: map<B, Ring>, size: nat, fd: nat, io: Io)
    requires Ready(s, rings, fd) && s.conns[fd].state == Reading
    requires var r := rings[s.conns[fd].buffer.value]; r.Valid() && r.Size() == size
    ensures var c := s.conns[fd];
            var f := ReadEffect(c, rings, io);
            var m' := Machine(HandleRead(s, fd, f.t), f.rings, size);
            fd < |m'.tls.epochs|
            && ReadTried(StoresOf(s), m', fd, c, s.calls[fd], WaitsOf(s, fd), rings[c.buffer.value], io)
  {
    hide Answered, React, ReadRest, ApplyState;
    var c := s.conns[fd];
    var r := rings[c.buffer.value];
    var seen := Found(c.ktls, r, io);
    AppendContents(r, Slice(io.plain, 0, ReadRest(r, io.answers, 0).moved));
    AnswerIs(s, rings, size, fd, OnRead, seen, io.ops, io.next, io.sqe);
    AppendNone(r);
  }

  lemma AppendNone(r: Ring)
    requires r.Valid()
    ensures r.Append([]).Valid() && r.Append([]).Contents() == r.Contents()
  {
    AppendContents(r, []);
  }

  lemma WriteIs<B>(s: Tls<B>, rings: map<B, Ring>, size: nat, fd: nat, io: Io)
    requires Ready(s, rings, fd) && s.conns[fd].state == Writing
    requires var r := rings[s.conns[fd].buffer.value]; r.Valid() && r.Size() == size
    ensures var c := s.conns[fd];
            var f := WriteEffect(c, rings, io);
            var m' := Machine(HandleWrite(s, fd, f.t), f.rings, size);
            fd < |m'.tls.epochs|
            && WriteTried(StoresOf(s), m', fd, c, s.calls[fd], WaitsOf(s, fd), rings[c.buffer.value], io)
  {
    hide Answered, React, WriteRest, ApplyState;
    var c := s.conns[fd];
    var r := rings[c.buffer.value];
    AdvanceHeadContents(r, WriteRest(r, io.answers, 0).taken);
    AnswerIs(s, rings, size, fd, OnWrite, Left(r, io), io.ops, io.next, io.sqe);
    AnswerIs(s, rings, size, fd, OnError, Left(r, io), io.ops, if c.ktls then Die else io.next, io.sqe);
    WriteMeans(r, io.answers);
  }

  // ---- KTLS completions ----

  /** The `n` bytes that the memory holds from the tail on. */
  ghost function Behind(r: Ring, n: nat): seq<byte>
    requires r.Valid() && n <= r.Size()
  {
    CapacityPositive(r.Size());
    Window(r.mem, r.TailIndex(), n)
  }

  /** A receive of `res` bytes: they come behind the bytes held, and on_read is called. */
  ghost predicate ReceiveOver<B>(k: Stores<B>, m': Machine<B>, fd: nat, c: Record<B>, calls: seq<Call>, w: Waits<B>,
                                 r: Ring, res: nat, io: Io)
    requires r.Valid() && c.buffer.Some? && fd < |m'.tls.epochs| && res <= r.FreeSpace()
  {
    Answered(k, m', fd, c.(op := NoTlsOp), calls + [OnRead], w.(op := NoTlsOp), r.Contents() + Behind(r, res),
      io.ops, io.next, io.sqe)
  }

  /** A send of `res` bytes: the oldest are gone; on_write is called if these were all, and the rest is
      sent on otherwise. */
  ghost predicate SendOver<B>(k: Stores<B>, m': Machine<B>, fd: nat, c: Record<B>, calls: seq<Call>, w: Waits<B>,
                               r: Ring, res: nat, io: Io)
    requires r.Valid() && c.buffer.Some? && fd < |m'.tls.epochs| && 0 < res <= r.Count()
  {
    var q := r.Contents()[res..];
    if q == [] then
      Answered(k, m', fd, c.(op := NoTlsOp), calls + [OnWrite], w.(op := NoTlsOp), [], io.ops, io.next, io.sqe)
    else
      Waiting(k, m', fd, c, q, calls,
        if io.sqe then ForOutput(w, m'.tls.epochs[fd], true, c.buffer.value) else w.(op := NoTlsOp))
  }

  lemma WindowTwo(mem: seq<byte>, h: nat, c: nat, n: nat)
    requires h < |mem| && c + n <= |mem|
    ensures Window(mem, h, c + n) == Window(mem, h, c) + Window(mem, Wrap(h + c, |mem|), n)
  {
    var w, v := Window(mem, h, c + n), Window(mem, h, c) + Window(mem, Wrap(h + c, |mem|), n);
    forall i | 0 <= i < c + n
      ensures w[i] == v[i]
    {
      assert i >= c ==> Wrap(Wrap(h + c, |mem|) + (i - c), |mem|) == Wrap(h + i, |mem|);
    }
  }

  /** Advancing the tail makes the bytes behind it part of the queue. */
  lemma AdvanceTailHeld(r: Ring, n: nat)
    requires r.Valid() && n <= r.FreeSpace()
    ensures r.AdvanceTail(n).Valid() && r.AdvanceTail(n).Contents() == r.Contents() + Behind(r, n)
  {
    AdvanceTailValid(r, n);
    TailFromHead(r);
    CapacityPositive(r.Size());
    CountGrows(r.head, r.tail, n, r.Size());
    WindowTwo(r.mem, r.HeadIndex(), r.Count(), n);
  }

  lemma ReceivedIs<B>(s: Tls<B>, rings: map<B, Ring>, size: nat, fd: nat, res: nat, io: Io)
    requires Ready(s, rings, fd) && s.conns[fd].op == RecvKtls && res > 0
    requires var r := rings[s.conns[fd].buffer.value]; r.Valid() && r.Size() == size && res <= r.FreeSpace()
    ensures var c := s.conns[fd];
            var f := KtlsEffect(c, rings, RecvDone, res, io);
            var m' := Machine(KtlsReceived(s, fd, f.t), f.rings, size);
            fd < |m'.tls.epochs|
            && ReceiveOver(StoresOf(s), m', fd, c, s.calls[fd], WaitsOf(s, fd), rings[c.buffer.value], res, io)
  {
    hide Answered, React, ApplyState, Behind;
    var r := rings[s.conns[fd].buffer.value];
    AdvanceTailHeld(r, res);
    AnswerIs(SetOp(s, fd, NoTlsOp), rings, size, fd, OnRead, r.AdvanceTail(res), io.ops, io.next, io.sqe);
  }

  lemma SentIs<B>(s: Tls<B>, rings: map<B, Ring>, size: nat, fd: nat, res: nat, io: Io)
    requires Ready(s, rings, fd) && s.conns[fd].op == SendKtls && res > 0
    requires var r := rings[s.conns[fd].buffer.value]; r.Valid() && r.Size() == size && res <= r.Count()
    ensures var c := s.conns[fd];
            var f := KtlsEffect(c, rings, SendDone, res, io);
            var m' := Machine(KtlsSent(s, fd, f.t), f.rings, size);
            fd < |m'.tls.epochs|
            && SendOver(StoresOf(s), m', fd, c, s.calls[fd], WaitsOf(s, fd), rings[c.buffer.value], res, io)
  {
    hide Answered, React, ApplyState;
    var r := rings[s.conns[fd].buffer.value];
    AdvanceHeadContents(r, res);
    AnswerIs(SetOp(s, fd, NoTlsOp), rings, size, fd, OnWrite, r.AdvanceHead(res), io.ops, io.next, io.sqe);
  }

  // ---- Handshakes ----

  /** on_connect is called on the buffer `r`; if it asks to read, a read is attempted at once. */
  ghost predicate Connected<B>(k: Stores<B>, m': Machine<B>, fd: nat, c: Record<B>, flights: seq<Flight<B>>,
                               r: Ring, g: Greeting)
    requires r.Valid() && c.buffer.Some? && fd < |m'.tls.epochs|
  {
    var w, n := Waits(flights, NoTlsOp), |HeldAfter(r.Contents(), m'.size, g.ops)|;
    if g.next != Reading then Answered(k, m', fd, c, [OnConnect], w, r.Contents(), g.ops, g.next, g.sqe)
    else
      var w1 := WaitsAfter(w, Reading, g.sqe, n, m'.size, m'.tls.epochs[fd], c.ktls, c.buffer.value);
      ReadTried(k, m', fd, c.(state := Reading, op := w1.op), [OnConnect], w1, Used(r, g.ops), g.first)
  }

  /** The answer of a callback that does not ask to read, in general. */
  lemma GreetedAnswerIs<B>(s: Tls<B>, rings: map<B, Ring>, size: nat, fd: nat, seen: Ring, ops: seq<BufferOp>,
                           next: ElState, sqe: bool)
    requires Ready(s, rings, fd) && seen.Valid() && seen.Size() == size
    ensures var a := React(s.conns[fd].ktls, seen, ops, next, sqe);
            var m' := Machine(ApplyState(s, fd, next, a.armed), rings[s.conns[fd].buffer.value := a.ring], size);
            fd < |m'.tls.epochs|
            && Answered(StoresOf(s), m', fd, s.conns[fd], s.calls[fd], WaitsOf(s, fd), seen.Contents(), ops, next, sqe)
  {
    UsedHeld(seen, ops);
  }

  lemma ConnectOther<B>(s: Tls<B>, rings: map<B, Ring>, size: nat, fd: nat, g: Greeting)
    requires Ready(s, rings, fd) && s.conns[fd].op == NoTlsOp && s.calls[fd] == [] && g.next != Reading
    requires var r := rings[s.conns[fd].buffer.value]; r.Valid() && r.Size() == size
    ensures var c := s.conns[fd];
            var f := GreetEffect(g, c.buffer.value, rings);
            var m' := Machine(AfterConnect(Greeted(s, fd, g.ktls), fd, f.w), f.rings, size);
            fd < |m'.tls.epochs|
            && Connected(StoresOf(s), m', fd, c.(ktls := g.ktls), s.flights[fd], rings[c.buffer.value], g)
  {
    hide Answered, ReadTried, React, HandleRead, ReadDeal;
    var s1, b := Greeted(s, fd, g.ktls), s.conns[fd].buffer.value;
    var a := React(g.ktls, rings[b], g.ops, g.next, g.sqe);
    GreetedAnswerIs(s1, rings, size, fd, rings[b], g.ops, g.next, g.sqe);
    assert s.calls[fd] + [OnConnect] == [OnConnect];
    if g.next != Die {
      NotReading(ApplyState(s1, fd, g.next, a.armed), fd, Nothing(g.first));
    }
  }

  /** The state in which the first read is attempted. */
  lemma AskedToRead<B>(s: Tls<B>, rings: map<B, Ring>, size: nat, fd: nat, g: Greeting)
    requires Ready(s, rings, fd) && s.conns[fd].op == NoTlsOp && s.calls[fd] == [] && g.next == Reading
    requires var r := rings[s.conns[fd].buffer.value]; r.Valid() && r.Size() == size
    ensures var c := s.conns[fd].(ktls := g.ktls);
            var b, s1 := c.buffer.value, Greeted(s, fd, g.ktls);
            var u := Used(rings[b], g.ops);
            var a := React(g.ktls, rings[b], g.ops, Reading, g.sqe);
            var s2 := ApplyState(s1, fd, Reading, a.armed);
            var w1 := WaitsAfter(Waits(s.flights[fd], NoTlsOp), Reading, g.sqe,
                        |HeldAfter(rings[b].Contents(), size, g.ops)|, size, s.epochs[fd], g.ktls, b);
            && a.ring == u && Ready(s2, rings[b := u], fd) && StoresOf(s2) == StoresOf(s)
            && s2.conns[fd] == c.(state := Reading, op := w1.op) && s2.calls[fd] == [OnConnect]
            && s2.epochs == s.epochs && WaitsOf(s2, fd) == w1
  {
    UsedHeld(rings[s.conns[fd].buffer.value], g.ops);
  }

  lemma ConnectRead<B>(s: Tls<B>, rings: map<B, Ring>, size: nat, fd: nat, g: Greeting)
    requires Ready(s, rings, fd) && s.conns[fd].op == NoTlsOp && s.calls[fd] == [] && g.next == Reading
    requires var r := rings[s.conns[fd].buffer.value]; r.Valid() && r.Size() == size
    ensures var c := s.conns[fd];
            var f := GreetEffect(g, c.buffer.value, rings);
            var m' := Machine(AfterConnect(Greeted(s, fd, g.ktls), fd, f.w), f.rings, size);
            fd < |m'.tls.epochs|
            && Connected(StoresOf(s), m', fd, c.(ktls := g.ktls), s.flights[fd], rings[c.buffer.value], g)
  {
    hide Answered, ReadTried, React, HandleRead, ReadDeal, ApplyState, WaitsAfter, HeldAfter;
    var s1, b := Greeted(s, fd, g.ktls), s.conns[fd].buffer.value;
    var a := React(g.ktls, rings[b], g.ops, Reading, g.sqe);
    AskedToRead(s, rings, size, fd, g);
    var s2 := ApplyState(s1, fd, Reading, a.armed);
    ReadIs(s2, rings[b := a.ring], size, fd, g.first);
    PutTwice(rings, b, a.ring, ReadDeal(g.ktls, a.ring, g.first).ring);
    ReadKeepsEpochs(s2, fd, ReadDeal(g.ktls, a.ring, g.first).t);
  }

  lemma ReadKeepsEpochs<B>(s: Tls<B>, fd: nat, t: Transfer)
    requires Parallel(s) && fd < |s.conns|
    ensures HandleRead(s, fd, t).epochs == s.epochs
  {
  }

  lemma NotReading<B>(s: Tls<B>, fd: nat, t: Transfer)
    requires Parallel(s) && fd < |s.conns| && s.conns[fd].state != Reading
    ensures HandleRead(s, fd, t) == s
  {
  }

  /** The buffer a new connection gets, empty, and the pool without it. */
  ghost function NewBuffer<B>(pool: seq<B>, given: Option<New<B>>): Option<B> {
    if pool != [] then Some(pool[|pool| - 1]) else if given.Some? then Some(given.value.block) else None
  }

  ghost function NewRing<B>(pool: seq<B>, rings: map<B, Ring>, given: Option<New<B>>): Option<Ring> {
    if pool != [] then if pool[|pool| - 1] in rings then Some(rings[pool[|pool| - 1]]) else None
    else if given.Some? then Some(Ring(given.value.memory, 0, 0)) else None
  }

  ghost function Others<B>(pool: seq<B>): seq<B> { if pool == [] then [] else pool[..|pool| - 1] }

  /** A completed handshake: the record `c` gets the handle, if it has none, an empty buffer and the mode;
      on_connect is called. */
  ghost predicate Established<B>(m: Machine<B>, m': Machine<B>, fd: nat, c: Record<B>, ssl: nat,
                                 flights: seq<Flight<B>>, given: Option<New<B>>, g: Greeting)
  {
    var b, r := NewBuffer(m.tls.pool, given), NewRing(m.tls.pool, m.rings, given);
    && b.Some? && r.Some? && r.value.Valid() && r.value.Contents() == [] && fd < |m'.tls.epochs|
    && Connected(Stores(Others(m.tls.pool), m.tls.freed), m', fd,
         c.(ssl := if c.ssl.Some? then c.ssl else Some(ssl), descriptor := fd, buffer := b, op := NoTlsOp,
            ktls := g.ktls),
         flights, r.value, g)
  }

  lemma RegisteredIs<B>(s: Tls<B>, rings: map<B, Ring>, size: nat, fd: nat, ssl: nat, n: Option<New<B>>)
    requires Parallel(s) && fd < |s.conns| && StateSound(s, rings, size) && NewOk(s.pool, rings, size, n)
    requires fd in s.open && fd !in s.pending && !s.crashed && s.calls[fd] == []
    ensures Provided(s.pool, rings, n)
    ensures var b, rings1 := Granted(s.pool, n), Supplied(s.pool, rings, n);
            var s1, r := RegisterConnection(s, fd, ssl, b), NewRing(s.pool, rings, n);
            && NewBuffer(s.pool, n) == Some(b) && Ready(s1, rings1, fd) && r == Some(rings1[b])
            && r.value.Valid() && r.value.Size() == size && r.value.Contents() == []
            && StoresOf(s1) == Stores(Others(s.pool), s.freed) && s1.flights == s.flights && s1.calls == s.calls
            && s1.epochs == s.epochs && s1.conns[fd].buffer == Some(b)
            && s1.conns[fd] == s.conns[fd].(ssl := if s.conns[fd].ssl.Some? then s.conns[fd].ssl else Some(ssl),
                                            descriptor := fd, buffer := Some(b), op := NoTlsOp)
  {
    var r := NewRing(s.pool, rings, n).value;
    assert EmptyRing(r) && r.Valid();
    assert r.Count() == 0;
  }

  lemma CompleteIs<B>(m: Machine<B>, s: Tls<B>, fd: nat, ssl: nat, n: Option<New<B>>, g: Greeting)
    requires Parallel(s) && fd < |s.conns| && StateSound(s, m.rings, m.size) && NewOk(s.pool, m.rings, m.size, n)
    requires fd in s.open && fd !in s.pending && !s.crashed && s.calls[fd] == []
    requires s.pool == m.tls.pool && s.freed == m.tls.freed
    ensures Provided(s.pool, m.rings, n)
    ensures var met := ShakeEffect(s.pool, m.rings, ShakeDone(g), n);
            var m' := Machine(TlsModel.Complete(s, fd, ssl, met.h.welcome), met.rings, m.size);
            Established(m, m', fd, s.conns[fd], ssl, s.flights[fd], n, g)
  {
    hide Connected, GreetEffect, StateSound, NewOk, AfterConnect, Ready;
    RegisteredIs(s, m.rings, m.size, fd, ssl, n);
    var b, rings1 := Granted(s.pool, n), Supplied(s.pool, m.rings, n);
    var s1 := RegisterConnection(s, fd, ssl, b);
    GivenBack(g, b, rings1, s1, fd);
    if g.next == Reading {
      ConnectRead(s1, rings1, m.size, fd, g);
    } else {
      ConnectOther(s1, rings1, m.size, fd, g);
    }
  }

  lemma GivenBack<B>(g: Greeting, b: B, rings: map<B, Ring>, s: Tls<B>, fd: nat)
    requires Ready(s, rings, fd) && s.conns[fd].buffer == Some(b) && rings[b].Valid()
    ensures GreetEffect(g, b, rings).w.block == b && GreetEffect(g, b, rings).w.ktls == g.ktls
  {
  }

  /** What there is of `fd`, or would be, had the table an entry for it. */
  ghost function RecordAt<B>(s: Tls<B>, fd: nat): Record<B> { if fd < |s.conns| then s.conns[fd] else EmptyRecord() }

  ghost function FlightsAt<B>(s: Tls<B>, fd: nat): seq<Flight<B>> { if fd < |s.flights| then s.flights[fd] else [] }

  /** A handshake that wants input is pending and polled; one that failed is freed and closed. */
  ghost predicate Pending<B>(k: Stores<B>, m': Machine<B>, fd: nat, c: Record<B>, calls: seq<Call>,
                             flights: seq<Flight<B>>, sqe: bool)
  {
    && Parallel(m'.tls) && fd < |m'.tls.conns| && fd in m'.tls.open && fd in m'.tls.pending
    && StoresOf(m'.tls) == k && m'.tls.calls[fd] == calls
    && m'.tls.conns[fd] == c.(op := if sqe then PollIn else HandshakePoll)
    && m'.tls.flights[fd] == if sqe then flights + [Flight(PollInDone, m'.tls.epochs[fd], None)] else flights
  }

  ghost predicate Refused<B>(k: Stores<B>, m': Machine<B>, fd: nat, c: Record<B>, ssl: nat, calls: seq<Call>,
                             flights: seq<Flight<B>>)
  {
    && Parallel(m'.tls) && fd < |m'.tls.conns| && fd !in m'.tls.open && fd !in m'.tls.pending
    && StoresOf(m'.tls) == Stores(k.pool, k.freed + [ssl]) && m'.tls.calls[fd] == calls
    && m'.tls.conns[fd] == c && m'.tls.flights[fd] == flights
  }

  /** What an accept makes of its descriptor. */
  ghost predicate Arrived<B>(m: Machine<B>, m': Machine<B>, x: Input<B>)
    requires x.Accepts?
  {
    var s, fd := m.tls, x.fd;
    var c, f := RecordAt(s, fd), FlightsAt(s, fd);
    match x.h
    case ShakeDone(g) => Established(m, m', fd, c, x.ssl, f, x.given, g)
    case ShakeWants =>
      Pending(StoresOf(s), m', fd, c.(ssl := Some(x.ssl), descriptor := fd), [], f, x.sqe) && m'.rings == m.rings
    case ShakeFails => Refused(StoresOf(s), m', fd, c, x.ssl, [], f) && m'.rings == m.rings
  }

  lemma StartIs<B>(m: Machine<B>, s: Tls<B>, x: Input<B>)
    requires Parallel(s) && x.Accepts? && x.fd < |s.conns| && StateSound(s, m.rings, m.size) && !s.crashed
    requires x.fd !in s.open && x.fd !in s.pending && StoresOf(s) == StoresOf(m.tls)
    requires s.conns[x.fd] == RecordAt(m.tls, x.fd) && s.flights[x.fd] == FlightsAt(m.tls, x.fd)
    requires x.h.ShakeDone? ==> NewOk(s.pool, m.rings, m.size, x.given)
    ensures x.h.ShakeDone? ==> Provided(s.pool, m.rings, x.given)
    ensures var met := ShakeEffect(s.pool, m.rings, x.h, x.given);
            Arrived(m, Machine(StartHandshake(s, x.fd, x.ssl, met.h, x.sqe), met.rings, m.size), x)
  {
    hide Established, StateSound, NewOk, TlsModel.Complete, GreetEffect, Provided;
    if x.h.ShakeDone? {
      var s1 := Shaken(Accepted(s, x.fd, x.ssl));
      SoundSame(s, s1, m.rings, m.size);
      CompleteIs(m, s1, x.fd, x.ssl, x.given, x.h.greeting);
    }
  }

  lemma SoundSame<B>(s: Tls<B>, s1: Tls<B>, rings: map<B, Ring>, size: nat)
    requires StateSound(s, rings, size) && s1.pool == s.pool && s1.buffers == s.buffers
    ensures StateSound(s1, rings, size)
  {
  }

  lemma GrownIs<B>(s: Tls<B>, fd: nat)
    requires Inv(s) && fd !in s.open
    ensures var s1 := Grow(s, fd);
            && Parallel(s1) && fd < |s1.conns| && s1.conns[fd] == RecordAt(s, fd) && s1.flights[fd] == FlightsAt(s, fd)
            && StoresOf(s1) == StoresOf(s) && s1.buffers == s.buffers && s1.open == s.open && fd !in s1.pending
            && s1.crashed == s.crashed
  {
  }

  /** After every accept: a completed handshake gives the connection an empty buffer and calls on_connect;
      one that wants input is polled; a failed one is freed and closed. */
  lemma AcceptAnswered<B>(m: Machine<B>, x: Input<B>)
    requires MachineOk(m) && Inv(m.tls) && MayGive(m, x) && x.Accepts?
    ensures Arrived(m, Step(m, x), x)
  {
    hide Arrived, StartHandshake, ShakeEffect, Provided, NewOk, Grow, RecordsOk, OwnersOk, Sound;
    GrownIs(m.tls, x.fd);
    SoundIs(m);
    SoundSame(m.tls, Grow(m.tls, x.fd), m.rings, m.size);
    StartIs(m, Grow(m.tls, x.fd), x);
  }

  /** The table grows exactly as far as the descriptor that accept returned, by empty records. */
  lemma TableGrows<B>(m: Machine<B>, x: Input<B>)
    requires MachineOk(m) && MayGive(m, x) && x.Accepts?
    ensures var s, s' := m.tls, Step(m, x).tls;
            && |s'.conns| == (if x.fd < |s.conns| then |s.conns| else x.fd + 1)
            && (forall f :: |s.conns| <= f < x.fd ==> s'.conns[f] == Record(-1, None, None, false, NoTlsOp, Idle))
            && (forall f :: 0 <= f < |s.conns| && f != x.fd ==> s'.conns[f] == s.conns[f])
  {
    hide ShakeEffect, HandleAccept;
    var met := ShakeEffect(m.tls.pool, m.rings, x.h, x.given);
    GrownTable(m.tls, x.fd, x.ssl, met.h, x.sqe);
  }

  lemma GrownTable<B>(s: Tls<B>, fd: nat, ssl: nat, h: Handshake<B>, sqe: bool)
    requires Parallel(s)
    ensures var s' := HandleAccept(s, fd, ssl, h, sqe);
            && |s'.conns| == (if fd < |s.conns| then |s.conns| else fd + 1)
            && (forall f :: |s.conns| <= f < fd ==> s'.conns[f] == Record(-1, None, None, false, NoTlsOp, Idle))
            && (forall f :: 0 <= f < |s.conns| && f != fd ==> s'.conns[f] == s.conns[f])
  {
    hide StartHandshake;
    AcceptNear(s, fd, ssl, h, sqe);
    var s1, s' := Grow(s, fd), HandleAccept(s, fd, ssl, h, sqe);
    forall f | 0 <= f < |s1.conns| && f != fd
      ensures s'.conns[f] == s1.conns[f]
    {
      assert SameAt(s1, s', f);
    }
  }

  lemma SoundIs<B>(m: Machine<B>)
    requires MachineOk(m)
    ensures StateSound(m.tls, m.rings, m.size)
  {
  }

  // ---- Completions ----

  /** The operation is over and nothing else happens. */
  ghost predicate Ignored<B>(m: Machine<B>, m': Machine<B>, fd: nat, rest: seq<Flight<B>>) {
    fd < |m.tls.flights| && m' == m.(tls := m.tls.(flights := m.tls.flights[fd := rest]))
  }

  /** A retried handshake. */
  ghost predicate Retried<B>(m: Machine<B>, m': Machine<B>, x: Input<B>, rest: seq<Flight<B>>)
    requires x.Completes? && Parallel(m.tls) && x.fd < |m.tls.conns| && m.tls.conns[x.fd].ssl.Some?
  {
    var s, fd := m.tls, x.fd;
    var c := s.conns[fd];
    match x.h
    case ShakeDone(g) => Established(m, m', fd, c, c.ssl.value, rest, x.given, g)
    case ShakeWants => Pending(StoresOf(s), m', fd, c, s.calls[fd], rest, x.io.sqe) && m'.rings == m.rings
    case ShakeFails =>
      Refused(StoresOf(s), m', fd, c.(ssl := None), c.ssl.value, s.calls[fd], rest) && m'.rings == m.rings
  }

  /** A completion of an established connection: of its kind `kind` and result `res`. */
  ghost predicate Served<B>(m: Machine<B>, m': Machine<B>, fd: nat, kind: Kind, res: int, io: Io, rest: seq<Flight<B>>)
    requires Parallel(m.tls) && Live(m.tls, fd) && m.tls.conns[fd].buffer.value in m.rings
    requires m.rings[m.tls.conns[fd].buffer.value].Valid() && Fits(m.tls.conns[fd], m.rings, kind, res)
  {
    var s, k, c := m.tls, StoresOf(m.tls), m.tls.conns[fd];
    var r, calls, w := m.rings[c.buffer.value], s.calls[fd], Waits(rest, c.op);
    fd < |m'.tls.epochs| &&
    if kind == RecvDone && c.op == RecvKtls && res > 0 then ReceiveOver(k, m', fd, c, calls, w, r, res, io)
    else if kind == SendDone && c.op == SendKtls && res > 0 then SendOver(k, m', fd, c, calls, w, r, res, io)
    else if kind == PollInDone && c.op == PollIn && c.state == Reading then ReadTried(k, m', fd, c, calls, w, r, io)
    else if kind == PollOutDone && c.op == PollOut && c.state == Writing then WriteTried(k, m', fd, c, calls, w, r, io)
    else Ignored(m, m', fd, rest)
  }

  /** What a completion makes of its descriptor. */
  ghost predicate Finished<B>(m: Machine<B>, m': Machine<B>, x: Input<B>)
    requires MachineOk(m) && Inv(m.tls) && MayGive(m, x) && x.Completes?
  {
    var s, fd := m.tls, x.fd;
    var c, kind, rest := s.conns[fd], s.flights[fd][x.i].kind, Without(s.flights[fd], x.i);
    if x.res < 0 && !x.again then Gone(StoresOf(s), m', fd, c, s.calls[fd], rest)
    else if fd in s.pending then c.ssl.Some? && Retried(m, m', x, rest)
    else if c.buffer.Some? then Served(m, m', fd, kind, x.res, x.io, rest)
    else if NullUse(s, fd, kind, x.res, x.again) then m'.tls.crashed
    else Ignored(m, m', fd, rest)
  }

  lemma RemovedIs<B>(s: Tls<B>, rings: map<B, Ring>, size: nat, fd: nat)
    requires Parallel(s) && fd < |s.conns| && !s.crashed
    ensures var m' := Machine(RemoveConnection(s, fd), rings, size);
            Gone(StoresOf(s), m', fd, s.conns[fd], s.calls[fd], s.flights[fd])
  {
  }

  lemma RetryIs<B>(m: Machine<B>, s: Tls<B>, x: Input<B>)
    requires x.Completes? && Parallel(s) && Parallel(m.tls) && x.fd < |s.conns| && |m.tls.conns| == |s.conns|
    requires StateSound(s, m.rings, m.size) && !s.crashed && x.fd in s.pending && x.fd in s.open
    requires s.conns == m.tls.conns
    requires StoresOf(s) == StoresOf(m.tls) && s.conns[x.fd].ssl.Some?
    requires s.calls == m.tls.calls && s.calls[x.fd] == []
    requires x.h.ShakeDone? ==> NewOk(s.pool, m.rings, m.size, x.given)
    ensures x.h.ShakeDone? ==> Provided(s.pool, m.rings, x.given)
    ensures var met := ShakeEffect(s.pool, m.rings, x.h, x.given);
            var m' := Machine(RetryHandshake(s, x.fd, met.h, x.io.sqe), met.rings, m.size);
            Retried(m, m', x, s.flights[x.fd])
  {
    hide Established, StateSound, NewOk, TlsModel.Complete, GreetEffect, Provided;
    if x.h.ShakeDone? {
      var s1 := Shaken(s.(pending := s.pending - {x.fd}));
      SoundSame(s, s1, m.rings, m.size);
      CompleteIs(m, s1, x.fd, s.conns[x.fd].ssl.value, x.given, x.h.greeting);
    }
  }

  /** The handler that kind and `op` select. */
  lemma DispatchIs<B>(m: Machine<B>, s: Tls<B>, fd: nat, kind: Kind, res: int, again: bool, io: Io)
    requires Ready(s, m.rings, fd) && Live(m.tls, fd) && Parallel(m.tls) && (res >= 0 || again)
    requires s == m.tls.(flights := m.tls.flights[fd := s.flights[fd]])
    requires var r := m.rings[s.conns[fd].buffer.value]; r.Valid() && r.Size() == m.size
    requires Fits(s.conns[fd], m.rings, kind, res)
    ensures var f := DispatchEffect(s.conns[fd], m.rings, kind, res, io);
            var m' := Machine(Completion(s, fd, kind, res, again, WantRead, f.t), f.rings, m.size);
            Served(m, m', fd, kind, res, io, s.flights[fd])
  {
    hide ReceiveOver, SendOver, ReadTried, WriteTried, KtlsEffect, KtlsReceived, KtlsSent;
    match kind
    case RecvDone =>
      if res > 0 && s.conns[fd].op == RecvKtls {
        ReceivedIs(s, m.rings, m.size, fd, res, io);
      }
    case SendDone =>
      if res > 0 && s.conns[fd].op == SendKtls {
        SentIs(s, m.rings, m.size, fd, res, io);
      }
    case PollInDone =>
      if s.conns[fd].op == PollIn && s.conns[fd].state == Reading {
        ReadIs(s, m.rings, m.size, fd, io);
      }
    case PollOutDone =>
      if s.conns[fd].op == PollOut && s.conns[fd].state == Writing {
        WriteIs(s, m.rings, m.size, fd, io);
      }
  }

  ghost predicate FullSize<B>(m: Machine<B>, b: B) {
    b in m.rings && m.rings[b].Valid() && m.rings[b].Size() == m.size
  }

  /** What the invariant says of the descriptor that an operation completed for. */
  lemma SubjectIs<B>(m: Machine<B>, x: Input<B>)
    requires MachineOk(m) && Inv(m.tls) && MayGive(m, x) && x.Completes?
    ensures var s1 := Landed(m.tls, x.fd, x.i);
            && WellFormed(s1) && StoresOf(s1) == StoresOf(m.tls) && StateSound(s1, m.rings, m.size)
            && (x.fd in s1.pending ==> x.fd in s1.open && s1.conns[x.fd].ssl.Some? && s1.calls[x.fd] == [])
            && (x.fd in s1.pending ==> s1.conns[x.fd].buffer.None?)
            && (s1.conns[x.fd].buffer.Some? ==> Ready(s1, m.rings, x.fd) && FullSize(m, s1.conns[x.fd].buffer.value))
            && (s1.conns[x.fd].buffer.None? && x.fd !in s1.pending ==> x.fd !in s1.open)
  {
    assert RecordOk(m.tls.conns[x.fd], m.tls.calls[x.fd], x.fd in m.tls.pending);
  }

  lemma StepCompletes<B>(m: Machine<B>, x: Input<B>)
    requires MachineOk(m) && MayGive(m, x) && x.Completes?
    ensures var s, s1, kind := m.tls, Landed(m.tls, x.fd, x.i), m.tls.flights[x.fd][x.i].kind;
            var r := FinishEffect(s.pool, s.conns[x.fd], x.fd in s.pending, m.rings, kind, x.res, x.again, x.h, x.io,
                                  x.given);
            && (x.fd in s1.pending ==> s1.conns[x.fd].ssl.Some?)
            && Step(m, x) == Machine(Completion(s1, x.fd, kind, x.res, x.again, r.h, r.t), r.rings, m.size)
  {
  }

  /** After every completion: a failed one closes; a pending handshake is retried; an established
      connection is served by the handler of the operation it waits for, and by no other; and a stale
      one changes nothing, or is the fault. */
  lemma CompletionAnswered<B>(m: Machine<B>, x: Input<B>)
    requires MachineOk(m) && Inv(m.tls) && MayGive(m, x) && x.Completes?
    ensures Finished(m, Step(m, x), x)
  {
    hide RecordsOk, OwnersOk, Sound, Gone, Retried, Served, RetryHandshake, DispatchEffect, ShakeEffect, Provided;
    hide NewOk, Fits, RemoveConnection, KtlsReceived, KtlsSent, HandleRead, HandleWrite, Step;
    var s1, kind := Landed(m.tls, x.fd, x.i), m.tls.flights[x.fd][x.i].kind;
    SubjectIs(m, x);
    StepCompletes(m, x);
    if x.res < 0 && !x.again {
      RemovedIs(s1, Emptied(s1.conns[x.fd].buffer, m.rings), m.size, x.fd);
    } else if x.fd in m.tls.pending {
      RetryIs(m, s1, x);
    } else if m.tls.conns[x.fd].buffer.Some? {
      DispatchIs(m, s1, x.fd, kind, x.res, x.again, x.io);
    } else {
      FlightsInv(m.tls, s1.flights);
      NothingDealt(s1.conns[x.fd], m.rings, kind, x.res, x.io);
      var t := DispatchEffect(s1.conns[x.fd], m.rings, kind, x.res, x.io).t;
      DeadCompletionIs(s1, x.fd, kind, x.res, x.again, WantRead, t);
    }
  }

  lemma NothingDealt<B>(c: Record<B>, rings: map<B, Ring>, kind: Kind, res: int, io: Io)
    requires Backed(c.buffer, rings) && Fits(c, rings, kind, res) && c.buffer.None?
    ensures DispatchEffect(c, rings, kind, res, io).rings == rings
  {
  }

  // ---- A callback's answer ----

  /** A callback runs, as the calls recorded say. */
  ghost predicate Calls<B>(m: Machine<B>, m': Machine<B>, f: nat) {
    f < |m.tls.calls| && f < |m'.tls.calls| && |m'.tls.calls[f]| == |m.tls.calls[f]| + 1
  }

  lemma LiveRecord<B>(s: Tls<B>, fd: nat)
    requires Inv(s) && Live(s, fd)
    ensures RecordOk(s.conns[fd], s.calls[fd], fd in s.pending)
  {
  }

  lemma StepServes<B>(m: Machine<B>, x: Input<B>)
    requires MachineOk(m) && Inv(m.tls) && MayGive(m, x) && x.Completes?
    requires Live(m.tls, x.fd) && Live(Step(m, x).tls, x.fd)
    ensures MachineOk(Step(m, x)) && Step(m, x).size == m.size && FullSize(m, m.tls.conns[x.fd].buffer.value)
    ensures Served(m, Step(m, x), x.fd, m.tls.flights[x.fd][x.i].kind, x.res, x.io, Without(m.tls.flights[x.fd], x.i))
  {
    hide Step, RecordsOk, OwnersOk, Served, Retried;
    CompletionAnswered(m, x);
    StepSound(m, x);
    StepCompletes(m, x);
    LiveRecord(m.tls, x.fd);
  }

  /** The connection has the state `next` and waits for it, unless the submission did not go through. */
  ghost predicate WaitsForAnswer<B>(m': Machine<B>, fd: nat, c: Record<B>, rest: seq<Flight<B>>, next: ElState,
                                    sqe: bool)
    requires Parallel(m'.tls) && fd < |m'.tls.conns| && c.buffer.Some? && c.buffer.value in m'.rings
    requires m'.rings[c.buffer.value].Valid()
  {
    var c', flights, epoch := m'.tls.conns[fd], m'.tls.flights[fd], m'.tls.epochs[fd];
    var held := |m'.rings[c.buffer.value].Contents()|;
    && c'.state == next && c'.buffer == c.buffer && c'.ktls == c.ktls
    && (next == Reading && sqe && !c.ktls ==> c'.op == PollIn && flights == rest + [Flight(PollInDone, epoch, None)])
    && (next == Writing && sqe && !c.ktls ==> c'.op == PollOut && flights == rest + [Flight(PollOutDone, epoch, None)])
    && (next == Reading && sqe && c.ktls && held < m'.size ==>
          c'.op == RecvKtls && flights == rest + [Flight(RecvDone, epoch, c.buffer)])
    && (next == Writing && sqe && c.ktls && 0 < held < m'.size ==>
          c'.op == SendKtls && flights == rest + [Flight(SendDone, epoch, c.buffer)])
  }

  lemma AnsweredWaits<B>(k: Stores<B>, m': Machine<B>, fd: nat, c: Record<B>, calls: seq<Call>, w: Waits<B>,
                         held: seq<byte>, ops: seq<BufferOp>, next: ElState, sqe: bool)
    requires c.buffer.Some? && fd < |m'.tls.epochs| && Live(m'.tls, fd)
    requires Answered(k, m', fd, c, calls, w, held, ops, next, sqe)
    ensures Holding(m', c.buffer, HeldAfter(held, m'.size, ops)) && Parallel(m'.tls)
    ensures WaitsForAnswer(m', fd, c, w.flights, next, sqe)
  {
    hide HeldAfter;
  }

  lemma ServedWaits<B>(m: Machine<B>, m': Machine<B>, fd: nat, kind: Kind, res: int, io: Io, rest: seq<Flight<B>>)
    requires Parallel(m.tls) && Live(m.tls, fd) && FullSize(m, m.tls.conns[fd].buffer.value)
    requires OpFits(m.tls.conns[fd].op, m.tls.conns[fd].ktls) && Fits(m.tls.conns[fd], m.rings, kind, res)
    requires Served(m, m', fd, kind, res, io, rest) && Live(m'.tls, fd) && Calls(m, m', fd)
    ensures var c := m.tls.conns[fd];
            && Parallel(m'.tls) && c.buffer.value in m'.rings && m'.rings[c.buffer.value].Valid()
            && WaitsForAnswer(m', fd, c, rest, io.next, io.sqe)
  {
    hide HeldAfter, ReadRest, WriteRest, WaitsAfter, Answered, WaitsForAnswer, Behind;
    var k, c, calls := StoresOf(m.tls), m.tls.conns[fd], m.tls.calls[fd];
    var r, w := m.rings[c.buffer.value], Waits(rest, c.op);
    var c0, w0 := c.(op := NoTlsOp), w.(op := NoTlsOp);
    match kind
    case RecvDone =>
      if c.op == RecvKtls && res > 0 {
        AnsweredWaits(k, m', fd, c0, calls + [OnRead], w0, r.Contents() + Behind(r, res), io.ops, io.next, io.sqe);
        SameWaits(m', fd, c0, c, rest, io);
      }
    case SendDone =>
      if c.op == SendKtls && res > 0 {
        AnsweredWaits(k, m', fd, c0, calls + [OnWrite], w0, [], io.ops, io.next, io.sqe);
        SameWaits(m', fd, c0, c, rest, io);
      }
    case PollInDone =>
      if c.op == PollIn && c.state == Reading {
        var e := ReadRest(r, io.answers, 0);
        var q := r.Contents() + Slice(io.plain, 0, e.moved);
        AnsweredWaits(k, m', fd, c, calls + [OnRead], w, q, io.ops, io.next, io.sqe);
      }
    case PollOutDone =>
      if c.op == PollOut && c.state == Writing {
        var e := WriteRest(r, io.answers, 0);
        var o := if e.error then OnError else OnWrite;
        AnsweredWaits(k, m', fd, c, calls + [o], w, r.Contents()[e.taken..], io.ops, io.next, io.sqe);
      }
  }

  lemma SameWaits<B>(m': Machine<B>, fd: nat, c: Record<B>, c0: Record<B>, rest: seq<Flight<B>>, io: Io)
    requires Parallel(m'.tls) && fd < |m'.tls.conns| && c.buffer.Some? && c.buffer.value in m'.rings
    requires m'.rings[c.buffer.value].Valid() && c0.buffer == c.buffer && c0.ktls == c.ktls
    requires WaitsForAnswer(m', fd, c, rest, io.next, io.sqe)
    ensures WaitsForAnswer(m', fd, c0, rest, io.next, io.sqe)
  {
  }

  /** Whatever completion a callback of a live connection ran in, its answer is the state, and what it
      waits for is submitted: after `read` input, after `write` output. */
  lemma AnswerIsWaitedFor<B>(m: Machine<B>, x: Input<B>)
    requires MachineOk(m) && Inv(m.tls) && MayGive(m, x) && x.Completes?
    requires Live(m.tls, x.fd) && Live(Step(m, x).tls, x.fd)
    requires Calls(m, Step(m, x), x.fd)
    ensures var m', c := Step(m, x), m.tls.conns[x.fd];
            && Parallel(m'.tls) && c.buffer.value in m'.rings && m'.rings[c.buffer.value].Valid()
            && WaitsForAnswer(m', x.fd, c, Without(m.tls.flights[x.fd], x.i), x.io.next, x.io.sqe)
  {
    hide RecordsOk, OwnersOk, Sound, Step, WaitsForAnswer, Served;
    StepServes(m, x);
    LiveRecord(m.tls, x.fd);
    ServedWaits(m, Step(m, x), x.fd, m.tls.flights[x.fd][x.i].kind, x.res, x.io, Without(m.tls.flights[x.fd], x.i));
  }

  // ---- Runs ----

  /** Every step of every run is one of these. */
  lemma RunAnswered<B>(trace: seq<Machine<B>>, inputs: seq<Input<B>>, n: nat)
    requires IsMachineRun(trace, inputs) && n < |inputs|
    ensures MachineOk(trace[n]) && Inv(trace[n].tls) && MayGive(trace[n], inputs[n])
    ensures if inputs[n].Accepts? then Arrived(trace[n], trace[n + 1], inputs[n])
            else Finished(trace[n], trace[n + 1], inputs[n])
  {
    hide MachineOk, MayGive, Step, Inv, Init, IsRun, Arrived, Finished;
    RunIs(trace, inputs);
    assert StepsTo(trace[n], inputs[n], trace[n + 1]);
    if inputs[n].Accepts? {
      AcceptAnswered(trace[n], inputs[n]);
    } else {
      CompletionAnswered(trace[n], inputs[n]);
    }
  }
}
