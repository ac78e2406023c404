/** The TLS loop together with its buffers. What the TLS library, the peer, the kernel and the
    callbacks give is input; what each handler finds, which callback it runs on which bytes, what it
    submits and what it leaves in the buffer follows from the input and the buffer. */
module TlsMachine {
  import opened Bits
  import opened LoopModel
  import opened RingValue
  import opened SslLoops
  import opened TlsModel
  import opened TlsSafety
  import opened TlsTransfer

  // What the TLS library answers during one attempt, how the callback it leads to uses the buffer,
  // the state it returns, and whether a submission entry is free then.
  datatype Io = Io(answers: Answers, plain: Plain, ops: seq<BufferOp>, next: ElState, sqe: bool)

  // What a completed handshake leads to: KTLS or not, on_connect, and a first read.
  datatype Greeting = Greeting(ktls: bool, ops: seq<BufferOp>, next: ElState, sqe: bool, first: Io)

  // SSL_do_handshake's answer.
  datatype Shake = ShakeDone(greeting: Greeting) | ShakeWants | ShakeFails

  // ---- One connection's buffer ----

  /** A buffer after a callback's uses of it. */
  ghost function Used(r: Ring, ops: seq<BufferOp>): (u: Ring)
    requires r.Valid()
    ensures u.Valid() && u.Size() == r.Size()
    decreases |ops|
  {
    if ops == [] then r
    else
      var l: Local<nat> := Local(Conn(-1, None, Idle, NoOp), r, [], NO_WIRE);
      TouchValid(l, ops[0]);
      Used(Touch(l, ops[0]).ring, ops[1..])
  }

  /** Whether the submission that a state asks for goes through: under KTLS there must be room to
      receive, or bytes to send in a buffer that is not full. */
  ghost predicate Armed(ktls: bool, r: Ring, next: ElState, sqe: bool)
    requires r.Valid()
  {
    && sqe && (next == Reading || next == Writing)
    && (ktls ==> if next == Reading then r.FreeSpace() > 0 else 0 < r.Count() < r.Size())
  }

  // What a callback leads to: whether something was submitted, and the buffer left behind.
  datatype Reaction = Reaction(armed: bool, ring: Ring)

  /** A callback uses the buffer `r` and answers `next`; die empties the buffer. */
  ghost function React(ktls: bool, r: Ring, ops: seq<BufferOp>, next: ElState, sqe: bool): (a: Reaction)
    requires r.Valid()
    ensures a.ring.Valid() && a.ring.Size() == r.Size()
  {
    var u := Used(r, ops);
    Reaction(Armed(ktls, u, next, sqe), if next == Die then u.Reset() else u)
  }

  // What a handler met and led to, and the buffer it leaves behind.
  datatype Deal = Deal(t: Transfer, ring: Ring)

  /** A handler that runs no callback and submits nothing. */
  function Nothing(io: Io): Transfer { Transfer(false, false, false, false, io.next, false) }

  ghost function Reacted(ktls: bool, t: Transfer, r: Ring, ops: seq<BufferOp>, next: ElState, sqe: bool): (d: Deal)
    requires r.Valid()
    ensures d.ring.Valid() && d.ring.Size() == r.Size()
  {
    var a := React(ktls, r, ops, next, sqe);
    Deal(t.(armed := a.armed), a.ring)
  }

  /** The read loop's end; under KTLS there is none, the kernel has received already. */
  ghost function ReadEndOf(ktls: bool, r: Ring, io: Io): (e: ReadEnd)
    requires r.Valid()
    ensures e.moved <= r.FreeSpace()
  {
    if ktls then ReadEnd(0, 0, false, false) else ReadRest(r, io.answers, 0)
  }

  /** The buffer as on_read finds it. */
  ghost function Found(ktls: bool, r: Ring, io: Io): (seen: Ring)
    requires r.Valid()
    ensures seen.Valid() && seen.Size() == r.Size()
  {
    var d := Slice(io.plain, 0, ReadEndOf(ktls, r, io).moved);
    AppendContents(r, d);
    if ktls then r else r.Append(d)
  }

  /** What an attempt to read meets: bytes were read, or lie there already under KTLS. */
  ghost function ReadTry(ktls: bool, r: Ring, io: Io): Transfer
    requires r.Valid()
  {
    var e := ReadEndOf(ktls, r, io);
    Transfer(if ktls then r.Count() > 0 else e.moved > 0, e.error, e.want, false, io.next, false)
  }

  /** handle_read. */
  ghost function ReadDeal(ktls: bool, r: Ring, io: Io): (d: Deal)
    requires r.Valid()
    ensures d.ring.Valid() && d.ring.Size() == r.Size()
  {
    var t, seen := ReadTry(ktls, r, io), Found(ktls, r, io);
    if t.error then Deal(t, seen.Reset())
    else if t.got then Reacted(ktls, t, seen, io.ops, io.next, io.sqe)
    else Deal(t.(armed := t.want && io.sqe), seen)
  }

  /** The buffer as on_write or on_error finds it. */
  ghost function Left(r: Ring, io: Io): (seen: Ring)
    requires r.Valid()
    ensures seen.Valid() && seen.Size() == r.Size()
  {
    var n := WriteRest(r, io.answers, 0).taken;
    AdvanceHeadContents(r, n);
    r.AdvanceHead(n)
  }

  ghost function WriteTry(r: Ring, io: Io): Transfer
    requires r.Valid()
  {
    var e := WriteRest(r, io.answers, 0);
    Transfer(false, e.error, e.want, Left(r, io).Contents() == [], io.next, false)
  }

  /** handle_write: an error calls on_error, and is the end under KTLS whatever it answers; an empty
      buffer calls on_write; otherwise the socket is waited for. */
  ghost function WriteDeal(ktls: bool, r: Ring, io: Io): (d: Deal)
    requires r.Valid()
    ensures d.ring.Valid() && d.ring.Size() == r.Size()
  {
    var t, seen := WriteTry(r, io), Left(r, io);
    if t.error then Reacted(ktls, t, seen, io.ops, if ktls then Die else io.next, io.sqe)
    else if t.drained then Reacted(ktls, t, seen, io.ops, io.next, io.sqe)
    else Deal(t.(armed := t.want && !ktls && io.sqe), seen)
  }

  /** A KTLS receive of `res` bytes. */
  ghost function ReceivedDeal(ktls: bool, r: Ring, res: nat, io: Io): (d: Deal)
    requires r.Valid() && res <= r.FreeSpace()
    ensures d.ring.Valid() && d.ring.Size() == r.Size()
  {
    AdvanceTailValid(r, res);
    Reacted(ktls, Nothing(io).(got := true), r.AdvanceTail(res), io.ops, io.next, io.sqe)
  }

  /** A KTLS send of `res` bytes: on_write if these were all, and the rest is submitted otherwise. */
  ghost function SentDeal(ktls: bool, r: Ring, res: nat, io: Io): (d: Deal)
    requires r.Valid() && res <= r.Count()
    ensures d.ring.Valid() && d.ring.Size() == r.Size()
  {
    AdvanceHeadContents(r, res);
    var seen := r.AdvanceHead(res);
    if res == r.Count() then Reacted(ktls, Nothing(io).(drained := true), seen, io.ops, io.next, io.sqe)
    else Deal(Nothing(io).(armed := Armed(true, seen, Writing, io.sqe)), seen)
  }

  // ---- All buffers ----

  // What a handler makes of a transfer, and the buffers afterwards.
  datatype Effect<B> = Effect(t: Transfer, rings: map<B, Ring>)

  ghost predicate Backed<B>(b: Option<B>, rings: map<B, Ring>) {
    b.Some? ==> b.value in rings && rings[b.value].Valid()
  }

  ghost function Dealt<B>(b: B, rings: map<B, Ring>, d: Deal): Effect<B> { Effect(d.t, rings[b := d.ring]) }

  lemma PutTwice<K, V>(m: map<K, V>, k: K, v: V, w: V)
    ensures m[k := v][k := w] == m[k := w]
  {
  }

  /** A buffer that goes back to the pool is emptied. */
  ghost function Emptied<B>(b: Option<B>, rings: map<B, Ring>): map<B, Ring> {
    if b.Some? && b.value in rings then rings[b.value := rings[b.value].Reset()] else rings
  }

  ghost function ReadEffect<B>(c: Record<B>, rings: map<B, Ring>, io: Io): Effect<B>
    requires Backed(c.buffer, rings)
  {
    if c.state != Reading || c.buffer.None? then Effect(Nothing(io), rings)
    else Dealt(c.buffer.value, rings, ReadDeal(c.ktls, rings[c.buffer.value], io))
  }

  ghost function WriteEffect<B>(c: Record<B>, rings: map<B, Ring>, io: Io): Effect<B>
    requires Backed(c.buffer, rings)
  {
    if c.state != Writing || c.buffer.None? then Effect(Nothing(io), rings)
    else Dealt(c.buffer.value, rings, WriteDeal(c.ktls, rings[c.buffer.value], io))
  }

  /** A KTLS completion moved no more than the buffer has room for, or holds. */
  ghost predicate Fits<B>(c: Record<B>, rings: map<B, Ring>, kind: Kind, res: int)
    requires Backed(c.buffer, rings)
  {
    c.buffer.Some? && res > 0 ==>
      var r := rings[c.buffer.value];
      && (kind == RecvDone && c.op == RecvKtls ==> res <= r.FreeSpace())
      && (kind == SendDone && c.op == SendKtls ==> res <= r.Count())
  }

  /** A KTLS completion that the connection waits for. */
  ghost function KtlsEffect<B>(c: Record<B>, rings: map<B, Ring>, kind: Kind, res: nat, io: Io): Effect<B>
    requires Backed(c.buffer, rings) && Fits(c, rings, kind, res) && res > 0
    requires (kind == RecvDone && c.op == RecvKtls) || (kind == SendDone && c.op == SendKtls)
  {
    if c.buffer.None? then Effect(Nothing(io), rings)
    else if kind == RecvDone then
      Dealt(c.buffer.value, rings, ReceivedDeal(c.ktls, rings[c.buffer.value], res, io))
    else
      Dealt(c.buffer.value, rings, SentDeal(c.ktls, rings[c.buffer.value], res, io))
  }

  /** A completion of a connection that is not pending. */
  ghost function DispatchEffect<B>(c: Record<B>, rings: map<B, Ring>, kind: Kind, res: int, io: Io): Effect<B>
    requires Backed(c.buffer, rings) && Fits(c, rings, kind, res)
  {
    match kind
    case RecvDone =>
      if res > 0 && c.op == RecvKtls then KtlsEffect(c, rings, kind, res, io) else Effect(Nothing(io), rings)
    case SendDone =>
      if res > 0 && c.op == SendKtls then KtlsEffect(c, rings, kind, res, io) else Effect(Nothing(io), rings)
    case PollInDone => if c.op == PollIn then ReadEffect(c, rings, io) else Effect(Nothing(io), rings)
    case PollOutDone => if c.op == PollOut then WriteEffect(c, rings, io) else Effect(Nothing(io), rings)
  }

  // ---- Handshakes ----

  // What `new` returns, when it is called.
  datatype New<B> = New(block: B, memory: seq<byte>)

  // A greeted connection, or a handshake's answer, and the buffers afterwards.
  datatype Start<B> = Start(w: Welcome<B>, rings: map<B, Ring>)
  datatype Met<B> = Met(h: Handshake<B>, rings: map<B, Ring>)

  /** on_connect on the buffer `b`, and a first read if it asks for one. */
  ghost function GreetEffect<B>(g: Greeting, b: B, rings: map<B, Ring>): Start<B>
    requires b in rings && rings[b].Valid()
  {
    var a := React(g.ktls, rings[b], g.ops, g.next, g.sqe);
    var d := if g.next == Reading then ReadDeal(g.ktls, a.ring, g.first) else Deal(Nothing(g.first), a.ring);
    Start(Welcome(g.ktls, b, g.next, a.armed, d.t), rings[b := d.ring])
  }

  /** There is a buffer for a new connection. */
  ghost predicate Provided<B>(pool: seq<B>, rings: map<B, Ring>, n: Option<New<B>>) {
    if pool != [] then pool[|pool| - 1] in rings && rings[pool[|pool| - 1]].Valid()
    else n.Some? && IsCapacity(|n.value.memory|)
  }

  /** `new` is called if the pool is empty, and returns a pointer that is not in use. */
  ghost predicate NewOk<B>(pool: seq<B>, rings: map<B, Ring>, size: nat, n: Option<New<B>>) {
    pool == [] ==> n.Some? && |n.value.memory| == size && n.value.block !in rings
  }

  /** It is the pool's last, or a new one. */
  ghost function Granted<B>(pool: seq<B>, n: Option<New<B>>): B
    requires pool == [] ==> n.Some?
  {
    if pool != [] then pool[|pool| - 1] else n.value.block
  }

  ghost function Supplied<B>(pool: seq<B>, rings: map<B, Ring>, n: Option<New<B>>): map<B, Ring>
    requires pool == [] ==> n.Some?
  {
    if pool != [] then rings else rings[n.value.block := Ring(n.value.memory, 0, 0)]
  }

  ghost function ShakeEffect<B>(pool: seq<B>, rings: map<B, Ring>, h: Shake, n: Option<New<B>>): Met<B>
    requires h.ShakeDone? ==> Provided(pool, rings, n)
  {
    match h
    case ShakeDone(g) =>
      var s := GreetEffect(g, Granted(pool, n), Supplied(pool, rings, n));
      Met(Done(s.w), s.rings)
    case ShakeWants => Met(WantRead, rings)
    case ShakeFails => Met(Failed, rings)
  }

  // ---- The machine ----

  datatype Machine<B> = Machine(tls: Tls<B>, rings: map<B, Ring>, size: nat)

  // accept returned a descriptor, or the i-th outstanding operation of `fd` completed.
  datatype Input<B> =
    | Accepts(fd: nat, ssl: nat, h: Shake, sqe: bool, given: Option<New<B>>)
    | Completes(fd: nat, i: nat, res: int, again: bool, h: Shake, io: Io, given: Option<New<B>>)

  ghost predicate EmptyRing(r: Ring) { r.head == 0 == r.tail }

  /** Every buffer is on the heap with its size, and the pooled ones are empty. */
  ghost predicate Sound<B>(pool: seq<B>, buffers: set<B>, rings: map<B, Ring>, size: nat) {
    && IsCapacity(size) && rings.Keys == buffers
    && (forall b :: b in rings ==> rings[b].Valid() && rings[b].Size() == size)
    && (forall i :: 0 <= i < |pool| ==> pool[i] in rings && EmptyRing(rings[pool[i]]))
  }

  ghost predicate MachineOk<B>(m: Machine<B>) {
    && Sound(m.tls.pool, m.tls.buffers, m.rings, m.size)
    && forall fd :: 0 <= fd < |m.tls.conns| && m.tls.conns[fd].buffer.Some? ==> m.tls.conns[fd].buffer.value in m.rings
  }

  /** A handshake is completed. */
  ghost predicate Shakes<B>(s: Tls<B>, x: Input<B>) {
    x.h.ShakeDone? && (x.Completes? ==> x.fd in s.pending && (x.res >= 0 || x.again))
  }

  /** What accept, the kernel and `new` may give. */
  ghost predicate MayGive<B>(m: Machine<B>, x: Input<B>)
    requires MachineOk(m)
  {
    && WellFormed(m.tls) && !m.tls.crashed
    && (Shakes(m.tls, x) ==> NewOk(m.tls.pool, m.rings, m.size, x.given))
    && match x
       case Accepts(fd, ssl, _, _, _) => fd !in m.tls.open && ssl !in m.tls.handles
       case Completes(fd, i, res, _, _, _, _) =>
         && fd < |m.tls.flights| && i < |m.tls.flights[fd]|
         && Fits(m.tls.conns[fd], m.rings, m.tls.flights[fd][i].kind, res)
  }

  // What a completion gives the model's step, and the buffers afterwards.
  datatype Result<B> = Result(h: Handshake<B>, t: Transfer, rings: map<B, Ring>)

  /** A completion of a connection with the record `c`, whose handshake may be pending. */
  ghost function FinishEffect<B>(pool: seq<B>, c: Record<B>, pending: bool, rings: map<B, Ring>, kind: Kind, res: int,
                                 again: bool, h: Shake, io: Io, n: Option<New<B>>): Result<B>
    requires Backed(c.buffer, rings) && Fits(c, rings, kind, res)
    requires pending && (res >= 0 || again) && h.ShakeDone? ==> Provided(pool, rings, n)
  {
    var t := Nothing(io).(armed := io.sqe);
    if res < 0 && !again then Result(WantRead, t, Emptied(c.buffer, rings))
    else if pending then
      var met := ShakeEffect(pool, rings, h, n);
      Result(met.h, t, met.rings)
    else
      var d := DispatchEffect(c, rings, kind, res, io);
      Result(WantRead, d.t, d.rings)
  }

  // The step of module TlsSafety that an input leads to, and the buffers afterwards.
  datatype Outcome<B> = Outcome(e: Event<B>, rings: map<B, Ring>)

  ghost function OutcomeOf<B>(m: Machine<B>, x: Input<B>): Outcome<B>
    requires MachineOk(m) && MayGive(m, x)
  {
    match x
    case Accepts(fd, ssl, h, sqe, n) =>
      var met := ShakeEffect(m.tls.pool, m.rings, h, n);
      Outcome(Event.Accept(fd, ssl, met.h, sqe), met.rings)
    case Completes(fd, i, res, again, h, io, n) =>
      var kind := m.tls.flights[fd][i].kind;
      var r := FinishEffect(m.tls.pool, m.tls.conns[fd], fd in m.tls.pending, m.rings, kind, res, again, h, io, n);
      Outcome(Event.Complete(fd, i, res, again, r.h, r.t), r.rings)
  }

  ghost function Step<B>(m: Machine<B>, x: Input<B>): Machine<B>
    requires MachineOk(m) && MayGive(m, x)
  {
    var o := OutcomeOf(m, x);
    Machine(Next(m.tls, o.e), o.rings, m.size)
  }

  /** A step of the machine is a step of the loop without buffers. */
  lemma StepIs<B>(m: Machine<B>, x: Input<B>)
    requires MachineOk(m) && MayGive(m, x)
    ensures Steps(m.tls, OutcomeOf(m, x).e, Step(m, x).tls)
  {
  }
}
