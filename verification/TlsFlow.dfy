/** Conservation of bytes over every run of the TLS loop: what came into a connection's buffer, from the
    peer and from its callbacks, is what went out of it, followed by what it still holds. */
module TlsFlow {
  import opened Bits
  import opened Callbacks
  import opened LoopModel
  import opened RingValue
  import opened SslLoops
  import opened TlsAnswers
  import opened TlsMachine
  import opened TlsMachineRuns
  import opened TlsModel
  import opened TlsRegions
  import opened TlsSafety
  import opened TlsTransfer

  ghost function RingOf<B>(m: Machine<B>, f: nat): (r: Ring)
    requires MachineOk(m) && Live(m.tls, f)
    ensures r.Valid() && r.Size() == m.size
  {
    m.rings[m.tls.conns[f].buffer.value]
  }

  /** The bytes that a connection's buffer holds. */
  ghost function HeldBy<B>(m: Machine<B>, f: nat): seq<byte>
    requires MachineOk(m) && Live(m.tls, f)
  {
    RingOf(m, f).Contents()
  }

  /** What the input is, for the live connection it is about. */
  datatype Turn = Received | Sent | Readable | Writable | Neither

  ghost function TurnOf<B>(m: Machine<B>, x: Input<B>): Turn
    requires MachineOk(m) && Inv(m.tls) && MayGive(m, x) && x.Completes? && Live(m.tls, x.fd)
  {
    var c, kind := m.tls.conns[x.fd], m.tls.flights[x.fd][x.i].kind;
    if kind == RecvDone && c.op == RecvKtls && x.res > 0 then Received
    else if kind == SendDone && c.op == SendKtls && x.res > 0 then Sent
    else if kind == PollInDone && c.op == PollIn && c.state == Reading then Readable
    else if kind == PollOutDone && c.op == PollOut && c.state == Writing then Writable
    else Neither
  }

  /** The bytes that the kernel stored, or that SSL_read gave. */
  ghost function CameIn<B>(m: Machine<B>, x: Input<B>): seq<byte>
    requires MachineOk(m) && Inv(m.tls) && MayGive(m, x) && x.Completes? && Live(m.tls, x.fd)
  {
    match TurnOf(m, x)
    case Received => Behind(RingOf(m, x.fd), x.res)
    case Readable => Slice(x.io.plain, 0, ReadRest(RingOf(m, x.fd), x.io.answers, 0).moved)
    case _ => []
  }

  /** The bytes that the kernel sent, or that went to SSL_write, lost ones included. */
  ghost function WentOut<B>(m: Machine<B>, x: Input<B>): seq<byte>
    requires MachineOk(m) && Inv(m.tls) && MayGive(m, x) && x.Completes? && Live(m.tls, x.fd)
  {
    match TurnOf(m, x)
    case Sent => HeldBy(m, x.fd)[..x.res]
    case Writable => HeldBy(m, x.fd)[..WriteRest(RingOf(m, x.fd), x.io.answers, 0).taken]
    case _ => []
  }

  /** The bytes that are there for a callback. */
  ghost function Offered<B>(m: Machine<B>, x: Input<B>): seq<byte>
    requires MachineOk(m) && Inv(m.tls) && MayGive(m, x) && x.Completes? && Live(m.tls, x.fd)
  {
    match TurnOf(m, x)
    case Sent => HeldBy(m, x.fd)[x.res..]
    case Writable => HeldBy(m, x.fd)[WriteRest(RingOf(m, x.fd), x.io.answers, 0).taken..]
    case _ => HeldBy(m, x.fd) + CameIn(m, x)
  }

  ghost function CallbackOps<B>(m: Machine<B>, x: Input<B>): seq<BufferOp>
    requires MachineOk(m) && MayGive(m, x) && x.Completes?
  {
    if Calls(m, Step(m, x), x.fd) then x.io.ops else []
  }

  /** All that entered the buffer in a step, and all that left it. */
  ghost function Entered<B>(m: Machine<B>, x: Input<B>): seq<byte>
    requires MachineOk(m) && Inv(m.tls) && MayGive(m, x) && x.Completes? && Live(m.tls, x.fd)
  {
    CameIn(m, x) + Wrote(Offered(m, x), m.size, CallbackOps(m, x))
  }

  ghost function Departed<B>(m: Machine<B>, x: Input<B>): seq<byte>
    requires MachineOk(m) && Inv(m.tls) && MayGive(m, x) && x.Completes? && Live(m.tls, x.fd)
  {
    WentOut(m, x) + Took(Offered(m, x), m.size, CallbackOps(m, x))
  }

  // ---- One step ----

  lemma OfferedIs<B>(m: Machine<B>, x: Input<B>)
    requires MachineOk(m) && Inv(m.tls) && MayGive(m, x) && x.Completes? && Live(m.tls, x.fd)
    ensures HeldBy(m, x.fd) + CameIn(m, x) == WentOut(m, x) + Offered(m, x) && |Offered(m, x)| <= m.size
  {
    var q := HeldBy(m, x.fd);
    match TurnOf(m, x)
    case Sent => assert q == q[..x.res] + q[x.res..];
    case Writable =>
      var n := WriteRest(RingOf(m, x.fd), x.io.answers, 0).taken;
      assert q == q[..n] + q[n..];
    case _ => assert [] + (q + CameIn(m, x)) == q + CameIn(m, x);
  }

  /** A live connection holds `q` and has had these calls. */
  ghost predicate KeptAs<B>(m: Machine<B>, fd: nat, calls: seq<Call>, q: seq<byte>) {
    Live(m.tls, fd) && fd < |m.tls.calls| && m.tls.calls[fd] == calls && Holding(m, m.tls.conns[fd].buffer, q)
  }

  lemma AnsweredHeld<B>(k: Stores<B>, m': Machine<B>, fd: nat, c: Record<B>, calls: seq<Call>, w: Waits<B>,
                        held: seq<byte>, ops: seq<BufferOp>, next: ElState, sqe: bool)
    requires c.buffer.Some? && fd < |m'.tls.epochs| && Live(m'.tls, fd)
    requires Answered(k, m', fd, c, calls, w, held, ops, next, sqe)
    ensures KeptAs(m', fd, calls, HeldAfter(held, m'.size, ops))
  {
  }

  /** What is held after a completion of an established connection is what the callback, if one ran, left
      of what it was offered. */
  lemma ServedHeld<B>(m: Machine<B>, m': Machine<B>, x: Input<B>, rest: seq<Flight<B>>)
    requires MachineOk(m) && Inv(m.tls) && MayGive(m, x) && x.Completes? && Live(m.tls, x.fd)
    requires Served(m, m', x.fd, m.tls.flights[x.fd][x.i].kind, x.res, x.io, rest)
    requires Live(m'.tls, x.fd) && m'.size == m.size
    ensures KeptAs(m', x.fd, m.tls.calls[x.fd], Offered(m, x)) || exists o: Call ::
              KeptAs(m', x.fd, m.tls.calls[x.fd] + [o], HeldAfter(Offered(m, x), m.size, x.io.ops))
  {
    hide HeldAfter, ReadRest, WriteRest, RecordsOk, OwnersOk, Sound, WaitsAfter, Answered;
    LiveRecord(m.tls, x.fd);
    var s, k, c, fd, io := m.tls, StoresOf(m.tls), m.tls.conns[x.fd], x.fd, x.io;
    var r, calls, w := RingOf(m, fd), s.calls[fd], Waits(rest, c.op);
    match TurnOf(m, x)
    case Received =>
      AnsweredHeld(k, m', fd, c.(op := NoTlsOp), calls + [OnRead], w.(op := NoTlsOp), Offered(m, x), io.ops,
        io.next, io.sqe);
    case Sent =>
      if Offered(m, x) == [] {
        AnsweredHeld(k, m', fd, c.(op := NoTlsOp), calls + [OnWrite], w.(op := NoTlsOp), [], io.ops, io.next, io.sqe);
      }
    case Readable =>
      if ReadRest(r, io.answers, 0).moved > 0 {
        AnsweredHeld(k, m', fd, c, calls + [OnRead], w, Offered(m, x), io.ops, io.next, io.sqe);
      }
    case Writable =>
      var e := WriteRest(r, io.answers, 0);
      if e.error {
        AnsweredHeld(k, m', fd, c, calls + [OnError], w, Offered(m, x), io.ops, io.next, io.sqe);
      } else if Offered(m, x) == [] {
        AnsweredHeld(k, m', fd, c, calls + [OnWrite], w, Offered(m, x), io.ops, io.next, io.sqe);
      }
    case Neither =>
  }

  /** What is held after a step is what the callback, if one ran, left of what it was offered. */
  lemma HeldIs<B>(m: Machine<B>, x: Input<B>)
    requires MachineOk(m) && Inv(m.tls) && MayGive(m, x) && x.Completes? && Live(m.tls, x.fd)
    requires Live(Step(m, x).tls, x.fd)
    ensures MachineOk(Step(m, x))
    ensures HeldBy(Step(m, x), x.fd) == HeldAfter(Offered(m, x), m.size, CallbackOps(m, x))
  {
    hide Step, RecordsOk, OwnersOk, Sound, Served, Offered;
    StepServes(m, x);
    ServedHeld(m, Step(m, x), x, Without(m.tls.flights[x.fd], x.i));
  }

  /** The same of any input: it is the connection's own or leaves the connection alone. */
  ghost function EnteredBy<B>(m: Machine<B>, x: Input<B>, f: nat): seq<byte> {
    if x.Completes? && x.fd == f && MachineOk(m) && Inv(m.tls) && MayGive(m, x) && Live(m.tls, f)
    then Entered(m, x)
    else []
  }

  ghost function DepartedBy<B>(m: Machine<B>, x: Input<B>, f: nat): seq<byte> {
    if x.Completes? && x.fd == f && MachineOk(m) && Inv(m.tls) && MayGive(m, x) && Live(m.tls, f)
    then Departed(m, x)
    else []
  }

  /** In every step that leaves the connection alive, what it held and what entered is what departed and
      what it holds. */
  lemma StepFlows<B>(m: Machine<B>, x: Input<B>, f: nat)
    requires MachineOk(m) && Inv(m.tls) && MayGive(m, x) && Live(m.tls, f) && Live(Step(m, x).tls, f)
    ensures MachineOk(Step(m, x))
    ensures HeldBy(m, f) + EnteredBy(m, x, f) == DepartedBy(m, x, f) + HeldBy(Step(m, x), f)
  {
    hide Step, RecordsOk, OwnersOk, Sound, Offered, CameIn, WentOut, MayGive, HeldAfter, Wrote, Took, CallbackOps;
    StepSound(m, x);
    if x.fd != f {
      StepElsewhere(m, x, f);
      assert [] + HeldBy(m, f) == HeldBy(m, f) == HeldBy(m, f) + [];
    } else {
      LiveIsOpen(m, x, f);
      var q, ops := Offered(m, x), CallbackOps(m, x);
      OfferedIs(m, x);
      HeldIs(m, x);
      CallbackFlow(q, m.size, ops);
      FlowTwice(HeldBy(m, f), CameIn(m, x), WentOut(m, x), q, Wrote(q, m.size, ops), Took(q, m.size, ops),
        HeldAfter(q, m.size, ops));
    }
  }

  /** accept does not return the descriptor of a live connection. */
  lemma LiveIsOpen<B>(m: Machine<B>, x: Input<B>, f: nat)
    requires MachineOk(m) && Inv(m.tls) && MayGive(m, x) && Live(m.tls, f) && x.fd == f
    ensures x.Completes?
  {
  }

  // ---- Runs ----

  /** All that entered the connection's buffer from step `i` on and before step `n`, and all that departed. */
  ghost function EnteredIn<B>(trace: seq<Machine<B>>, inputs: seq<Input<B>>, f: nat, i: nat, n: nat): seq<byte>
    requires n <= |inputs| && |trace| == |inputs| + 1
    decreases n
  {
    if n <= i then [] else EnteredIn(trace, inputs, f, i, n - 1) + EnteredBy(trace[n - 1], inputs[n - 1], f)
  }

  ghost function DepartedIn<B>(trace: seq<Machine<B>>, inputs: seq<Input<B>>, f: nat, i: nat, n: nat): seq<byte>
    requires n <= |inputs| && |trace| == |inputs| + 1
    decreases n
  {
    if n <= i then [] else DepartedIn(trace, inputs, f, i, n - 1) + DepartedBy(trace[n - 1], inputs[n - 1], f)
  }

  /** Conservation: as long as a connection lives, whatever its callbacks do and in either mode, the bytes
      it held and all that entered, in order, are all that departed, followed by the bytes it holds. */
  lemma {:induction false} RunFlows<B>(trace: seq<Machine<B>>, inputs: seq<Input<B>>, f: nat, i: nat, n: nat)
    requires IsMachineRun(trace, inputs) && i <= n < |trace|
    requires forall k :: i <= k <= n ==> Live(trace[k].tls, f)
    ensures MachineOk(trace[i]) && MachineOk(trace[n])
    ensures HeldBy(trace[i], f) + EnteredIn(trace, inputs, f, i, n) ==
            DepartedIn(trace, inputs, f, i, n) + HeldBy(trace[n], f)
    decreases n
  {
    hide MachineOk, MayGive, Step, Inv, Init, IsRun, HeldBy, EnteredBy, DepartedBy;
    RunIs(trace, inputs);
    if i < n {
      RunFlows(trace, inputs, f, i, n - 1);
      var m, x := trace[n - 1], inputs[n - 1];
      assert StepsTo(m, x, trace[n]);
      StepFlows(m, x, f);
      FlowTwice(HeldBy(trace[i], f), EnteredIn(trace, inputs, f, i, n - 1), DepartedIn(trace, inputs, f, i, n - 1),
        HeldBy(m, f), EnteredBy(m, x, f), DepartedBy(m, x, f), HeldBy(trace[n], f));
    } else {
      assert [] + HeldBy(trace[n], f) == HeldBy(trace[n], f) == HeldBy(trace[n], f) + [];
    }
  }
}
