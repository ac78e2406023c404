/** Runs of the TLS loop with its buffers: the buffers stay sound, and the runs are runs of the loop
    without buffers, so that all that is proved of those holds of the loop as it runs. */
module TlsMachineRuns {
  import opened LoopModel
  import opened RingValue
  import opened TlsMachine
  import opened TlsModel
  import opened TlsSafety

  // ---- The buffers stay sound ----

  ghost predicate StateSound<B>(s: Tls<B>, rings: map<B, Ring>, size: nat) {
    Sound(s.pool, s.buffers, rings, size)
  }

  /** The record's buffer is on the heap and not in the pool. */
  ghost predicate Holds<B>(s: Tls<B>, fd: nat, rings: map<B, Ring>) {
    Parallel(s) && fd < |s.conns| && (s.conns[fd].buffer.Some? ==>
      s.conns[fd].buffer.value in rings && s.conns[fd].buffer.value !in s.pool)
  }

  /** A buffer that is not in the pool changes, and may go there if it is empty then. */
  lemma PutSound<B>(pool: seq<B>, buffers: set<B>, rings: map<B, Ring>, size: nat, b: B, r: Ring)
    requires Sound(pool, buffers, rings, size) && b in rings && b !in pool && r.Valid() && r.Size() == size
    ensures Sound(pool, buffers, rings[b := r], size)
    ensures EmptyRing(r) ==> Sound(pool + [b], buffers, rings[b := r], size)
  {
    assert rings[b := r].Keys == rings.Keys + {b};
  }

  /** The state that a callback returned is applied to a connection whose buffer is `r` now. */
  lemma AppliedSound<B>(s: Tls<B>, fd: nat, rings: map<B, Ring>, size: nat, next: ElState, armed: bool, r: Ring)
    requires StateSound(s, rings, size) && Holds(s, fd, rings) && s.conns[fd].buffer.Some?
    requires r.Valid() && r.Size() == size
    ensures (next == Die ==> EmptyRing(r)) ==>
              StateSound(ApplyState(s, fd, next, armed), rings[s.conns[fd].buffer.value := r], size)
  {
    PutSound(s.pool, s.buffers, rings, size, s.conns[fd].buffer.value, r);
  }

  lemma RemovedSound<B>(s: Tls<B>, fd: nat, rings: map<B, Ring>, size: nat)
    requires StateSound(s, rings, size) && Holds(s, fd, rings)
    ensures StateSound(RemoveConnection(s, fd), Emptied(s.conns[fd].buffer, rings), size)
  {
    if s.conns[fd].buffer.Some? {
      var b := s.conns[fd].buffer.value;
      ResetContents(rings[b]);
      PutSound(s.pool, s.buffers, rings, size, b, rings[b].Reset());
    }
  }

  lemma ReadSound<B>(s: Tls<B>, fd: nat, rings: map<B, Ring>, size: nat, io: Io)
    requires StateSound(s, rings, size) && Holds(s, fd, rings)
    ensures var f := ReadEffect(s.conns[fd], rings, io); StateSound(HandleRead(s, fd, f.t), f.rings, size)
  {
    var c, t := s.conns[fd], ReadEffect(s.conns[fd], rings, io).t;
    if c.state == Reading && c.buffer.Some? {
      var d := ReadDeal(c.ktls, rings[c.buffer.value], io);
      PutSound(s.pool, s.buffers, rings, size, c.buffer.value, d.ring);
      AppliedSound(Called(s, fd, OnRead), fd, rings, size, t.next, t.armed, d.ring);
    }
  }

  lemma WriteSound<B>(s: Tls<B>, fd: nat, rings: map<B, Ring>, size: nat, io: Io)
    requires StateSound(s, rings, size) && Holds(s, fd, rings)
    ensures var f := WriteEffect(s.conns[fd], rings, io); StateSound(HandleWrite(s, fd, f.t), f.rings, size)
  {
    var c, t := s.conns[fd], WriteEffect(s.conns[fd], rings, io).t;
    if c.state == Writing && c.buffer.Some? {
      var d := WriteDeal(c.ktls, rings[c.buffer.value], io);
      PutSound(s.pool, s.buffers, rings, size, c.buffer.value, d.ring);
      AppliedSound(Called(s, fd, OnWrite), fd, rings, size, t.next, t.armed, d.ring);
      AppliedSound(Called(s, fd, OnError), fd, rings, size, if c.ktls then Die else t.next, t.armed, d.ring);
    }
  }

  lemma ReceivedSound<B>(s: Tls<B>, fd: nat, rings: map<B, Ring>, size: nat, res: nat, io: Io)
    requires StateSound(s, rings, size) && Holds(s, fd, rings) && s.conns[fd].op == RecvKtls && res > 0
    requires Fits(s.conns[fd], rings, RecvDone, res)
    ensures var f := KtlsEffect(s.conns[fd], rings, RecvDone, res, io);
            StateSound(KtlsReceived(s, fd, f.t), f.rings, size)
  {
    var c, t := s.conns[fd], KtlsEffect(s.conns[fd], rings, RecvDone, res, io).t;
    if c.buffer.Some? {
      var d := ReceivedDeal(c.ktls, rings[c.buffer.value], res, io);
      AppliedSound(Called(SetOp(s, fd, NoTlsOp), fd, OnRead), fd, rings, size, t.next, t.armed, d.ring);
    }
  }

  lemma SentSound<B>(s: Tls<B>, fd: nat, rings: map<B, Ring>, size: nat, res: nat, io: Io)
    requires StateSound(s, rings, size) && Holds(s, fd, rings) && s.conns[fd].op == SendKtls && res > 0
    requires Fits(s.conns[fd], rings, SendDone, res)
    ensures var f := KtlsEffect(s.conns[fd], rings, SendDone, res, io);
            StateSound(KtlsSent(s, fd, f.t), f.rings, size)
  {
    var c, t := s.conns[fd], KtlsEffect(s.conns[fd], rings, SendDone, res, io).t;
    if c.buffer.Some? {
      var d := SentDeal(c.ktls, rings[c.buffer.value], res, io);
      PutSound(s.pool, s.buffers, rings, size, c.buffer.value, d.ring);
      AppliedSound(Called(SetOp(s, fd, NoTlsOp), fd, OnWrite), fd, rings, size, t.next, t.armed, d.ring);
    }
  }

  lemma DispatchSound<B>(s: Tls<B>, fd: nat, rings: map<B, Ring>, size: nat, kind: Kind, res: int, again: bool, io: Io)
    requires StateSound(s, rings, size) && Holds(s, fd, rings) && Fits(s.conns[fd], rings, kind, res)
    requires fd !in s.pending && (res >= 0 || again)
    ensures var f := DispatchEffect(s.conns[fd], rings, kind, res, io);
            StateSound(Completion(s, fd, kind, res, again, WantRead, f.t), f.rings, size)
  {
    hide StateSound, Fits, KtlsEffect, ReadEffect, WriteEffect, HandleRead, HandleWrite, KtlsReceived, KtlsSent;
    match kind
    case RecvDone =>
      if res > 0 && s.conns[fd].op == RecvKtls {
        ReceivedSound(s, fd, rings, size, res, io);
      }
    case SendDone =>
      if res > 0 && s.conns[fd].op == SendKtls {
        SentSound(s, fd, rings, size, res, io);
      }
    case PollInDone => ReadSound(s, fd, rings, size, io);
    case PollOutDone => WriteSound(s, fd, rings, size, io);
  }

  /** A connection's buffer is announced to on_connect, and the first read may follow. */
  lemma GreetSound<B>(s: Tls<B>, fd: nat, rings: map<B, Ring>, size: nat, g: Greeting)
    requires StateSound(s, rings, size) && Holds(s, fd, rings) && s.conns[fd].buffer.Some?
    ensures var b := GreetEffect(g, s.conns[fd].buffer.value, rings);
            StateSound(AfterConnect(Greeted(s, fd, g.ktls), fd, b.w), b.rings, size)
  {
    var b, w := s.conns[fd].buffer.value, GreetEffect(g, s.conns[fd].buffer.value, rings).w;
    var a := React(g.ktls, rings[b], g.ops, g.next, g.sqe);
    var s1 := Greeted(s, fd, g.ktls);
    AppliedSound(s1, fd, rings, size, g.next, a.armed, a.ring);
    if g.next != Die {
      var s2 := ApplyState(s1, fd, g.next, a.armed);
      ReadSound(s2, fd, rings[b := a.ring], size, g.first);
      PutTwice(rings, b, a.ring, GreetEffect(g, b, rings).rings[b]);
    }
  }

  /** The buffer for a new connection comes from the pool or from `new`. */
  lemma SuppliedSound<B>(pool: seq<B>, buffers: set<B>, rings: map<B, Ring>, size: nat, n: Option<New<B>>)
    requires Sound(pool, buffers, rings, size) && NewOk(pool, rings, size, n)
    requires forall i, j :: 0 <= i < j < |pool| ==> pool[i] != pool[j]
    ensures var b, rest := Granted(pool, n), if pool != [] then pool[..|pool| - 1] else [];
            && Sound(rest, buffers + {b}, Supplied(pool, rings, n), size)
            && b !in rest && b in Supplied(pool, rings, n) && EmptyRing(Supplied(pool, rings, n)[b])
  {
    assert Supplied(pool, rings, n).Keys == buffers + {Granted(pool, n)};
  }

  lemma CompleteSound<B>(s: Tls<B>, fd: nat, ssl: nat, rings: map<B, Ring>, size: nat, g: Greeting, n: Option<New<B>>)
    requires Parallel(s) && fd < |s.conns| && StateSound(s, rings, size) && NewOk(s.pool, rings, size, n)
    requires forall i, j :: 0 <= i < j < |s.pool| ==> s.pool[i] != s.pool[j]
    ensures Provided(s.pool, rings, n)
    ensures var met := ShakeEffect(s.pool, rings, ShakeDone(g), n);
            StateSound(TlsModel.Complete(s, fd, ssl, met.h.welcome), met.rings, size)
  {
    SuppliedSound(s.pool, s.buffers, rings, size, n);
    GreetSound(RegisterConnection(s, fd, ssl, Granted(s.pool, n)), fd, Supplied(s.pool, rings, n), size, g);
  }

  lemma StartSound<B>(s: Tls<B>, fd: nat, ssl: nat, rings: map<B, Ring>, size: nat, h: Shake, sqe: bool,
                      n: Option<New<B>>)
    requires Parallel(s) && fd < |s.conns| && StateSound(s, rings, size)
    requires h.ShakeDone? ==> NewOk(s.pool, rings, size, n)
    requires forall i, j :: 0 <= i < j < |s.pool| ==> s.pool[i] != s.pool[j]
    ensures h.ShakeDone? ==> Provided(s.pool, rings, n)
    ensures var met := ShakeEffect(s.pool, rings, h, n);
            StateSound(StartHandshake(s, fd, ssl, met.h, sqe), met.rings, size)
  {
    if h.ShakeDone? {
      CompleteSound(Shaken(Accepted(s, fd, ssl)), fd, ssl, rings, size, h.greeting, n);
    }
  }

  lemma RetrySound<B>(s: Tls<B>, fd: nat, rings: map<B, Ring>, size: nat, h: Shake, sqe: bool, n: Option<New<B>>)
    requires Parallel(s) && fd < |s.conns| && s.conns[fd].ssl.Some? && StateSound(s, rings, size)
    requires h.ShakeDone? ==> NewOk(s.pool, rings, size, n)
    requires forall i, j :: 0 <= i < j < |s.pool| ==> s.pool[i] != s.pool[j]
    ensures h.ShakeDone? ==> Provided(s.pool, rings, n)
    ensures var met := ShakeEffect(s.pool, rings, h, n);
            StateSound(RetryHandshake(s, fd, met.h, sqe), met.rings, size)
  {
    if h.ShakeDone? {
      CompleteSound(Shaken(s.(pending := s.pending - {fd})), fd, s.conns[fd].ssl.value, rings, size, h.greeting, n);
    }
  }

  lemma OwnersHold<B>(s: Tls<B>, fd: nat, rings: map<B, Ring>)
    requires Inv(s) && fd < |s.conns| && rings.Keys == s.buffers
    ensures Holds(s, fd, rings)
    ensures forall i, j :: 0 <= i < j < |s.pool| ==> s.pool[i] != s.pool[j]
  {
    assert Buffers(s.conns)[fd] == s.conns[fd].buffer;
  }

  lemma AcceptSound<B>(m: Machine<B>, x: Input<B>)
    requires MachineOk(m) && Inv(m.tls) && MayGive(m, x) && x.Accepts?
    ensures StateSound(Step(m, x).tls, Step(m, x).rings, m.size)
  {
    hide StartHandshake, ShakeEffect, GreetEffect, Provided, NewOk, Enabled, RecordsOk;
    var s1 := Grow(m.tls, x.fd);
    GrowInv(m.tls, x.fd);
    OwnersHold(s1, x.fd, m.rings);
    StartSound(s1, x.fd, x.ssl, m.rings, m.size, x.h, x.sqe, x.given);
  }

  /** What a completion leads to when its operation is gone already. */
  lemma FinishSound<B>(s: Tls<B>, fd: nat, rings: map<B, Ring>, size: nat, kind: Kind, res: int, again: bool,
                       h: Shake, io: Io, n: Option<New<B>>)
    requires Inv(s) && WellFormed(s) && fd < |s.conns| && StateSound(s, rings, size)
    requires Holds(s, fd, rings) && Fits(s.conns[fd], rings, kind, res)
    requires fd in s.pending && (res >= 0 || again) && h.ShakeDone? ==> NewOk(s.pool, rings, size, n)
    requires forall i, j :: 0 <= i < j < |s.pool| ==> s.pool[i] != s.pool[j]
    ensures fd in s.pending && (res >= 0 || again) && h.ShakeDone? ==> Provided(s.pool, rings, n)
    ensures var r := FinishEffect(s.pool, s.conns[fd], fd in s.pending, rings, kind, res, again, h, io, n);
            StateSound(Completion(s, fd, kind, res, again, r.h, r.t), r.rings, size)
  {
    hide StateSound, Fits, RetryHandshake, ShakeEffect, DispatchEffect, GreetEffect;
    hide Provided, NewOk, RecordsOk, OwnersOk;
    if res < 0 && !again {
      RemovedSound(s, fd, rings, size);
    } else if fd in s.pending {
      RetrySound(s, fd, rings, size, h, io.sqe, n);
    } else {
      DispatchSound(s, fd, rings, size, kind, res, again, io);
    }
  }

  lemma CompletesSound<B>(m: Machine<B>, x: Input<B>)
    requires MachineOk(m) && Inv(m.tls) && MayGive(m, x) && x.Completes?
    ensures StateSound(Step(m, x).tls, Step(m, x).rings, m.size)
  {
    hide Completion, FinishEffect, Provided, NewOk, RecordsOk, Fits;
    var s1 := Landed(m.tls, x.fd, x.i);
    FlightsInv(m.tls, s1.flights);
    InvWellFormed(s1);
    OwnersHold(s1, x.fd, m.rings);
    FinishSound(s1, x.fd, m.rings, m.size, m.tls.flights[x.fd][x.i].kind, x.res, x.again, x.h, x.io, x.given);
  }

  /** Whatever accept, the kernel and the callbacks do, the buffers stay sound. */
  lemma StepSound<B>(m: Machine<B>, x: Input<B>)
    requires MachineOk(m) && Inv(m.tls) && MayGive(m, x)
    ensures Inv(Step(m, x).tls) && MachineOk(Step(m, x))
  {
    hide Next, OutcomeOf, RecordsOk, OwnersOk;
    var m' := Step(m, x);
    StepIs(m, x);
    StepInv(m.tls, OutcomeOf(m, x).e);
    if x.Accepts? {
      AcceptSound(m, x);
    } else {
      CompletesSound(m, x);
    }
    forall f | 0 <= f < |m'.tls.conns|
      ensures m'.tls.conns[f].buffer.Some? ==> m'.tls.conns[f].buffer.value in m'.rings
    {
      OwnersHold(m'.tls, f, m'.rings);
    }
  }

  // ---- Runs ----

  /** One step, if it may happen. */
  ghost function MoveIf<B>(): (Machine<B>, Input<B>) -> Option<Machine<B>> {
    (m, x) => if MachineOk(m) && MayGive(m, x) then Some(Step(m, x)) else None
  }

  ghost predicate StepsTo<B>(m: Machine<B>, x: Input<B>, m': Machine<B>) { MoveIf()(m, x) == Some(m') }

  ghost predicate IsMachineRun<B>(trace: seq<Machine<B>>, inputs: seq<Input<B>>) {
    && |trace| == |inputs| + 1 && Init(trace[0].tls) && MachineOk(trace[0])
    && forall i :: 0 <= i < |inputs| ==> StepsTo(trace[i], inputs[i], trace[i + 1])
  }

  /** The run without the buffers. */
  ghost function Loops<B>(trace: seq<Machine<B>>): seq<Tls<B>> {
    seq(|trace|, i requires 0 <= i < |trace| => trace[i].tls)
  }

  ghost function EventOf<B>(m: Machine<B>, x: Input<B>): Event<B> {
    if MachineOk(m) && MayGive(m, x) then OutcomeOf(m, x).e else Event.Accept(0, 0, Failed, false)
  }

  ghost function Events<B>(trace: seq<Machine<B>>, inputs: seq<Input<B>>): seq<Event<B>>
    requires |trace| == |inputs| + 1
  {
    seq(|inputs|, i requires 0 <= i < |inputs| => EventOf(trace[i], inputs[i]))
  }

  /** Every run of the machine is a run of the loop without buffers, and its buffers stay sound. */
  lemma RunIs<B>(trace: seq<Machine<B>>, inputs: seq<Input<B>>)
    requires IsMachineRun(trace, inputs)
    ensures IsRun(Loops(trace), Events(trace, inputs))
    ensures forall n :: 0 <= n < |trace| ==> MachineOk(trace[n]) && Inv(trace[n].tls)
  {
    var loops, events := Loops(trace), Events(trace, inputs);
    forall i | 0 <= i < |events|
      ensures Steps(loops[i], events[i], loops[i + 1])
    {
      assert StepsTo(trace[i], inputs[i], trace[i + 1]);
      StepIs(trace[i], inputs[i]);
    }
    forall n | 0 <= n < |trace|
      ensures MachineOk(trace[n]) && Inv(trace[n].tls)
    {
      Lifecycle(loops, events, n);
      if n > 0 {
        Lifecycle(loops, events, n - 1);
        assert StepsTo(trace[n - 1], inputs[n - 1], trace[n]);
        StepSound(trace[n - 1], inputs[n - 1]);
      }
    }
  }
}
