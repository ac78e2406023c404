/** The memory lent to the kernel under KTLS: a step about one connection changes no other's buffer,
    so a completion is taken over from the region that was lent. */
module TlsRegions {
  import opened LoopModel
  import opened RingValue
  import opened TlsMachine
  import opened TlsMachineRuns
  import opened TlsModel
  import opened TlsRuns
  import opened TlsSafety

  // ---- A step is about one buffer ----

  /** No buffer but `b` changed. */
  ghost predicate OnlyAt<B>(rings: map<B, Ring>, rings': map<B, Ring>, b: Option<B>) {
    forall x :: x in rings && Some(x) != b ==> x in rings' && rings'[x] == rings[x]
  }

  lemma DispatchOnly<B>(c: Record<B>, rings: map<B, Ring>, kind: Kind, res: int, io: Io)
    requires Backed(c.buffer, rings) && Fits(c, rings, kind, res)
    ensures OnlyAt(rings, DispatchEffect(c, rings, kind, res, io).rings, c.buffer)
  {
  }

  /** No buffer changed but one of the pool, which a new connection got. */
  lemma ShakeOnly<B>(pool: seq<B>, rings: map<B, Ring>, h: Shake, n: Option<New<B>>, x: B)
    requires h.ShakeDone? ==> Provided(pool, rings, n)
    requires x in rings && x !in pool && (pool == [] && h.ShakeDone? ==> x != n.value.block)
    ensures var rings' := ShakeEffect(pool, rings, h, n).rings; x in rings' && rings'[x] == rings[x]
  {
  }

  lemma FinishOnly<B>(s: Tls<B>, fd: nat, rings: map<B, Ring>, kind: Kind, res: int, again: bool, h: Shake, io: Io,
                      size: nat, n: Option<New<B>>, x: B)
    requires fd < |s.conns| && Backed(s.conns[fd].buffer, rings) && Fits(s.conns[fd], rings, kind, res)
    requires fd in s.pending && (res >= 0 || again) && h.ShakeDone? ==>
               Provided(s.pool, rings, n) && NewOk(s.pool, rings, size, n)
    requires x in rings && x !in s.pool && s.conns[fd].buffer != Some(x)
    ensures var rings' := FinishEffect(s.pool, s.conns[fd], fd in s.pending, rings, kind, res, again, h, io, n).rings;
            x in rings' && rings'[x] == rings[x]
  {
    hide Fits, ShakeEffect, DispatchEffect;
    if res < 0 && !again {
    } else if fd in s.pending {
      ShakeOnly(s.pool, rings, h, n, x);
    } else {
      DispatchOnly(s.conns[fd], rings, kind, res, io);
    }
  }

  /** A connection with its buffer. */
  ghost predicate Stands<B>(m: Machine<B>, f: nat) {
    Parallel(m.tls) && Live(m.tls, f) && m.tls.conns[f].buffer.value in m.rings
  }

  /** Nothing of the connection changed: its record, what is outstanding, its buffer. */
  ghost predicate StandsStill<B>(m: Machine<B>, m': Machine<B>, f: nat) {
    && Stands(m, f) && Stands(m', f) && SameAt(m.tls, m'.tls, f)
    && m'.rings[m.tls.conns[f].buffer.value] == m.rings[m.tls.conns[f].buffer.value]
  }

  lemma StillThen<B>(m: Machine<B>, m1: Machine<B>, m2: Machine<B>, f: nat)
    requires StandsStill(m, m1, f) && StandsStill(m1, m2, f)
    ensures StandsStill(m, m2, f)
  {
  }

  lemma StillLive<B>(m: Machine<B>, m': Machine<B>, f: nat)
    requires StandsStill(m, m', f)
    ensures Live(m'.tls, f)
  {
  }

  lemma OwnBuffer<B>(m: Machine<B>, f: nat, fd: nat)
    requires MachineOk(m) && Inv(m.tls) && Live(m.tls, f) && f != fd
    ensures Stands(m, f) && m.tls.conns[f].buffer.value !in m.tls.pool
    ensures fd < |m.tls.conns| ==> m.tls.conns[fd].buffer != m.tls.conns[f].buffer
  {
    assert Buffers(m.tls.conns)[f] == m.tls.conns[f].buffer;
    if fd < |m.tls.conns| {
      assert Buffers(m.tls.conns)[fd] == m.tls.conns[fd].buffer;
    }
  }

  lemma StandsAsIs<B>(m: Machine<B>, f: nat)
    requires MachineOk(m) && Inv(m.tls) && Live(m.tls, f)
    ensures StandsStill(m, m, f)
  {
    OwnBuffer(m, f, f + 1);
  }

  /** A step about one descriptor leaves every other connection's record, operations and buffer as they
      are, whatever the callbacks do. */
  lemma StepElsewhere<B>(m: Machine<B>, x: Input<B>, f: nat)
    requires MachineOk(m) && Inv(m.tls) && MayGive(m, x) && x.fd != f && Live(m.tls, f)
    ensures StandsStill(m, Step(m, x), f)
  {
    hide Next, Enabled, FinishEffect, ShakeEffect, RecordsOk, OwnersOk;
    OwnBuffer(m, f, x.fd);
    StepIs(m, x);
    StepNear(m.tls, OutcomeOf(m, x).e, f);
    var b := m.tls.conns[f].buffer.value;
    match x
    case Accepts(fd, ssl, h, sqe, n) => ShakeOnly(m.tls.pool, m.rings, h, n, b);
    case Completes(fd, i, res, again, h, io, n) =>
      FinishOnly(m.tls, fd, m.rings, m.tls.flights[fd][i].kind, res, again, h, io, m.size, n, b);
  }

  // ---- Runs ----

  /** As long as no input is about a connection, nothing of it changes. */
  lemma {:induction false} RunElsewhere<B>(trace: seq<Machine<B>>, inputs: seq<Input<B>>, m: nat, n: nat, f: nat)
    requires IsMachineRun(trace, inputs) && m <= n < |trace| && Live(trace[m].tls, f)
    requires forall k :: m <= k < n ==> inputs[k].fd != f
    ensures StandsStill(trace[m], trace[n], f)
    decreases n
  {
    hide MachineOk, MayGive, Step, Inv, Init, IsRun, Stands, SameAt, StandsStill;
    RunIs(trace, inputs);
    if m == n {
      StandsAsIs(trace[m], f);
    } else {
      RunElsewhere(trace, inputs, m, n - 1, f);
      assert StepsTo(trace[n - 1], inputs[n - 1], trace[n]);
      StillLive(trace[m], trace[n - 1], f);
      StepElsewhere(trace[n - 1], inputs[n - 1], f);
      StillThen(trace[m], trace[n - 1], trace[n], f);
    }
  }

  /** How many bytes the region has that a submission of this kind lends now. */
  ghost function LentNow<B>(m: Machine<B>, f: nat, kind: Kind): nat
    requires Stands(m, f) && m.rings[m.tls.conns[f].buffer.value].Valid()
  {
    var r := m.rings[m.tls.conns[f].buffer.value];
    CapacityPositive(r.Size());
    if kind == RecvDone then r.FreeRegion().1 else r.UsedRegion().1
  }

  /** If no input was about the connection since a KTLS operation was submitted, and the kernel keeps
      within the region it was lent then, the completion fits the buffer. */
  lemma LentFits<B>(trace: seq<Machine<B>>, inputs: seq<Input<B>>, m: nat, n: nat, f: nat, kind: Kind, res: int)
    requires IsMachineRun(trace, inputs) && m <= n < |trace| && Live(trace[m].tls, f)
    requires forall k :: m <= k < n ==> inputs[k].fd != f
    ensures MachineOk(trace[m]) && MachineOk(trace[n]) && StandsStill(trace[m], trace[n], f)
    ensures res <= LentNow(trace[m], f, kind) ==> Fits(trace[n].tls.conns[f], trace[n].rings, kind, res)
  {
    RunIs(trace, inputs);
    RunElsewhere(trace, inputs, m, n, f);
    var r := trace[m].rings[trace[m].tls.conns[f].buffer.value];
    FreeRegionIsFirstChunk(r);
    UsedRegionIsFirstChunk(r);
  }
}
