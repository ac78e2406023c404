/** How many operations a KTLS connection has outstanding, which received bytes reach on_read, and
    which buffers are still lent when they go back to the pool. */
module TlsKtls {
  import opened LoopModel
  import opened Runs
  import opened TlsEpochs
  import opened TlsModel
  import opened TlsRuns
  import opened TlsSafety

  /** on_connect asked to read and a receive was submitted; the first read found the bytes that
      on_connect had left, and on_read's answer led to a submission as well. */
  predicate Doubled<B>(w: Welcome<B>) {
    && w.next == Reading && w.armed && w.first.got && w.first.armed
    && (w.first.next == Reading || w.first.next == Writing)
  }

  /** The same, but on_read answered die while the receive was outstanding. */
  predicate Abandons<B>(w: Welcome<B>) {
    w.next == Reading && w.armed && w.first.got && w.first.next == Die
  }

  /** Nothing is outstanding, or only the operation that the live record waits for. */
  ghost predicate OneOp<B>(s: Tls<B>, fd: nat) {
    && Parallel(s) && fd < |s.conns| && fd !in s.pending
    && (Live(s, fd) ==> s.conns[fd].ktls)
    && (s.flights[fd] == [] ||
        (Live(s, fd) && (s.conns[fd].op == RecvKtls || s.conns[fd].op == SendKtls)
         && s.flights[fd] == [Submission(s, fd, s.conns[fd].op)]))
  }

  /** Two operations on the connection's one buffer. */
  ghost predicate TwoOps<B>(s: Tls<B>, fd: nat) {
    && Parallel(s) && Live(s, fd) && fd !in s.pending && s.conns[fd].ktls
    && (s.conns[fd].op == RecvKtls || s.conns[fd].op == SendKtls)
    && s.flights[fd] == [Submission(s, fd, RecvKtls), Submission(s, fd, s.conns[fd].op)]
  }

  /** A receive into a buffer that is in the pool. */
  ghost predicate PooledLent<B>(s: Tls<B>, fd: nat) {
    fd < |s.flights| && exists j :: 0 <= j < |s.flights[fd]| && LendsPooled(s, s.flights[fd][j])
  }

  ghost predicate LendsPooled<B>(s: Tls<B>, f: Flight<B>) { f.lent.Some? && f.lent.value in s.pool }

  /** A KTLS connection with nothing outstanding, on_connect called. */
  ghost predicate Fresh<B>(s: Tls<B>, fd: nat) {
    && Parallel(s) && fd < |s.conns| && fd !in s.pending && s.flights[fd] == []
    && s.conns[fd].buffer.Some? && s.conns[fd].ktls && s.conns[fd].op == NoTlsOp
  }

  /** on_connect asked to read and the receive was submitted. */
  lemma ReadGreeted<B>(s: Tls<B>, fd: nat, w: Welcome<B>)
    requires Fresh(s, fd) && w.next == Reading
    ensures var s1 := ApplyState(s, fd, w.next, w.armed);
            && OneOp(s1, fd) && s1.conns[fd].state == Reading && s1.conns[fd].buffer == s.conns[fd].buffer
            && s1.flights[fd] == if w.armed then [Submission(s, fd, RecvKtls)] else []
  {
  }

  /** What the first read adds. */
  lemma FirstRead<B>(s: Tls<B>, fd: nat, t: Transfer)
    requires OneOp(s, fd) && Live(s, fd) && s.conns[fd].state == Reading
    requires s.flights[fd] == [] || s.flights[fd] == [Submission(s, fd, RecvKtls)]
    ensures var s', one := HandleRead(s, fd, t), s.flights[fd] != [];
            if one && t.got && t.armed && (t.next == Reading || t.next == Writing) then TwoOps(s', fd)
            else if one && t.got && t.next == Die then
              fd < |s'.flights| && |s'.flights[fd]| == 1 && PooledLent(s', fd) && fd !in s'.open
            else OneOp(s', fd)
  {
    if t.got && t.next == Die {
      var s' := HandleRead(s, fd, t);
      assert s'.pool == s.pool + [s.conns[fd].buffer.value];
      assert s.flights[fd] != [] ==> LendsPooled(s', s'.flights[fd][0]);
    }
  }

  /** Closed with one operation outstanding, whose buffer has just been pooled. */
  ghost predicate Abandoned<B>(s: Tls<B>, fd: nat) {
    fd < |s.flights| && |s.flights[fd]| == 1 && s.flights[fd][0].kind == RecvDone
    && LendsPooled(s, s.flights[fd][0]) && fd !in s.open
  }

  /** How a KTLS connection starts: with two operations, with none of its own but one left behind, or
      with at most one. */
  ghost predicate StartsAs<B>(s: Tls<B>, w: Welcome<B>, fd: nat) {
    if Doubled(w) then TwoOps(s, fd) && s.conns[fd].op == OpAsked(w.first.next)
    else if Abandons(w) then Abandoned(s, fd)
    else OneOp(s, fd)
  }

  function OpAsked(next: ElState): TlsOp { if next == Reading then RecvKtls else SendKtls }

  lemma GreetedOps<B>(s: Tls<B>, fd: nat, w: Welcome<B>)
    requires Fresh(s, fd)
    ensures var s' := AfterConnect(s, fd, w);
            StartsAs(s', w, fd)
  {
    if w.next == Reading {
      ReadGreeted(s, fd, w);
      FirstRead(ApplyState(s, fd, w.next, w.armed), fd, w.first);
    }
  }

  // ---- Steps ----

  /** The event completes a handshake of `fd`, so that on_connect is called. */
  ghost predicate Greets<B>(s: Tls<B>, e: Event<B>, fd: nat) {
    e.fd == fd && e.h.Done? && (e.Accept? || (fd in s.pending && (e.res >= 0 || e.again)))
  }

  /** What is outstanding for `fd` besides the operation that completes. */
  ghost function Besides<B>(s: Tls<B>, e: Event<B>): seq<Flight<B>> {
    var fl := FlightsOf(s, e.fd);
    if e.Complete? && e.i < |fl| then Without(fl, e.i) else fl
  }

  lemma GreetStep<B>(s: Tls<B>, e: Event<B>, fd: nat)
    requires Inv(s) && WellFormed(s) && Enabled(s, e)
    requires Greets(s, e, fd) && e.h.welcome.ktls && Besides(s, e) == []
    ensures var s', w := Next(s, e), e.h.welcome;
            StartsAs(s', w, fd)
  {
    var w := e.h.welcome;
    match e
    case Accept(_, ssl, h, armed) =>
      var s1 := Shaken(Accepted(Grow(s, fd), fd, ssl));
      GreetedOps(Greeted(RegisterConnection(s1, fd, ssl, w.block), fd, true), fd, w);
    case Complete(_, i, res, again, h, t) =>
      var s1 := Shaken(Landed(s, fd, i).(pending := s.pending - {fd}));
      GreetedOps(Greeted(RegisterConnection(s1, fd, s.conns[fd].ssl.value, w.block), fd, true), fd, w);
  }

  /** A KTLS connection with nothing outstanding. */
  ghost predicate Alone<B>(s: Tls<B>, fd: nat) {
    Parallel(s) && Live(s, fd) && fd !in s.pending && s.conns[fd].ktls && s.flights[fd] == []
  }

  lemma AnswersOne<B>(s: Tls<B>, fd: nat, c: Call, next: ElState, armed: bool)
    requires Alone(s, fd)
    ensures OneOp(ApplyState(Called(s, fd, c), fd, next, armed), fd)
  {
  }

  lemma KtlsOne<B>(s: Tls<B>, fd: nat, t: Transfer)
    requires Alone(s, fd)
    ensures OneOp(KtlsReceived(s, fd, t), fd) && OneOp(KtlsSent(s, fd, t), fd)
  {
    AnswersOne(SetOp(s, fd, NoTlsOp), fd, OnRead, t.next, t.armed);
    AnswersOne(SetOp(s, fd, NoTlsOp), fd, OnWrite, t.next, t.armed);
  }

  /** A completion of the one operation of a KTLS connection, which is gone already. */
  lemma CompletesOne<B>(s: Tls<B>, fd: nat, kind: Kind, res: int, again: bool, h: Handshake<B>, t: Transfer)
    requires WellFormed(s) && Alone(s, fd) && (s.conns[fd].op == RecvKtls || s.conns[fd].op == SendKtls)
    ensures OneOp(Completion(s, fd, kind, res, again, h, t), fd)
  {
    KtlsOne(s, fd, t);
  }

  lemma OneOpStep<B>(s: Tls<B>, e: Event<B>, fd: nat)
    requires Inv(s) && WellFormed(s) && Enabled(s, e) && !Accepts(e, fd) && OneOp(s, fd)
    ensures OneOp(Next(s, e), fd)
  {
    if e.fd == fd {
      LandedNear(s, fd, e.i);
      assert Without(s.flights[fd], e.i) == [];
      CompletesOne(Landed(s, fd, e.i), fd, s.flights[fd][e.i].kind, e.res, e.again, e.h, e.t);
    } else {
      StepNear(s, e, fd);
      assert SameAt(s, Next(s, e), fd);
    }
  }

  // ---- Received bytes ----

  /** A receive of `fd` completes with bytes. */
  ghost predicate Receives<B>(s: Tls<B>, e: Event<B>, fd: nat) {
    && e.Complete? && e.fd == fd && fd < |s.flights| && e.i < |s.flights[fd]|
    && s.flights[fd][e.i].kind == RecvDone && e.res > 0
  }

  /** The bytes are taken over: on_read is called. */
  ghost predicate ReadCalled<B>(s: Tls<B>, s': Tls<B>, fd: nat) {
    fd < |s.calls| && fd < |s'.calls| && s'.calls[fd] == s.calls[fd] + [OnRead]
  }

  /** Received bytes are taken over exactly when the connection is established and waits for them;
      otherwise nothing happens to an established connection. */
  lemma TakenIff<B>(s: Tls<B>, e: Event<B>, fd: nat)
    requires Inv(s) && WellFormed(s) && Enabled(s, e) && Receives(s, e, fd)
    ensures fd !in s.pending ==> (ReadCalled(s, Next(s, e), fd) <==> Live(s, fd) && s.conns[fd].op == RecvKtls)
    ensures fd !in s.pending && !ReadCalled(s, Next(s, e), fd) ==> Next(s, e) == Landed(s, fd, e.i)
  {
    LandedNear(s, fd, e.i);
    if fd !in s.open {
      DeadCompletionIs(Landed(s, fd, e.i), fd, RecvDone, e.res, e.again, e.h, e.t);
    }
  }

  // ---- Runs ----

  ghost predicate NoAccepts<B>(events: seq<Event<B>>, fd: nat) {
    forall k :: 0 <= k < |events| ==> !Accepts(events[k], fd)
  }

  /** As long as accept does not return the descriptor again. */
  lemma {:induction false} OneOpPlays<B>(s: Tls<B>, more: seq<Event<B>>, fd: nat)
    requires Inv(s) && OneOp(s, fd) && NoAccepts(more, fd) && Play(StepIf(), s, more).Some?
    ensures var t := Play(StepIf(), s, more).value; Inv(t) && OneOp(t, fd)
    decreases |more|
  {
    if more != [] {
      StepInv(s, more[0]);
      OneOpStep(s, more[0], fd);
      assert NoAccepts(more[1..], fd);
      OneOpPlays(Next(s, more[0]), more[1..], fd);
    }
  }

  /** What follows may happen, and accept does not return the descriptor again in it. */
  ghost predicate Leads<B>(s: Tls<B>, more: seq<Event<B>>, fd: nat) {
    NoAccepts(more, fd) && Play(StepIf(), s, more).Some?
  }

  ghost function After<B>(s: Tls<B>, more: seq<Event<B>>): Tls<B>
    requires Play(StepIf(), s, more).Some?
  {
    Play(StepIf(), s, more).value
  }

  /** A run passes through what playing its events leads to. */
  lemma RunLeads<B>(trace: seq<Tls<B>>, events: seq<Event<B>>, m: nat, n: nat, fd: nat)
    requires IsRun(trace, events) && m <= n < |trace| && NoAccepts(events[m..n], fd)
    ensures Leads(trace[m], events[m..n], fd) && After(trace[m], events[m..n]) == trace[n]
  {
    forall i | 0 <= i < |events|
      ensures StepIf()(trace[i], events[i]) == Some(trace[i + 1])
    {
      assert Steps(trace[i], events[i], trace[i + 1]);
    }
    TracePlays(StepIf(), trace, events, m, n);
  }

  /** Step `a` of a run calls on_connect on a KTLS connection with nothing outstanding. */
  ghost predicate KtlsStarts<B>(trace: seq<Tls<B>>, events: seq<Event<B>>, a: nat, fd: nat) {
    && IsRun(trace, events) && a < |events| && Greets(trace[a], events[a], fd)
    && events[a].h.welcome.ktls && Besides(trace[a], events[a]) == []
  }

  lemma Started<B>(trace: seq<Tls<B>>, events: seq<Event<B>>, a: nat, fd: nat)
    requires KtlsStarts(trace, events, a, fd)
    ensures var s', w := trace[a + 1], events[a].h.welcome;
            Inv(s') && WellFormed(s') && !s'.crashed
            && StartsAs(s', w, fd)
  {
    StepOf(trace, events, a);
    StepInv(trace[a], events[a]);
    InvWellFormed(trace[a + 1]);
    GreetStep(trace[a], events[a], fd);
  }

  /** If accept only returns descriptors with nothing outstanding, every KTLS connection starts so. */
  lemma CleanStarts<B>(trace: seq<Tls<B>>, events: seq<Event<B>>, a: nat, fd: nat)
    requires IsRun(trace, events) && a < |events| && Clean(trace, events, a + 1)
    requires Greets(trace[a], events[a], fd) && events[a].h.welcome.ktls
    ensures KtlsStarts(trace, events, a, fd)
  {
    CleanRuns(trace, events, a);
    StepOf(trace, events, a);
    assert CleanStep(trace[a], events[a]);
  }

  // ---- How many operations ----

  lemma {:induction false} FewPlay<B>(s: Tls<B>, more: seq<Event<B>>, fd: nat)
    requires Inv(s) && Leads(s, more, fd) && fd !in s.open && fd < |s.flights|
    ensures fd < |After(s, more).flights| && |After(s, more).flights[fd]| <= |s.flights[fd]|
    decreases |more|
  {
    if more != [] {
      StepInv(s, more[0]);
      ClosedStep(s, more[0], fd);
      assert NoAccepts(more[1..], fd);
      FewPlay(Next(s, more[0]), more[1..], fd);
    }
  }

  lemma ClosedStep<B>(s: Tls<B>, e: Event<B>, fd: nat)
    requires Inv(s) && WellFormed(s) && Enabled(s, e) && !Accepts(e, fd) && fd !in s.open && fd < |s.flights|
    ensures var s' := Next(s, e); fd !in s'.open && fd < |s'.flights| && |s'.flights[fd]| <= |s.flights[fd]|
  {
    if fd in Next(s, e).open {
      OnlyAcceptOpens(s, e, fd);
    }
    if e.fd == fd {
      ClosedCompletes(s, e);
    } else {
      OthersFlights(s, e, fd);
    }
  }

  /** Whatever follows, up to the next accept of its descriptor, a KTLS connection has at most one
      operation outstanding exactly when its first two answers did not submit two. */
  lemma AtMostOneIff<B>(trace: seq<Tls<B>>, events: seq<Event<B>>, a: nat, fd: nat)
    requires KtlsStarts(trace, events, a, fd)
    ensures var s := trace[a + 1];
            (forall more: seq<Event<B>> :: Leads(s, more, fd) ==> |FlightsOf(After(s, more), fd)| <= 1)
            <==> !Doubled(events[a].h.welcome)
  {
    var s, w := trace[a + 1], events[a].h.welcome;
    Started(trace, events, a, fd);
    if Doubled(w) {
      var none: seq<Event<B>> := [];
      assert Leads(s, none, fd) && After(s, none) == s;
    } else {
      forall more: seq<Event<B>> | Leads(s, more, fd)
        ensures |FlightsOf(After(s, more), fd)| <= 1
      {
        if Abandons(w) {
          FewPlay(s, more, fd);
        } else {
          OneOpPlays(s, more, fd);
        }
      }
    }
  }

  // ---- Bytes lost and buffers lent ----

  /** After `more`, a receive of `fd` may complete with bytes that on_read is not called for. */
  ghost predicate Loses<B>(s: Tls<B>, more: seq<Event<B>>, e: Event<B>, fd: nat) {
    Leads(s, more, fd) &&
    var t := After(s, more);
    WellFormed(t) && Enabled(t, e) && Receives(t, e, fd) && !ReadCalled(t, Next(t, e), fd)
  }

  lemma OneOpTakes<B>(s: Tls<B>, more: seq<Event<B>>, e: Event<B>, fd: nat)
    requires Inv(s) && OneOp(s, fd)
    ensures !Loses(s, more, e, fd)
  {
    if Loses(s, more, e, fd) {
      OneOpPlays(s, more, fd);
      TakenIff(After(s, more), e, fd);
    }
  }

  /** The oldest operation completes with a byte; the callback it may lead to answers idle. */
  function Brings<B>(fd: nat): Event<B> {
    Event.Complete(fd, 0, 1, false, WantRead, Transfer(true, false, false, false, Idle, false))
  }

  lemma LosesNow<B>(s: Tls<B>, fd: nat)
    requires Inv(s) && WellFormed(s) && !s.crashed && fd !in s.pending && fd < |s.flights| && s.flights[fd] != []
    requires s.flights[fd][0].kind == RecvDone && !(Live(s, fd) && s.conns[fd].op == RecvKtls)
    ensures Loses(s, [], Brings(fd), fd)
  {
    TakenIff(s, Brings(fd), fd);
  }

  /** Two receives: after the first, on_read answers idle, and the second is lost. */
  lemma LosesSecond<B>(s: Tls<B>, fd: nat)
    requires Inv(s) && WellFormed(s) && !s.crashed && TwoOps(s, fd) && s.conns[fd].op == RecvKtls
    ensures Loses(s, [Brings(fd)], Brings(fd), fd)
  {
    var s1 := Next(s, Brings(fd));
    StepInv(s, Brings(fd));
    InvWellFormed(s1);
    assert s1.flights[fd][0] == Submission(s, fd, RecvKtls);
    LosesNow(s1, fd);
    PlayOne(StepIf(), s, Brings(fd));
  }

  /** Something that may follow loses received bytes of a KTLS connection exactly when its first two
      answers submitted two operations, or left one behind when on_read answered die. */
  lemma LossIff<B>(trace: seq<Tls<B>>, events: seq<Event<B>>, a: nat, fd: nat)
    requires KtlsStarts(trace, events, a, fd)
    ensures var s, w := trace[a + 1], events[a].h.welcome;
            (exists more: seq<Event<B>>, e: Event<B> :: Loses(s, more, e, fd)) <==> Doubled(w) || Abandons(w)
  {
    var s, w := trace[a + 1], events[a].h.welcome;
    Started(trace, events, a, fd);
    if Doubled(w) && w.first.next == Reading {
      LosesSecond(s, fd);
    } else if Doubled(w) || Abandons(w) {
      LosesNow(s, fd);
    } else {
      forall more: seq<Event<B>>, e: Event<B>
        ensures !Loses(s, more, e, fd)
      {
        OneOpTakes(s, more, e, fd);
      }
    }
  }

  /** After `more`, the kernel holds a buffer of the pool for an operation of `fd`. */
  ghost predicate Strands<B>(s: Tls<B>, more: seq<Event<B>>, fd: nat) {
    Leads(s, more, fd) && PooledLent(After(s, more), fd)
  }

  lemma OneOpKeeps<B>(s: Tls<B>, more: seq<Event<B>>, fd: nat)
    requires Inv(s) && OneOp(s, fd)
    ensures !Strands(s, more, fd)
  {
    if Strands(s, more, fd) {
      OneOpPlays(s, more, fd);
      NotPooled(After(s, more), fd);
    }
  }

  lemma NotPooled<B>(s: Tls<B>, fd: nat)
    requires Inv(s) && OneOp(s, fd)
    ensures !PooledLent(s, fd)
  {
    if Live(s, fd) {
      assert Buffers(s.conns)[fd] == s.conns[fd].buffer;
    }
  }

  /** One of two operations fails, and the buffer of the other is pooled. */
  lemma StrandsOther<B>(s: Tls<B>, fd: nat)
    requires Inv(s) && WellFormed(s) && !s.crashed && TwoOps(s, fd)
    ensures Strands(s, [Reset(fd)], fd)
  {
    PlayOne(StepIf(), s, Reset(fd));
    var s1 := Next(s, Reset(fd));
    assert s1.flights[fd][0] == s.flights[fd][1];
    assert s1.pool == s.pool + [s.conns[fd].buffer.value];
    assert LendsPooled(s1, s1.flights[fd][0]);
  }

  /** Something that may follow pools a buffer that the kernel still holds for a KTLS connection
      exactly in the same two cases. */
  lemma StrandIff<B>(trace: seq<Tls<B>>, events: seq<Event<B>>, a: nat, fd: nat)
    requires KtlsStarts(trace, events, a, fd)
    ensures var s, w := trace[a + 1], events[a].h.welcome;
            (exists more: seq<Event<B>> :: Strands(s, more, fd)) <==> Doubled(w) || Abandons(w)
  {
    var s, w := trace[a + 1], events[a].h.welcome;
    Started(trace, events, a, fd);
    if Doubled(w) {
      StrandsOther(s, fd);
    } else if Abandons(w) {
      var none: seq<Event<B>> := [];
      assert After(s, none) == s && LendsPooled(s, s.flights[fd][0]);
      assert Strands(s, none, fd);
    } else {
      forall more: seq<Event<B>>
        ensures !Strands(s, more, fd)
      {
        OneOpKeeps(s, more, fd);
      }
    }
  }
}
