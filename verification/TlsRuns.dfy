/** What runs of the TLS loop do to one descriptor: which steps may change it, when it is closed
    twice, which connections nothing ever ends, and runs that show the failures reachable. */
module TlsRuns {
  import opened LoopModel
  import opened Runs
  import opened TlsModel
  import opened TlsSafety

  // ---- A step is about one descriptor ----

  /** Nothing of `f` changed. */
  ghost predicate SameAt<B>(s: Tls<B>, s': Tls<B>, f: nat) {
    && f < |s.conns| && Parallel(s) && Parallel(s') && |s.conns| <= |s'.conns|
    && s'.conns[f] == s.conns[f] && s'.calls[f] == s.calls[f]
    && s'.flights[f] == s.flights[f] && s'.epochs[f] == s.epochs[f]
    && (f in s'.pending <==> f in s.pending) && (f in s'.open <==> f in s.open)
  }

  /** All that changed is about `fd`, and nothing was closed that was not open. */
  ghost predicate Near<B>(s: Tls<B>, s': Tls<B>, fd: nat) {
    && Parallel(s) && Parallel(s') && fd < |s'.conns| == |s.conns| && s'.stray == s.stray
    && forall f :: 0 <= f < |s.conns| && f != fd ==> SameAt(s, s', f)
  }

  lemma NearThen<B>(s: Tls<B>, s1: Tls<B>, s2: Tls<B>, fd: nat)
    requires Near(s, s1, fd) && Near(s1, s2, fd)
    ensures Near(s, s2, fd)
  {
    forall f | 0 <= f < |s.conns| && f != fd
      ensures SameAt(s, s2, f)
    {
      assert SameAt(s, s1, f) && SameAt(s1, s2, f);
    }
  }

  lemma ApplyStateNear<B>(s: Tls<B>, fd: nat, next: ElState, armed: bool)
    requires Parallel(s) && fd < |s.conns| && fd in s.open
    ensures Near(s, ApplyState(s, fd, next, armed), fd)
    ensures next != Die ==> fd in ApplyState(s, fd, next, armed).open
  {
  }

  lemma AnsweredNear<B>(s: Tls<B>, fd: nat, c: Call, next: ElState, armed: bool)
    requires Parallel(s) && fd < |s.conns| && fd in s.open
    ensures Near(s, ApplyState(Called(s, fd, c), fd, next, armed), fd)
  {
    ApplyStateNear(Called(s, fd, c), fd, next, armed);
    NearThen(s, Called(s, fd, c), ApplyState(Called(s, fd, c), fd, next, armed), fd);
  }

  lemma HandleReadNear<B>(s: Tls<B>, fd: nat, t: Transfer)
    requires Parallel(s) && fd < |s.conns| && fd in s.open
    ensures Near(s, HandleRead(s, fd, t), fd)
  {
    hide ApplyState;
    AnsweredNear(s, fd, OnRead, t.next, t.armed);
  }

  lemma HandleWriteNear<B>(s: Tls<B>, fd: nat, t: Transfer)
    requires Parallel(s) && fd < |s.conns| && fd in s.open
    ensures Near(s, HandleWrite(s, fd, t), fd)
  {
    if t.error {
      AnsweredNear(s, fd, OnError, if s.conns[fd].ktls then Die else t.next, t.armed);
    } else {
      AnsweredNear(s, fd, OnWrite, t.next, t.armed);
    }
  }

  lemma KtlsReceivedNear<B>(s: Tls<B>, fd: nat, t: Transfer)
    requires Parallel(s) && fd < |s.conns| && fd in s.open
    ensures Near(s, KtlsReceived(s, fd, t), fd)
  {
    if s.conns[fd].buffer.Some? {
      var s1 := SetOp(s, fd, NoTlsOp);
      AnsweredNear(s1, fd, OnRead, t.next, t.armed);
      NearThen(s, s1, KtlsReceived(s, fd, t), fd);
    }
  }

  lemma KtlsSentNear<B>(s: Tls<B>, fd: nat, t: Transfer)
    requires Parallel(s) && fd < |s.conns| && fd in s.open
    ensures Near(s, KtlsSent(s, fd, t), fd)
  {
    if s.conns[fd].buffer.Some? && t.drained {
      var s1 := SetOp(s, fd, NoTlsOp);
      AnsweredNear(s1, fd, OnWrite, t.next, t.armed);
      NearThen(s, s1, KtlsSent(s, fd, t), fd);
    }
  }

  lemma AfterConnectNear<B>(s: Tls<B>, fd: nat, w: Welcome<B>)
    requires Parallel(s) && fd < |s.conns| && fd in s.open
    ensures Near(s, AfterConnect(s, fd, w), fd)
  {
    if w.next != Die {
      var s1 := ApplyState(s, fd, w.next, w.armed);
      ApplyStateNear(s, fd, w.next, w.armed);
      HandleReadNear(s1, fd, w.first);
      NearThen(s, s1, AfterConnect(s, fd, w), fd);
    }
  }

  lemma CompleteNear<B>(s: Tls<B>, fd: nat, ssl: nat, w: Welcome<B>)
    requires Parallel(s) && fd < |s.conns| && fd in s.open
    ensures Near(s, TlsModel.Complete(s, fd, ssl, w), fd)
  {
    var s1 := Greeted(RegisterConnection(s, fd, ssl, w.block), fd, w.ktls);
    AfterConnectNear(s1, fd, w);
    NearThen(s, s1, AfterConnect(s1, fd, w), fd);
  }

  lemma StartNear<B>(s: Tls<B>, fd: nat, ssl: nat, h: Handshake<B>, armed: bool)
    requires Parallel(s) && fd < |s.conns|
    ensures Near(s, StartHandshake(s, fd, ssl, h, armed), fd)
  {
    if h.Done? {
      var s1 := Shaken(Accepted(s, fd, ssl));
      CompleteNear(s1, fd, ssl, h.welcome);
      NearThen(s, s1, StartHandshake(s, fd, ssl, h, armed), fd);
    }
  }

  /** A table that grew, if it had to. */
  lemma AcceptNear<B>(s: Tls<B>, fd: nat, ssl: nat, h: Handshake<B>, armed: bool)
    requires Parallel(s)
    ensures Near(Grow(s, fd), HandleAccept(s, fd, ssl, h, armed), fd)
    ensures forall f :: 0 <= f < |s.conns| ==> SameAt(s, Grow(s, fd), f)
    ensures forall f :: |s.conns| <= f < |Grow(s, fd).conns| ==> Grow(s, fd).flights[f] == []
    ensures Grow(s, fd).stray == s.stray
  {
    StartNear(Grow(s, fd), fd, ssl, h, armed);
  }

  lemma RetryNear<B>(s: Tls<B>, fd: nat, h: Handshake<B>, armed: bool)
    requires Parallel(s) && fd < |s.conns| && s.conns[fd].ssl.Some? && fd in s.open
    ensures Near(s, RetryHandshake(s, fd, h, armed), fd)
  {
    if h.Done? {
      var s1 := Shaken(s.(pending := s.pending - {fd}));
      CompleteNear(s1, fd, s.conns[fd].ssl.value, h.welcome);
      NearThen(s, s1, RetryHandshake(s, fd, h, armed), fd);
    }
  }

  lemma CompletionNear<B>(s: Tls<B>, fd: nat, kind: Kind, res: int, again: bool,
                          h: Handshake<B>, t: Transfer)
    requires Inv(s) && fd < |s.conns| && fd in s.open
    requires fd in s.pending ==> s.conns[fd].ssl.Some?
    ensures Near(s, Completion(s, fd, kind, res, again, h, t), fd)
  {
    if res < 0 && !again {
    } else if fd in s.pending {
      RetryNear(s, fd, h, t.armed);
    } else {
      match kind
      case RecvDone => KtlsReceivedNear(s, fd, t);
      case SendDone => KtlsSentNear(s, fd, t);
      case PollInDone => HandleReadNear(s, fd, t);
      case PollOutDone => HandleWriteNear(s, fd, t);
    }
  }

  ghost predicate About<B>(e: Event<B>, fd: nat) { e.fd == fd }

  /** A failed operation completes for a descriptor that is closed. */
  ghost predicate Strays<B>(s: Tls<B>, e: Event<B>) {
    e.Complete? && e.res < 0 && !e.again && e.fd !in s.open
  }

  lemma LandedNear<B>(s: Tls<B>, fd: nat, i: nat)
    requires Inv(s) && fd < |s.flights| && i < |s.flights[fd]|
    ensures Inv(Landed(s, fd, i)) && WellFormed(Landed(s, fd, i)) && Near(s, Landed(s, fd, i), fd)
  {
    FlightsInv(s, Landed(s, fd, i).flights);
    InvWellFormed(Landed(s, fd, i));
  }

  /** A step is about its descriptor alone. Once more than before a descriptor is closed that is
      not open exactly when a failed operation of a closed one completes. */
  lemma StepNear<B>(s: Tls<B>, e: Event<B>, f: nat)
    requires Inv(s) && WellFormed(s) && Enabled(s, e)
    ensures f < |s.conns| && !About(e, f) ==> SameAt(s, Next(s, e), f)
    ensures Next(s, e).stray == if Strays(s, e) then s.stray + 1 else s.stray
    ensures e.Complete? ==> |Next(s, e).conns| == |s.conns|
  {
    match e
    case Accept(fd, ssl, h, armed) =>
      AcceptNear(s, fd, ssl, h, armed);
      assert f < |s.conns| && f != fd ==> SameAt(s, Grow(s, fd), f) && SameAt(Grow(s, fd), Next(s, e), f);
    case Complete(fd, i, res, again, h, t) =>
      LandedNear(s, fd, i);
      var s1 := Landed(s, fd, i);
      var kind := s.flights[fd][i].kind;
      if fd in s.open {
        CompletionNear(s1, fd, kind, res, again, h, t);
        NearThen(s, s1, Next(s, e), fd);
      } else if res < 0 && !again {
        assert f < |s.conns| && f != fd ==> SameAt(s, s1, f);
      } else {
        DeadCompletionIs(s1, fd, kind, res, again, h, t);
        assert f < |s.conns| && f != fd ==> SameAt(s, s1, f);
      }
  }

  // ---- Runs ----

  /** The state before a step of a run. */
  lemma StepOf<B>(trace: seq<Tls<B>>, events: seq<Event<B>>, n: nat)
    requires IsRun(trace, events) && n < |events|
    ensures Inv(trace[n]) && WellFormed(trace[n]) && Enabled(trace[n], events[n])
    ensures trace[n + 1] == Next(trace[n], events[n])
  {
    Lifecycle(trace, events, n);
    assert Steps(trace[n], events[n], trace[n + 1]);
  }

  lemma StrayStep<B>(trace: seq<Tls<B>>, events: seq<Event<B>>, n: nat)
    requires IsRun(trace, events) && n < |events|
    ensures trace[n + 1].stray == trace[n].stray + if Strays(trace[n], events[n]) then 1 else 0
  {
    StepOf(trace, events, n);
    StepNear(trace[n], events[n], 0);
  }

  /** Which steps of a run close a descriptor that is not open. */
  ghost function Hits<B>(trace: seq<Tls<B>>, events: seq<Event<B>>): seq<bool>
    requires |trace| == |events| + 1
  {
    seq(|events|, i requires 0 <= i < |events| => Strays(trace[i], events[i]))
  }

  function Count(hits: seq<bool>): nat {
    if hits == [] then 0 else Count(hits[..|hits| - 1]) + if hits[|hits| - 1] then 1 else 0
  }

  lemma {:induction false} CountsUp(totals: seq<nat>, hits: seq<bool>, n: nat)
    requires |totals| == |hits| + 1 && n <= |hits| && totals[0] == 0
    requires forall i :: 0 <= i < |hits| ==> totals[i + 1] == totals[i] + if hits[i] then 1 else 0
    ensures totals[n] == Count(hits[..n])
  {
    if n > 0 {
      CountsUp(totals, hits, n - 1);
      assert hits[..n][..n - 1] == hits[..n - 1] && totals[n - 1 + 1] == totals[n];
    }
  }

  /** Over a whole run, descriptors are closed that are not open exactly as often as failed
      operations of closed descriptors complete. */
  lemma StrayCloses<B>(trace: seq<Tls<B>>, events: seq<Event<B>>, n: nat)
    requires IsRun(trace, events) && n < |trace|
    ensures trace[n].stray == Count(Hits(trace, events)[..n])
  {
    var totals := seq(|trace|, i requires 0 <= i < |trace| => trace[i].stray);
    forall i | 0 <= i < |events|
      ensures totals[i + 1] == totals[i] + if Hits(trace, events)[i] then 1 else 0
    {
      StrayStep(trace, events, i);
    }
    CountsUp(totals, Hits(trace, events), n);
  }

  /** The connection is as it was: record, handle, buffer, callbacks; and its descriptor is open. */
  ghost predicate Unmoved<B>(s: Tls<B>, s': Tls<B>, fd: nat) {
    && fd < |s.conns| && Parallel(s) && Parallel(s') && |s.conns| <= |s'.conns|
    && s'.conns[fd] == s.conns[fd] && s'.calls[fd] == s.calls[fd]
    && (fd in s'.pending <==> fd in s.pending) && fd in s'.open
  }

  /** Operations of an established connection that end with nothing: a KTLS receive or send that
      moved no byte, and a poll after which SSL_read gave nothing and asked for nothing, because
      the stream has ended or the buffer is full. */
  ghost predicate EndsQuietly<B>(s: Tls<B>, e: Event<B>, fd: nat)
  {
    && e.Complete? && e.fd == fd && fd < |s.conns| && fd in s.open && fd !in s.pending
    && fd < |s.flights| && e.i < |s.flights[fd]|
    && var kind := s.flights[fd][e.i].kind;
       if kind == PollInDone then
         e.res >= 0 && s.conns[fd].op == PollIn && !s.conns[fd].ktls && !e.t.got && !e.t.error && !e.t.want
       else
         (kind == RecvDone || kind == SendDone) && (e.res == 0 || (e.res < 0 && e.again))
  }

  /** Such an operation is forgotten and nothing else happens. */
  lemma QuietEndIs<B>(s: Tls<B>, e: Event<B>, fd: nat)
    requires Inv(s) && WellFormed(s) && Enabled(s, e) && EndsQuietly(s, e, fd)
    ensures Next(s, e) == Landed(s, fd, e.i)
  {
    var s1 := Landed(s, fd, e.i);
    LandedNear(s, fd, e.i);
    assert Live(s1, fd);
  }

  /** A step that is not about an open connection, or ends quietly for it, leaves it as it is. */
  lemma QuietStep<B>(s: Tls<B>, e: Event<B>, fd: nat)
    requires Inv(s) && WellFormed(s) && Enabled(s, e) && fd < |s.conns| && fd in s.open
    requires About(e, fd) ==> EndsQuietly(s, e, fd)
    ensures Unmoved(s, Next(s, e), fd) && |Next(s, e).flights[fd]| <= |s.flights[fd]|
  {
    if About(e, fd) {
      QuietEndIs(s, e, fd);
    } else {
      StepNear(s, e, fd);
      assert SameAt(s, Next(s, e), fd);
    }
  }

  lemma QuietStepOf<B>(trace: seq<Tls<B>>, events: seq<Event<B>>, n: nat, fd: nat)
    requires IsRun(trace, events) && n < |events| && fd < |trace[n].conns| && fd in trace[n].open
    requires About(events[n], fd) ==> EndsQuietly(trace[n], events[n], fd)
    ensures Unmoved(trace[n], trace[n + 1], fd) && |trace[n + 1].flights[fd]| <= |trace[n].flights[fd]|
  {
    StepOf(trace, events, n);
    QuietStep(trace[n], events[n], fd);
  }

  lemma RunParallel<B>(trace: seq<Tls<B>>, events: seq<Event<B>>, n: nat)
    requires IsRun(trace, events) && n < |trace|
    ensures Parallel(trace[n])
  {
    Lifecycle(trace, events, n);
  }

  /** An open connection stays exactly as it is for as long as all that completes for it ends
      quietly: the descriptor cannot be accepted again, and nothing else touches it. */
  lemma {:induction false} QuietEnds<B>(trace: seq<Tls<B>>, events: seq<Event<B>>, n: nat, m: nat, fd: nat)
    requires IsRun(trace, events) && n <= m < |trace| && fd < |trace[n].conns| && fd in trace[n].open
    requires forall k :: n <= k < m && About(events[k], fd) ==> EndsQuietly(trace[k], events[k], fd)
    ensures Unmoved(trace[n], trace[m], fd) && |trace[m].flights[fd]| <= |trace[n].flights[fd]|
    decreases m
  {
    if m == n {
      RunParallel(trace, events, n);
    } else {
      QuietEnds(trace, events, n, m - 1, fd);
      QuietStepOf(trace, events, m - 1, fd);
    }
  }

  lemma SilentStepOf<B>(trace: seq<Tls<B>>, events: seq<Event<B>>, n: nat, fd: nat)
    requires IsRun(trace, events) && n < |events| && fd < |trace[n].conns| && fd in trace[n].open
    requires fd < |trace[n].flights| && trace[n].flights[fd] == []
    ensures Unmoved(trace[n], trace[n + 1], fd) && trace[n + 1].flights[fd] == []
  {
    StepOf(trace, events, n);
    QuietStep(trace[n], events[n], fd);
  }

  /** An open connection with nothing outstanding is never heard of again: until the loop ends
      its record, handle, buffer and descriptor stay as they are and no callback is made. */
  lemma {:induction false} NeverEnds<B>(trace: seq<Tls<B>>, events: seq<Event<B>>, n: nat, m: nat, fd: nat)
    requires IsRun(trace, events) && n <= m < |trace|
    requires fd < |trace[n].conns| && fd in trace[n].open && fd < |trace[n].flights| && trace[n].flights[fd] == []
    ensures Unmoved(trace[n], trace[m], fd) && trace[m].flights[fd] == []
    decreases m
  {
    if m == n {
      RunParallel(trace, events, n);
    } else {
      NeverEnds(trace, events, n, m - 1, fd);
      SilentStepOf(trace, events, m - 1, fd);
    }
  }

  /** When the one outstanding operation of an established connection ends with the end of the
      stream, the connection is kept for good. */
  lemma EndOfStreamLeaks<B>(trace: seq<Tls<B>>, events: seq<Event<B>>, n: nat, m: nat, fd: nat)
    requires IsRun(trace, events) && n < m < |trace|
    requires EndsQuietly(trace[n], events[n], fd) && |trace[n].flights[fd]| == 1
    ensures Unmoved(trace[n], trace[m], fd) && trace[m].flights[fd] == []
  {
    StepOf(trace, events, n);
    QuietEndIs(trace[n], events[n], fd);
    NeverEnds(trace, events, n + 1, m, fd);
  }

  // ---- What can still end a connection ----

  /** One step, if it may happen. */
  ghost function StepIf<B>(): (Tls<B>, Event<B>) -> Option<Tls<B>> {
    (s, e) => if WellFormed(s) && Enabled(s, e) then Some(Next(s, e)) else None
  }

  /** The events may follow, and then the descriptor is closed. */
  ghost predicate Closes<B>(s: Tls<B>, more: seq<Event<B>>, fd: nat) {
    var p := Play(StepIf(), s, more);
    p.Some? && fd !in p.value.open
  }

  lemma {:induction false} StaysOpen<B>(s: Tls<B>, more: seq<Event<B>>, fd: nat)
    requires Inv(s) && fd < |s.conns| && fd in s.open && fd < |s.flights| && s.flights[fd] == []
    ensures !Closes(s, more, fd)
    decreases |more|
  {
    if more != [] && WellFormed(s) && Enabled(s, more[0]) {
      QuietStep(s, more[0], fd);
      StepInv(s, more[0]);
      StaysOpen(Next(s, more[0]), more[1..], fd);
    }
  }

  /** The oldest operation of `fd` fails with ECONNRESET. */
  function Reset<B>(fd: nat): Event<B> {
    Event.Complete(fd, 0, -104, false, Failed, Transfer(false, false, false, false, Idle, false))
  }

  lemma ResetCloses<B>(s: Tls<B>, fd: nat)
    requires Inv(s) && !s.crashed && fd < |s.flights| && s.flights[fd] != []
    ensures Closes(s, [Reset(fd)], fd)
  {
    InvWellFormed(s);
    PlayOne(StepIf(), s, Reset(fd));
  }

  /** Something that may follow closes an open connection exactly when an operation is outstanding
      for its descriptor. */
  lemma EndableIff<B>(s: Tls<B>, fd: nat)
    requires Inv(s) && !s.crashed && fd < |s.flights| && fd in s.open
    ensures (exists more: seq<Event<B>> :: Closes(s, more, fd)) <==> s.flights[fd] != []
  {
    if s.flights[fd] != [] {
      ResetCloses(s, fd);
    } else {
      forall more: seq<Event<B>>
        ensures !Closes(s, more, fd)
      {
        StaysOpen(s, more, fd);
      }
    }
  }

  /** After the end of the stream, in every run: something that may follow closes the connection
      exactly when the operation that ended was not the only one. */
  lemma EndOfStreamIff<B>(trace: seq<Tls<B>>, events: seq<Event<B>>, n: nat, fd: nat)
    requires IsRun(trace, events) && n < |events| && EndsQuietly(trace[n], events[n], fd)
    ensures var after := trace[n + 1];
            (exists more: seq<Event<B>> :: Closes(after, more, fd)) <==> |trace[n].flights[fd]| > 1
  {
    StepOf(trace, events, n);
    QuietEndIs(trace[n], events[n], fd);
    StepInv(trace[n], events[n]);
    EndableIff(trace[n + 1], fd);
  }
}
